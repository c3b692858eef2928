/** Writing everything out: what the last write of the pool leaves on disk, and in the pool. */
module PoolFlush {
  import opened StorageTypes
  import opened Disks
  import opened PoolSpec
  import opened BufferPools

  /**
    Frame f written out and emptied, if it holds a changed page. Its pins and its place in the
    queue are not looked at.
   */
  function FlushFrame(p: Pool, f: nat): (q: Pool)
    requires f < |p.frames| && (Used(p.frames[f]) ==> p.frames[f].pid >= 0)
    ensures |q.frames| == |p.frames|
  {
    if Used(p.frames[f]) && p.frames[f].dirty then Free(p, f, p.queue) else p
  }

  /** What the pool keeps, but for the queue. */
  ghost predicate Kept(p: Pool) {
    && |p.frames| == BUFFER_SIZE && DiskSound(p.disk) && TableExact(p)
    && forall f :: 0 <= f < |p.frames| ==> FrameSound(p.frames[f], p.disk)
  }

  ghost predicate CleanTo(p: Pool, n: nat) {
    forall f :: 0 <= f < n && f < |p.frames| && Used(p.frames[f]) ==> !p.frames[f].dirty
  }

  lemma FlushDisk(p: Pool, f: nat, k: Key)
    requires Kept(p) && f < |p.frames| && Used(p.frames[f]) && p.frames[f].dirty
    ensures ReadPage(Free(p, f, p.queue).disk, k) == if k
        == KeyOf(p.frames[f]) then p.frames[f].data else ReadPage(p.disk, k)
  {
    var fr := p.frames[f];
    assert FrameSound(fr, p.disk);
    ReadAfterWrite(p.disk, KeyOf(fr), fr.data, k);
  }

  lemma FlushFrames(p: Pool, f: nat)
    requires Kept(p) && f < |p.frames| && Used(p.frames[f]) && p.frames[f].dirty
    ensures var q := Free(p, f, p.queue); DiskSound(q.disk) && forall g :: 0 <= g < |q.frames| ==>
        FrameSound(q.frames[g], q.disk)
  {
    var q := Free(p, f, p.queue);
    assert FrameSound(p.frames[f], p.disk);
    forall g | 0 <= g < |q.frames| ensures FrameSound(q.frames[g], q.disk) {
      assert FrameSound(p.frames[g], p.disk);
      FlushDisk(p, f, KeyOf(p.frames[g]));
      assert Used(p.frames[g]) && g != f ==> KeyOf(p.frames[g]) != KeyOf(p.frames[f]);
    }
  }

  lemma FlushTable(p: Pool, f: nat)
    requires Kept(p) && f < |p.frames| && Used(p.frames[f])
    ensures TableExact(Free(p, f, p.queue))
  {
    var q := Free(p, f, p.queue);
    forall g | 0 <= g < |q.frames| && Used(q.frames[g])
      ensures q.frames[g].pid >= 0 && KeyOf(q.frames[g]) in q.table && q.table[KeyOf(q.frames[g])] == g
    {
      assert q.frames[g] == p.frames[g];
    }
  }

  /** Writing a frame out changes no page's value. */
  lemma FlushKeeps(p: Pool, f: nat)
    requires Kept(p) && f < |p.frames|
    ensures Used(p.frames[f]) ==> p.frames[f].pid >= 0
    ensures var q := FlushFrame(p, f);
      Kept(q) && Flat(q) == Flat(p) && q.queue == p.queue && (CleanTo(p, f) ==> CleanTo(q, f + 1))
  {
    if Used(p.frames[f]) && p.frames[f].dirty {
      var q := Free(p, f, p.queue);
      FlushFrames(p, f);
      FlushTable(p, f);
      assert p.table[KeyOf(p.frames[f])] == f;
      forall k: Key ensures PoolSpec.Value(q, k) == PoolSpec.Value(p, k) {
        FlushDisk(p, f, k);
      }
      FlatIs(p, q);
    }
  }

  /** The disk holds the page's value, or that of a page still pinned but for its header and slots. */
  ghost predicate WrittenOut(d: DiskImage, p: Pool, k: Key)
    requires InTable(p)
  {
    ReadPage(d, k) == Flat(p)[k] || (k in Pins(p) && SamePayload(Flat(p)[k], ReadPage(d, k)))
  }

  /** When no frame is dirty, the disk holds every page's value. */
  lemma CleanOnDisk(p: Pool, k: Key)
    requires Kept(p) && CleanTo(p, BUFFER_SIZE)
    ensures WrittenOut(p.disk, p, k)
  {
    if k in p.table {
      assert FrameSound(p.frames[p.table[k]], p.disk) && KeyOf(p.frames[p.table[k]]) == k;
    }
  }

  /** Pool q is p with the changed ones among its first n frames written out and emptied. */
  ghost predicate Flushed(p: Pool, q: Pool, n: nat) {
    && Sound(p) && Kept(q) && Flat(q) == Flat(p) && q.queue == p.queue && CleanTo(q, n)
    && forall g :: 0 <= g < BUFFER_SIZE ==> FlushedFrame(p.frames[g], q.frames[g], g < n)
  }

  ghost predicate FlushedFrame(was: Frame, fr: Frame, passed: bool) {
    if passed && Used(was) && was.dirty then !Used(fr) else fr == was
  }

  lemma FlushNext(p: Pool, q: Pool, n: nat)
    requires n < BUFFER_SIZE && Flushed(p, q, n)
    ensures |q.frames| == BUFFER_SIZE && (Used(q.frames[n]) ==> q.frames[n].pid >= 0 && KeyOf(q.frames[n]) in q.table)
    ensures Flushed(p, FlushFrame(q, n), n + 1)
  {
    FlushKeeps(q, n);
    assert FlushedFrame(p.frames[n], q.frames[n], false);
    hide Kept, CleanTo, Flat, Sound;
    var r := FlushFrame(q, n);
    forall g | 0 <= g < BUFFER_SIZE ensures FlushedFrame(p.frames[g], r.frames[g], g < n + 1) {
      assert FlushedFrame(p.frames[g], q.frames[g], g < n);
    }
  }

  /** Writes out every changed page and empties its frame. */
  method FinalWrite(pool: BufferPool)
    requires pool.Valid()
    modifies pool`table, pool.frames, pool.disk
    ensures pool.disk.Valid() && Kept(pool.State()) && pool.queue == old(pool.queue)
    ensures Flat(pool.State()) == Flat(old(pool.State()))
    ensures forall k :: WrittenOut(pool.disk.now, old(pool.State()), k)
    ensures forall f :: 0 <= f < BUFFER_SIZE ==>
      pool.frames[f].pid == if Used(old(pool.frames[f]))
          && !old(pool.frames[f]).dirty then old(pool.frames[f]).pid else INVALID_PAGE_ID
    ensures old(pool.disk.history) <= pool.disk.history
  {
    hide Kept, CleanTo, Flat, Sound, Flushed;
    ghost var p := pool.State();
    FlushBegins(p);
    for f := 0 to BUFFER_SIZE
      invariant pool.disk.Valid() && Flushed(p, pool.State(), f) && old(pool.disk.history) <= pool.disk.history
    {
      FlushNext(p, pool.State(), f);
      if pool.frames[f].pid != INVALID_PAGE_ID && pool.frames[f].dirty {
        pool.FreeFrame(f);
      }
    }
    AllFlushed(p, pool.State());
  }

  lemma FlushBegins(p: Pool)
    requires Sound(p)
    ensures Flushed(p, p, 0)
  {
  }

  lemma AllFlushed(p: Pool, q: Pool)
    requires Flushed(p, q, BUFFER_SIZE)
    ensures Kept(q) && Flat(q) == Flat(p) && q.queue == p.queue && |q.frames| == |p.frames| == BUFFER_SIZE
    ensures forall k :: WrittenOut(q.disk, p, k)
    ensures forall f :: 0 <= f < BUFFER_SIZE ==>
      q.frames[f].pid == if Used(p.frames[f]) && !p.frames[f].dirty then p.frames[f].pid else INVALID_PAGE_ID
  {
    assert forall f :: 0 <= f < BUFFER_SIZE ==> FlushedFrame(p.frames[f], q.frames[f], true);
    forall k ensures WrittenOut(q.disk, p, k) {
      CleanOnDisk(q, k);
      StillPinned(p, q, k);
    }
  }

  lemma StillPinned(p: Pool, q: Pool, k: Key)
    requires Flushed(p, q, BUFFER_SIZE)
    ensures k in Pins(q) ==> k in Pins(p)
  {
    if k in Pins(q) {
      var f := q.table[k];
      assert FlushedFrame(p.frames[f], q.frames[f], true) && KeyOf(q.frames[f]) == k && Used(q.frames[f]);
    }
  }

  /**
    The queue keeps the emptied frames: it is exact afterwards if and only if no page had
    changed, so the pool is not fit for further use.
   */
  lemma QueueStaleIff(p: Pool, q: Pool)
    requires Sound(p) && |q.frames| == |p.frames| && q.queue == p.queue
    requires forall f :: 0 <= f < |p.frames| ==>
      q.frames[f].pid == if Used(p.frames[f]) && !p.frames[f].dirty then p.frames[f].pid else INVALID_PAGE_ID
    ensures QueueExact(q) <==> forall f :: 0 <= f < |p.frames| && Used(p.frames[f]) ==> !p.frames[f].dirty
  {
    if f :| 0 <= f < |p.frames| && Used(p.frames[f]) && p.frames[f].dirty {
      assert f in q.queue && !Used(q.frames[f]);
    }
  }
}
