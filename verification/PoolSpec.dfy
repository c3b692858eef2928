/**
  The buffer pool as a value: 50 frames, a table from page names to frames, and a rotating
  replacement queue over a disk. What BufferPool.dfy does in place is stated here as
  functions, together with the theorem that all of it looks like a flat store of pages.
 */
module PoolSpec {
  import opened StorageTypes
  import opened Disks

  const BUFFER_SIZE := 50

  datatype Frame = Frame(pid: int, kind: PageType, dirty: bool, pin: int, data: Page)
  datatype PoolError = NegativePid | AllPinned | PageNotFound

  datatype Pool = Pool(frames: seq<Frame>, table: map<Key, nat>, queue: seq<nat>, disk: DiskImage)

  // ---------- page names ----------

  /** How the source packs a page name into one table key. */
  function MakeKey(k: Key): int
    requires -PAGE_ID_LIMIT <= k.pid < PAGE_ID_LIMIT
  {
    (if k.kind == HeapFile then 0 else 1) * 0x1_0000_0000 + k.pid % 0x1_0000_0000
  }

  /** Packing loses nothing, so a table keyed by the packed number is a table keyed by the name. */
  lemma MakeKeyInjective(a: Key, b: Key)
    requires -PAGE_ID_LIMIT <= a.pid < PAGE_ID_LIMIT && -PAGE_ID_LIMIT <= b.pid < PAGE_ID_LIMIT
    requires MakeKey(a) == MakeKey(b)
    ensures a == b
  {
    assert a.pid % 0x1_0000_0000 == if a.pid < 0 then a.pid + 0x1_0000_0000 else a.pid;
    assert b.pid % 0x1_0000_0000 == if b.pid < 0 then b.pid + 0x1_0000_0000 else b.pid;
  }

  // ---------- the bookkeeping invariant ----------

  predicate Used(fr: Frame) {
    fr.pid != INVALID_PAGE_ID
  }

  function KeyOf(fr: Frame): Key {
    Key(fr.kind, fr.pid)
  }

  /** The table is a bijection between the used frames and the resident pages. */
  ghost predicate TableExact(p: Pool) {
    && (forall f :: 0 <= f < |p.frames| && Used(p.frames[f]) ==>
          p.frames[f].pid >= 0 && KeyOf(p.frames[f]) in p.table && p.table[KeyOf(p.frames[f])] == f)
    && (forall k :: k in p.table ==>
          p.table[k] < |p.frames| && Used(p.frames[p.table[k]]) && KeyOf(p.frames[p.table[k]]) == k)
  }

  ghost predicate NoDuplicates(q: seq<nat>) {
    forall i, j :: 0 <= i < j < |q| ==> q[i] != q[j]
  }

  /** The queue holds every used frame once. */
  ghost predicate QueueExact(p: Pool) {
    && NoDuplicates(p.queue)
    && (forall i :: 0 <= i < |p.queue| ==> p.queue[i] < |p.frames| && Used(p.frames[p.queue[i]]))
    && (forall f :: 0 <= f < |p.frames| && Used(p.frames[f]) ==> f in p.queue)
  }

  /** Heap pages with the same row bytes and number, whatever their headers and slots. */
  ghost predicate SamePayload(a: Page, b: Page) {
    a.HeapPage? && b.HeapPage? && a.heap.data == b.heap.data && a.heap.lsn == b.heap.lsn
  }

  /**
    A clean frame holds its page's bytes on disk; a free frame is clean and unpinned. A pinned heap
    page may differ from the disk in its header and slots without being marked: that is how the
    heap writer leaves a page that had no room for a row.
   */
  ghost predicate FrameSound(fr: Frame, d: DiskImage) {
    && fr.pin >= 0
    && (!Used(fr) ==> fr.pin == 0 && !fr.dirty)
    && (Used(fr) ==> PageOf(fr.kind, fr.data))
    && (Used(fr) && !fr.dirty ==> AsOnDisk(fr.data, ReadPage(d, KeyOf(fr)), fr.pin))
  }

  ghost predicate AsOnDisk(data: Page, disk: Page, pin: int) {
    data == disk || (pin > 0 && SamePayload(data, disk))
  }

  ghost predicate DiskSound(d: DiskImage) {
    && (forall i :: 0 <= i < |d.heap| ==> PageOf(HeapFile, d.heap[i]))
    && (forall i :: 0 <= i < |d.index| ==> PageOf(IndexFile, d.index[i]))
  }

  ghost predicate Sound(p: Pool) {
    && |p.frames| == BUFFER_SIZE
    && DiskSound(p.disk)
    && (forall f :: 0 <= f < |p.frames| ==> FrameSound(p.frames[f], p.disk))
    && TableExact(p)
    && QueueExact(p)
  }

  // ---------- the flat store, and the pins ----------

  /** A page's value: its frame if it is resident, its bytes on disk otherwise. */
  function Value(p: Pool, k: Key): Page
    requires k in p.table ==> p.table[k] < |p.frames|
  {
    if k in p.table then p.frames[p.table[k]].data else ReadPage(p.disk, k)
  }

  ghost predicate InTable(p: Pool) {
    forall k :: k in p.table ==> p.table[k] < |p.frames|
  }

  ghost function Flat(p: Pool): imap<Key, Page>
    requires InTable(p)
  {
    imap k: Key | true :: Value(p, k)
  }

  /** The pinned pages with their counts. */
  ghost function Pins(p: Pool): map<Key, int>
    requires InTable(p)
  {
    map k | k in p.table && p.frames[p.table[k]].pin > 0 :: p.frames[p.table[k]].pin
  }

  function PinUp(pins: map<Key, int>, k: Key): map<Key, int> {
    pins[k := if k in pins then pins[k] + 1 else 1]
  }

  /** The counts after an unpin; a page whose count falls to zero is not pinned any more. */
  function PinDown(pins: map<Key, int>, k: Key): map<Key, int> {
    if k !in pins then pins
    else if pins[k] <= 1 then pins - {k}
    else pins[k := pins[k] - 1]
  }

  /** An unpin undoes a pin. */
  lemma PinUpDown(pins: map<Key, int>, k: Key)
    requires k in pins ==> pins[k] > 0
    ensures PinDown(PinUp(pins, k), k) == pins
  {
  }

  /** Evictions will not lengthen a file: every dirty page lies inside its file. */
  ghost predicate DirtyInside(p: Pool) {
    forall f :: 0 <= f < |p.frames| && Used(p.frames[f]) && p.frames[f].dirty ==>
      p.frames[f].pid < |FileOf(p.disk, p.frames[f].kind)|
  }

  /** The same, except for page k. */
  ghost predicate DirtyInsideBut(p: Pool, k: Key) {
    forall f :: 0 <= f < |p.frames| && Used(p.frames[f]) && p.frames[f].dirty && KeyOf(p.frames[f]) != k ==>
      p.frames[f].pid < |FileOf(p.disk, p.frames[f].kind)|
  }

  ghost predicate SameLengths(a: DiskImage, b: DiskImage) {
    |a.heap| == |b.heap| && |a.index| == |b.index|
  }

  /** The disk after at most one eviction, which can only have written an unpinned page's value. */
  ghost predicate EvictedFrom(p: Pool, d: DiskImage)
    requires InTable(p)
  {
    || d == p.disk
    || exists k: Key :: k.pid >= 0 && k in p.table && k !in Pins(p) && d == WritePage(p.disk, k, Value(p, k))
  }

  // ---------- eviction ----------

  /** Frees frame f, writing it back if it is dirty; `queue` is what is left of the queue. */
  function Free(p: Pool, f: nat, queue: seq<nat>): (r: Pool)
    requires f < |p.frames| && p.frames[f].pid >= 0
    ensures |r.frames| == |p.frames|
  {
    var fr := p.frames[f];
    var d := if fr.dirty then WritePage(p.disk, KeyOf(fr), fr.data) else p.disk;
    Pool(p.frames[f := fr.(pid := INVALID_PAGE_ID, dirty := false, pin := 0)], p.table - {KeyOf(fr)}, queue, d)
  }

  /** How many frames at the front of the queue are pinned. */
  function PinnedPrefix(frames: seq<Frame>, q: seq<nat>): (n: nat)
    requires forall i :: 0 <= i < |q| ==> q[i] < |frames|
    ensures n <= |q|
    ensures forall i :: 0 <= i < n ==> frames[q[i]].pin > 0
    ensures n < |q| ==> frames[q[n]].pin <= 0
  {
    if q == [] || frames[q[0]].pin <= 0 then 0 else 1 + PinnedPrefix(frames, q[1..])
  }

  /** Frees the first unpinned frame in queue order; fails when every queued frame is pinned. */
  function Replace(p: Pool): Result<(Pool, nat), PoolError>
    requires forall i :: 0 <= i < |p.queue| ==> p.queue[i] < |p.frames| && p.frames[p.queue[i]].pid >= 0
  {
    var i := PinnedPrefix(p.frames, p.queue);
    if i == |p.queue| then Failure(AllPinned)
    else
      Success((Free(p, p.queue[i], p.queue[i + 1..] + p.queue[..i]), p.queue[i]))
  }

  // ---------- access ----------

  /** The first free frame, or the number of frames. */
  function FirstFree(frames: seq<Frame>): (f: nat)
    ensures f <= |frames|
    ensures forall i :: 0 <= i < f ==> Used(frames[i])
    ensures f < |frames| ==> !Used(frames[f])
  {
    if frames == [] || !Used(frames[0]) then 0 else 1 + FirstFree(frames[1..])
  }

  /** Loads page k into the free frame f and pins it. */
  function Install(p: Pool, f: nat, k: Key): Pool
    requires f < |p.frames|
  {
    Pool(
      p.frames[f := Frame(k.pid, k.kind, p.frames[f].dirty, 1, ReadPage(p.disk, k))],
      p.table[k := f], p.queue + [f], p.disk)
  }

  /** Sets the pin count of a resident page. */
  function Repin(p: Pool, k: Key, pin: int): Pool
    requires k in p.table && p.table[k] < |p.frames|
  {
    var f := p.table[k];
    p.(frames := p.frames[f := p.frames[f].(pin := pin)])
  }

  /** Fetches page k into a frame and pins it. */
  function Access(p: Pool, k: Key): Result<(Pool, nat), PoolError>
    requires Sound(p)
  {
    if k.pid < 0 then Failure(NegativePid)
    else if k in p.table then
      Success((Repin(p, k, p.frames[p.table[k]].pin + 1), p.table[k]))
    else if FirstFree(p.frames) < |p.frames| then
      var f := FirstFree(p.frames);
      Success((Install(p, f, k), f))
    else
      match Replace(p)
      case Failure(e) => Failure(e)
      case Success((q, f)) => Success((Install(q, f, k), f))
  }

  function UnPin(p: Pool, k: Key): Result<Pool, PoolError>
    requires InTable(p)
  {
    if k !in p.table then Failure(PageNotFound)
    else
      var pin := p.frames[p.table[k]].pin;
      Success(if pin > 0 then Repin(p, k, pin - 1) else p)
  }

  // ---------- writers ----------

  /** A writer changes a frame's bytes and marks it dirty. */
  function Store(p: Pool, f: nat, data: Page): Pool
    requires f < |p.frames|
  {
    p.(frames := p.frames[f := p.frames[f].(data := data, dirty := true)])
  }

  /** A writer changes a frame's bytes and fails before it marks the frame dirty. */
  function Scribble(p: Pool, f: nat, data: Page): Pool
    requires f < |p.frames|
  {
    p.(frames := p.frames[f := p.frames[f].(data := data)])
  }

  /** A writer changes a frame's bytes and writes the page out at once, setting the dirty bit to `dirty`. */
  function StoreThrough(p: Pool, f: nat, data: Page, dirty: bool): Pool
    requires f < |p.frames| && p.frames[f].pid >= 0
  {
    p.(frames := p.frames[f := p.frames[f].(data := data, dirty := dirty)],
       disk := WritePage(p.disk, KeyOf(p.frames[f]), data))
  }

  // ---------- theorems: each operation is one on the flat store ----------

  lemma FlatIs(p: Pool, q: Pool)
    requires InTable(p) && InTable(q)
    requires forall k: Key {:trigger Value(q, k)} :: Value(q, k) == Value(p, k)
    ensures Flat(q) == Flat(p)
  {
  }

  /** Frame f can be evicted. */
  ghost predicate Evictable(p: Pool, f: nat) {
    Sound(p) && f < |p.frames| && Used(p.frames[f]) && p.frames[f].pin == 0
  }

  lemma FreeDisk(p: Pool, f: nat, queue: seq<nat>, k: Key)
    requires Evictable(p, f)
    ensures ReadPage(Free(p, f, queue).disk, k) == if k
        == KeyOf(p.frames[f]) then p.frames[f].data else ReadPage(p.disk, k)
  {
    var fr := p.frames[f];
    assert FrameSound(fr, p.disk);
    ReadAfterWrite(p.disk, KeyOf(fr), fr.data, k);
  }

  lemma FreeFrames(p: Pool, f: nat, queue: seq<nat>)
    requires Evictable(p, f)
    ensures var q := Free(p, f, queue); DiskSound(q.disk) && forall g :: 0 <= g < |q.frames| ==>
        FrameSound(q.frames[g], q.disk)
  {
    var q := Free(p, f, queue);
    assert FrameSound(p.frames[f], p.disk);
    forall g | 0 <= g < |q.frames| ensures FrameSound(q.frames[g], q.disk) {
      assert FrameSound(p.frames[g], p.disk);
      FreeDisk(p, f, queue, KeyOf(p.frames[g]));
      assert Used(p.frames[g]) && g != f ==> KeyOf(p.frames[g]) != KeyOf(p.frames[f]);
    }
  }

  lemma FreeTable(p: Pool, f: nat, queue: seq<nat>)
    requires Evictable(p, f)
    ensures TableExact(Free(p, f, queue))
  {
    var q := Free(p, f, queue);
    forall g | 0 <= g < |q.frames| && Used(q.frames[g])
      ensures q.frames[g].pid >= 0 && KeyOf(q.frames[g]) in q.table && q.table[KeyOf(q.frames[g])] == g
    {
      assert q.frames[g] == p.frames[g];
    }
  }

  lemma FreeFlat(p: Pool, f: nat, queue: seq<nat>)
    requires Evictable(p, f)
    ensures InTable(Free(p, f, queue)) && Flat(Free(p, f, queue)) == Flat(p) && Pins(Free(p, f, queue)) == Pins(p)
  {
    var q := Free(p, f, queue);
    FreeTable(p, f, queue);
    assert p.table[KeyOf(p.frames[f])] == f;
    forall k: Key ensures Value(q, k) == Value(p, k) {
      FreeDisk(p, f, queue, k);
    }
    FlatIs(p, q);
  }

  lemma FreeWrites(p: Pool, f: nat, queue: seq<nat>)
    requires Evictable(p, f)
    ensures EvictedFrom(p, Free(p, f, queue).disk)
    ensures DirtyInside(p) ==> DirtyInside(Free(p, f, queue)) && SameLengths(p.disk, Free(p, f, queue).disk)
  {
    var k := KeyOf(p.frames[f]);
    assert p.table[k] == f && Value(p, k) == p.frames[f].data && k !in Pins(p);
  }

  lemma RotatedMembers(q: seq<nat>, i: nat)
    requires i < |q| && NoDuplicates(q)
    ensures NoDuplicates(q[i + 1..] + q[..i])
    ensures forall x :: x in q[i + 1..] + q[..i] <==> x in q && x != q[i]
  {
    var r := q[i + 1..] + q[..i];
    forall a, b | 0 <= a < b < |r| ensures r[a] != r[b] {
      var n := |q| - i - 1;
      var a', b' := if a < n then a + i + 1 else a - n, if b < n then b + i + 1 else b - n;
      assert r[a] == q[a'] && r[b] == q[b'];
    }
    assert q == q[..i] + [q[i]] + q[i + 1..];
    assert q[i] !in q[..i] && q[i] !in q[i + 1..];
  }

  /** Replacement frees exactly the first unpinned frame of the queue and changes no page's value. */
  lemma ReplaceKeeps(p: Pool)
    requires Sound(p)
    ensures match Replace(p)
      case Failure(e) => e == AllPinned && forall i :: 0 <= i < |p.queue| ==> p.frames[p.queue[i]].pin > 0
      case Success((q, f)) =>
        && Sound(q) && f < |q.frames| && !Used(q.frames[f])
        && Flat(q) == Flat(p) && Pins(q) == Pins(p) && EvictedFrom(p, q.disk)
        && (DirtyInside(p) ==> DirtyInside(q) && SameLengths(p.disk, q.disk))
        && q.table == p.table - {KeyOf(p.frames[f])} && p.frames[f].pin == 0
  {
    hide TableExact, FrameSound, DiskSound, Flat, Pins, DirtyInside, EvictedFrom, SameLengths, Free;
    var i := PinnedPrefix(p.frames, p.queue);
    if i < |p.queue| {
      var f, queue := p.queue[i], p.queue[i + 1..] + p.queue[..i];
      FirstIsEvictable(p, i);
      FreeFrames(p, f, queue);
      FreeTable(p, f, queue);
      FreeFlat(p, f, queue);
      FreeWrites(p, f, queue);
      FreePlace(p, f, queue);
      ReplaceQueue(p, i);
    }
  }

  lemma FirstIsEvictable(p: Pool, i: nat)
    requires Sound(p) && i < |p.queue| && p.frames[p.queue[i]].pin <= 0
    ensures Evictable(p, p.queue[i])
  {
    assert FrameSound(p.frames[p.queue[i]], p.disk);
  }

  lemma FreePlace(p: Pool, f: nat, queue: seq<nat>)
    requires Evictable(p, f)
    ensures
      var q := Free(p, f, queue);
      !Used(q.frames[f]) && |q.frames| == |p.frames| && q.table == p.table - {KeyOf(p.frames[f])} && q.queue == queue
  {
  }

  lemma ReplaceQueue(p: Pool, i: nat)
    requires Sound(p) && i < |p.queue|
    ensures QueueExact(Free(p, p.queue[i], p.queue[i + 1..] + p.queue[..i]))
  {
    var q := Free(p, p.queue[i], p.queue[i + 1..] + p.queue[..i]);
    RotatedMembers(p.queue, i);
    forall j | 0 <= j < |q.queue| ensures q.queue[j] < |q.frames| && Used(q.frames[q.queue[j]]) {
      assert q.queue[j] in q.queue;
    }
  }

  /** Loading a page changes no page's value and pins just that page. */
  lemma InstallKeeps(p: Pool, f: nat, k: Key)
    requires Sound(p) && f < |p.frames| && !Used(p.frames[f]) && k.pid >= 0 && k !in p.table
    ensures Sound(Install(p, f, k))
    ensures Flat(Install(p, f, k)) == Flat(p)
    ensures Pins(Install(p, f, k)) == PinUp(Pins(p), k)
    ensures DirtyInside(p) ==> DirtyInside(Install(p, f, k))
  {
    hide TableExact, QueueExact, FrameSound, DiskSound;
    InstallFrames(p, f, k);
    InstallQueue(p, f, k);
    InstallFlat(p, f, k);
    InstallPins(p, f, k);
    assert !p.frames[f].dirty by {
      FreeIsClean(p, f);
    }
  }

  lemma FreeIsClean(p: Pool, f: nat)
    requires Sound(p) && f < |p.frames| && !Used(p.frames[f])
    ensures p.frames[f].pin == 0 && !p.frames[f].dirty
  {
    assert FrameSound(p.frames[f], p.disk);
  }

  lemma InstallFlat(p: Pool, f: nat, k: Key)
    requires Sound(p) && f < |p.frames| && !Used(p.frames[f]) && k.pid >= 0 && k !in p.table
    ensures InTable(Install(p, f, k)) && Flat(Install(p, f, k)) == Flat(p)
  {
    hide QueueExact, FrameSound, DiskSound;
    var q := Install(p, f, k);
    forall k': Key ensures Value(q, k') == Value(p, k') {
    }
    FlatIs(p, q);
  }

  lemma InstallPins(p: Pool, f: nat, k: Key)
    requires Sound(p) && f < |p.frames| && !Used(p.frames[f]) && k.pid >= 0 && k !in p.table
    ensures InTable(Install(p, f, k)) && Pins(Install(p, f, k)) == PinUp(Pins(p), k)
  {
    hide QueueExact, FrameSound, DiskSound;
    var q := Install(p, f, k);
    assert Pins(q).Keys == PinUp(Pins(p), k).Keys;
  }

  lemma InstallFrames(p: Pool, f: nat, k: Key)
    requires Sound(p) && f < |p.frames| && !Used(p.frames[f]) && k.pid >= 0 && k !in p.table
    ensures TableExact(Install(p, f, k))
    ensures var q := Install(p, f, k); forall g :: 0 <= g < |q.frames| ==> FrameSound(q.frames[g], q.disk)
  {
    var q := Install(p, f, k);
    assert FrameSound(p.frames[f], p.disk);
    forall g | 0 <= g < |q.frames| ensures FrameSound(q.frames[g], q.disk) {
      assert FrameSound(p.frames[g], p.disk);
    }
    forall g | 0 <= g < |q.frames| && Used(q.frames[g])
      ensures q.frames[g].pid >= 0 && KeyOf(q.frames[g]) in q.table && q.table[KeyOf(q.frames[g])] == g
    {
    }
  }

  lemma InstallQueue(p: Pool, f: nat, k: Key)
    requires Sound(p) && f < |p.frames| && !Used(p.frames[f]) && k.pid >= 0 && k !in p.table
    ensures QueueExact(Install(p, f, k))
  {
    var q := Install(p, f, k);
    assert f !in p.queue;
    forall g | 0 <= g < |q.frames| && Used(q.frames[g]) ensures g in q.queue {
      if g != f {
        assert g in p.queue;
      } else {
        assert q.queue[|p.queue|] == f;
      }
    }
  }

  /** A pool change that leaves every frame's page where it was. */
  ghost predicate SamePlaces(p: Pool, q: Pool) {
    && |q.frames| == |p.frames| && q.table == p.table && q.queue == p.queue
    && forall f :: 0 <= f < |p.frames| ==> q.frames[f].pid == p.frames[f].pid && q.frames[f].kind == p.frames[f].kind
  }

  lemma SamePlacesSound(p: Pool, q: Pool)
    requires Sound(p) && SamePlaces(p, q) && DiskSound(q.disk)
    requires forall f :: 0 <= f < |q.frames| ==> FrameSound(q.frames[f], q.disk)
    ensures Sound(q)
  {
    forall f | 0 <= f < |q.frames| && Used(q.frames[f])
      ensures q.frames[f].pid >= 0 && KeyOf(q.frames[f]) in q.table && q.table[KeyOf(q.frames[f])] == f
    {
      assert Used(p.frames[f]) && KeyOf(p.frames[f]) == KeyOf(q.frames[f]);
    }
    forall k | k in q.table
      ensures q.table[k] < |q.frames| && Used(q.frames[q.table[k]]) && KeyOf(q.frames[q.table[k]]) == k
    {
      assert Used(p.frames[p.table[k]]) && KeyOf(p.frames[p.table[k]]) == k;
    }
    forall i | 0 <= i < |q.queue| ensures q.queue[i] < |q.frames| && Used(q.frames[q.queue[i]]) {
      assert Used(p.frames[p.queue[i]]);
    }
    forall f | 0 <= f < |q.frames| && Used(q.frames[f]) ensures f in q.queue {
      assert Used(p.frames[f]);
    }
  }

  /** The frame of page k is marked, or holds what the disk holds. */
  ghost predicate Backed(p: Pool, k: Key)
    requires InTable(p)
  {
    k in p.table ==> p.frames[p.table[k]].dirty || Value(p, k) == ReadPage(p.disk, k)
  }

  /** Moving the pin count of a resident page; it may fall to zero only if the page is backed. */
  lemma PinMoved(p: Pool, k: Key, n: int)
    requires Sound(p) && k in p.table && n >= 0
    ensures
      var q := Repin(p, k, n);
      && (Sound(q) <==> n > 0 || Backed(p, k))
      && InTable(q) && Flat(q) == Flat(p)
      && Pins(q) == (if n > 0 then Pins(p)[k := n] else Pins(p) - {k})
      && (DirtyInside(p) ==> DirtyInside(q))
  {
    var f := p.table[k];
    var q := Repin(p, k, n);
    forall k' ensures Value(q, k') == Value(p, k') {
    }
    FlatIs(p, q);
    PinsMoved(p, k, n);
    RepinSound(p, k, n);
  }

  lemma RepinSound(p: Pool, k: Key, n: int)
    requires Sound(p) && k in p.table && n >= 0
    ensures Sound(Repin(p, k, n)) <==> n > 0 || Backed(p, k)
  {
    hide QueueExact, DiskSound;
    var f := p.table[k];
    var q := Repin(p, k, n);
    assert FrameSound(p.frames[f], p.disk);
    if n > 0 || Backed(p, k) {
      forall g | 0 <= g < |q.frames| ensures FrameSound(q.frames[g], q.disk) {
        assert FrameSound(p.frames[g], p.disk);
      }
      SamePlacesSound(p, q);
    } else {
      assert !FrameSound(q.frames[f], q.disk);
    }
  }

  lemma PinsMoved(p: Pool, k: Key, n: int)
    requires Sound(p) && k in p.table && n >= 0
    ensures
      Pins(Repin(p, k, n)) == (if n > 0 then Pins(p)[k := n] else Pins(p) - {k})
  {
    hide QueueExact, FrameSound, DiskSound;
    var f := p.table[k];
    var q := Repin(p, k, n);
    forall k' | k' in p.table ensures k' != k ==> p.table[k'] != f {
      assert KeyOf(p.frames[p.table[k']]) == k' && KeyOf(p.frames[f]) == k;
    }
    var want := if n > 0 then Pins(p)[k := n] else Pins(p) - {k};
    assert Pins(q).Keys == want.Keys;
  }

  /** Letting go of page k keeps the pool sound: others hold it too, or it is backed. */
  ghost predicate Releasable(p: Pool, k: Key)
    requires InTable(p)
  {
    k in p.table && p.frames[p.table[k]].pin == 1 ==> Backed(p, k)
  }

  /**
    What a fetch does: no page's value changes, the fetched page gets one more pin and is
    where the returned frame says, every pinned page stays where it was, and at most one
    page, not a pinned one, is written out.
   */
  ghost predicate FetchedAs(p: Pool, k: Key, q: Pool, f: nat)
    requires InTable(p)
  {
    && Sound(q) && k in q.table && q.table[k] == f
    && Flat(q) == Flat(p) && Pins(q) == PinUp(Pins(p), k)
    && (forall k' :: k' in Pins(p) ==> k' in q.table && q.table[k'] == p.table[k'])
    && Releasable(q, k)
    && (k in p.table ==> q == Repin(p, k, p.frames[p.table[k]].pin + 1))
    && EvictedFrom(p, q.disk)
    && (DirtyInside(p) ==> DirtyInside(q) && SameLengths(p.disk, q.disk))
  }

  lemma EvictionFetches(p: Pool, k: Key)
    requires Sound(p) && k.pid >= 0 && k !in p.table && Replace(p).Success?
    ensures FetchedAs(p, k, Install(Replace(p).value.0, Replace(p).value.1, k), Replace(p).value.1)
  {
    ReplaceKeeps(p);
    var (q, f) := Replace(p).value;
    InstallKeeps(q, f, k);
    forall k' | k' in Pins(p) ensures k' in q.table && q.table[k'] == p.table[k'] {
      assert KeyOf(p.frames[p.table[k']]) == k';
    }
  }

  lemma PinsUp(p: Pool, k: Key)
    requires Sound(p) && k in p.table
    ensures p.frames[p.table[k]].pin >= 0
    ensures Pins(p)[k := p.frames[p.table[k]].pin + 1] == PinUp(Pins(p), k)
  {
    hide Sound, Pins;
    PinOf(p, k);
  }

  lemma RepinUp(p: Pool, k: Key)
    requires Sound(p) && k in p.table
    ensures p.frames[p.table[k]].pin >= 0
    ensures var q := Repin(p, k, p.frames[p.table[k]].pin + 1);
      && Sound(q) && Flat(q) == Flat(p) && Pins(q) == PinUp(Pins(p), k)
      && (DirtyInside(p) ==> DirtyInside(q))
  {
    PinsUp(p, k);
    PinMoved(p, k, p.frames[p.table[k]].pin + 1);
  }

  lemma ResidentFetches(p: Pool, k: Key)
    requires Sound(p) && k in p.table
    ensures FetchedAs(p, k, Repin(p, k, p.frames[p.table[k]].pin + 1), p.table[k])
  {
    RepinUp(p, k);
  }

  lemma FreeFrameFetches(p: Pool, k: Key)
    requires Sound(p) && k.pid >= 0 && k !in p.table && FirstFree(p.frames) < |p.frames|
    ensures FetchedAs(p, k, Install(p, FirstFree(p.frames), k), FirstFree(p.frames))
  {
    InstallKeeps(p, FirstFree(p.frames), k);
  }

  lemma AccessKeeps(p: Pool, k: Key)
    requires Sound(p)
    ensures Access(p, k).Success? ==> k.pid >= 0 && FetchedAs(p, k, Access(p, k).value.0, Access(p, k).value.1)
  {
    hide FetchedAs, FrameSound, DiskSound, Install, Repin, Flat, Pins;
    if k.pid >= 0 {
      if k in p.table {
        ResidentFetches(p, k);
      } else if FirstFree(p.frames) < |p.frames| {
        FreeFrameFetches(p, k);
      } else if Replace(p).Success? {
        EvictionFetches(p, k);
      }
    }
  }

  ghost function FirstKeys(frames: seq<Frame>, n: nat): set<Key>
    requires n <= |frames|
  {
    if n == 0 then {} else FirstKeys(frames, n - 1) + {KeyOf(frames[n - 1])}
  }

  lemma {:induction false} PinnedCount(p: Pool, n: nat)
    requires Sound(p) && n <= |p.frames|
    requires forall f :: 0 <= f < |p.frames| ==> Used(p.frames[f]) && p.frames[f].pin > 0
    ensures |FirstKeys(p.frames, n)| == n
    ensures forall k :: k in FirstKeys(p.frames, n) ==> k in p.table && p.table[k] < n && k in Pins(p)
  {
    hide Sound, Pins, KeyOf;
    if n == 0 {
      NoKeys(p.frames);
    } else {
      PinnedCount(p, n - 1);
      PinnedAt(p, n - 1);
      OneMoreKey(p.frames, n);
    }
  }

  lemma NoKeys(frames: seq<Frame>)
    ensures FirstKeys(frames, 0) == {}
  {
  }

  lemma OneMoreKey(frames: seq<Frame>, n: nat)
    requires 0 < n <= |frames|
    ensures FirstKeys(frames, n) == FirstKeys(frames, n - 1) + {KeyOf(frames[n - 1])}
  {
  }

  lemma PinnedAt(p: Pool, f: nat)
    requires Sound(p) && f < |p.frames| && Used(p.frames[f]) && p.frames[f].pin > 0
    ensures var k := KeyOf(p.frames[f]); k in p.table && p.table[k] == f && k in Pins(p)
  {
    hide QueueExact, FrameSound, DiskSound;
  }

  lemma AllPinnedCount(p: Pool)
    requires Sound(p) && forall f :: 0 <= f < |p.frames| ==> Used(p.frames[f]) && p.frames[f].pin > 0
    ensures |Pins(p)| >= BUFFER_SIZE
  {
    PinnedCount(p, BUFFER_SIZE);
    CardinalityBelow(FirstKeys(p.frames, BUFFER_SIZE), Pins(p).Keys);
    assert |Pins(p)| == |Pins(p).Keys|;
  }

  lemma CardinalityBelow(a: set<Key>, b: set<Key>)
    requires a <= b
    ensures |a| <= |b|
  {
    assert b == a + (b - a);
  }

  /** A fetch of a valid page fails exactly when it is not resident and every frame holds a pinned page. */
  lemma AccessFails(p: Pool, k: Key)
    requires Sound(p) && k.pid >= 0
    ensures Access(p, k).Failure? <==>
      k !in p.table && forall f :: 0 <= f < |p.frames| ==> Used(p.frames[f]) && p.frames[f].pin > 0
    ensures Access(p, k).Failure? ==> Access(p, k).error == AllPinned && |Pins(p)| >= BUFFER_SIZE
  {
    if k !in p.table && FirstFree(p.frames) == |p.frames| {
      ReplaceKeeps(p);
      if Replace(p).Failure? {
        forall f | 0 <= f < |p.frames| ensures Used(p.frames[f]) && p.frames[f].pin > 0 {
          assert f in p.queue;
        }
        AllPinnedCount(p);
      }
    }
  }

  /**
    Letting go of a page succeeds exactly for a resident one, and keeps the pool sound exactly when
    the page may go.
   */
  lemma UnPinKeeps(p: Pool, k: Key)
    requires Sound(p)
    ensures UnPin(p, k).Success? <==> k in p.table
    ensures UnPin(p, k).Success? ==>
      var q := UnPin(p, k).value;
      && (Sound(q) <==> Releasable(p, k))
      && InTable(q) && Flat(q) == Flat(p) && Pins(q) == PinDown(Pins(p), k)
      && q.table == p.table && q.disk == p.disk
      && (DirtyInside(p) ==> DirtyInside(q))
  {
    hide Sound, Flat, DirtyInside, Backed;
    if k in p.table {
      PinOf(p, k);
      if p.frames[p.table[k]].pin > 0 {
        PinMoved(p, k, p.frames[p.table[k]].pin - 1);
      }
    }
  }

  /** A page's count is that of its frame, if that is more than zero. */
  lemma PinOf(p: Pool, k: Key)
    requires Sound(p) && k in p.table
    ensures InTable(p) && p.table[k] < |p.frames| && p.frames[p.table[k]].pin >= 0
    ensures k in Pins(p) <==> p.frames[p.table[k]].pin > 0
    ensures k in Pins(p) ==> Pins(p)[k] == p.frames[p.table[k]].pin
  {
    hide QueueExact, DiskSound;
    assert FrameSound(p.frames[p.table[k]], p.disk);
  }

  /** A write to the frame of page k changes the value of page k alone, and no pins. */
  lemma WrittenFrame(p: Pool, q: Pool, k: Key, data: Page)
    requires Sound(p) && k in p.table && q.table == p.table && |q.frames| == |p.frames|
    requires forall g :: 0 <= g < |p.frames| ==>
      q.frames[g].pin == p.frames[g].pin && q.frames[g].data == if g == p.table[k] then data else p.frames[g].data
    requires forall k' {:trigger ReadPage(q.disk, k')} :: k' != k ==> ReadPage(q.disk, k') == ReadPage(p.disk, k')
    ensures InTable(q) && Flat(q) == Flat(p)[k := data] && Pins(q) == Pins(p)
  {
    hide QueueExact, FrameSound, DiskSound, ReadPage;
    forall k' ensures Value(q, k') == if k' == k then data else Value(p, k') {
      if k' in p.table && k' != k {
        assert KeyOf(p.frames[p.table[k']]) == k' && KeyOf(p.frames[p.table[k]]) == k;
      }
    }
    assert Pins(q).Keys == Pins(p).Keys;
  }

  /** A dirty write changes one page's value and nothing else. */
  lemma StoreKeeps(p: Pool, k: Key, data: Page)
    requires Sound(p) && k in p.table && PageOf(k.kind, data)
    ensures
      var q := Store(p, p.table[k], data);
      && Sound(q) && Flat(q) == Flat(p)[k := data] && Pins(q) == Pins(p) && q.frames[p.table[k]].dirty
      && (DirtyInside(p) && k.pid < |FileOf(p.disk, k.kind)| ==> DirtyInside(q))
  {
    StoreFrames(p, k, data);
    hide QueueExact, FrameSound, DiskSound, Flat, Pins;
    assert KeyOf(p.frames[p.table[k]]) == k;
    WrittenFrame(p, Store(p, p.table[k], data), k, data);
  }

  lemma StoreFrames(p: Pool, k: Key, data: Page)
    requires Sound(p) && k in p.table && PageOf(k.kind, data)
    ensures Sound(Store(p, p.table[k], data))
  {
    hide QueueExact, DiskSound;
    var q := Store(p, p.table[k], data);
    assert KeyOf(p.frames[p.table[k]]) == k;
    forall g | 0 <= g < |q.frames| ensures FrameSound(q.frames[g], q.disk) {
      assert FrameSound(p.frames[g], p.disk);
    }
    SamePlacesSound(p, q);
  }

  lemma StoreThroughFrames(p: Pool, k: Key, data: Page, dirty: bool)
    requires Sound(p) && k in p.table && PageOf(k.kind, data)
    ensures Sound(StoreThrough(p, p.table[k], data, dirty))
  {
    var f := p.table[k];
    var q := StoreThrough(p, f, data, dirty);
    assert KeyOf(p.frames[f]) == k;
    assert FrameSound(p.frames[f], p.disk);
    forall g | 0 <= g < |q.frames| ensures FrameSound(q.frames[g], q.disk) {
      assert FrameSound(p.frames[g], p.disk);
      ReadAfterWrite(p.disk, k, data, KeyOf(p.frames[g]));
      assert Used(p.frames[g]) && g != f ==> KeyOf(p.frames[g]) != k;
    }
    SamePlacesSound(p, q);
  }

  /** So does a write-through, which also puts the value on disk. */
  lemma StoreThroughKeeps(p: Pool, k: Key, data: Page, dirty: bool)
    requires Sound(p) && k in p.table && PageOf(k.kind, data)
    ensures
      var q := StoreThrough(p, p.table[k], data, dirty);
      && Sound(q) && Flat(q) == Flat(p)[k := data] && Pins(q) == Pins(p)
      && ReadPage(q.disk, k) == data && q.frames[p.table[k]].dirty == dirty
      && (DirtyInside(p) ==> DirtyInside(q))
  {
    StoreThroughFrames(p, k, data, dirty);
    StoreThroughInside(p, k, data, dirty);
    hide QueueExact, FrameSound, DiskSound, Flat, Pins, DirtyInside, ReadPage, WritePage;
    var q := StoreThrough(p, p.table[k], data, dirty);
    assert KeyOf(p.frames[p.table[k]]) == k;
    forall k' ensures ReadPage(q.disk, k') == if k' == k then data else ReadPage(p.disk, k') {
      ReadAfterWrite(p.disk, k, data, k');
    }
    WrittenFrame(p, q, k, data);
  }

  lemma StoreThroughInside(p: Pool, k: Key, data: Page, dirty: bool)
    requires Sound(p) && k in p.table
    ensures DirtyInside(p) ==> DirtyInside(StoreThrough(p, p.table[k], data, dirty))
  {
    hide QueueExact, FrameSound, DiskSound;
    assert KeyOf(p.frames[p.table[k]]) == k;
  }

  /**
    An unmarked change is harmless exactly when the frame was marked already, the bytes are those
    on disk, or a pinned page differs from the disk in its header and slots only.
   */
  lemma ScribbleSoundIff(p: Pool, k: Key, data: Page)
    requires Sound(p) && k in p.table && PageOf(k.kind, data)
    ensures Sound(Scribble(p, p.table[k], data)) <==>
      p.frames[p.table[k]].dirty || AsOnDisk(data, ReadPage(p.disk, k), p.frames[p.table[k]].pin)
  {
    hide QueueExact, DiskSound, AsOnDisk;
    var f := p.table[k];
    var q := Scribble(p, f, data);
    assert KeyOf(p.frames[f]) == k && FrameSound(p.frames[f], p.disk);
    if p.frames[f].dirty || AsOnDisk(data, ReadPage(p.disk, k), p.frames[f].pin) {
      forall g | 0 <= g < |q.frames| ensures FrameSound(q.frames[g], q.disk) {
        assert FrameSound(p.frames[g], p.disk);
      }
      SamePlacesSound(p, q);
    } else {
      assert !FrameSound(q.frames[f], q.disk);
    }
  }

  /** An unmarked change of a pinned page's header and slots: its value changes, and nothing else. */
  lemma ScribbleKeeps(p: Pool, k: Key, data: Page)
    requires Sound(p) && k in Pins(p) && PageOf(k.kind, data) && SamePayload(data, Value(p, k))
    ensures
      var q := Scribble(p, p.table[k], data);
      && Sound(q) && Flat(q) == Flat(p)[k := data] && Pins(q) == Pins(p) && q.table == p.table && q.disk == p.disk
      && (DirtyInside(p) ==> DirtyInside(q))
  {
    ScribbleSoundIff(p, k, data);
    assert FrameSound(p.frames[p.table[k]], p.disk) && KeyOf(p.frames[p.table[k]]) == k;
    hide QueueExact, FrameSound, DiskSound, Flat;
    WrittenFrame(p, Scribble(p, p.table[k], data), k, data);
  }
}
