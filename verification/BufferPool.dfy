/** The buffer pool as it works in place; PoolSpec says what each operation amounts to. */
module BufferPools {
  import opened StorageTypes
  import opened Disks
  import opened PoolSpec

  class BufferPool {
    const disk: Disk
    const frames: array<Frame>
    var table: map<Key, nat>
    var queue: seq<nat>

    ghost function State(): Pool
      reads this, frames, disk
    {
      Pool(frames[..], table, queue, disk.now)
    }

    ghost predicate Valid()
      reads this, frames, disk
    {
      disk.Valid() && Sound(State())
    }

    /** The disk passed through at most one new state, its present one. */
    twostate predicate AtMostOneWrite()
      reads disk
    {
      (disk.history == old(disk.history) && disk.now == old(disk.now)) || disk.history == old(disk.history) + [disk.now]
    }

    constructor (d: Disk)
      requires d.Valid() && DiskSound(d.now)
      ensures Valid() && disk == d && fresh(frames) && DirtyInside(State())
      ensures table == map[] && queue == [] && Pins(State()) == map[]
      ensures forall k :: Value(State(), k) == ReadPage(d.now, k)
    {
      disk := d;
      frames := new Frame[BUFFER_SIZE](i => Frame(INVALID_PAGE_ID, HeapFile, false, 0, ZeroPage(HeapFile)));
      table, queue := map[], [];
    }

    /** Writes a frame back if it is dirty, and empties it. */
    method FreeFrame(id: nat)
      requires disk.Valid() && id < frames.Length && frames[id].pid >= 0 && KeyOf(frames[id]) in table
      modifies this`table, frames, disk
      ensures disk.Valid() && AtMostOneWrite()
      ensures State() == Free(old(State()), id, queue)
    {
      var key := KeyOf(frames[id]);
      if frames[id].dirty {
        disk.Write(key, frames[id].data);
      }
      table := table - {key};
      frames[id] := frames[id].(pid := INVALID_PAGE_ID, dirty := false, pin := 0);
    }

    /** Frees the first unpinned frame in queue order, rotating the pinned ones before it to the back. */
    method PageReplacementPolicy() returns (r: Result<nat, PoolError>)
      requires disk.Valid() && Queued(State())
      modifies this`table, this`queue, frames, disk
      ensures disk.Valid() && AtMostOneWrite()
      ensures match Replace(old(State()))
        case Failure(e) => r == Failure(e) && State() == old(State()) && disk.history == old(disk.history)
        case Success((q, f)) => r == Success(f) && State() == q
    {
      hide Replace, PinnedPrefix;
      ghost var p := State();
      var n := |queue|;
      assert queue[0..] + queue[..0] == queue;
      for idx := 0 to n
        invariant table == p.table && frames[..] == p.frames && disk.Valid()
        invariant disk.now == p.disk && disk.history == old(disk.history)
        invariant n == |p.queue| && queue == p.queue[idx..] + p.queue[..idx]
        invariant forall j :: 0 <= j < idx ==> p.frames[p.queue[j]].pin > 0
      {
        RotateStep(p.queue, idx);
        var id := queue[0];
        queue := queue[1..];
        if frames[id].pin == 0 {
          ReplaceFinds(p, idx);
          FreeFrame(id);
          return Success(id);
        }
        queue := queue + [id];
      }
      assert queue == p.queue;
      ReplaceFinds(p, n);
      return Failure(AllPinned);
    }

    /** Finds the first frame that holds no page. */
    method FindFree() returns (i: nat)
      ensures i == FirstFree(frames[..])
    {
      i := 0;
      while i < frames.Length && frames[i].pid != INVALID_PAGE_ID
        invariant i <= frames.Length && forall j :: 0 <= j < i ==> Used(frames[j])
      {
        i := i + 1;
      }
      FirstFreeIs(frames[..], i);
    }

    /** Fetches a page into a frame and pins it. */
    method Fetch(k: Key) returns (r: Result<nat, PoolError>)
      requires Valid()
      modifies this`table, this`queue, frames, disk
      ensures disk.Valid() && AtMostOneWrite()
      ensures match Access(old(State()), k)
        case Failure(e) => r == Failure(e) && State() == old(State()) && disk.history == old(disk.history)
        case Success((q, f)) => r == Success(f) && State() == q
    {
      if k.pid < 0 {
        return Failure(NegativePid);
      }
      if k in table {
        var f := table[k];
        frames[f] := frames[f].(pin := frames[f].pin + 1);
        return Success(f);
      }
      var i := FindFree();
      if i < frames.Length {
        Load(i, k);
        return Success(i);
      }
      ReplaceKeeps(State());
      SoundQueued(State());
      var victim := PageReplacementPolicy();
      if victim.Failure? {
        return victim;
      }
      Load(victim.value, k);
      return Success(victim.value);
    }

    /** The same, with what it means for the flat store, the pins and the disk. */
    method PageAccess(k: Key) returns (r: Result<nat, PoolError>)
      requires Valid()
      modifies this`table, this`queue, frames, disk
      ensures Valid() && AtMostOneWrite()
      ensures r.Failure? ==> State() == old(State()) && disk.history == old(disk.history)
      ensures r.Success? ==> k.pid >= 0 && FetchedAs(old(State()), k, State(), r.value)
      ensures k.pid >= 0 && (k in old(table) || |Pins(old(State()))| < BUFFER_SIZE) ==> r.Success?
    {
      AccessKeeps(State(), k);
      if k.pid >= 0 {
        AccessFails(State(), k);
      }
      r := Fetch(k);
    }

    /** Puts page k into a free frame. */
    method Load(f: nat, k: Key)
      requires f < frames.Length
      modifies this`table, this`queue, frames
      ensures State() == Install(old(State()), f, k)
    {
      frames[f] := frames[f].(pid := k.pid, kind := k.kind, pin := 1);
      table := table[k := f];
      queue := queue + [f];
      frames[f] := frames[f].(data := ReadPage(disk.now, k));
    }

    method Unpin(k: Key) returns (r: Result<(), PoolError>)
      requires Valid()
      modifies frames
      ensures Releasable(old(State()), k) ==> Valid()
      ensures match UnPin(old(State()), k)
        case Failure(e) => r == Failure(e) && State() == old(State())
        case Success(q) => r == Success(()) && State() == q
      ensures r.Success? ==>
                && InTable(State())
                && Flat(State()) == Flat(old(State())) && Pins(State()) == PinDown(Pins(old(State())), k)
                && (DirtyInside(old(State())) ==> DirtyInside(State()))
    {
      hide FrameSound, QueueExact, DiskSound, Flat, Pins, DirtyInside;
      UnPinKeeps(State(), k);
      if k !in table {
        return Failure(PageNotFound);
      }
      var f := table[k];
      if frames[f].pin > 0 {
        frames[f] := frames[f].(pin := frames[f].pin - 1);
      }
      return Success(());
    }

    /** A writer's in-place change of a fetched page, which it marks dirty. */
    method WriteFrame(f: nat, data: Page)
      requires Valid() && f < frames.Length && Used(frames[f]) && PageOf(frames[f].kind, data)
      modifies frames
      ensures Valid()
      ensures State() == Store(old(State()), f, data)
      ensures var k := KeyOf(old(frames[f]));
        && Flat(State()) == Flat(old(State()))[k := data] && Pins(State()) == Pins(old(State()))
        && (DirtyInside(old(State())) && k.pid < |FileOf(disk.now, k.kind)| ==> DirtyInside(State()))
    {
      StoreKeeps(State(), KeyOf(frames[f]), data);
      frames[f] := frames[f].(data := data, dirty := true);
    }

    /** A writer's in-place change of the header and slots of a fetched page, after which it fails. */
    method ScribbleFrame(f: nat, data: Page)
      requires Valid() && f < frames.Length && Used(frames[f]) && frames[f].pin > 0
      requires PageOf(frames[f].kind, data) && SamePayload(data, frames[f].data)
      modifies frames
      ensures Valid() && State() == Scribble(old(State()), f, data)
      ensures var k := KeyOf(old(frames[f]));
        && Flat(State()) == Flat(old(State()))[k := data] && Pins(State()) == Pins(old(State()))
        && (DirtyInside(old(State())) ==> DirtyInside(State()))
    {
      ScribbleKeeps(State(), KeyOf(frames[f]), data);
      frames[f] := frames[f].(data := data);
    }

    /** A writer's in-place change of a fetched page that it writes out at once. */
    method WriteThrough(f: nat, data: Page, dirty: bool)
      requires Valid() && f < frames.Length && Used(frames[f]) && PageOf(frames[f].kind, data)
      modifies frames, disk
      ensures Valid()
      ensures State() == StoreThrough(old(State()), f, data, dirty)
      ensures disk.history == old(disk.history) + [disk.now]
      ensures var k := KeyOf(old(frames[f]));
        && Flat(State()) == Flat(old(State()))[k := data] && Pins(State()) == Pins(old(State()))
        && disk.now == WritePage(old(disk.now), k, data)
        && (DirtyInside(old(State())) ==> DirtyInside(State()))
    {
      StoreThroughKeeps(State(), KeyOf(frames[f]), data, dirty);
      disk.Write(KeyOf(frames[f]), data);
      frames[f] := frames[f].(data := data, dirty := dirty);
    }

    /** The number of pages in a file. */
    function LastPid(kind: PageType): nat
      reads disk
    {
      |FileOf(disk.now, kind)|
    }
  }

  lemma RotateStep(q: seq<nat>, i: nat)
    requires i < |q|
    ensures (q[i..] + q[..i])[0] == q[i]
    ensures (q[i..] + q[..i])[1..] == q[i + 1..] + q[..i]
    ensures q[i + 1..] + q[..i] + [q[i]] == q[i + 1..] + q[..i + 1]
  {
  }

  /** Every queued frame holds a page the table knows. */
  ghost predicate Queued(p: Pool) {
    forall i :: 0 <= i < |p.queue| ==>
      && p.queue[i] < |p.frames| && p.frames[p.queue[i]].pid >= 0 && p.frames[p.queue[i]].pin >= 0
      && KeyOf(p.frames[p.queue[i]]) in p.table
  }

  lemma SoundQueued(p: Pool)
    requires Sound(p)
    ensures Queued(p)
  {
    forall i | 0 <= i < |p.queue| ensures p.frames[p.queue[i]].pin >= 0 {
      assert FrameSound(p.frames[p.queue[i]], p.disk);
    }
  }

  lemma PrefixIs(frames: seq<Frame>, q: seq<nat>, n: nat)
    requires n <= |q| && forall i :: 0 <= i < |q| ==> q[i] < |frames|
    requires forall i :: 0 <= i < n ==> frames[q[i]].pin > 0
    requires n < |q| ==> frames[q[n]].pin <= 0
    ensures PinnedPrefix(frames, q) == n
  {
  }

  lemma ReplaceFinds(p: Pool, n: nat)
    requires Queued(p) && n <= |p.queue|
    requires forall i :: 0 <= i < n ==> p.frames[p.queue[i]].pin > 0
    requires n < |p.queue| ==> p.frames[p.queue[n]].pin <= 0
    ensures Replace(p) ==
      if n == |p.queue| then Failure(AllPinned)
      else Success((Free(p, p.queue[n], p.queue[n + 1..] + p.queue[..n]), p.queue[n]))
  {
    PrefixIs(p.frames, p.queue, n);
  }

  lemma FirstFreeIs(frames: seq<Frame>, f: nat)
    requires f <= |frames| && (forall j :: 0 <= j < f ==> Used(frames[j])) && (f < |frames| ==> !Used(frames[f]))
    ensures FirstFree(frames) == f
  {
  }
}
