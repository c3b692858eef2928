/**
  Inserting a row: find the page, write the row into it, log it, and only then let the page
  go. With the reopening of a database after a crash.
 */
module InsertEntry {
  import opened StorageTypes
  import opened Bytes
  import opened Disks
  import opened PoolSpec
  import opened BufferPools
  import opened HeapRows
  import opened HeapSpec
  import opened HeapPages
  import opened LogFormat
  import opened Redo
  import opened Recovery
  import opened Wals

  datatype InsertError = Rejected(e: HeapError) | Failed(w: WalError)

  ghost predicate AllReadable(p: Pool)
    requires Sound(p)
  {
    forall pid: int :: HeapReadable(HeapAt(p, pid))
  }

  /** The page the next row goes to: the last one of the heap file while it has any free byte. */
  ghost function TargetPage(p: Pool): nat
    requires Sound(p)
  {
    var n := |p.disk.heap|;
    if n == 0 then 0
    else if HeapAt(p, ToPageId(n - 1)).freeSize > 0 then n - 1 else n
  }

  /** It is the last page exactly while that has a free byte, and else the one after it. */
  lemma TargetIs(p: Pool)
    requires Sound(p) && 0 < |p.disk.heap| <= PAGE_ID_LIMIT
    ensures TargetPage(p) == |p.disk.heap| - 1 <==> HeapAt(p, |p.disk.heap| - 1).freeSize >= 1
    ensures TargetPage(p) == |p.disk.heap| <==> HeapAt(p, |p.disk.heap| - 1).freeSize <= 0
  {
  }

  /** The same as a page id, as the pool takes it. */
  ghost function TargetId(p: Pool): int
    requires Sound(p)
  {
    ToPageId(TargetPage(p))
  }

  /** What an insert does to the pool: one page gets the row and its number, in memory and on disk. */
  ghost predicate InsertedAs(p: Pool, pid: int, row: Row, lsn: nat, q: Pool)
    requires Sound(p) && Sound(q) && StorableRow(row) && HeapReadable(HeapAt(p, pid))
  {
    && Flat(q) == Flat(p)[HeapKey(pid) := HeapPage(WriteRow(HeapAt(p, pid), row).0.(lsn := lsn))]
    && Pins(q) == Pins(p)
    && ReadPage(q.disk, HeapKey(pid)) == Flat(q)[HeapKey(pid)]
    && (DirtyInside(p) ==> DirtyInside(q) && |q.disk.heap| == Longer(|p.disk.heap|, pid))
  }

  /** A page fetched and written into, and marked dirty: what the pool looks like before the row is logged. */
  ghost predicate PlacedAs(p: Pool, pid: int, row: Row, q: Pool)
    requires Sound(p) && Sound(q) && StorableRow(row) && HeapReadable(HeapAt(p, pid))
  {
    && Flat(q) == Flat(p)[HeapKey(pid) := HeapPage(WriteRow(HeapAt(p, pid), row).0)]
    && Pins(q) == PinUp(Pins(p), HeapKey(pid)) && HeapKey(pid) in q.table
    && (DirtyInside(p) ==> DirtyInsideBut(q, HeapKey(pid)) && SameLengths(p.disk, q.disk))
  }

  /** A rejected row: the header and slots of the page's frame may have changed, and the page stays pinned. */
  ghost predicate RejectedAs(p: Pool, pid: int, row: Row, q: Pool)
    requires Sound(p) && Sound(q) && StorableRow(row) && HeapReadable(HeapAt(p, pid))
  {
    && Flat(q) == Flat(p)[HeapKey(pid) := HeapPage(WriteRow(HeapAt(p, pid), row).0)]
    && Pins(q) == PinUp(Pins(p), HeapKey(pid)) && q.disk.wal == p.disk.wal
    && (DirtyInside(p) ==> DirtyInside(q) && SameLengths(p.disk, q.disk))
  }

  /** The page is pinned already, or there is a frame for it. */
  ghost predicate FrameFor(p: Pool, pid: int)
    requires Sound(p)
  {
    HeapKey(pid) in Pins(p) || |Pins(p)| < BUFFER_SIZE
  }

  /**
    Only the page itself can stand in the way of an insert: there is a frame, and a log with a number
    left for the row if the page takes it.
   */
  ghost predicate AdmitsAt(p: Pool, lsn: nat, pid: int, row: Row)
    requires Sound(p) && StorableRow(row) && HeapReadable(HeapAt(p, pid))
  {
    && FrameFor(p, pid) && |p.disk.wal| >= WAL_HEADER_SIZE
    && (lsn < LSN_MAX || WriteRow(HeapAt(p, pid), row).1.Failure?)
  }

  /** The last page of the heap file can be looked at. */
  ghost predicate LastReachable(p: Pool)
    requires Sound(p)
  {
    var n := |p.disk.heap|;
    n < PAGE_ID_LIMIT && (n > 0 ==> FrameFor(p, ToPageId(n - 1)))
  }

  /**
    A settled pool after an insert that failed: a rejected row or a fetch that failed leaves it as
    settled as it was; a row the log has no number for stays in its page, which is busy from then on.
   */
  ghost predicate FailedAs(p: Pool, base: Base, rs: seq<Record>, busy: set<int>, pid: int, row: Row, e: InsertError,
                           q: Pool)
    requires Sound(p) && Sound(q) && StorableRow(row) && HeapReadable(HeapAt(p, pid))
  {
    match e
    case Rejected(_) => Settled(q, base, rs, busy)
    case Failed(PoolFailed(_)) => Settled(q, base, rs, busy) && Flat(q) == Flat(p) && Pins(q) == Pins(p)
    case Failed(LsnOverflow) =>
      && |rs| >= LSN_MAX && pid >= 0 && WriteRow(HeapAt(p, pid), row).1.Success?
      && Settled(q, base, rs, busy + {pid}) && PlacedAs(p, pid, row, q)
    case Failed(_) => false
  }

  /** Pages are only busy for good once the log has no number left. */
  ghost predicate BusyOnlyFull(busy: set<int>, rs: seq<Record>) {
    busy == NONE || |rs| >= LSN_MAX
  }

  class Inserter {
    const pool: BufferPool
    const wal: Wal
    /** For every insert that was acknowledged, how many states the disk had been in by then. */
    var acks: seq<nat>

    constructor (wal: Wal)
      ensures this.wal == wal && pool == wal.pool && acks == []
    {
      this.wal, this.pool, acks := wal, wal.pool, [];
    }

    /** The page to insert into; the last page is fetched to look at its free space. */
    method GetLastPid(ghost base: Base, ghost rs: seq<Record>, ghost busy: set<int>)
      returns (r: Result<nat, InsertError>)
      requires pool.Valid() && wal.pool == pool
      modifies pool, pool.frames, pool.disk
      ensures pool.Valid() && old(pool.disk.history) <= pool.disk.history && pool.disk.now.wal == old(pool.disk.now).wal
      ensures Flat(pool.State()) == Flat(old(pool.State())) && Pins(pool.State()) == Pins(old(pool.State()))
      ensures DirtyInside(old(pool.State())) ==>
          DirtyInside(pool.State()) && SameLengths(old(pool.disk.now), pool.disk.now)
      ensures r.Success? ==> r.value == TargetPage(old(pool.State()))
      ensures r.Failure? ==> r.error.Failed? && r.error.w.PoolFailed?
      ensures var n := |old(pool.disk.now).heap|;
        n <= PAGE_ID_LIMIT && (n > 0 ==> old(FrameFor(pool.State(), ToPageId(n - 1)))) ==> r.Success?
      ensures old(Settled(pool.State(), base, rs, busy)) ==>
        Settled(pool.State(), base, rs, busy) && AllRecoverable(pool.disk.history, |old(pool.disk.history)|, base, rs)
    {
      hide Sound, Safe, Settled, FetchedAs, Recoverable, Flat, Pins, HeapAt, PoolSpec.Value, DirtyInside;
      ghost var p := pool.State();
      if Settled(p, base, rs, busy) {
        SettledSafe(p, base, rs, busy);
      }
      var n := pool.LastPid(HeapFile);
      if n > 0 {
        FrameForIs(p, ToPageId(n - 1));
      }
      if n == 0 {
        NoneNew(pool.disk.history, base, rs);
        return Success(0);
      }
      var pid := ToPageId(n - 1);
      var page := wal.Access(pid, base, rs, busy);
      if page.Failure? {
        NoneNew(pool.disk.history, base, rs);
        return Failure(Failed(page.error));
      }
      ghost var q := pool.State();
      FetchedFrame(p, pid, q, page.value);
      FetchedInside(p, pid, q, page.value);
      FetchedPins(p, pid, q, page.value);
      var free := pool.frames[page.value].data.heap.freeSize;
      var u := pool.Unpin(HeapKey(pid));
      LookedSettles(p, base, rs, busy, q, pool.State());
      return Success(if free > 0 then n - 1 else n);
    }

    /** Writes a row into a fetched page. */
    method WriteInto(f: nat, pid: int, row: Row, sizes: seq<nat>) returns (r: Result<Slot, HeapError>)
      requires pool.Valid() && StorableRow(row) && Sum(sizes) == |RowBytes(row)|
      requires forall i :: 0 <= i < |row| && row[i].Text? ==> |row[i].s| <= STRING_MAX_SIZE
      requires HeapReadable(HeapAt(pool.State(), pid)) && HeapKey(pid) in Pins(pool.State())
      requires HeapKey(pid) in pool.table && pool.table[HeapKey(pid)] == f
      modifies pool.frames
      ensures pool.Valid() && r == WriteRow(HeapAt(old(pool.State()), pid), row).1
      ensures
        var h := WriteRow(HeapAt(old(pool.State()), pid), row).0;
        && Flat(pool.State()) == Flat(old(pool.State()))[HeapKey(pid) := HeapPage(h)]
        && Pins(pool.State()) == Pins(old(pool.State()))
        && (r.Success? ==> f < pool.frames.Length && pool.State() == Store(old(pool.State()), f, HeapPage(h)))
        && (r.Failure? ==> old(DirtyInside(pool.State())) ==> DirtyInside(pool.State()))
    {
      hide Sound, Flat, Pins, HeapAt, PoolSpec.Value, DirtyInside, WriteRow, HeapReadable, SamePayload, HeapSized;
      ghost var p := pool.State();
      FrameHolds(p, pid);
      var buffer := new HeapPageBuffer(pool.frames[f].data.heap);
      r := buffer.HeapWrite(row, sizes);
      var h := buffer.Bytes();
      AcceptedIff(HeapAt(p, pid), row);
      WrittenSized(HeapAt(p, pid), row);
      if r.Failure? {
        RejectedData(HeapAt(p, pid), row);
        pool.ScribbleFrame(f, HeapPage(h));
      } else {
        pool.WriteFrame(f, HeapPage(h));
      }
    }

    /** Fetches a page and writes a row into it. */
    method Place(pid: int, row: Row, sizes: seq<nat>, ghost base: Base, ghost rs: seq<Record>, ghost busy: set<int>)
      returns (r: Result<RID, InsertError>)
      requires pool.Valid() && wal.pool == pool && StorableRow(row) && Sum(sizes) == |RowBytes(row)|
      requires forall i :: 0 <= i < |row| && row[i].Text? ==> |row[i].s| <= STRING_MAX_SIZE
      requires HeapReadable(HeapAt(pool.State(), pid)) && pid < PAGE_ID_LIMIT
      modifies pool, pool.frames, pool.disk
      ensures pool.Valid() && old(pool.disk.history) <= pool.disk.history && pool.disk.now.wal == old(pool.disk.now).wal
      ensures r.Success? ==>
        && pid >= 0 && PlacedAs(old(pool.State()), pid, row, pool.State())
        && WriteRow(HeapAt(old(pool.State()), pid), row).1 == Success(r.value.slot) && r.value.pid == pid
      ensures r.Failure? && r.error.Failed? ==> r.error.w.PoolFailed? && pool.State() == old(pool.State())
      ensures r.Failure? && r.error.Rejected? ==>
        && WriteRow(HeapAt(old(pool.State()), pid), row).1 == Failure(r.error.e)
        && RejectedAs(old(pool.State()), pid, row, pool.State())
      ensures pid >= 0 && old(FrameFor(pool.State(), pid)) ==> r.Success? || r.error.Rejected?
      ensures old(Settled(pool.State(), base, rs, busy)) ==>
        && AllRecoverable(pool.disk.history, |old(pool.disk.history)|, base, rs)
        && (r.Failure? ==> Settled(pool.State(), base, rs, busy))
        && (r.Success? ==> Settled(pool.State(), base, rs, busy + {pid}))
        && (r.Success? && busy == NONE ==> RowWritten(pool.State(), base, rs, r.value, row))
    {
      hide Sound, Safe, Settled, FetchedAs, Recoverable, Flat, Pins, HeapAt, PoolSpec.Value, DirtyInside, WriteRow,
           HeapReadable, PlacedAs, RejectedAs, RowWritten, FrameFor, AllRecoverable, SamePayload, HeapSized;
      ghost var p := pool.State();
      FrameForIs(p, pid);
      if Settled(p, base, rs, busy) {
        SettledSafe(p, base, rs, busy);
      }
      var page := wal.Access(pid, base, rs, busy);
      if page.Failure? {
        NoneNew(pool.disk.history, base, rs);
        return Failure(Failed(page.error));
      }
      ghost var m := pool.State();
      var f := page.value;
      FetchedReady(p, pid, m, f);
      var slot := WriteInto(f, pid, row, sizes);
      if slot.Failure? {
        RejectEffect(p, pid, row, m, f, pool.State(), base, rs, busy);
        return Failure(Rejected(slot.error));
      }
      PlaceDone(p, pid, row, m, f, pool.State(), base, rs, busy);
      UsedAt(pool.State(), pid);
      return Success(RID(pool.frames[f].pid, slot.value));
    }

    /** Writes a row into a page, logs it, and only then lets the page go. */
    method InsertInto(pid: int, row: Row, sizes: seq<nat>, ghost base: Base, ghost rs: seq<Record>,
                      ghost busy: set<int>)
      returns (r: Result<RID, InsertError>, ghost rs': seq<Record>)
      requires pool.Valid() && wal.pool == pool && StorableRow(row) && Sum(sizes) == |RowBytes(row)|
      requires forall i :: 0 <= i < |row| && row[i].Text? ==> |row[i].s| <= STRING_MAX_SIZE
      requires HeapReadable(HeapAt(pool.State(), pid)) && pid < PAGE_ID_LIMIT
      modifies wal`lsn, pool, pool.frames, pool.disk
      ensures pool.Valid() && old(pool.disk.history) <= pool.disk.history
      ensures r.Success? ==>
        && wal.lsn == old(wal.lsn) + 1 <= LSN_MAX && r.value.pid == pid >= 0
        && WriteRow(HeapAt(old(pool.State()), pid), row).1 == Success(r.value.slot)
        && InsertedAs(old(pool.State()), pid, row, wal.lsn, pool.State())
      ensures r.Failure? && r.error.Rejected? ==>
        && wal.lsn == old(wal.lsn)
        && WriteRow(HeapAt(old(pool.State()), pid), row).1 == Failure(r.error.e)
        && RejectedAs(old(pool.State()), pid, row, pool.State())
      ensures pid >= 0 && old(AdmitsAt(pool.State(), wal.lsn, pid, row)) ==> r.Success? || r.error.Rejected?
      ensures old(Settled(pool.State(), base, rs, busy)) && old(wal.lsn) == |rs| && BusyOnlyFull(busy, rs) ==>
        && OldOrNew(pool.disk.history, |old(pool.disk.history)|, base, rs, rs')
        && (r.Failure? ==>
              && rs' == rs && wal.lsn == |rs|
              && FailedAs(old(pool.State()), base, rs, busy, pid, row, r.error, pool.State()))
        && (r.Success? ==>
              rs' == rs + [Record(|rs| + 1, r.value, RowBytes(row))] && Settled(pool.State(), base, rs', NONE))
    {
      hide Sound, Safe, Settled, Recoverable, Flat, Pins, HeapAt, DirtyInside, DirtyInsideBut, SameLengths, WriteRow,
           HeapReadable, PlacedAs, RowWritten, CommittedAs, InsertedAs, CommitError, RejectedAs, OldOrNew,
           AllRecoverable;
      ghost var p, h0 := pool.State(), pool.disk.history;
      ghost var settled := Settled(p, base, rs, busy) && wal.lsn == |rs| && BusyOnlyFull(busy, rs);
      rs' := rs;
      var rid := Place(pid, row, sizes, base, rs, busy);
      ghost var m, h1 := pool.State(), pool.disk.history;
      if settled {
        OldIsOldOrNew(h1, |h0|, base, rs, rs);
        SettledLength(p, base, rs, busy);
      }
      if rid.Failure? {
        return Failure(rid.error), rs';
      }
      if settled && busy == NONE {
        WrittenPid(m, base, rs, rid.value, row);
      }
      PlacedFits(p, pid, row, rid.value, wal.lsn);
      PlacedPins(p, pid, row, m);
      var c := wal.CommitTransaction(rid.value, row, base, rs);
      ghost var w := pool.State();
      if CommitError(rid.value, row, old(wal.lsn)).None? {
        rs' := rs + [Record(|rs| + 1, rid.value, RowBytes(row))];
      }
      NoNewState(pool.disk.history, base, rs, rs');
      if settled {
        OldOrNewJoins(h1, pool.disk.history, |h0|, |h1|, base, rs, rs');
      }
      if c.Failure? {
        return Failure(Failed(c.error)), rs';
      }
      CommittedPins(m, pid, wal.lsn, w);
      CommittedBacked(m, pid, wal.lsn, w);
      var u := pool.Unpin(HeapKey(pid));
      InsertEffect(p, pid, row, m, wal.lsn, w, pool.State());
      if settled {
        LetGoSettles(w, base, rs', pool.State());
      }
      return Success(rid.value), rs';
    }

    /** Inserts a row into the page the row goes to. */
    method CreateEntry(row: Row, sizes: seq<nat>, ghost base: Base, ghost rs: seq<Record>, ghost busy: set<int>)
      returns (r: Result<RID, InsertError>, ghost rs': seq<Record>)
      requires pool.Valid() && wal.pool == pool && StorableRow(row) && Sum(sizes) == |RowBytes(row)|
      requires forall i :: 0 <= i < |row| && row[i].Text? ==> |row[i].s| <= STRING_MAX_SIZE
      requires AllReadable(pool.State())
      modifies this`acks, wal`lsn, pool, pool.frames, pool.disk
      ensures pool.Valid() && old(pool.disk.history) <= pool.disk.history
      ensures r.Success? ==>
        && wal.lsn == old(wal.lsn) + 1 <= LSN_MAX && r.value.pid == old(TargetId(pool.State())) >= 0
        && WriteRow(HeapAt(old(pool.State()), r.value.pid), row).1 == Success(r.value.slot)
        && InsertedAs(old(pool.State()), r.value.pid, row, wal.lsn, pool.State())
      ensures acks == if r.Success? then old(acks) + [|pool.disk.history|] else old(acks)
      ensures r.Failure? && r.error.Rejected? ==>
        var pid := old(TargetId(pool.State()));
        && wal.lsn == old(wal.lsn)
        && WriteRow(HeapAt(old(pool.State()), pid), row).1 == Failure(r.error.e)
        && RejectedAs(old(pool.State()), pid, row, pool.State())
      ensures old(LastReachable(pool.State()) && AdmitsAt(pool.State(), wal.lsn, TargetId(pool.State()), row)) ==>
        r.Success? || r.error.Rejected?
      ensures old(Settled(pool.State(), base, rs, busy)) && old(wal.lsn) == |rs| && BusyOnlyFull(busy, rs) ==>
        && OldOrNew(pool.disk.history, |old(pool.disk.history)|, base, rs, rs')
        && (r.Failure? ==>
              && rs' == rs && wal.lsn == |rs|
              && FailedAs(old(pool.State()), base, rs, busy, old(TargetId(pool.State())), row, r.error, pool.State()))
        && (r.Success? ==>
              rs' == rs + [Record(|rs| + 1, r.value, RowBytes(row))] && Settled(pool.State(), base, rs', NONE))
    {
      hide Sound, Safe, Settled, Recoverable, Flat, Pins, HeapAt, DirtyInside, SameLengths, WriteRow, HeapReadable,
           InsertedAs, RejectedAs, OldOrNew, AllRecoverable, TargetPage, FailedAs, AdmitsAt, FrameFor, LastReachable;
      ghost var p, h0 := pool.State(), pool.disk.history;
      Reachable(p);
      ghost var settled := Settled(p, base, rs, busy) && wal.lsn == |rs| && BusyOnlyFull(busy, rs);
      var last := GetLastPid(base, rs, busy);
      ghost var q, h1 := pool.State(), pool.disk.history;
      if settled {
        OldIsOldOrNew(h1, |h0|, base, rs, rs);
      }
      if last.Failure? {
        LookFailed(p, base, rs, busy, TargetId(p), row, last.error, q);
        return Failure(last.error), rs;
      }
      SameFlatHeap(p, q);
      TargetBound(p);
      AdmitsOver(p, q, wal.lsn, TargetId(p), row);
      r, rs' := InsertInto(ToPageId(last.value), row, sizes, base, rs, busy);
      if settled {
        OldOrNewJoins(h1, pool.disk.history, |h0|, |h1|, base, rs, rs');
      }
      if r.Success? {
        acks := acks + [|pool.disk.history|];
        InsertOverFetch(p, q, r.value.pid, row, wal.lsn, pool.State());
      } else {
        FailOverFetch(p, q, base, rs, busy, TargetId(p), row, r.error, pool.State());
      }
    }
  }

  lemma WrittenSized(h: HeapImage, row: Row)
    requires HeapReadable(h) && StorableRow(row) && HeapReadable(WriteRow(h, row).0)
    ensures HeapSized(WriteRow(h, row).0)
  {
  }

  lemma FrameForIs(p: Pool, pid: int)
    requires Sound(p)
    ensures FrameFor(p, pid) ==> HeapKey(pid) in p.table || |Pins(p)| < BUFFER_SIZE
  {
  }

  lemma FetchedReady(p: Pool, pid: int, m: Pool, f: nat)
    requires Sound(p) && FetchedAs(p, HeapKey(pid), m, f)
    ensures Sound(m) && HeapKey(pid) in Pins(m) && HeapKey(pid) in m.table && m.table[HeapKey(pid)] == f
    ensures HeapAt(m, pid) == HeapAt(p, pid)
  {
    SameFlatHeap(p, m);
  }

  /** The frame of a pinned heap page. */
  lemma FrameHolds(p: Pool, pid: int)
    requires Sound(p) && HeapKey(pid) in Pins(p) && HeapKey(pid) in p.table
    ensures
      var f := p.table[HeapKey(pid)];
      && f < |p.frames| && Used(p.frames[f]) && KeyOf(p.frames[f]) == HeapKey(pid) && p.frames[f].pin > 0
      && p.frames[f].data == HeapPage(HeapAt(p, pid)) && HeapSized(HeapAt(p, pid))
  {
    ValueTyped(p, HeapKey(pid));
  }

  /** A row turned away changes neither the payload nor the number of the page. */
  lemma RejectedData(h: HeapImage, row: Row)
    requires HeapReadable(h) && StorableRow(row) && WriteRow(h, row).1.Failure?
    ensures var g := WriteRow(h, row).0; SamePayload(HeapPage(g), HeapPage(h)) && HeapReadable(g) && Tightens(h, g)
  {
    WriteTightens(h, row);
  }

  lemma RejectEffect(p: Pool, pid: int, row: Row, m: Pool, f: nat, q: Pool, base: Base, rs: seq<Record>,
                     busy: set<int>)
    requires Sound(p) && Sound(q) && StorableRow(row) && HeapReadable(HeapAt(p, pid))
        && FetchedAs(p, HeapKey(pid), m, f)
    requires Flat(q) == Flat(m)[HeapKey(pid) := HeapPage(WriteRow(HeapAt(p, pid), row).0)] && Pins(q) == Pins(m)
    requires q.disk == m.disk && (DirtyInside(m) ==> DirtyInside(q)) && pid >= 0
        && WriteRow(HeapAt(p, pid), row).1.Failure?
    ensures RejectedAs(p, pid, row, q)
    ensures Settled(m, base, rs, busy) ==> Settled(q, base, rs, busy)
  {
    RejectPlaced(p, pid, row, m, f, q);
    hide WriteRow, Sound, HeapAt, Flat, Pins, EvictedFrom, Settled, HeapReadable, RejectedAs;
    if Settled(m, base, rs, busy) {
      RejectedData(HeapAt(p, pid), row);
      RejectSettles(m, base, rs, busy, pid, WriteRow(HeapAt(p, pid), row).0, q);
    }
  }

  lemma RejectPlaced(p: Pool, pid: int, row: Row, m: Pool, f: nat, q: Pool)
    requires Sound(p) && Sound(q) && StorableRow(row) && HeapReadable(HeapAt(p, pid))
        && FetchedAs(p, HeapKey(pid), m, f)
    requires Flat(q) == Flat(m)[HeapKey(pid) := HeapPage(WriteRow(HeapAt(p, pid), row).0)] && Pins(q) == Pins(m)
    requires q.disk == m.disk && (DirtyInside(m) ==> DirtyInside(q))
    ensures RejectedAs(p, pid, row, q) && HeapAt(m, pid) == HeapAt(p, pid)
  {
    FetchedLog(p, HeapKey(pid), m, f);
    SameFlatHeap(p, m);
    hide WriteRow, QueueExact, FrameSound, DiskSound, HeapAt, Flat, Pins, EvictedFrom;
  }

  /** Other slots and another header on a page: nothing is lost, and the page is as complete as it was. */
  lemma RejectSettles(p: Pool, base: Base, rs: seq<Record>, busy: set<int>, pid: int, h: HeapImage, q: Pool)
    requires Settled(p, base, rs, busy) && Sound(q) && Pins(q) == Pins(p) && q.disk == p.disk && HeapReadable(h)
        && pid >= 0
    requires Flat(q) == Flat(p)[HeapKey(pid) := HeapPage(h)] && SamePayload(HeapPage(h), HeapPage(HeapAt(p, pid)))
    requires Tightens(HeapAt(p, pid), h)
    ensures Settled(q, base, rs, busy)
  {
    hide Sound, Flat, Pins, HeapAt, Recoverable, LogFile, Settled, PageConsistent, PageComplete, HeapReadable,
         SamePayload, Tightens;
    SettledPages(p, base, rs, busy);
    forall i: int | i >= 0 && i !in busy
      ensures PageConsistent(HeapAt(q, i), base[i], rs, i) && PageComplete(HeapAt(q, i), base[i], rs, i)
    {
      ChangedHeap(p, pid, h, q, i);
      if i == pid {
        PayloadKept(HeapAt(p, pid), h, base[i], rs, i);
      }
    }
    SettledFrom(q, base, rs, busy);
  }

  lemma PayloadKept(h: HeapImage, g: HeapImage, base: PageBase, rs: seq<Record>, p: int)
    requires |base.data| == HEAP_PAYLOAD_SIZE && AllFit(rs) && PageConsistent(h, base, rs, p)
        && PageComplete(h, base, rs, p)
    requires SamePayload(HeapPage(g), HeapPage(h)) && HeapReadable(g) && Tightens(h, g)
    ensures PageConsistent(g, base, rs, p) && PageComplete(g, base, rs, p)
  {
    TightensSpares(h, g, 0, base);
    hide Spares, Tightens;
  }

  /** What was written is a page the pool can take again. */
  lemma WrittenPid(p: Pool, base: Base, rs: seq<Record>, rid: RID, row: Row)
    requires RowWritten(p, base, rs, rid, row)
    ensures rid.pid >= 0 && HeapKey(rid.pid) in p.table && |p.disk.wal| >= WAL_HEADER_SIZE
  {
  }

  lemma CommittedBacked(p: Pool, pid: int, lsn: nat, q: Pool)
    requires Sound(p) && Sound(q) && CommittedAs(p, pid, lsn, q)
    ensures Releasable(q, HeapKey(pid))
  {
    assert Flat(q)[HeapKey(pid)] == PoolSpec.Value(q, HeapKey(pid));
  }

  /** An insert that failed, counted from after the look at the last page, is one counted from before it. */
  lemma FailOverFetch(p: Pool, q: Pool, base: Base, rs: seq<Record>, busy: set<int>, pid: int, row: Row, e: InsertError,
                      r: Pool)
    requires Sound(p) && Sound(q) && Sound(r) && StorableRow(row) && HeapReadable(HeapAt(q, pid))
    requires Flat(q) == Flat(p) && Pins(q) == Pins(p) && HeapAt(q, pid) == HeapAt(p, pid) && q.disk.wal == p.disk.wal
    requires DirtyInside(p) ==> DirtyInside(q) && SameLengths(p.disk, q.disk)
    ensures RejectedAs(q, pid, row, r) ==> RejectedAs(p, pid, row, r)
    ensures FailedAs(q, base, rs, busy, pid, row, e, r) ==> FailedAs(p, base, rs, busy, pid, row, e, r)
  {
    hide HeapAt, WriteRow, DirtyInside, DirtyInsideBut, HeapReadable, Flat, Pins, FrameSound, DiskSound, TableExact,
         QueueExact, Settled;
  }

  lemma NoNewState(h: seq<DiskImage>, base: Base, rs: seq<Record>, rs': seq<Record>)
    ensures OldOrNew(h, |h|, base, rs, rs')
  {
  }

  /** An accepted row's bytes are the only change to the payload. */
  lemma AcceptedData(h: HeapImage, row: Row)
    requires HeapReadable(h) && StorableRow(row) && WriteRow(h, row).1.Success?
    ensures var s := WriteRow(h, row).1.value;
      && s.offset + |RowBytes(row)| <= HEAP_PAYLOAD_SIZE && s.size == |RowBytes(row)| && !s.deleted
      && WriteRow(h, row).0.data == Overwrite(h.data, s.offset, RowBytes(row))
  {
  }

  /** What was placed is in its page and nowhere on disk; and ready to be logged, if no other page is busy. */
  lemma PlaceDone(p: Pool, pid: int, row: Row, m: Pool, f: nat, q: Pool, base: Base, rs: seq<Record>, busy: set<int>)
    requires Sound(p) && StorableRow(row) && HeapReadable(HeapAt(p, pid)) && FetchedAs(p, HeapKey(pid), m, f)
    requires Sound(q) && f < |m.frames| && q == Store(m, f, HeapPage(WriteRow(HeapAt(p, pid), row).0))
    requires Flat(q) == Flat(m)[HeapKey(pid) := HeapPage(WriteRow(HeapAt(p, pid), row).0)] && Pins(q) == Pins(m)
    requires 0 <= pid < PAGE_ID_LIMIT && WriteRow(HeapAt(p, pid), row).1.Success?
    ensures PlacedAs(p, pid, row, q)
    ensures Settled(p, base, rs, busy) && Settled(m, base, rs, busy) ==>
      && Settled(q, base, rs, busy + {pid})
      && (busy == NONE ==> RowWritten(q, base, rs, RID(pid, WriteRow(HeapAt(p, pid), row).1.value), row))
  {
    PlaceEffect(p, pid, row, m, f, q);
    SameFlatHeap(p, m);
    if Settled(p, base, rs, busy) && Settled(m, base, rs, busy) {
      hide Settled, Flat, Pins, WriteRow, HeapAt, HeapReadable, Sound, FetchedAs, PlacedAs, RowWritten;
      RowIsWritten(p, base, rs, busy, pid, row, m, q);
    }
  }

  lemma RowIsWritten(p: Pool, base: Base, rs: seq<Record>, busy: set<int>, pid: int, row: Row, m: Pool, q: Pool)
    requires Settled(p, base, rs, busy) && StorableRow(row) && HeapReadable(HeapAt(p, pid)) && 0 <= pid < PAGE_ID_LIMIT
    requires WriteRow(HeapAt(p, pid), row).1.Success? && Sound(q) && PlacedAs(p, pid, row, q)
    requires Settled(m, base, rs, busy) && Flat(m) == Flat(p) && Pins(q) == Pins(m) && q.disk == m.disk
    ensures Settled(q, base, rs, busy + {pid})
    ensures busy == NONE ==> RowWritten(q, base, rs, RID(pid, WriteRow(HeapAt(p, pid), row).1.value), row)
  {
    hide Sound, Flat, Pins, HeapAt, Safe, Settled, WriteRow, HeapReadable, Spares, Tightens, PlacedAs, PageConsistent;
    SettledPages(p, base, rs, busy);
    SettledPages(m, base, rs, busy);
    var h := WriteRow(HeapAt(p, pid), row).0;
    AcceptedIff(HeapAt(p, pid), row);
    WrittenSized(HeapAt(p, pid), row);
    AcceptedData(HeapAt(p, pid), row);
    PlacedPins(p, pid, row, q);
    PlacedFlat(p, pid, row, m, q);
    StoredSettles(m, base, rs, busy, pid, h, q);
    if busy == NONE {
      assert NONE + {pid} == {pid};
      assert PageConsistent(HeapAt(p, pid), base[pid], rs, pid);
      ConsistentSpares(HeapAt(p, pid), base[pid], rs, pid);
      WriteTightens(HeapAt(p, pid), row);
      TightensSpares(HeapAt(p, pid), h, 0, base[pid]);
    }
  }

  lemma PlacedFlat(p: Pool, pid: int, row: Row, m: Pool, q: Pool)
    requires Sound(p) && Sound(q) && Sound(m) && StorableRow(row) && HeapReadable(HeapAt(p, pid))
    requires PlacedAs(p, pid, row, q) && Flat(m) == Flat(p)
    ensures Flat(q) == Flat(m)[HeapKey(pid) := HeapPage(WriteRow(HeapAt(p, pid), row).0)]
  {
    hide Flat, WriteRow, Sound, HeapAt;
  }

  lemma ConsistentSpares(h: HeapImage, base: PageBase, rs: seq<Record>, p: int)
    requires |base.data| == HEAP_PAYLOAD_SIZE && AllFit(rs) && PageConsistent(h, base, rs, p)
    ensures Spares(h, base)
  {
  }

  lemma PlacedPins(p: Pool, pid: int, row: Row, q: Pool)
    requires Sound(p) && Sound(q) && StorableRow(row) && HeapReadable(HeapAt(p, pid)) && PlacedAs(p, pid, row, q)
    ensures HeapKey(pid) in Pins(q) && HeapKey(pid) in q.table
  {
    hide Flat, Pins, HeapAt, WriteRow, QueueExact, FrameSound;
  }

  lemma PlaceEffect(p: Pool, pid: int, row: Row, m: Pool, f: nat, q: Pool)
    requires Sound(p) && StorableRow(row) && HeapReadable(HeapAt(p, pid)) && FetchedAs(p, HeapKey(pid), m, f)
    requires Sound(q) && f < |m.frames| && q == Store(m, f, HeapPage(WriteRow(HeapAt(p, pid), row).0))
    requires Flat(q) == Flat(m)[HeapKey(pid) := HeapPage(WriteRow(HeapAt(p, pid), row).0)] && Pins(q) == Pins(m)
    ensures PlacedAs(p, pid, row, q)
  {
    hide WriteRow, QueueExact, FrameSound, DiskSound, HeapAt, Flat, Pins;
    assert KeyOf(m.frames[f]) == HeapKey(pid);
  }

  lemma FetchedInside(p: Pool, pid: int, q: Pool, f: nat)
    requires Sound(p) && FetchedAs(p, HeapKey(pid), q, f)
    ensures DirtyInside(p) ==> DirtyInside(q) && SameLengths(p.disk, q.disk)
  {
  }

  lemma OldIsOldOrNew(h: seq<DiskImage>, n: nat, base: Base, rs: seq<Record>, rs': seq<Record>)
    requires AllRecoverable(h, n, base, rs)
    ensures OldOrNew(h, n, base, rs, rs')
  {
    hide Recoverable;
  }

  lemma OldOrNewJoins(h1: seq<DiskImage>, h2: seq<DiskImage>, n0: nat, n1: nat, base: Base, rs: seq<Record>,
                      rs': seq<Record>)
    requires n0 <= n1 == |h1| && h1 <= h2 && OldOrNew(h1, n0, base, rs, rs) && OldOrNew(h2, n1, base, rs, rs')
    ensures OldOrNew(h2, n0, base, rs, rs')
  {
    hide Recoverable;
    forall i | n0 <= i < |h2| ensures Recoverable(h2[i], base, rs) || Recoverable(h2[i], base, rs') {
      if i < n1 {
        assert h2[i] == h1[i];
      }
    }
  }

  /** What was accepted by the page passes the checks of the commit. */
  lemma PlacedFits(p: Pool, pid: int, row: Row, rid: RID, lsn: nat)
    requires Sound(p) && StorableRow(row) && HeapReadable(HeapAt(p, pid))
    requires WriteRow(HeapAt(p, pid), row).1 == Success(rid.slot)
    ensures Int32(rid.slot.size)
    ensures CommitError(rid, row, lsn) == if lsn < LSN_MAX then None else Some(LsnOverflow)
  {
    hide Sound, HeapAt;
    AcceptedData(HeapAt(p, pid), row);
  }

  /** The page after a placed row, and what a second change of the same page makes of the flat store. */
  lemma PlacedPage(p: Pool, pid: int, row: Row, m: Pool, page: Page)
    requires Sound(p) && Sound(m) && StorableRow(row) && HeapReadable(HeapAt(p, pid)) && PlacedAs(p, pid, row, m)
    ensures HeapAt(m, pid) == WriteRow(HeapAt(p, pid), row).0
    ensures Flat(m)[HeapKey(pid) := page] == Flat(p)[HeapKey(pid) := page]
  {
    FlatHeapAt(m, pid);
    hide HeapAt, WriteRow, Sound;
  }

  lemma CommittedPins(p: Pool, pid: int, lsn: nat, q: Pool)
    requires Sound(p) && Sound(q) && CommittedAs(p, pid, lsn, q)
    ensures Pins(q) == Pins(p) && (HeapKey(pid) in Pins(p) ==> HeapKey(pid) in q.table)
  {
    hide Flat, HeapAt;
  }

  lemma InsertEffect(p: Pool, pid: int, row: Row, m: Pool, lsn: nat, w: Pool, q: Pool)
    requires Sound(p) && Sound(m) && Sound(w) && Sound(q) && StorableRow(row) && HeapReadable(HeapAt(p, pid))
    requires PlacedAs(p, pid, row, m) && CommittedAs(m, pid, lsn, w)
    requires Flat(q) == Flat(w) && Pins(q) == PinDown(Pins(w), HeapKey(pid)) && q.disk == w.disk
        && (DirtyInside(w) ==> DirtyInside(q))
    ensures InsertedAs(p, pid, row, lsn, q)
  {
    PlacedPage(p, pid, row, m, HeapPage(WriteRow(HeapAt(p, pid), row).0.(lsn := lsn)));
    PinsPositive(p, HeapKey(pid));
    PinUpDown(Pins(p), HeapKey(pid));
    AcceptedIff(HeapAt(p, pid), row);
    hide HeapAt, WriteRow, DirtyInside, DirtyInsideBut, HeapReadable, Flat, Pins, PinUp, PinDown, FrameSound,
         DiskSound, TableExact, QueueExact, ReadPage;
  }

  lemma PinsPositive(p: Pool, k: Key)
    requires Sound(p)
    ensures k in Pins(p) ==> Pins(p)[k] > 0
  {
  }

  /** A look at a page, which is let go of again, leaves the pool as settled as it was. */
  lemma LookedSettles(p: Pool, base: Base, rs: seq<Record>, busy: set<int>, q: Pool, r: Pool)
    requires Sound(p) && Sound(r) && Flat(r) == Flat(p) && Pins(r) == Pins(p)
    requires Settled(p, base, rs, busy) ==> Settled(q, base, rs, busy) && Flat(q) == Flat(p) && r.disk == q.disk
    ensures Settled(p, base, rs, busy) ==> Settled(r, base, rs, busy)
  {
    hide Sound, Flat, Pins, Safe, Settled;
    if Settled(p, base, rs, busy) {
      SettledPages(p, base, rs, busy);
      SettledSafe(q, base, rs, busy);
      UnpinKeeps(q, base, rs, busy, r);
    }
  }

  lemma LetGoSettles(p: Pool, base: Base, rs: seq<Record>, q: Pool)
    requires Settled(p, base, rs, NONE) && Sound(q) && Flat(q) == Flat(p) && q.disk == p.disk
    ensures Settled(q, base, rs, NONE)
  {
    SettledSafe(p, base, rs, NONE);
    UnpinKeeps(p, base, rs, NONE, q);
  }

  /** An insert counted from after the look at the last page is one counted from before it. */
  lemma InsertOverFetch(p: Pool, q: Pool, pid: int, row: Row, lsn: nat, r: Pool)
    requires Sound(p) && Sound(q) && Sound(r) && StorableRow(row) && HeapReadable(HeapAt(q, pid))
    requires Flat(q) == Flat(p) && Pins(q) == Pins(p) && HeapAt(q, pid) == HeapAt(p, pid)
    requires DirtyInside(p) ==> DirtyInside(q) && SameLengths(p.disk, q.disk)
    requires InsertedAs(q, pid, row, lsn, r)
    ensures InsertedAs(p, pid, row, lsn, r)
  {
    hide HeapAt, WriteRow, DirtyInside, HeapReadable, Flat, Pins, FrameSound, DiskSound, TableExact, QueueExact,
         ReadPage;
  }

  lemma Reachable(p: Pool)
    requires Sound(p)
    ensures
      var n := |p.disk.heap|;
      LastReachable(p) ==> n < PAGE_ID_LIMIT && (n > 0 ==> FrameFor(p, ToPageId(n - 1)))
  {
  }

  lemma LookFailed(p: Pool, base: Base, rs: seq<Record>, busy: set<int>, pid: int, row: Row, e: InsertError, q: Pool)
    requires Sound(p) && Sound(q) && StorableRow(row) && HeapReadable(HeapAt(p, pid)) && e.Failed? && e.w.PoolFailed?
    requires Flat(q) == Flat(p) && Pins(q) == Pins(p)
    ensures Settled(q, base, rs, busy) ==> FailedAs(p, base, rs, busy, pid, row, e, q)
  {
    hide Sound, Flat, Pins, HeapAt, HeapReadable, Settled;
  }

  /** The look at the last page takes nothing from the insert. */
  lemma AdmitsOver(p: Pool, q: Pool, lsn: nat, pid: int, row: Row)
    requires Sound(p) && Sound(q) && StorableRow(row) && HeapReadable(HeapAt(q, pid))
    requires Pins(q) == Pins(p) && HeapAt(q, pid) == HeapAt(p, pid) && q.disk.wal == p.disk.wal
    ensures AdmitsAt(p, lsn, pid, row) ==> AdmitsAt(q, lsn, pid, row)
  {
    hide Sound, Pins, HeapAt, WriteRow, HeapReadable;
  }

  lemma TargetBound(p: Pool)
    requires Sound(p)
    ensures TargetPage(p) <= |p.disk.heap|
  {
  }

  lemma SettledLength(p: Pool, base: Base, rs: seq<Record>, busy: set<int>)
    requires Settled(p, base, rs, busy)
    ensures |p.disk.wal| >= WAL_HEADER_SIZE
  {
  }
}
