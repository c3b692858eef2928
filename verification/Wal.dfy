/** The log manager: committing a row, and replaying the log after a crash. */
module Wals {
  import opened StorageTypes
  import opened Bytes
  import opened Disks
  import opened PoolSpec
  import opened BufferPools
  import opened HeapRows
  import opened HeapSpec
  import opened LogFormat
  import opened Redo
  import opened Recovery

  datatype WalError = SizeMismatch | PastPayload | LsnOverflow | MissingHeader | PoolFailed(e: PoolError)

  /** The number the log manager continues from: that of the record the header points at, or zero. */
  function LastLsn(wal: seq<Byte>): nat {
    match LastOffset(wal)
    case None => 0
    case Some(last) =>
      if last + ENTRY_SIZE > |wal| then 0 else DecodeEntry(wal[last..last + ENTRY_SIZE]).lsn
  }

  /** Over a well-formed log that is the number of its records, whatever comes after them. */
  lemma LastLsnCounts(rs: seq<Record>, tail: seq<Byte>)
    requires GoodLog(rs)
    ensures LastLsn(LogFile(rs, tail)) == |rs|
  {
    hide RecordBytes, EntryBytes, DecodeEntry, ToLE, FromLE, Pow256;
    var log := LogFile(rs, tail);
    assert log[..WAL_HEADER_SIZE] == ToLE(LastStart(rs), WAL_HEADER_SIZE);
    FromToLE(LastStart(rs), WAL_HEADER_SIZE);
    if rs != [] {
      var n := |rs| - 1;
      var before := ToLE(LastStart(rs), WAL_HEADER_SIZE) + AllBytes(rs[..n]);
      assert Loggable(rs[n]);
      assert log == before + RecordBytes(rs[n]) + tail;
      LastRecordNumber(log, before, rs[n], tail);
    }
  }

  lemma LastRecordNumber(log: seq<Byte>, before: seq<Byte>, r: Record, tail: seq<Byte>)
    requires Loggable(r) && log == before + RecordBytes(r) + tail
    ensures |before| + ENTRY_SIZE <= |log| && DecodeEntry(log[|before|..|before| + ENTRY_SIZE]).lsn == r.lsn
  {
    assert log[|before|..|before| + ENTRY_SIZE] == EntryBytes(r);
    EntryRoundTrip(r);
  }

  /** Redo of record i keeps its page the image of a prefix of its records. */
  lemma RedoKeepsPage(h: HeapImage, m: nat, base: PageBase, rs: seq<Record>, i: nat, p: int)
    requires |base.data| == HEAP_PAYLOAD_SIZE && AllFit(rs) && Numbered(rs) && i < |rs| && rs[i].rid.pid == p
    requires PageConsistent(h, base, rs, p) && PageMidway(h, m, base, rs, i, p)
    ensures Fits(rs[i]) && PageConsistent(RedoPage(h, rs[i]), base, rs, p)
  {
    DataAfterOne(base, rs, i, p);
  }

  /** Every state the disk has been in since the history had length n is one the rows of rs are recovered from. */
  ghost predicate AllRecoverable(history: seq<DiskImage>, n: nat, base: Base, rs: seq<Record>) {
    forall i :: n <= i < |history| ==> Recoverable(history[i], base, rs)
  }

  /** The same, for a commit under way: the rows before it, or also its own. */
  ghost predicate OldOrNew(history: seq<DiskImage>, n: nat, base: Base, rs: seq<Record>, rs': seq<Record>) {
    forall i :: n <= i < |history| ==> Recoverable(history[i], base, rs) || Recoverable(history[i], base, rs')
  }

  /** Why a commit is refused. */
  function CommitError(rid: RID, row: Row, lsn: nat): Option<WalError>
    requires StorableRow(row)
  {
    if rid.slot.size < 0 || |RowBytes(row)| != rid.slot.size then Some(SizeMismatch)
    else if rid.slot.offset + |RowBytes(row)| > HEAP_PAYLOAD_SIZE then Some(PastPayload)
    else if lsn + 1 > LSN_MAX then Some(LsnOverflow)
    else None
  }

  /** What a commit does to the pool: the page gets its number, in memory and on disk; pins are as before. */
  ghost predicate CommittedAs(p: Pool, pid: int, lsn: nat, q: Pool)
    requires Sound(p) && Sound(q)
  {
    && Flat(q) == Flat(p)[HeapKey(pid) := HeapPage(HeapAt(p, pid).(lsn := lsn))]
    && Pins(q) == Pins(p)
    && ReadPage(q.disk, HeapKey(pid)) == Flat(q)[HeapKey(pid)]
    && (HeapKey(pid) in p.table ==>
          (DirtyInsideBut(p, HeapKey(pid)) ==> DirtyInside(q)) && |q.disk.heap| == Longer(|p.disk.heap|, pid))
  }

  /** The length of a file of n pages after page pid was written. */
  function Longer(n: nat, pid: int): int {
    if pid < n then n else pid + 1
  }

  /** The pool is settled but for page pid, which already has its new row and only lacks its number. */
  ghost predicate Stampable(p: Pool, base: Base, rs: seq<Record>, pid: int) {
    && Settled(p, base, rs, {pid}) && PageComplete(HeapAt(p, pid), base[pid], rs, pid)
    && HeapReadable(HeapAt(p, pid)) && Spares(HeapAt(p, pid), base[pid])
  }

  /** The pool is settled but for the row's page, which has the row at its place and is pinned. */
  ghost predicate RowWritten(p: Pool, base: Base, rs: seq<Record>, rid: RID, row: Row) {
    && StorableRow(row) && 0 <= rid.pid < PAGE_ID_LIMIT && rid.slot.offset + |RowBytes(row)| <= HEAP_PAYLOAD_SIZE
    && Settled(p, base, rs, {rid.pid}) && HeapReadable(HeapAt(p, rid.pid)) && Spares(HeapAt(p, rid.pid), base[rid.pid])
    && HeapAt(p, rid.pid).data == Overwrite(DataAfter(base[rid.pid], rs, rid.pid), rid.slot.offset, RowBytes(row))
  }

  /** A page with a record's row and number. */
  function Redone(h: HeapImage, r: Record): HeapImage
    requires HeapSized(h) && Fits(r)
  {
    h.(data := Overwrite(h.data, r.rid.slot.offset, r.row), lsn := r.lsn)
  }

  ghost predicate RedoneAs(p: Pool, r: Record, q: Pool)
    requires Sound(p) && Sound(q) && Fits(r)
  {
    FlatHeap(q) == FlatHeap(p)[r.rid.pid := Redone(HeapAt(p, r.rid.pid), r)]
  }

  /** A safe pool whose page stays the image of a prefix of its records when this one is applied. */
  ghost predicate RedoSafe(p: Pool, base: Base, rs: seq<Record>, r: Record)
    requires Fits(r)
  {
    && Safe(p, base, rs, NONE)
    && PageConsistent(Redone(HeapAt(p, r.rid.pid), r), base[r.rid.pid], rs, r.rid.pid)
  }

  ghost predicate SteppedAs(p: Pool, r: Record, q: Pool)
    requires Sound(p) && Sound(q) && Fits(r)
  {
    FlatHeap(q) == FlatHeap(p)[r.rid.pid := RedoPage(FlatHeap(p)[r.rid.pid], r)]
  }

  /** The pool after the first i records of rs were replayed from the heap `start`. */
  ghost predicate MidReplay(p: Pool, start: Heap, base: Base, rs: seq<Record>, i: nat) {
    Safe(p, base, rs, NONE) && HeapTotal(start) && i <= |rs| && Midway(FlatHeap(p), start, base, rs, i)
  }

  /** Replay of p's log turns p's heap pages into q's; ok says that no record named a negative page. */
  ghost predicate ReplayedAs(p: Pool, q: Pool, ok: bool)
    requires Sound(p) && Sound(q)
  {
    AllFit(Records(p.disk.wal)) && ReplayAll(Records(p.disk.wal), FlatHeap(p)) == (FlatHeap(q), ok)
  }

  /** Replay of p's log comes down to replay of the rest of it on q. */
  ghost predicate ReplayLeft(p: Pool, q: Pool, rest: seq<Record>)
    requires Sound(p) && Sound(q)
  {
    && AllFit(Records(p.disk.wal)) && AllFit(rest)
    && ReplayAll(Records(p.disk.wal), FlatHeap(p)) == ReplayAll(rest, FlatHeap(q))
  }

  ghost predicate Remaining(rs: seq<Record>, i: nat, rest: seq<Record>) {
    i <= |rs| && rs[i..] == rest
  }

  ghost function PinsOf(p: Pool): map<Key, int>
    requires Sound(p)
  {
    Pins(p)
  }

  /** Every page has all of its rows again. */
  ghost predicate Restored(p: Pool, base: Base, rs: seq<Record>) {
    Safe(p, base, rs, NONE) && forall pid: int :: PageComplete(HeapAt(p, pid), base[pid], rs, pid)
  }

  class Wal {
    const pool: BufferPool
    var lsn: nat

    constructor (pool: BufferPool)
      ensures this.pool == pool && lsn == LastLsn(pool.disk.now.wal)
    {
      this.pool := pool;
      lsn := 0;
      new;
      var wal := pool.disk.now.wal;
      if |wal| < WAL_HEADER_SIZE {
        return;
      }
      var last := FromLE(wal[..WAL_HEADER_SIZE]);
      if last < WAL_HEADER_SIZE || last >= |wal| {
        return;
      }
      if last + ENTRY_SIZE <= |wal| {
        lsn := DecodeEntry(wal[last..last + ENTRY_SIZE]).lsn;
      }
    }

    /** Appends bytes to the log file, one after the other, and then points the header at them. */
    method WriteToWal(b: seq<Byte>) returns (r: Result<(), WalError>)
      requires pool.disk.Valid()
      modifies pool.disk
      ensures pool.disk.Valid()
      ensures r.Failure? <==> |old(pool.disk.now).wal| < WAL_HEADER_SIZE
      ensures r.Failure? ==> pool.disk.now == old(pool.disk.now) && pool.disk.history == old(pool.disk.history)
      ensures r.Failure? ==> r.error == MissingHeader
      ensures r.Success? ==>
        && pool.disk.now == AfterHeader(old(pool.disk.now), b)
        && pool.disk.history == old(pool.disk.history) + AppendStates(old(pool.disk.now), b)
    {
      ghost var d := pool.disk.now;
      ghost var past := pool.disk.history;
      var offset := |pool.disk.now.wal|;
      if offset < WAL_HEADER_SIZE {
        return Failure(MissingHeader);
      }
      assert d.wal + b[..0] == d.wal;
      ghost var states := AppendStates(d, b);
      assert past + states[..0] == past;
      for n := 0 to |b|
        invariant pool.disk.Valid() && pool.disk.now == AfterBytes(d, b, n)
        invariant pool.disk.history == past + states[..n]
      {
        assert b[..n + 1] == b[..n] + [b[n]];
        pool.disk.WriteLog(pool.disk.now.wal + [b[n]]);
        assert pool.disk.now == states[n] && states[..n + 1] == states[..n] + [states[n]];
      }
      assert b[..|b|] == b;
      pool.disk.WriteLog(WithHeader(pool.disk.now.wal, offset));
      assert states == states[..|b|] + [AfterHeader(d, b)];
      return Success(());
    }

    /** Fetches a heap page. */
    method Access(pid: int, ghost base: Base, ghost rs: seq<Record>, ghost busy: set<int>)
      returns (r: Result<nat, WalError>)
      requires pool.Valid()
      modifies pool, pool.frames, pool.disk
      ensures pool.Valid()
      ensures r.Failure? ==>
        r.error.PoolFailed? && pool.State() == old(pool.State()) && pool.disk.history == old(pool.disk.history)
      ensures r.Success? ==> pid >= 0 && FetchedAs(old(pool.State()), HeapKey(pid), pool.State(), r.value)
      ensures old(pool.disk.history) <= pool.disk.history && pool.disk.now.wal == old(pool.disk.now).wal
      ensures pid >= 0 && (HeapKey(pid) in old(pool.table) || |Pins(old(pool.State()))| < BUFFER_SIZE) ==> r.Success?
      ensures old(Safe(pool.State(), base, rs, busy)) ==>
        && Safe(pool.State(), base, rs, busy) && AllRecoverable(pool.disk.history, |old(pool.disk.history)|, base, rs)
      ensures old(Settled(pool.State(), base, rs, busy)) ==> Settled(pool.State(), base, rs, busy)
    {
      hide Sound, FetchedAs, Safe, Settled, Recoverable, Flat, Pins;
      var f := pool.PageAccess(HeapKey(pid));
      match f
      case Failure(e) => return Failure(PoolFailed(e));
      case Success(i) =>
        FetchedLog(old(pool.State()), HeapKey(pid), pool.State(), i);
        if Settled(old(pool.State()), base, rs, busy) {
          SettledSafe(old(pool.State()), base, rs, busy);
        }
        if Safe(old(pool.State()), base, rs, busy) {
          FetchKeeps(old(pool.State()), base, rs, busy, HeapKey(pid), pool.State(), i);
          SafeRecoverable(pool.State(), base, rs, busy);
        }
        return Success(i);
    }

    /** Changes a fetched heap page, writes it out and lets go of it. */
    method Finish(f: nat, pid: int, h: HeapImage, ghost base: Base, ghost rs: seq<Record>)
      requires pool.Valid() && pid >= 0 && HeapSized(h)
      requires HeapKey(pid) in pool.table && pool.table[HeapKey(pid)] == f
      modifies pool.frames, pool.disk
      ensures pool.Valid()
      ensures Flat(pool.State()) == Flat(old(pool.State()))[HeapKey(pid) := HeapPage(h)]
      ensures Pins(pool.State()) == PinDown(Pins(old(pool.State())), HeapKey(pid))
      ensures pool.disk.now == WritePage(old(pool.disk.now), HeapKey(pid), HeapPage(h))
      ensures pool.disk.history == old(pool.disk.history) + [pool.disk.now]
      ensures DirtyInsideBut(old(pool.State()), HeapKey(pid)) ==> DirtyInside(pool.State())
      ensures BaseTotal(base) && AllFit(rs) && PageConsistent(h, base[pid], rs, pid) ==>
        && (old(Safe(pool.State(), base, rs, {pid}) || Safe(pool.State(), base, rs, NONE)) ==>
              Safe(pool.State(), base, rs, NONE) && Recoverable(pool.disk.now, base, rs))
        && (old(Settled(pool.State(), base, rs, {pid})) && PageComplete(h, base[pid], rs, pid) ==>
              Settled(pool.State(), base, rs, NONE))
    {
      hide Sound, Flat, Pins, Safe, Settled, Recoverable, PageConsistent, PageComplete, DirtyInside, DirtyInsideBut;
      ghost var p := pool.State();
      UsedAt(p, pid);
      pool.WriteThrough(f, HeapPage(h), false);
      ghost var q := pool.State();
      assert WrittenThrough(p, pid, h, q);
      ThroughBacked(p, pid, h, q);
      ThroughInside(p, HeapKey(pid), HeapPage(h));
      var u := pool.Unpin(HeapKey(pid));
      WriteAndLetGo(p, base, rs, pid, h, q, pool.State());
    }

    /** Puts a number on a page, which it writes out. */
    method Stamp(pid: int, number: nat, ghost base: Base, ghost rs: seq<Record>) returns (r: Result<(), WalError>)
      requires pool.Valid() && number <= LSN_MAX
      modifies pool, pool.frames, pool.disk
      ensures pool.Valid() && old(pool.disk.history) <= pool.disk.history
      ensures r.Success? ==> pid >= 0 && CommittedAs(old(pool.State()), pid, number, pool.State())
      ensures pid >= 0 && HeapKey(pid) in old(pool.table) ==> r.Success?
      ensures old(Stampable(pool.State(), base, rs, pid)) && number == |rs| ==>
        && AllRecoverable(pool.disk.history, |old(pool.disk.history)|, base, rs)
        && (r.Success? ==> Settled(pool.State(), base, rs, NONE))
    {
      hide Sound, Safe, Settled, FetchedAs, CommittedAs, Stampable, Recoverable, PageConsistent, Consistent,
           PageComplete, Flat, Pins, HeapAt, PoolSpec.Value;
      ghost var p := pool.State();
      if Stampable(p, base, rs, pid) {
        StampableSettled(p, base, rs, pid);
      }
      var page := Access(pid, base, rs, {pid});
      if page.Failure? {
        return Failure(page.error);
      }
      ghost var q := pool.State();
      FetchedFrame(p, pid, q, page.value);
      var h := pool.frames[page.value].data.heap;
      if Stampable(p, base, rs, pid) && number == |rs| {
        StampedPage(p, base, rs, pid);
      }
      Finish(page.value, pid, h.(lsn := number), base, rs);
      StampEffect(p, q, page.value, pid, number, pool.State());
      return Success(());
    }

    /** Writes a record to the log: what a crash finds from then on is the old log or the new one. */
    method LogRecord(rec: Record, row: Row, ghost base: Base, ghost rs: seq<Record>) returns (r: Result<(), WalError>)
      requires pool.Valid() && StorableRow(row) && rec.row == RowBytes(row) && |rec.row| == rec.rid.slot.size
      requires rec.lsn <= LSN_MAX && Int32(rec.rid.pid) && Int32(rec.rid.slot.size)
      modifies this`lsn, pool.disk
      ensures pool.Valid() && old(pool.disk.history) <= pool.disk.history
      ensures r.Failure? <==> |old(pool.disk.now).wal| < WAL_HEADER_SIZE
      ensures r.Failure? ==> lsn == old(lsn) && pool.disk.history == old(pool.disk.history)
      ensures pool.State() == old(pool.State()).(disk := old(pool.disk.now).(wal := pool.disk.now.wal))
      ensures Flat(pool.State()) == Flat(old(pool.State())) && Pins(pool.State()) == Pins(old(pool.State()))
      ensures r.Success? ==> lsn == rec.lsn && pool.disk.now == AfterHeader(old(pool.disk.now), RecordBytes(rec))
      ensures r.Success? && rec.lsn == |rs| + 1 && old(RowWritten(pool.State(), base, rs, rec.rid, row)) ==>
        && OldOrNew(pool.disk.history, |old(pool.disk.history)|, base, rs, rs + [rec])
        && Stampable(pool.State(), base, rs + [rec], rec.rid.pid)
    {
      hide Sound, Stampable, RowWritten, Recoverable, Flat, Pins, HeapAt, OldOrNew, RecordBytes;
      ghost var p, h0 := pool.State(), pool.disk.history;
      r := WriteToWal(RecordBytes(rec));
      OnlyLogChanged(p, pool.State());
      if r.Success? {
        lsn := rec.lsn;
        if rec.lsn == |rs| + 1 && RowWritten(p, base, rs, rec.rid, row) {
          WrittenLogged(p, base, rs, rec.rid, row, pool.State());
          HistoryJoins(h0, p.disk, RecordBytes(rec), pool.disk.history, base, rs, rs + [rec]);
        }
      }
    }

    /** Writes a record to the log and then its number to its page. */
    method LogAndStamp(rec: Record, row: Row, ghost base: Base, ghost rs: seq<Record>) returns (r: Result<(), WalError>)
      requires pool.Valid() && StorableRow(row) && rec.row == RowBytes(row) && |rec.row| == rec.rid.slot.size
      requires rec.lsn <= LSN_MAX && Int32(rec.rid.pid) && Int32(rec.rid.slot.size)
      modifies this`lsn, pool, pool.frames, pool.disk
      ensures pool.Valid() && old(pool.disk.history) <= pool.disk.history
      ensures r.Success? ==>
        lsn == rec.lsn && rec.rid.pid >= 0 && CommittedAs(old(pool.State()), rec.rid.pid, lsn, pool.State())
      ensures (|old(pool.disk.now).wal| >= WAL_HEADER_SIZE
               && rec.rid.pid >= 0 && HeapKey(rec.rid.pid) in old(pool.table)) ==> r.Success?
      ensures rec.lsn == |rs| + 1 && old(RowWritten(pool.State(), base, rs, rec.rid, row)) ==>
        && OldOrNew(pool.disk.history, |old(pool.disk.history)|, base, rs, rs + [rec])
        && (r.Success? ==> Settled(pool.State(), base, rs + [rec], NONE))
    {
      hide Sound, Safe, Settled, CommittedAs, Stampable, RowWritten, Recoverable, Flat, Pins, HeapAt, OldOrNew,
           AllRecoverable, RecordBytes, AfterHeader;
      ghost var p, h0 := pool.State(), pool.disk.history;
      r := LogRecord(rec, row, base, rs);
      if r.Failure? {
        NothingNew(h0, base, rs, rs + [rec]);
        return;
      }
      ghost var q, h1 := pool.State(), pool.disk.history;
      r := Stamp(rec.rid.pid, rec.lsn, base, rs + [rec]);
      if r.Success? {
        CommitOverLog(p, q, rec.rid.pid, rec.lsn, pool.State());
      }
      if rec.lsn == |rs| + 1 && RowWritten(p, base, rs, rec.rid, row) {
        LaterNew(h1, pool.disk.history, |h0|, base, rs, rs + [rec]);
      }
    }

    /** Logs a row that lies in its page, and then writes the page out under the record's number. */
    method CommitTransaction(rid: RID, row: Row, ghost base: Base, ghost rs: seq<Record>)
      returns (r: Result<(), WalError>)
      requires pool.Valid() && StorableRow(row) && Int32(rid.pid) && Int32(rid.slot.size)
      modifies this`lsn, pool, pool.frames, pool.disk
      ensures pool.Valid() && old(pool.disk.history) <= pool.disk.history
      ensures var e := CommitError(rid, row, old(lsn));
        e.Some? ==> r == Failure(e.value) && pool.State() == old(pool.State()) && lsn == old(lsn)
                    && pool.disk.history == old(pool.disk.history)
      ensures r.Success? ==>
        && CommitError(rid, row, old(lsn)).None? && lsn == old(lsn) + 1 && rid.pid >= 0
        && CommittedAs(old(pool.State()), rid.pid, lsn, pool.State())
      ensures (CommitError(rid, row, old(lsn)).None? && |old(pool.disk.now).wal| >= WAL_HEADER_SIZE
               && rid.pid >= 0 && HeapKey(rid.pid) in old(pool.table)) ==> r.Success?
      ensures old(lsn) == |rs| && old(RowWritten(pool.State(), base, rs, rid, row)) ==>
        var rs' := rs + [Record(|rs| + 1, rid, RowBytes(row))];
        && OldOrNew(pool.disk.history, |old(pool.disk.history)|, base, rs, rs')
        && (r.Success? ==> Settled(pool.State(), base, rs', NONE))
    {
      hide Sound, Safe, Settled, CommittedAs, RowWritten, Recoverable, Flat, Pins, HeapAt;
      var bytes := SerializeRow(row);
      if rid.slot.size < 0 || |bytes| != rid.slot.size {
        return Failure(SizeMismatch);
      }
      if rid.slot.offset + |bytes| > HEAP_PAYLOAD_SIZE {
        return Failure(PastPayload);
      }
      var next := lsn + 1;
      if next > LSN_MAX {
        return Failure(LsnOverflow);
      }
      r := LogAndStamp(Record(next, rid, bytes), row, base, rs);
    }

    /** Whether a page lacks the record with this number. */
    method NeedsRedo(pid: int, number: nat, ghost base: Base, ghost rs: seq<Record>) returns (r: Result<bool, WalError>)
      requires pool.Valid()
      modifies pool, pool.frames, pool.disk
      ensures pool.Valid() && old(pool.disk.history) <= pool.disk.history && pool.disk.now.wal == old(pool.disk.now).wal
      ensures Flat(pool.State()) == Flat(old(pool.State())) && Pins(pool.State()) == Pins(old(pool.State()))
      ensures r.Success? ==> pid >= 0 && r.value == (HeapAt(old(pool.State()), pid).lsn < number)
      ensures r.Success? ==> HeapKey(pid) in pool.table
      ensures pid >= 0 && |Pins(old(pool.State()))| < BUFFER_SIZE ==> r.Success?
      ensures old(Safe(pool.State(), base, rs, NONE)) ==>
        Safe(pool.State(), base, rs, NONE) && AllRecoverable(pool.disk.history, |old(pool.disk.history)|, base, rs)
    {
      hide Sound, Safe, Settled, FetchedAs, Recoverable, Flat, Pins, HeapAt, PoolSpec.Value;
      ghost var p := pool.State();
      var page := Access(pid, base, rs, NONE);
      if page.Failure? {
        return Failure(page.error);
      }
      ghost var q := pool.State();
      FetchedFrame(p, pid, q, page.value);
      FetchedPins(p, pid, q, page.value);
      var older := pool.frames[page.value].data.heap.lsn < number;
      var u := pool.Unpin(HeapKey(pid));
      if Safe(p, base, rs, NONE) {
        UnpinKeeps(q, base, rs, NONE, pool.State());
      }
      return Success(older);
    }

    /** Copies a record's row into its page and writes the page out under the record's number. */
    method ApplyRedo(rec: Record, ghost base: Base, ghost rs: seq<Record>) returns (r: Result<(), WalError>)
      requires pool.Valid() && Fits(rec)
      modifies pool, pool.frames, pool.disk
      ensures pool.Valid() && old(pool.disk.history) <= pool.disk.history && pool.disk.now.wal == old(pool.disk.now).wal
      ensures Pins(pool.State()) == Pins(old(pool.State())) || r.Failure?
      ensures r.Success? ==> rec.rid.pid >= 0 && RedoneAs(old(pool.State()), rec, pool.State())
      ensures rec.rid.pid >= 0 && HeapKey(rec.rid.pid) in old(pool.table) ==> r.Success?
      ensures old(RedoSafe(pool.State(), base, rs, rec)) ==>
        Safe(pool.State(), base, rs, NONE) && AllRecoverable(pool.disk.history, |old(pool.disk.history)|, base, rs)
    {
      hide Sound, Safe, Settled, FetchedAs, Recoverable, Flat, Pins, HeapAt, PoolSpec.Value, PageConsistent,
           RedoneAs, RedoSafe, Redone;
      ghost var p := pool.State();
      if RedoSafe(p, base, rs, rec) {
        RedoSafeMeans(p, base, rs, rec);
      }
      var page := Access(rec.rid.pid, base, rs, NONE);
      if page.Failure? {
        return Failure(page.error);
      }
      ghost var q := pool.State();
      FetchedFrame(p, rec.rid.pid, q, page.value);
      FetchedPins(p, rec.rid.pid, q, page.value);
      var h := pool.frames[page.value].data.heap;
      if |rec.row| > 0 {
        h := h.(data := Overwrite(h.data, rec.rid.slot.offset, rec.row));
      }
      h := h.(lsn := rec.lsn);
      RedoneIs(HeapAt(p, rec.rid.pid), rec, h);
      Finish(page.value, rec.rid.pid, h, base, rs);
      RedoEffect(p, q, rec, pool.State());
      return Success(());
    }

    /** Redo of one record, if its page is older. */
    method RedoRecord(rec: Record, ghost start: Heap, ghost base: Base, ghost rs: seq<Record>, ghost i: nat)
      returns (r: Result<(), WalError>)
      requires pool.Valid() && Fits(rec)
      modifies pool, pool.frames, pool.disk
      ensures pool.Valid() && old(pool.disk.history) <= pool.disk.history && pool.disk.now.wal == old(pool.disk.now).wal
      ensures Pins(pool.State()) == Pins(old(pool.State()))
      ensures r.Failure? ==> FlatHeap(pool.State()) == FlatHeap(old(pool.State()))
      ensures r.Success? ==> rec.rid.pid >= 0 && SteppedAs(old(pool.State()), rec, pool.State())
      ensures rec.rid.pid >= 0 && |Pins(old(pool.State()))| < BUFFER_SIZE ==> r.Success?
      ensures i < |rs| && rs[i] == rec && old(MidReplay(pool.State(), start, base, rs, i)) ==>
        && AllRecoverable(pool.disk.history, |old(pool.disk.history)|, base, rs)
        && (r.Success? ==> MidReplay(pool.State(), start, base, rs, i + 1))
    {
      hide Sound, Safe, Recoverable, Flat, Pins, HeapAt, FlatHeap, RedoneAs, RedoSafe, Redone, RedoPage, MidReplay,
           SteppedAs;
      ghost var p := pool.State();
      ghost var mid := i < |rs| && rs[i] == rec && MidReplay(p, start, base, rs, i);
      if mid {
        MidSafe(p, start, base, rs, i);
      }
      var needed := NeedsRedo(rec.rid.pid, rec.lsn, base, rs);
      ghost var q := pool.State();
      SameFlatHeap(p, q);
      if needed.Failure? {
        return Failure(needed.error);
      }
      if needed.value {
        if mid {
          MidRedo(p, start, base, rs, i, q);
        }
        r := ApplyRedo(rec, base, rs);
      } else {
        r := Success(());
      }
      StepEffect(p, rec, q, needed.value, pool.State());
      if mid {
        MidNext(p, start, base, rs, i, pool.State());
      }
    }

    /** Replays the log: every record up to the one the header names, or up to a bad one. */
    method ReplayTransaction(ghost base: Base, ghost rs: seq<Record>) returns (r: Result<(), WalError>)
      requires pool.Valid()
      modifies pool, pool.frames, pool.disk
      ensures pool.Valid() && old(pool.disk.history) <= pool.disk.history && pool.disk.now.wal == old(pool.disk.now).wal
      ensures Pins(pool.State()) == Pins(old(pool.State()))
      ensures r.Success? ==> ReplayedAs(old(pool.State()), pool.State(), true)
      ensures |Pins(old(pool.State()))| < BUFFER_SIZE ==> ReplayedAs(old(pool.State()), pool.State(), r.Success?)
      ensures old(Safe(pool.State(), base, rs, NONE)) ==>
        && AllRecoverable(pool.disk.history, |old(pool.disk.history)|, base, rs)
        && (r.Success? ==> Restored(pool.State(), base, rs))
        && (|Pins(old(pool.State()))| < BUFFER_SIZE ==> r.Success?)
    {
      hide Sound, Safe, Recoverable, Flat, Pins, HeapAt, FlatHeap, RedoPage, MidReplay, SteppedAs, ReplayedAs,
           ReplayLeft, Records, Parse, DecodeEntry, Restored, Fits, AllRecoverable;
      ghost var p, h0 := pool.State(), pool.disk.history;
      ghost var safe := Safe(p, base, rs, NONE);
      var log := pool.disk.now.wal;
      ReplayBegins(p, base, rs);
      NoneNew(h0, base, rs);
      if |log| < WAL_HEADER_SIZE {
        return Success(());
      }
      var last := FromLE(log[..WAL_HEADER_SIZE]);
      if last < WAL_HEADER_SIZE || last >= |log| {
        return Success(());
      }
      var offset := WAL_HEADER_SIZE;
      ghost var i := 0;
      while offset <= last
        invariant pool.Valid() && h0 <= pool.disk.history && pool.disk.now.wal == log
            && PinsOf(pool.State()) == PinsOf(p)
        invariant ReplayLeft(p, pool.State(), Parse(log, offset, last))
        invariant safe ==> AllRecoverable(pool.disk.history, |h0|, base, rs)
        invariant safe ==>
          MidReplay(pool.State(), FlatHeap(p), base, rs, i) && Remaining(rs, i, Parse(log, offset, last))
        decreases |log| + ENTRY_SIZE - offset
      {
        ParseOne(log, offset, last);
        if offset > |log| || ENTRY_SIZE > |log| - offset {
          break;
        }
        var e := DecodeEntry(log[offset..offset + ENTRY_SIZE]);
        var at := offset + ENTRY_SIZE;
        if e.rowSize > |log| - at || e.rid.slot.size < 0 || e.rowSize != e.rid.slot.size || e.lsn > LSN_MAX
           || e.rid.slot.offset + e.rowSize > HEAP_PAYLOAD_SIZE {
          break;
        }
        var rec := Record(e.lsn, e.rid, log[at..at + e.rowSize]);
        ghost var q, h := pool.State(), pool.disk.history;
        ghost var rest := Parse(log, at + e.rowSize, last);
        if safe {
          RemainingNext(rs, i, rec, rest);
          MidPid(q, FlatHeap(p), base, rs, i);
        }
        r := RedoRecord(rec, FlatHeap(p), base, rs, i);
        if safe {
          RecoverableJoins(pool.disk.history, |h0|, |h|, h, base, rs);
        }
        if r.Failure? {
          LeftFails(p, q, rec, rest, pool.State());
          return;
        }
        LeftSteps(p, q, rec, rest, pool.State());
        offset := at + e.rowSize;
        i := i + 1;
      }
      ParseOne(log, offset, last);
      LeftEnds(p, pool.State());
      if safe {
        MidEnds(pool.State(), FlatHeap(p), base, rs, i);
      }
      return Success(());
    }
  }

  lemma SafeRecoverable(p: Pool, base: Base, rs: seq<Record>, busy: set<int>)
    requires Safe(p, base, rs, busy)
    ensures Recoverable(p.disk, base, rs)
  {
  }

  lemma SettledSafe(p: Pool, base: Base, rs: seq<Record>, busy: set<int>)
    requires Settled(p, base, rs, busy)
    ensures Safe(p, base, rs, busy)
  {
  }

  lemma FetchedLog(p: Pool, k: Key, q: Pool, f: nat)
    requires Sound(p) && FetchedAs(p, k, q, f)
    ensures q.disk.wal == p.disk.wal
  {
  }

  lemma WriteAndLetGo(p: Pool, base: Base, rs: seq<Record>, pid: int, h: HeapImage, q: Pool, r: Pool)
    requires WrittenThrough(p, pid, h, q) && Sound(r) && Flat(r) == Flat(q) && r.disk == q.disk
    ensures BaseTotal(base) && AllFit(rs) && PageConsistent(h, base[pid], rs, pid) ==>
      && ((Safe(p, base, rs, {pid}) || Safe(p, base, rs, NONE)) ==>
            Safe(r, base, rs, NONE) && Recoverable(r.disk, base, rs))
      && (Settled(p, base, rs, {pid}) && PageComplete(h, base[pid], rs, pid) ==> Settled(r, base, rs, NONE))
  {
    if BaseTotal(base) && AllFit(rs) && PageConsistent(h, base[pid], rs, pid) {
      if Settled(p, base, rs, {pid}) {
        SettledSafe(p, base, rs, {pid});
      }
      hide WrittenThrough, Sound, Flat, PageConsistent, Safe, Settled;
      if Safe(p, base, rs, {pid}) || Safe(p, base, rs, NONE) {
        WrittenKeeps(p, base, rs, pid, h, q);
        UnpinKeeps(q, base, rs, NONE, r);
        SafeRecoverable(r, base, rs, NONE);
      }
    }
  }

  lemma StampableSettled(p: Pool, base: Base, rs: seq<Record>, pid: int)
    requires Stampable(p, base, rs, pid)
    ensures Sound(p) && BaseTotal(base) && AllFit(rs) && Settled(p, base, rs, {pid})
  {
  }

  lemma StampedPage(p: Pool, base: Base, rs: seq<Record>, pid: int)
    requires Stampable(p, base, rs, pid) && |rs| <= LSN_MAX
    ensures Sound(p) && BaseTotal(base) && AllFit(rs)
    ensures var h := HeapAt(p, pid).(lsn := |rs|);
      HeapSized(h) && PageConsistent(h, base[pid], rs, pid) && PageComplete(h, base[pid], rs, pid)
  {
    hide Sound, Consistent, GoodLog, LogFile, HeapOf, Pins, DataAfter;
    assert rs[..|rs|] == rs;
  }

  /** A fetched frame holds the page's value. */
  lemma FetchedFrame(p: Pool, pid: int, q: Pool, f: nat)
    requires Sound(p) && FetchedAs(p, HeapKey(pid), q, f)
    ensures Sound(q) && HeapKey(pid) in q.table && q.table[HeapKey(pid)] == f && f < |q.frames|
    ensures q.frames[f].data == HeapPage(HeapAt(p, pid))
  {
    FlatHeapAt(p, pid);
    FlatHeapAt(q, pid);
    ValueTyped(q, HeapKey(pid));
  }

  lemma StampEffect(p: Pool, q: Pool, f: nat, pid: int, number: nat, r: Pool)
    requires Sound(p) && FetchedAs(p, HeapKey(pid), q, f) && Sound(r) && pid >= 0
    requires var h := HeapAt(p, pid).(lsn := number);
      Flat(r) == Flat(q)[HeapKey(pid) := HeapPage(h)] && r.disk == WritePage(q.disk, HeapKey(pid), HeapPage(h))
    requires Pins(r) == PinDown(Pins(q), HeapKey(pid)) && (DirtyInsideBut(q, HeapKey(pid)) ==> DirtyInside(r))
    ensures CommittedAs(p, pid, number, r)
  {
    var h := HeapAt(p, pid).(lsn := number);
    FetchedPins(p, pid, q, f);
    FetchedResident(p, pid, q, f);
    ReadAfterWrite(q.disk, HeapKey(pid), HeapPage(h), HeapKey(pid));
    hide Sound, Flat, Pins, HeapAt, DirtyInside, DirtyInsideBut, FetchedAs, ReadPage;
    WrittenLength(q.disk, pid, h);
  }

  /** A fetch of a page that is in memory adds a pin. */
  lemma FetchedResident(p: Pool, pid: int, q: Pool, f: nat)
    requires Sound(p) && FetchedAs(p, HeapKey(pid), q, f)
    ensures Sound(q)
    ensures HeapKey(pid) in p.table ==>
      q.disk == p.disk && (DirtyInsideBut(p, HeapKey(pid)) ==> DirtyInsideBut(q, HeapKey(pid)))
  {
    hide FrameSound, DiskSound, QueueExact, EvictedFrom, Flat, Pins;
  }

  lemma WrittenLength(d: DiskImage, pid: nat, h: HeapImage)
    ensures |WritePage(d, HeapKey(pid), HeapPage(h)).heap| == Longer(|d.heap|, pid)
  {
  }

  /** Once its record is logged, a written row only lacks the number on its page. */
  lemma WrittenLogged(p: Pool, base: Base, rs: seq<Record>, rid: RID, row: Row, q: Pool)
    requires RowWritten(p, base, rs, rid, row) && |RowBytes(row)| == rid.slot.size && |rs| < LSN_MAX
    requires |p.disk.wal| >= WAL_HEADER_SIZE
    requires q == p.(disk := AfterHeader(p.disk, RecordBytes(Record(|rs| + 1, rid, RowBytes(row)))))
    ensures
      var rec := Record(|rs| + 1, rid, RowBytes(row));
      && Stampable(q, base, rs + [rec], rid.pid)
      && (forall n :: 0 <= n <= |RecordBytes(rec)| ==> Recoverable(AfterBytes(p.disk, RecordBytes(rec), n), base, rs))
      && Recoverable(q.disk, base, rs + [rec])
  {
    var rec := Record(|rs| + 1, rid, RowBytes(row));
    AppendRecoverable(p.disk, base, rs, rec);
    LoggedSettles(p, base, rs, rec, q);
    SameFlatHeap(p, q);
    DataAfterLast(base[rid.pid], rs, rec);
  }

  lemma DataAfterLast(base: PageBase, rs: seq<Record>, r: Record)
    requires |base.data| == HEAP_PAYLOAD_SIZE && AllFit(rs) && Fits(r)
    ensures AllFit(rs + [r])
    ensures DataAfter(base, rs + [r], r.rid.pid) == Overwrite(DataAfter(base, rs, r.rid.pid), r.rid.slot.offset, r.row)
  {
    assert (rs + [r])[..|rs|] == rs;
  }

  /** The log being no part of the pages, a commit counted from after the append is one counted from before it. */
  lemma CommitOverLog(p: Pool, q: Pool, pid: int, number: nat, r: Pool)
    requires Sound(p) && Sound(q) && Sound(r) && Flat(q) == Flat(p) && Pins(q) == Pins(p)
    requires q == p.(disk := p.disk.(wal := q.disk.wal))
    requires CommittedAs(q, pid, number, r)
    ensures CommittedAs(p, pid, number, r)
  {
    FlatHeapAt(p, pid);
    FlatHeapAt(q, pid);
  }

  lemma HistoryJoins(h0: seq<DiskImage>, d: DiskImage, b: seq<Byte>, h1: seq<DiskImage>, base: Base, rs: seq<Record>,
                     rs': seq<Record>)
    requires |d.wal| >= WAL_HEADER_SIZE && h1 == h0 + AppendStates(d, b)
    requires forall n :: 0 <= n <= |b| ==> Recoverable(AfterBytes(d, b, n), base, rs)
    requires Recoverable(AfterHeader(d, b), base, rs')
    ensures OldOrNew(h1, |h0|, base, rs, rs')
  {
    hide Recoverable, AfterBytes, AfterHeader;
    forall i | |h0| <= i < |h1| ensures Recoverable(h1[i], base, rs) || Recoverable(h1[i], base, rs') {
      assert h1[i] == AppendStates(d, b)[i - |h0|];
    }
  }

  lemma LaterNew(h1: seq<DiskImage>, h2: seq<DiskImage>, n: nat, base: Base, rs: seq<Record>, rs': seq<Record>)
    requires n <= |h1| && h1 <= h2 && OldOrNew(h1, n, base, rs, rs') && AllRecoverable(h2, |h1|, base, rs')
    ensures OldOrNew(h2, n, base, rs, rs')
  {
    hide Recoverable;
    forall i | n <= i < |h2| ensures Recoverable(h2[i], base, rs) || Recoverable(h2[i], base, rs') {
      if i < |h1| {
        assert h2[i] == h1[i];
      }
    }
  }

  lemma NothingNew(h: seq<DiskImage>, base: Base, rs: seq<Record>, rs': seq<Record>)
    ensures OldOrNew(h, |h|, base, rs, rs')
  {
  }

  lemma FetchedPins(p: Pool, pid: int, q: Pool, f: nat)
    requires Sound(p) && FetchedAs(p, HeapKey(pid), q, f)
    ensures Flat(q) == Flat(p) && PinDown(Pins(q), HeapKey(pid)) == Pins(p) && Releasable(q, HeapKey(pid))
  {
    PinUpDown(Pins(p), HeapKey(pid));
  }

  lemma RedoSafeMeans(p: Pool, base: Base, rs: seq<Record>, r: Record)
    requires Fits(r) && RedoSafe(p, base, rs, r)
    ensures Sound(p) && BaseTotal(base) && AllFit(rs) && Safe(p, base, rs, NONE)
    ensures PageConsistent(Redone(HeapAt(p, r.rid.pid), r), base[r.rid.pid], rs, r.rid.pid)
  {
  }

  lemma RedoneIs(h: HeapImage, r: Record, h': HeapImage)
    requires HeapSized(h) && Fits(r)
    requires h' == h.(data := if |r.row| > 0 then Overwrite(h.data, r.rid.slot.offset, r.row) else h.data, lsn := r.lsn)
    ensures h' == Redone(h, r) && HeapSized(h')
  {
    assert |r.row| == 0 ==> Overwrite(h.data, r.rid.slot.offset, r.row) == h.data;
  }

  lemma RedoEffect(p: Pool, q: Pool, r: Record, after: Pool)
    requires Sound(p) && Sound(q) && Sound(after) && Fits(r) && Flat(q) == Flat(p)
    requires Flat(after) == Flat(q)[HeapKey(r.rid.pid) := HeapPage(Redone(HeapAt(p, r.rid.pid), r))]
    ensures RedoneAs(p, r, after)
  {
    forall i: int ensures HeapAt(after, i) == if i == r.rid.pid then Redone(HeapAt(p, i), r) else HeapAt(p, i) {
      FlatHeapAt(p, i);
      FlatHeapAt(after, i);
    }
  }

  lemma MidSafe(p: Pool, start: Heap, base: Base, rs: seq<Record>, i: nat)
    requires MidReplay(p, start, base, rs, i)
    ensures Safe(p, base, rs, NONE)
  {
  }

  /** Redo of the next record keeps its page fit to be written out. */
  lemma MidRedo(p: Pool, start: Heap, base: Base, rs: seq<Record>, i: nat, q: Pool)
    requires MidReplay(p, start, base, rs, i) && i < |rs| && rs[i].rid.pid >= 0 && Fits(rs[i])
    requires Safe(q, base, rs, NONE) && HeapAt(q, rs[i].rid.pid) == HeapAt(p, rs[i].rid.pid)
    requires HeapAt(p, rs[i].rid.pid).lsn < rs[i].lsn
    ensures RedoSafe(q, base, rs, rs[i])
  {
    hide Sound, Consistent, LogFile, HeapOf, HeapAt, PageConsistent, PageMidway, DataAfter;
    var pid := rs[i].rid.pid;
    assert FlatHeap(p)[pid] == HeapAt(p, pid);
    assert PageMidway(FlatHeap(p)[pid], start[pid].lsn, base[pid], rs, i, pid);
    RedoKeepsPage(HeapAt(p, pid), start[pid].lsn, base[pid], rs, i, pid);
  }

  lemma StepEffect(p: Pool, r: Record, q: Pool, needed: bool, after: Pool)
    requires Sound(p) && Sound(q) && Sound(after) && Fits(r) && FlatHeap(q) == FlatHeap(p)
    requires needed == (HeapAt(p, r.rid.pid).lsn < r.lsn)
    requires if needed then RedoneAs(q, r, after) else after == q
    ensures SteppedAs(p, r, after)
  {
    hide Sound, HeapAt;
    assert FlatHeap(p)[r.rid.pid] == HeapAt(p, r.rid.pid) && FlatHeap(q)[r.rid.pid] == HeapAt(q, r.rid.pid);
    assert FlatHeap(p)[r.rid.pid := FlatHeap(p)[r.rid.pid]] == FlatHeap(p);
  }

  lemma MidNext(p: Pool, start: Heap, base: Base, rs: seq<Record>, i: nat, q: Pool)
    requires MidReplay(p, start, base, rs, i) && i < |rs| && Safe(q, base, rs, NONE)
    requires Fits(rs[i]) && rs[i].rid.pid >= 0 && SteppedAs(p, rs[i], q)
    ensures MidReplay(q, start, base, rs, i + 1)
  {
    assert Numbered(rs);
    hide Sound, Consistent, Recoverable, HeapAt, PageMidway, RedoPage;
    MidwayStep(FlatHeap(p), start, base, rs, i);
  }

  lemma NoneNew(h: seq<DiskImage>, base: Base, rs: seq<Record>)
    ensures AllRecoverable(h, |h|, base, rs)
  {
  }

  lemma RecoverableJoins(h2: seq<DiskImage>, n0: nat, n1: nat, h1: seq<DiskImage>, base: Base, rs: seq<Record>)
    requires n0 <= n1 == |h1| && h1 <= h2
    requires AllRecoverable(h1, n0, base, rs) && AllRecoverable(h2, n1, base, rs)
    ensures AllRecoverable(h2, n0, base, rs)
  {
    hide Recoverable;
    forall i | n0 <= i < |h2| ensures Recoverable(h2[i], base, rs) {
      if i < n1 {
        assert h2[i] == h1[i];
      }
    }
  }

  lemma ParseOne(log: seq<Byte>, offset: nat, last: nat)
    ensures offset > last || RecordAt(log, offset).None? ==> Parse(log, offset, last) == []
    ensures offset <= last && RecordAt(log, offset).Some? ==>
      var rec := RecordAt(log, offset).value;
      Fits(rec) && Parse(log, offset, last) == [rec] + Parse(log, offset + ENTRY_SIZE + |rec.row|, last)
  {
    if RecordAt(log, offset).Some? {
      RecordAtFits(log, offset);
    }
  }

  /** Negative pages are never in the pool, so they are as they are on disk. */
  lemma SafeConsistent(p: Pool, base: Base, rs: seq<Record>)
    requires Safe(p, base, rs, NONE)
    ensures Consistent(FlatHeap(p), base, rs)
  {
    hide PageConsistent, HeapAt;
    forall pid: int ensures PageConsistent(FlatHeap(p)[pid], base[pid], rs, pid) {
      if pid < 0 {
        NegativePage(p, pid);
        assert PageConsistent(HeapOf(p.disk)[pid], base[pid], rs, pid);
      } else {
        assert PageConsistent(HeapAt(p, pid), base[pid], rs, pid);
      }
    }
  }

  lemma NegativePage(p: Pool, pid: int)
    requires Sound(p) && pid < 0
    ensures HeapAt(p, pid) == HeapOf(p.disk)[pid]
  {
  }

  lemma MidwayBegins(heap: Heap, base: Base, rs: seq<Record>)
    requires BaseTotal(base) && AllFit(rs) && Consistent(heap, base, rs)
    ensures HeapTotal(heap) && Midway(heap, heap, base, rs, 0)
  {
    forall p: int ensures PageMidway(heap[p], heap[p].lsn, base[p], rs, 0, p) {
      assert PageConsistent(heap[p], base[p], rs, p);
    }
  }

  lemma ReplayBegins(p: Pool, base: Base, rs: seq<Record>)
    requires Sound(p)
    ensures LastOffset(p.disk.wal).None? ==>
        ReplayedAs(p, p, true) && (Safe(p, base, rs, NONE) ==> Restored(p, base, rs))
    ensures LastOffset(p.disk.wal).Some? ==>
      var rest := Parse(p.disk.wal, WAL_HEADER_SIZE, LastOffset(p.disk.wal).value);
      && ReplayLeft(p, p, rest)
      && (Safe(p, base, rs, NONE) ==> MidReplay(p, FlatHeap(p), base, rs, 0) && Remaining(rs, 0, rest))
  {
    hide Sound, Consistent, PageConsistent, HeapAt, HeapOf, LogFile, Midway, Parse, RecordAt;
    RecordsFit(p.disk.wal);
    if Safe(p, base, rs, NONE) {
      Recovers(p.disk, base, rs);
      SafeConsistent(p, base, rs);
      MidwayBegins(FlatHeap(p), base, rs);
      assert rs[0..] == rs;
      if rs == [] {
        MidEnds(p, FlatHeap(p), base, rs, 0);
      }
    }
  }

  lemma RemainingNext(rs: seq<Record>, i: nat, rec: Record, rest: seq<Record>)
    requires Remaining(rs, i, [rec] + rest)
    ensures i < |rs| && rs[i] == rec && Remaining(rs, i + 1, rest)
  {
    assert rs[i..][0] == rec && rs[i..][1..] == rs[i + 1..];
  }

  lemma MidPid(p: Pool, start: Heap, base: Base, rs: seq<Record>, i: nat)
    requires MidReplay(p, start, base, rs, i) && i < |rs|
    ensures rs[i].rid.pid >= 0
  {
    assert Loggable(rs[i]);
  }

  lemma LeftSteps(p: Pool, q: Pool, rec: Record, rest: seq<Record>, q': Pool)
    requires Sound(p) && Sound(q) && Sound(q') && ReplayLeft(p, q, [rec] + rest)
    requires Fits(rec) && rec.rid.pid >= 0 && SteppedAs(q, rec, q')
    ensures ReplayLeft(p, q', rest)
  {
    hide Sound, HeapAt, Records;
    assert ([rec] + rest)[1..] == rest;
    assert forall i :: 0 <= i < |rest| ==> rest[i] == ([rec] + rest)[i + 1];
  }

  lemma LeftFails(p: Pool, q: Pool, rec: Record, rest: seq<Record>, q': Pool)
    requires Sound(p) && Sound(q) && Sound(q') && ReplayLeft(p, q, [rec] + rest)
    requires FlatHeap(q') == FlatHeap(q)
    ensures rec.rid.pid < 0 ==> ReplayedAs(p, q', false)
  {
    hide Sound, HeapAt, Records;
  }

  lemma LeftEnds(p: Pool, q: Pool)
    requires Sound(p) && Sound(q) && ReplayLeft(p, q, [])
    ensures ReplayedAs(p, q, true)
  {
    hide Sound, HeapAt, Records;
  }

  lemma MidEnds(q: Pool, start: Heap, base: Base, rs: seq<Record>, i: nat)
    requires MidReplay(q, start, base, rs, i) && Remaining(rs, i, [])
    ensures Restored(q, base, rs)
  {
    assert i == |rs| && rs[..i] == rs by {
      assert |rs[i..]| == 0;
    }
    hide Sound, Recoverable, PageConsistent, HeapAt;
    forall pid: int ensures PageComplete(HeapAt(q, pid), base[pid], rs, pid) {
      assert FlatHeap(q)[pid] == HeapAt(q, pid);
      assert PageMidway(FlatHeap(q)[pid], start[pid].lsn, base[pid], rs, i, pid);
    }
  }

  lemma UsedAt(p: Pool, pid: int)
    requires Sound(p) && HeapKey(pid) in p.table
    ensures var f := p.table[HeapKey(pid)]; f < |p.frames| && Used(p.frames[f]) && KeyOf(p.frames[f]) == HeapKey(pid)
  {
  }

  lemma ThroughBacked(p: Pool, pid: int, h: HeapImage, q: Pool)
    requires WrittenThrough(p, pid, h, q) && HeapKey(pid) in q.table
    ensures Releasable(q, HeapKey(pid))
  {
    ReadAfterWrite(p.disk, HeapKey(pid), HeapPage(h), HeapKey(pid));
    assert Flat(q)[HeapKey(pid)] == PoolSpec.Value(q, HeapKey(pid));
  }

  lemma ThroughInside(p: Pool, k: Key, data: Page)
    requires Sound(p) && k in p.table
    ensures DirtyInsideBut(p, k) ==> DirtyInside(StoreThrough(p, p.table[k], data, false))
  {
    hide QueueExact, FrameSound, DiskSound;
    assert KeyOf(p.frames[p.table[k]]) == k;
  }
}
