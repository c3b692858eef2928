/**
  Sessions: a database is opened on what a crash left behind, replays its log, takes rows,
  and may crash at any moment. Whether reopening drops what follows the last record of the
  log decides what a second crash can do.
 */
module Sessions {
  import opened StorageTypes
  import opened Bytes
  import opened Disks
  import opened PoolSpec
  import opened BufferPools
  import opened HeapRows
  import opened HeapSpec
  import opened LogFormat
  import opened Redo
  import opened Recovery
  import opened Wals
  import opened InsertEntry
  import opened KeptRows
  import opened Statements

  /** What opening a log does with bytes after its last record: nothing in the source; dropping them is the repair. */
  datatype TailMode = KeepTail | DropTail

  /** The log file cut off after the record its header names. */
  function Trimmed(wal: seq<Byte>): seq<Byte> {
    match LastOffset(wal)
    case None => if |wal| < WAL_HEADER_SIZE then wal else wal[..WAL_HEADER_SIZE]
    case Some(last) =>
      match RecordAt(wal, last)
      case None => wal
      case Some(r) => RecordAtFits(wal, last); wal[..last + ENTRY_SIZE + |r.row|]
  }

  lemma TrimmedLog(rs: seq<Record>, tail: seq<Byte>)
    requires GoodLog(rs)
    ensures Trimmed(LogFile(rs, tail)) == LogFile(rs, [])
  {
    hide RecordBytes, EntryBytes, ToLE, FromLE, Pow256, RecordAt;
    var log := LogFile(rs, tail);
    var head := ToLE(LastStart(rs), WAL_HEADER_SIZE);
    assert log[..WAL_HEADER_SIZE] == head;
    FromToLE(LastStart(rs), WAL_HEADER_SIZE);
    if rs != [] {
      var n := |rs| - 1;
      assert Loggable(rs[n]);
      var before := head + AllBytes(rs[..n]);
      assert log == before + RecordBytes(rs[n]) + tail;
      RecordIsAt(log, before, rs[n], tail);
      assert log[..|before| + |RecordBytes(rs[n])|] == before + RecordBytes(rs[n]) == LogFile(rs, []);
    } else {
      assert log[..WAL_HEADER_SIZE] == LogFile(rs, []);
    }
  }

  /** An empty pool on a recoverable disk is safe. */
  lemma FreshSafe(p: Pool, base: Base, rs: seq<Record>)
    requires Sound(p) && Recoverable(p.disk, base, rs)
    requires forall k :: PoolSpec.Value(p, k) == ReadPage(p.disk, k)
    ensures Safe(p, base, rs, NONE)
  {
    hide PageConsistent;
    forall pid: int ensures PageConsistent(HeapAt(p, pid), base[pid], rs, pid) {
      assert PoolSpec.Value(p, HeapKey(pid)) == ReadPage(p.disk, HeapKey(pid));
      assert HeapAt(p, pid) == HeapOf(p.disk)[pid];
    }
  }

  lemma RestoredSettles(p: Pool, base: Base, rs: seq<Record>)
    requires Restored(p, base, rs) && p.disk.wal == LogFile(rs, [])
    ensures Settled(p, base, rs, NONE)
  {
  }

  lemma TrimmedRecoverable(d: DiskImage, base: Base, rs: seq<Record>)
    requires Recoverable(d, base, rs)
    ensures Recoverable(d.(wal := Trimmed(d.wal)), base, rs) && Trimmed(d.wal) == LogFile(rs, [])
    ensures LastLsn(d.wal) == |rs| && LastLsn(Trimmed(d.wal)) == |rs|
  {
    var tail :| d.wal == LogFile(rs, tail);
    TrimmedLog(rs, tail);
    LastLsnCounts(rs, tail);
    LastLsnCounts(rs, []);
    TornRecoverable(d, base, rs, d.(wal := Trimmed(d.wal)), []);
  }

  lemma RecoverableLength(d: DiskImage, base: Base, rs: seq<Record>)
    requires Recoverable(d, base, rs)
    ensures |d.wal| >= WAL_HEADER_SIZE
  {
  }

  /** Opens the files as a crash may have left them; an empty log gets its header. */
  method OpenFiles(d: DiskImage, mode: TailMode, ghost base: Base, ghost rs: seq<Record>) returns (disk: Disk)
    requires DiskSound(d)
    ensures fresh(disk) && disk.Valid() && DiskSound(disk.now)
    ensures disk.history[0] == d && disk.now == d.(wal := disk.now.wal)
    ensures Recoverable(d, base, rs) ==>
      && AllRecoverable(disk.history, 0, base, rs)
      && Recoverable(disk.now, base, rs) && LastLsn(disk.now.wal) == |rs|
      && disk.now.wal == (if mode == DropTail then LogFile(rs, []) else d.wal)
  {
    hide Recoverable, Trimmed, LogFile;
    disk := new Disk(d);
    if |d.wal| == 0 {
      disk.WriteLog(ToLE(0, WAL_HEADER_SIZE));
    }
    if Recoverable(d, base, rs) {
      RecoverableLength(d, base, rs);
      TrimmedRecoverable(d, base, rs);
    }
    if mode == DropTail {
      disk.WriteLog(Trimmed(disk.now.wal));
    }
  }

  /** Opens the database and replays the log. */
  method Open(d: DiskImage, mode: TailMode, ghost base: Base, ghost rs: seq<Record>)
    returns (ins: Inserter, r: Result<(), WalError>)
    requires DiskSound(d)
    ensures fresh(ins) && fresh(ins.pool) && fresh(ins.pool.disk) && fresh(ins.pool.frames) && fresh(ins.wal)
    ensures ins.pool.Valid() && ins.wal.pool == ins.pool && ins.acks == [] && Pins(ins.pool.State()) == map[]
    ensures ins.pool.disk.history[0] == d
    ensures Recoverable(d, base, rs) ==>
      && r.Success? && ins.wal.lsn == |rs| && Restored(ins.pool.State(), base, rs)
      && FlatHeap(ins.pool.State()) == ReplayAll(rs, HeapOf(d)).0
      && AllRecoverable(ins.pool.disk.history, 0, base, rs)
      && (mode == DropTail ==> Settled(ins.pool.State(), base, rs, NONE))
      && (mode == KeepTail ==> ins.pool.disk.now.wal == d.wal)
  {
    hide Sound, Recoverable, Safe, Restored, Settled, LogFile, LastLsn, AllRecoverable, Flat, Pins, PoolSpec.Value;
    var disk := OpenFiles(d, mode, base, rs);
    ghost var h := disk.history;
    var pool := new BufferPool(disk);
    ghost var p := pool.State();
    if Recoverable(d, base, rs) {
      FreshSafe(p, base, rs);
    }
    var wal := new Wal(pool);
    r := wal.ReplayTransaction(base, rs);
    if Recoverable(d, base, rs) {
      ReplayedHeap(p, d, base, rs, pool.State());
      RecoverableJoins(disk.history, 0, |h|, h, base, rs);
      if mode == DropTail {
        RestoredSettles(pool.State(), base, rs);
      }
    }
    ins := new Inserter(wal);
  }

  /** What replay makes of the pages a disk holds. */
  lemma ReplayedHeap(p: Pool, d: DiskImage, base: Base, rs: seq<Record>, q: Pool)
    requires Sound(p) && Sound(q) && DiskSound(d) && Recoverable(p.disk, base, rs) && p.disk == d.(wal := p.disk.wal)
    requires (forall k :: PoolSpec.Value(p, k) == ReadPage(p.disk, k)) && ReplayedAs(p, q, true)
    ensures AllFit(rs) && FlatHeap(q) == ReplayAll(rs, HeapOf(d)).0
  {
    Recovers(p.disk, base, rs);
    SamePages(d, p.disk);
    hide Recoverable, ReplayAll, Records;
    forall pid: int ensures FlatHeap(p)[pid] == HeapOf(p.disk)[pid] {
      assert PoolSpec.Value(p, HeapKey(pid)) == ReadPage(p.disk, HeapKey(pid));
    }
    assert FlatHeap(p) == HeapOf(d);
  }

  // ---------- a session, and a crash anywhere in it ----------

  /** Every state of the disk is recovered as a prefix of rs' that has at least the first n records. */
  ghost predicate Beyond(history: seq<DiskImage>, base: Base, n: nat, rs': seq<Record>) {
    forall i :: 0 <= i < |history| ==> RecoverableUpTo(history[i], base, n, rs')
  }

  ghost predicate RecoverableUpTo(d: DiskImage, base: Base, n: nat, rs': seq<Record>) {
    exists k :: n <= k <= |rs'| && Recoverable(d, base, rs'[..k])
  }

  ghost predicate AllApart(rs: seq<Record>, n: nat) {
    forall i, j :: n <= i < j < |rs| ==> Apart(rs[i], rs[j])
  }

  /** The records from n on touch no row that was kept before them. */
  ghost predicate AllSpare(base: Base, rs: seq<Record>, n: nat)
    requires BaseTotal(base)
  {
    forall o: Record, j :: n <= j < |rs| && KeptBy(base, o) ==> Apart(o, rs[j])
  }

  /** The rows of the records from n on are kept. */
  ghost predicate AllKept(base: Base, rs: seq<Record>, n: nat)
    requires BaseTotal(base)
  {
    forall i :: n <= i < |rs| ==> KeptBy(base, rs[i])
  }

  /** The records from n on are those of these rows, at live slots. */
  ghost predicate LoggedRows(rs: seq<Record>, n: nat, rows: seq<Row>) {
    && |rs| == n + |rows| && StorableRows(rows)
    && forall i :: 0 <= i < |rows| ==> LogsRow(rs[n + i], rows[i])
  }

  ghost predicate LogsRow(r: Record, row: Row)
    requires StorableRow(row)
  {
    r.row == RowBytes(row) && !r.rid.slot.deleted
  }

  /**
    From the moment insert c was acknowledged on, what is on disk is recovered with c + 1 rows of the
    session, and the page of its row lists the row.
   */
  ghost predicate Durable(history: seq<DiskImage>, base: Base, n: nat, rs': seq<Record>, acks: seq<nat>) {
    forall c, i :: 0 <= c < |acks| && 0 < acks[c] <= i + 1 && i < |history| ==>
        RowDurable(history[i], base, n + c, rs')
  }

  /** The disk is recovered with record m, and the page of its row lists the row. */
  ghost predicate RowDurable(d: DiskImage, base: Base, m: nat, rs': seq<Record>) {
    m < |rs'| && RecoverableUpTo(d, base, m + 1, rs') && Held(d, rs'[m])
  }

  ghost predicate AcksWithin(acks: seq<nat>, history: seq<DiskImage>) {
    && (forall c :: 0 <= c < |acks| ==> 0 < acks[c] <= |history|)
    && forall c, d :: 0 <= c < d < |acks| ==> acks[c] <= acks[d]
  }

  /** More disk states, each recovered as the records there were or with one more: what was durable stays so. */
  lemma DurableGrows(h1: seq<DiskImage>, h2: seq<DiskImage>, base: Base, firm: Base, n: nat, rs: seq<Record>,
                     rs': seq<Record>, acks: seq<nat>)
    requires |rs| == n + |acks| && rs <= rs' && h1 <= h2 && OldOrNew(h2, |h1|, firm, rs, rs')
    requires AllFirmer(firm, base) && AllKept(firm, rs, n) && Durable(h1, base, n, rs, acks)
    ensures Durable(h2, base, n, rs', acks)
  {
    hide Recoverable, Held, KeptBy, AllFirmer;
    forall c, i | 0 <= c < |acks| && 0 < acks[c] <= i + 1 && i < |h2|
      ensures RowDurable(h2[i], base, n + c, rs')
    {
      assert rs'[n + c] == rs[n + c];
      if i < |h1| {
        assert h2[i] == h1[i] && RowDurable(h1[i], base, n + c, rs);
        var k :| n + c + 1 <= k <= |rs| && Recoverable(h1[i], base, rs[..k]);
        assert rs'[..k] == rs[..k];
      } else {
        StillHeld(h2[i], base, firm, rs, rs', rs[n + c]);
        assert rs'[..|rs|] == rs && rs'[..|rs'|] == rs';
      }
    }
  }

  lemma StillHeld(d: DiskImage, base: Base, firm: Base, rs: seq<Record>, rs': seq<Record>, r: Record)
    requires AllFirmer(firm, base) && KeptBy(firm, r) && (Recoverable(d, firm, rs) || Recoverable(d, firm, rs'))
    ensures (Recoverable(d, base, rs) || Recoverable(d, base, rs')) && Held(d, r)
  {
    hide Recoverable, Held, KeptBy, AllFirmer;
    var all := if Recoverable(d, firm, rs) then rs else rs';
    FirmerRecoverable(d, firm, base, all);
    KeptIsHeld(d, firm, all, r);
  }

  /** An acknowledged insert is durable at once. */
  lemma DurableNext(h: seq<DiskImage>, base: Base, n: nat, rs: seq<Record>, acks: seq<nat>)
    requires |rs| == n + |acks| + 1 && h != [] && Recoverable(h[|h| - 1], base, rs) && Durable(h, base, n, rs, acks)
    requires Held(h[|h| - 1], rs[|rs| - 1])
    ensures Durable(h, base, n, rs, acks + [|h|])
  {
    hide Recoverable, Held;
    var acks' := acks + [|h|];
    forall c, i | 0 <= c < |acks'| && 0 < acks'[c] <= i + 1 && i < |h|
      ensures RowDurable(h[i], base, n + c, rs)
    {
      if c < |acks| {
        assert acks[c] == acks'[c];
      } else {
        assert rs[..|rs|] == rs;
      }
    }
  }

  lemma BeyondGrows(h1: seq<DiskImage>, h2: seq<DiskImage>, base: Base, firm: Base, n: nat, rs: seq<Record>,
                    rs': seq<Record>)
    requires n <= |rs| && rs <= rs' && h1 <= h2 && Beyond(h1, base, n, rs) && OldOrNew(h2, |h1|, firm, rs, rs')
    requires AllFirmer(firm, base)
    ensures Beyond(h2, base, n, rs')
  {
    hide Recoverable, AllFirmer;
    forall i | 0 <= i < |h2| ensures RecoverableUpTo(h2[i], base, n, rs') {
      if i < |h1| {
        assert h2[i] == h1[i];
        var k :| n <= k <= |rs| && Recoverable(h1[i], base, rs[..k]);
        assert rs'[..k] == rs[..k];
      } else {
        FirmerRecoverable(h2[i], firm, base, if Recoverable(h2[i], firm, rs) then rs else rs');
        assert rs'[..|rs|] == rs && rs'[..|rs'|] == rs';
      }
    }
  }

  lemma BeyondBegins(h: seq<DiskImage>, base: Base, rs: seq<Record>)
    requires AllRecoverable(h, 0, base, rs)
    ensures Beyond(h, base, |rs|, rs)
  {
    hide Recoverable;
    assert rs[..|rs|] == rs;
  }

  /** A settled pool can take a row into any page. */
  lemma SettledReadable(p: Pool, base: Base, rs: seq<Record>)
    requires Settled(p, base, rs, NONE)
    ensures AllReadable(p)
  {
    SafeConsistent(p, base, rs);
    hide HeapAt;
    forall pid: int ensures HeapReadable(HeapAt(p, pid)) {
      assert PageConsistent(FlatHeap(p)[pid], base[pid], rs, pid);
    }
  }

  lemma InsertedHeap(p: Pool, pid: int, row: Row, lsn: nat, q: Pool, i: int)
    requires Sound(p) && Sound(q) && StorableRow(row) && HeapReadable(HeapAt(p, pid)) && InsertedAs(p, pid, row, lsn, q)
    ensures HeapAt(q, i) == if i == pid then WriteRow(HeapAt(p, pid), row).0.(lsn := lsn) else HeapAt(p, i)
  {
    hide WriteRow;
    FlatHeapAt(p, i);
    FlatHeapAt(q, i);
  }

  /** Takes up the next row. */
  method TakeUp(ins: Inserter, w: Work, ghost firm: Base, ghost busy: set<int>, ghost rs: seq<Record>)
    returns (r: Result<RID, InsertError>, ghost rs': seq<Record>)
    requires ins.pool.Valid() && ins.wal.pool == ins.pool && ins.wal.lsn == |rs| && GoodWork(w)
    requires AllReadable(ins.pool.State()) && Settled(ins.pool.State(), firm, rs, busy) && BusyOnlyFull(busy, rs)
    modifies ins`acks, ins.wal`lsn, ins.pool, ins.pool.frames, ins.pool.disk
    ensures ins.pool.Valid() && ins.wal.lsn == |rs'| && rs <= rs'
    ensures old(ins.pool.disk.history) <= ins.pool.disk.history
    ensures ins.acks == if r.Success? then old(ins.acks) + [|ins.pool.disk.history|] else old(ins.acks)
    ensures OldOrNew(ins.pool.disk.history, |old(ins.pool.disk.history)|, firm, rs, rs')
    ensures Outcome(old(ins.pool.State()), firm, rs, busy, w, r, rs', ins.pool.State())
  {
    hide Sound, HeapAt, InsertedAs, RejectedAs, WriteRow, OldOrNew, AllReadable, HeapReadable, FailedAs, TargetId,
         AdmitsAt, LastReachable, Settled, RowBytes;
    ReadableAt(ins.pool.State(), TargetId(ins.pool.State()));
    r, rs' := ins.CreateEntry(w.row, w.sizes, firm, rs, busy);
  }

  /** The next insert of a session, acknowledged or failed. */
  method InsertNext(ins: Inserter, w: Work, ghost firm: Base, ghost busy: set<int>, ghost base: Base, ghost n: nat,
                    ghost rs: seq<Record>, ghost rows: seq<Row>)
    returns (ok: bool, ghost firm': Base, ghost busy': set<int>, ghost rs': seq<Record>)
    requires ins.pool.Valid() && ins.wal.pool == ins.pool && ins.wal.lsn == |rs| && GoodWork(w)
    requires InSession(ins.pool.State(), firm, busy, ins.pool.disk.history, ins.acks, base, n, rs, rows)
    requires AllReadable(ins.pool.State())
    modifies ins`acks, ins.wal`lsn, ins.pool, ins.pool.frames, ins.pool.disk
    ensures ins.pool.Valid() && ins.wal.lsn == |rs'| && rs <= rs'
    ensures old(ins.pool.disk.history) <= ins.pool.disk.history
    ensures InSession(ins.pool.State(), firm', busy', ins.pool.disk.history, ins.acks, base, n, rs',
                      rows + if ok then [w.row] else [])
    ensures ins.acks == old(ins.acks) + if ok then [|ins.pool.disk.history|] else []
    ensures Statement(old(ins.pool.State()), |rs|, w, ok, ins.pool.State()) && AllReadable(ins.pool.State())
  {
    hide Sound, InSession, Outcome, OldOrNew, AllReadable, Settled, Statement, GoodWork, BusyOnlyFull;
    ghost var p, h, acks := ins.pool.State(), ins.pool.disk.history, ins.acks;
    SessionReady(p, firm, busy, h, acks, base, n, rs, rows);
    var r;
    r, rs' := TakeUp(ins, w, firm, busy, rs);
    ok := r.Success?;
    assert acks + [] == acks;
    IsStatement(p, firm, rs, busy, w, r, rs', ins.pool.State());
    firm', busy' := AfterInsert(p, firm, busy, h, acks, base, n, rs, rows, w, r, rs', ins.pool.State(),
                                ins.pool.disk.history, ins.acks);
  }

  /** What an insert promises, acknowledged or failed. */
  ghost predicate Outcome(p: Pool, base: Base, rs: seq<Record>, busy: set<int>, w: Work, r: Result<RID, InsertError>,
                          rs': seq<Record>, q: Pool) {
    && Sound(p) && Sound(q) && GoodWork(w) && HeapReadable(HeapAt(p, TargetId(p)))
    && var pid := TargetId(p);
    && (r.Success? ==>
          && |rs| < LSN_MAX && r.value.pid == pid >= 0 && rs' == rs + [Record(|rs| + 1, r.value, RowBytes(w.row))]
          && WriteRow(HeapAt(p, pid), w.row).1 == Success(r.value.slot)
          && InsertedAs(p, pid, w.row, |rs| + 1, q) && Settled(q, base, rs', NONE))
    && (r.Failure? ==> rs' == rs && FailedAs(p, base, rs, busy, pid, w.row, r.error, q))
    && (r.Failure? && r.error.Rejected? ==>
          WriteRow(HeapAt(p, pid), w.row).1 == Failure(r.error.e) && RejectedAs(p, pid, w.row, q))
    && (LastReachable(p) && AdmitsAt(p, |rs|, pid, w.row) ==> r.Success? || r.error.Rejected?)
  }

  /** What it does to the session. */
  lemma AfterInsert(p: Pool, firm: Base, busy: set<int>, h: seq<DiskImage>, acks: seq<nat>, base: Base, n: nat,
                    rs: seq<Record>, rows: seq<Row>, w: Work, r: Result<RID, InsertError>, rs': seq<Record>, q: Pool,
                    h2: seq<DiskImage>, acks': seq<nat>)
    returns (firm': Base, busy': set<int>)
    requires h <= h2 && h2 != [] && h2[|h2| - 1] == q.disk && Outcome(p, firm, rs, busy, w, r, rs', q)
    requires acks' == acks + if r.Success? then [|h2|] else []
    requires InSession(p, firm, busy, h, acks, base, n, rs, rows) && OldOrNew(h2, |h|, firm, rs, rs')
    ensures InSession(q, firm', busy', h2, acks', base, n, rs', rows + if r.Success? then [w.row] else [])
  {
    hide Sound, InSession, HeapAt, InsertedAs, RejectedAs, PlacedAs, WriteRow, OldOrNew, AllReadable, HeapReadable,
         FailedAs, TargetId, AdmitsAt, LastReachable, Settled, Statement, Flat, Pins;
    firm', busy' := firm, busy;
    if r.Failure? {
      busy' := if r.error == Failed(LsnOverflow) then busy + {TargetId(p)} else busy;
      SessionStays(p, firm, busy, h, acks, base, n, rs, rows, w.row, r.error, q, h2);
      assert rows + [] == rows && acks + [] == acks;
    } else {
      var rec := Record(|rs| + 1, r.value, RowBytes(w.row));
      SessionTakes(p, firm, busy, h, acks, base, n, rs, rows, w.row, r.value, |rs| + 1, q, h2, acks', rec);
      firm' := Keeping(firm, rec);
    }
  }

  /** What an insert promises makes it a statement. */
  lemma IsStatement(p: Pool, base: Base, rs: seq<Record>, busy: set<int>, w: Work, r: Result<RID, InsertError>,
                    rs': seq<Record>, q: Pool)
    requires Sound(p) && Sound(q) && GoodWork(w) && AllReadable(p) && Outcome(p, base, rs, busy, w, r, rs', q)
    ensures Statement(p, |rs|, w, r.Success?, q) && AllReadable(q)
  {
    hide Sound, HeapAt, InsertedAs, RejectedAs, PlacedAs, WriteRow, AllReadable, HeapReadable, TargetId, AdmitsAt,
         LastReachable, Settled, Flat, Pins;
    StatementReadable(p, |rs|, w, r.Success?, q);
  }

  /**
    Inserts rows one after the other into an opened database. A row that is turned away, or whose
    page cannot be fetched, or that the log has no number for, fails alone and the next one is taken
    up. The moments between the statements are where `done` and the acknowledgements come from.
    Whenever the machine stops, what is on disk is recovered as the rows before the session and a
    prefix of its own, with every insert acknowledged by then.
   */
  method RunSession(ins: Inserter, work: seq<Work>, ghost base: Base, ghost rs: seq<Record>)
    returns (done: seq<bool>, ghost rs': seq<Record>, ghost ms: seq<Moment>, ghost busy: set<int>)
    requires ins.pool.Valid() && ins.wal.pool == ins.pool && ins.wal.lsn == |rs| && ins.acks == []
    requires AllGood(work)
    requires Settled(ins.pool.State(), base, rs, NONE) && AllRecoverable(ins.pool.disk.history, 0, base, rs)
    modifies ins`acks, ins.wal`lsn, ins.pool, ins.pool.frames, ins.pool.disk
    ensures ins.pool.Valid() && |done| == |work| && |ms| == |work| + 1
        && old(ins.pool.disk.history) <= ins.pool.disk.history
    ensures Steps(ms, ins.pool.disk.history, |rs|, work, done) && ins.acks == AcksOf(ms, done)
    ensures ms[0] == Moment(old(ins.pool.State()), |old(ins.pool.disk.history)|)
    ensures ms[|work|] == Moment(ins.pool.State(), |ins.pool.disk.history|)
    ensures rs <= rs' && LoggedRows(rs', |rs|, Acknowledged(work, done))
    ensures Beyond(ins.pool.disk.history, base, |rs|, rs') && AllApart(rs', |rs|)
    ensures BaseTotal(base) && AllSpare(base, rs', |rs|)
    ensures |ins.acks| == |Acknowledged(work, done)| && AcksWithin(ins.acks, ins.pool.disk.history)
    ensures Durable(ins.pool.disk.history, base, |rs|, rs', ins.acks)
    ensures Settled(ins.pool.State(), base, rs', busy) && BusyOnlyFull(busy, rs')
  {
    hide Sound, InSession, Recorded, AllRecoverable, Acknowledged, Settled, LoggedRows, Beyond, Durable, AllApart,
         AllSpare, AcksWithin, Steps, AllReadable, Statement, AllGood, AcksOf, MomentOf;
    done, rs', busy := [], rs, NONE;
    ghost var firm := base;
    SessionBegins(ins.pool.State(), ins.pool.disk.history, base, rs, work);
    ms := [Moment(ins.pool.State(), |ins.pool.disk.history|)];
    while |done| < |work|
      invariant ins.pool.Valid() && ins.wal.lsn == |rs'| && |done| <= |work| && rs <= rs'
      invariant |rs'| == |rs| + |Acknowledged(work, done)| && AllReadable(ins.pool.State())
      invariant InSession(ins.pool.State(), firm, busy, ins.pool.disk.history, ins.acks, base, |rs|, rs',
          Acknowledged(work, done))
      invariant old(ins.pool.disk.history) <= ins.pool.disk.history && ins.pool.disk.history != []
      invariant |ms| == |done| + 1 && Steps(ms, ins.pool.disk.history, |rs|, work, done) && ins.acks == AcksOf(ms, done)
      invariant ms[0] == Moment(old(ins.pool.State()), |old(ins.pool.disk.history)|)
      invariant ms[|done|] == Moment(ins.pool.State(), |ins.pool.disk.history|)
    {
      ghost var h := ins.pool.disk.history;
      WorkAt(work, |done|);
      var ok;
      ok, firm, busy, rs' :=
        InsertNext(ins, work[|done|], firm, busy, base, |rs|, rs', Acknowledged(work, done));
      ghost var q, h2 := ins.pool.State(), ins.pool.disk.history;
      NowMoment(q, h2);
      StepsNext(ms, h, |rs|, work, done, ok, q, h2);
      AcknowledgedNext(work, done, ok);
      RowsLogged(q, firm, busy, h2, ins.acks, base, |rs|, rs', Acknowledged(work, done + [ok]));
      ms := ms + [Moment(q, |h2|)];
      done := done + [ok];
    }
    SessionEnds(ins.pool.State(), firm, busy, ins.pool.disk.history, ins.acks, base, |rs|, rs',
        Acknowledged(work, done));
  }

  lemma WorkAt(work: seq<Work>, i: nat)
    requires AllGood(work) && i < |work|
    ensures GoodWork(work[i])
  {
  }

  lemma NowMoment(p: Pool, h: seq<DiskImage>)
    requires Sound(p) && AllReadable(p) && h != [] && h[|h| - 1] == p.disk
    ensures MomentOf(Moment(p, |h|), h)
  {
  }

  lemma RowsLogged(p: Pool, firm: Base, busy: set<int>, h: seq<DiskImage>, acks: seq<nat>, base: Base, n: nat,
                   rs: seq<Record>, rows: seq<Row>)
    requires InSession(p, firm, busy, h, acks, base, n, rs, rows)
    ensures |rs| == n + |rows|
  {
  }

  /**
    Between two statements of a session that began with n records: these rows are logged and kept,
    and none is lost.
   */
  ghost predicate InSession(p: Pool, firm: Base, busy: set<int>, h: seq<DiskImage>, acks: seq<nat>, base: Base, n: nat,
                            rs: seq<Record>, rows: seq<Row>) {
    Settled(p, firm, rs, busy) && BusyOnlyFull(busy, rs) && Recorded(firm, h, acks, base, n, rs, rows)
  }

  /** What the disk states of a session say of its rows and acknowledgements. */
  ghost predicate Recorded(firm: Base, h: seq<DiskImage>, acks: seq<nat>, base: Base, n: nat,
                           rs: seq<Record>, rows: seq<Row>) {
    && AllFirmer(firm, base) && AllKept(firm, rs, n) && AllSpare(base, rs, n) && AllApart(rs, n)
    && LoggedRows(rs, n, rows) && |acks| == |rows| && AcksWithin(acks, h)
    && Beyond(h, base, n, rs) && Durable(h, base, n, rs, acks)
  }

  lemma SessionReady(p: Pool, firm: Base, busy: set<int>, h: seq<DiskImage>, acks: seq<nat>, base: Base, n: nat,
                     rs: seq<Record>, rows: seq<Row>)
    requires InSession(p, firm, busy, h, acks, base, n, rs, rows)
    ensures Sound(p) && Settled(p, firm, rs, busy) && BusyOnlyFull(busy, rs) && n <= |rs|
  {
  }

  lemma SessionEnds(p: Pool, firm: Base, busy: set<int>, h: seq<DiskImage>, acks: seq<nat>, base: Base, n: nat,
                    rs: seq<Record>, rows: seq<Row>)
    requires InSession(p, firm, busy, h, acks, base, n, rs, rows)
    ensures Settled(p, base, rs, busy) && BusyOnlyFull(busy, rs)
    ensures LoggedRows(rs, n, rows) && |acks| == |rows| && AcksWithin(acks, h)
    ensures Beyond(h, base, n, rs) && Durable(h, base, n, rs, acks) && AllApart(rs, n)
    ensures BaseTotal(base) && AllSpare(base, rs, n)
  {
    hide Settled, Beyond, Durable, LoggedRows, AllApart, AllKept, AllSpare, AcksWithin;
    FirmerSettled(p, firm, base, rs, busy);
  }

  /** More disk states, with the records there were or one more. */
  lemma RecordedGrows(firm: Base, h: seq<DiskImage>, acks: seq<nat>, base: Base, n: nat, rs: seq<Record>,
                      rows: seq<Row>, h2: seq<DiskImage>, rs': seq<Record>)
    requires Recorded(firm, h, acks, base, n, rs, rows) && rs <= rs' && h <= h2 && OldOrNew(h2, |h|, firm, rs, rs')
    ensures Beyond(h2, base, n, rs') && Durable(h2, base, n, rs', acks) && AcksWithin(acks, h2)
    ensures h2 != [] ==> AcksWithin(acks + [|h2|], h2)
  {
    hide OldOrNew, Beyond, Durable, AcksWithin, AllApart, AllFirmer, AllKept, AllSpare;
    BeyondGrows(h, h2, base, firm, n, rs, rs');
    DurableGrows(h, h2, base, firm, n, rs, rs', acks);
    AcksGrow(acks, h, h2);
  }

  lemma SessionStays(p: Pool, firm: Base, busy: set<int>, h: seq<DiskImage>, acks: seq<nat>, base: Base, n: nat,
                     rs: seq<Record>, rows: seq<Row>, row: Row, e: InsertError, q: Pool, h2: seq<DiskImage>)
    requires InSession(p, firm, busy, h, acks, base, n, rs, rows) && h <= h2 && OldOrNew(h2, |h|, firm, rs, rs)
    requires Sound(p) && Sound(q) && StorableRow(row) && HeapReadable(HeapAt(p, TargetId(p)))
    requires FailedAs(p, firm, rs, busy, TargetId(p), row, e, q)
    ensures
      InSession(q, firm, if e == Failed(LsnOverflow) then busy + {TargetId(p)} else busy, h2, acks, base, n, rs, rows)
  {
    hide OldOrNew, Beyond, Durable, AcksWithin, AllApart, AllFirmer, AllKept, AllSpare, Settled, LoggedRows, Sound,
         HeapAt, HeapReadable, TargetId, PlacedAs, WriteRow, Flat, Pins;
    RecordedGrows(firm, h, acks, base, n, rs, rows, h2, rs);
  }

  lemma SessionTakes(p: Pool, firm: Base, busy: set<int>, h: seq<DiskImage>, acks: seq<nat>, base: Base, n: nat,
                     rs: seq<Record>, rows: seq<Row>, row: Row, rid: RID, lsn: nat, q: Pool, h2: seq<DiskImage>,
                     acks': seq<nat>, rec: Record)
    requires InSession(p, firm, busy, h, acks, base, n, rs, rows) && StorableRow(row) && rid.pid >= 0 && |rs| < LSN_MAX
    requires Sound(p) && Sound(q) && HeapReadable(HeapAt(p, rid.pid))
    requires WriteRow(HeapAt(p, rid.pid), row).1 == Success(rid.slot) && InsertedAs(p, rid.pid, row, lsn, q)
    requires rec == Record(|rs| + 1, rid, RowBytes(row)) && acks' == acks + [|h2|]
    requires Settled(q, firm, rs + [rec], NONE) && h <= h2 && OldOrNew(h2, |h|, firm, rs, rs + [rec])
    requires h2 != [] && h2[|h2| - 1] == q.disk
    ensures BaseTotal(firm) && InSession(q, Keeping(firm, rec), busy, h2, acks', base, n, rs + [rec], rows + [row])
  {
    hide OldOrNew, Beyond, Durable, AcksWithin, AllApart, AllKept, AllSpare, Settled, InsertedAs, WriteRow, HeapAt,
         Sound, RowBytes, HeapReadable, Keeping, KeptBy, AllFirmer, Held;
    AcceptedData(HeapAt(p, rid.pid), row);
    RecordedGrows(firm, h, acks, base, n, rs, rows, h2, rs + [rec]);
    SparesNext(p, firm, base, rs, row, rec, n);
    InsertedKept(p, row, lsn, q, firm, rs + [rec], rec);
    KeptNext(firm, base, rs, rec, n);
    SettledNow(q, Keeping(firm, rec), rs + [rec]);
    KeptIsHeld(q.disk, Keeping(firm, rec), rs + [rec], rec);
    FirmerRecoverable(q.disk, Keeping(firm, rec), base, rs + [rec]);
    DurableNext(h2, base, n, rs + [rec], acks);
    LoggedNext(rs, n, rows, rec, row);
  }

  /** A row accepted in a session touches no kept row and none of the session's own. */
  lemma SparesNext(p: Pool, firm: Base, base: Base, rs: seq<Record>, row: Row, r: Record, n: nat)
    requires Settled(p, firm, rs, NONE) && StorableRow(row) && r.rid.pid >= 0 && HeapReadable(HeapAt(p, r.rid.pid))
    requires WriteRow(HeapAt(p, r.rid.pid), row).1 == Success(r.rid.slot) && r.row == RowBytes(row)
    requires AllFirmer(firm, base) && AllKept(firm, rs, n) && AllSpare(base, rs, n) && AllApart(rs, n)
    ensures AllSpare(base, rs + [r], n) && AllApart(rs + [r], n)
  {
    assert BaseTotal(firm) && BaseTotal(base);
    hide Settled, HeapAt, WriteRow, HeapReadable, KeptBy, AllFirmer, Apart;
    forall o: Record ensures KeptBy(firm, o) ==> Apart(o, r) {
      InsertSpares(p, firm, rs, row, r, o);
    }
    forall o: Record | KeptBy(base, o) ensures KeptBy(firm, o) {
      FirmerKeeps(firm, base, o);
    }
  }

  /** Its own row is kept from then on. */
  lemma KeptNext(firm: Base, base: Base, rs: seq<Record>, r: Record, n: nat)
    requires AllFirmer(firm, base) && AllKept(firm, rs, n)
    ensures AllFirmer(Keeping(firm, r), base) && AllKept(Keeping(firm, r), rs + [r], n) && KeptBy(Keeping(firm, r), r)
  {
    var b := Keeping(firm, r);
    FirmerTwice(b, firm, base);
    hide KeptBy, AllFirmer;
    forall i | n <= i < |rs| + 1 ensures KeptBy(b, (rs + [r])[i]) {
      if i < |rs| {
        FirmerKeeps(b, firm, rs[i]);
      }
    }
  }

  lemma LoggedNext(rs: seq<Record>, n: nat, rows: seq<Row>, rec: Record, row: Row)
    requires LoggedRows(rs, n, rows) && StorableRow(row) && rec.row == RowBytes(row) && !rec.rid.slot.deleted
    ensures LoggedRows(rs + [rec], n, rows + [row])
  {
    hide RowBytes, StorableRow;
    var rs', rows' := rs + [rec], rows + [row];
    assert StorableRows(rows');
    forall i | 0 <= i < |rows'| ensures LogsRow(rs'[n + i], rows'[i]) {
      if i < |rows| {
        assert rs'[n + i] == rs[n + i] && rows'[i] == rows[i] && LogsRow(rs[n + i], rows[i]);
      }
    }
  }

  lemma SessionBegins(p: Pool, h: seq<DiskImage>, base: Base, rs: seq<Record>, work: seq<Work>)
    requires Settled(p, base, rs, NONE) && AllRecoverable(h, 0, base, rs) && AllGood(work)
    requires h != [] && h[|h| - 1] == p.disk
    ensures AllReadable(p)
    ensures Steps([Moment(p, |h|)], h, |rs|, work, []) && AcksOf([Moment(p, |h|)], []) == []
    ensures Acknowledged(work, []) == [] && InSession(p, base, NONE, h, [], base, |rs|, rs, [])
  {
    NothingAcknowledged(work);
    hide Settled, Recorded, Sound, AllReadable, AllRecoverable, Steps, AcksOf, AllGood, Acknowledged;
    SettledBase(p, base, rs);
    SettledReadable(p, base, rs);
    StepsBegin(p, h, |rs|, work);
    RecordedBegins(h, base, rs);
  }

  lemma NothingAcknowledged(work: seq<Work>)
    ensures Acknowledged(work, []) == []
  {
  }

  lemma RecordedBegins(h: seq<DiskImage>, base: Base, rs: seq<Record>)
    requires AllRecoverable(h, 0, base, rs) && BaseTotal(base)
    ensures Recorded(base, h, [], base, |rs|, rs, [])
  {
    BeyondBegins(h, base, rs);
    hide Recoverable, Beyond;
  }

  lemma SettledBase(p: Pool, base: Base, rs: seq<Record>)
    requires Settled(p, base, rs, NONE)
    ensures Sound(p) && BaseTotal(base)
  {
  }

  lemma AcksGrow(acks: seq<nat>, h1: seq<DiskImage>, h2: seq<DiskImage>)
    requires AcksWithin(acks, h1) && h1 <= h2
    ensures AcksWithin(acks, h2) && (h2 != [] ==> AcksWithin(acks + [|h2|], h2))
  {
  }

  lemma SettledNow(p: Pool, base: Base, rs: seq<Record>)
    requires Settled(p, base, rs, NONE)
    ensures Recoverable(p.disk, base, rs)
  {
  }

  lemma ReadableAt(p: Pool, pid: int)
    requires Sound(p) && AllReadable(p)
    ensures HeapReadable(HeapAt(p, pid))
  {
  }

  /**
    What a session is worth: stop at any of these disk states, and replay reads a prefix of
    the session's records, at least those before it, and puts the bytes of every row the
    session had logged by then where they belong.
   */
  lemma SurvivesCrash(d: DiskImage, base: Base, n: nat, rs': seq<Record>)
    requires RecoverableUpTo(d, base, n, rs') && AllApart(rs', n)
    ensures DiskSound(d) && n <= |Records(d.wal)| && Records(d.wal) <= rs' && AllFit(Records(d.wal))
    ensures
      var rs := Records(d.wal);
      var (heap, ok) := ReplayAll(rs, HeapOf(d));
      ok && forall i :: n <= i < |rs| ==> RowInPlace(heap, rs[i])
  {
    var k :| n <= k <= |rs'| && Recoverable(d, base, rs'[..k]);
    SurvivesAt(d, base, n, rs'[..k]);
  }

  /**
    What an acknowledgement is worth: stop the machine at any disk state from then on, and replay
    has read the insert's record and puts the bytes of its row back where they belong.
   */
  lemma AcknowledgedSurvives(history: seq<DiskImage>, base: Base, n: nat, rs': seq<Record>, rows: seq<Row>,
                             acks: seq<nat>, c: nat, i: nat)
    requires Durable(history, base, n, rs', acks) && AllApart(rs', n) && LoggedRows(rs', n, rows)
    requires c < |acks| == |rows| && 0 < acks[c] <= i + 1 && i < |history|
    ensures
      var d := history[i];
      var rs := Records(d.wal);
      && DiskSound(d) && n + c < |rs| && rs <= rs' && AllFit(rs) && rs[n + c].row == RowBytes(rows[c])
      && var (heap, ok) := ReplayAll(rs, HeapOf(d)); ok && RowInPlace(heap, rs[n + c])
  {
    hide Recoverable, Records, ReplayAll;
    var k :| n + c + 1 <= k <= |rs'| && Recoverable(history[i], base, rs'[..k]);
    SurvivesAt(history[i], base, n, rs'[..k]);
    RecoverableSound(history[i], base, rs'[..k]);
  }

  lemma SurvivesAt(d: DiskImage, base: Base, n: nat, rs: seq<Record>)
    requires Recoverable(d, base, rs) && AllApart(rs, n)
    ensures Records(d.wal) == rs && AllFit(rs)
    ensures
      var (heap, ok) := ReplayAll(rs, HeapOf(d));
      ok && forall i :: n <= i < |rs| ==> RowInPlace(heap, rs[i])
  {
    hide Consistent, GoodLog, HeapOf, ReplayAll, Records, AllApart, DataAfter, RowInPlace, LogFile;
    Recovers(d, base, rs);
    assert AllFit(rs) && BaseTotal(base);
    hide Recoverable, AllFit, Fits;
    var heap := ReplayAll(rs, HeapOf(d)).0;
    forall i | n <= i < |rs| ensures RowInPlace(heap, rs[i]) {
      PlaceBack(heap, base, rs, n, i);
    }
  }

  lemma PlaceBack(heap: Heap, base: Base, rs: seq<Record>, n: nat, i: nat)
    requires HeapTotal(heap) && BaseTotal(base) && AllFit(rs) && AllApart(rs, n) && n <= i < |rs|
    requires heap[rs[i].rid.pid].data == DataAfter(base[rs[i].rid.pid], rs, rs[i].rid.pid)
    ensures RowInPlace(heap, rs[i])
  {
    hide DataAfter, AllApart;
    RowBack(heap[rs[i].rid.pid].data, base[rs[i].rid.pid], rs, n, i);
  }

  lemma RowBack(data: seq<Byte>, base: PageBase, rs: seq<Record>, n: nat, i: nat)
    requires |base.data| == HEAP_PAYLOAD_SIZE && AllFit(rs) && AllApart(rs, n) && n <= i < |rs|
    requires data == DataAfter(base, rs, rs[i].rid.pid)
    ensures Fits(rs[i]) && data[rs[i].rid.slot.offset..rs[i].rid.slot.offset + |rs[i].row|] == rs[i].row
  {
    LaterApart(rs, n, i);
    hide DataAfter, AllApart, Apart;
    RowSurvives(base, rs, i);
  }

  lemma LaterApart(rs: seq<Record>, n: nat, i: nat)
    requires AllApart(rs, n) && n <= i < |rs|
    ensures forall j :: i < j < |rs| ==> Apart(rs[i], rs[j])
  {
  }

  /** The row's bytes are on its page at its place. */
  ghost predicate RowInPlace(heap: Heap, r: Record)
    requires HeapTotal(heap)
  {
    Fits(r) && heap[r.rid.pid].data[r.rid.slot.offset..r.rid.slot.offset + |r.row|] == r.row
  }

  lemma RecoverableSound(d: DiskImage, base: Base, rs: seq<Record>)
    requires Recoverable(d, base, rs)
    ensures DiskSound(d) && AllFit(rs) && BaseTotal(base)
  {
  }
}
