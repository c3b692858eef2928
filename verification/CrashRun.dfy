/**
  Any number of sessions, each opened on what the crash of the one before it left. The rows that
  were acknowledged before their session's crash are on their pages, slot and bytes, after every
  later recovery.
 */
module CrashRuns {
  import opened StorageTypes
  import opened Disks
  import opened PoolSpec
  import opened HeapRows
  import opened HeapSpec
  import opened LogFormat
  import opened Redo
  import opened Recovery
  import opened Wals
  import opened KeptRows
  import opened Statements
  import opened Sessions

  /** A session to come: its inserts, and which of the disk's states the machine stops in. */
  datatype Plan = Plan(work: seq<Work>, stop: nat)

  /** How many inserts had been acknowledged when the disk was in state i. */
  function AckedBy(acks: seq<nat>, i: nat): (n: nat)
    ensures n <= |acks|
    ensures forall c :: 0 <= c < n ==> acks[c] <= i + 1
    ensures n < |acks| ==> acks[n] > i + 1
  {
    if acks == [] || acks[0] > i + 1 then 0 else 1 + AckedBy(acks[1..], i)
  }

  /** The page has the row at a live slot, where a scan comes to it. */
  ghost predicate RowListed(heap: Heap, r: Record)
    requires HeapTotal(heap)
  {
    Listed(heap[r.rid.pid], r.rid.slot) && !r.rid.slot.deleted && RowInPlace(heap, r)
  }

  /** Rows, the records they are logged in, and that nothing can take their place any more. */
  ghost predicate Kept(base: Base, rs: seq<Record>, at: seq<nat>, rows: seq<Row>) {
    && BaseTotal(base) && |at| == |rows| && StorableRows(rows)
    && (forall m, l :: 0 <= m < l < |at| ==> at[m] < at[l])
    && forall m :: 0 <= m < |at| ==> KeptAt(base, rs, at[m], rows[m])
  }

  ghost predicate KeptAt(base: Base, rs: seq<Record>, i: nat, row: Row)
    requires BaseTotal(base) && StorableRow(row)
  {
    && i < |rs| && rs[i].row == RowBytes(row) && !rs[i].rid.slot.deleted && KeptBy(base, rs[i])
    && forall j :: i < j < |rs| ==> Apart(rs[i], rs[j])
  }

  /** What replay will read from a disk state is the records it is recovered as. */
  lemma StateRecords(d: DiskImage, base: Base, n: nat, logged: seq<Record>)
    requires RecoverableUpTo(d, base, n, logged)
    ensures Recoverable(d, base, Records(d.wal)) && n <= |Records(d.wal)| && Records(d.wal) <= logged
  {
    hide Recoverable, Records;
    var k :| n <= k <= |logged| && Recoverable(d, base, logged[..k]);
    Recovers(d, base, logged[..k]);
  }

  /** Insert c, acknowledged by state s, is on its disk: its record in the log, its slot on its page. */
  lemma AckOnDisk(h: seq<DiskImage>, base: Base, n: nat, logged: seq<Record>, acks: seq<nat>, s: nat, c: nat)
    requires Durable(h, base, n, logged, acks) && AcksWithin(acks, h) && s < |h| && c < AckedBy(acks, s)
    ensures n + c < |logged| && n + c + 1 <= |Records(h[s].wal)| && Held(h[s], logged[n + c])
  {
    hide Recoverable, Records, Held;
    assert 0 < acks[c] <= s + 1 && h[s] == h[s];
    StateRecords(h[s], base, n + c + 1, logged);
  }

  lemma AckedOnDisk(h: seq<DiskImage>, base: Base, n: nat, logged: seq<Record>, acks: seq<nat>, s: nat)
    requires Beyond(h, base, n, logged) && Durable(h, base, n, logged, acks) && AcksWithin(acks, h) && s < |h|
    ensures
      var rs := Records(h[s].wal);
      && Recoverable(h[s], base, rs) && rs <= logged && n + AckedBy(acks, s) <= |rs|
      && forall i :: n <= i < n + AckedBy(acks, s) ==> Held(h[s], logged[i])
  {
    StateRecords(h[s], base, n, logged);
    hide Recoverable, Records, Held, Durable, AcksWithin, Beyond;
    forall i | n <= i < n + AckedBy(acks, s) ensures i < |Records(h[s].wal)| && Held(h[s], logged[i]) {
      AckOnDisk(h, base, n, logged, acks, s, i - n);
    }
    if AckedBy(acks, s) > 0 {
      AckOnDisk(h, base, n, logged, acks, s, AckedBy(acks, s) - 1);
    }
  }

  /** A kept row stays kept over a session. */
  lemma StaysKept(base: Base, firm: Base, rs: seq<Record>, rs': seq<Record>, logged: seq<Record>, i: nat, row: Row)
    requires BaseTotal(base) && StorableRow(row) && KeptAt(base, rs, i, row) && AllFirmer(firm, base)
    requires rs <= rs' <= logged && AllSpare(base, logged, |rs|)
    ensures KeptAt(firm, rs', i, row)
  {
    FirmerKeeps(firm, base, rs[i]);
    hide KeptBy, AllFirmer, Apart, RowBytes;
    forall j | i < j < |rs'| ensures Apart(rs'[i], rs'[j]) {
      assert rs'[i] == rs[i] && rs'[j] == logged[j];
    }
  }

  /** An acknowledged row of the session is kept from then on. */
  lemma BecomesKept(firm: Base, rs': seq<Record>, logged: seq<Record>, n: nat, more: seq<Row>, c: nat)
    requires BaseTotal(firm) && rs' <= logged && AllApart(logged, n) && LoggedRows(logged, n, more)
    requires c < |more| && n + c < |rs'| && KeptBy(firm, logged[n + c])
    ensures KeptAt(firm, rs', n + c, more[c])
  {
    hide KeptBy, Apart, RowBytes;
    assert rs'[n + c] == logged[n + c];
    forall j | n + c < j < |rs'| ensures Apart(rs'[n + c], rs'[j]) {
      assert rs'[j] == logged[j];
    }
  }

  /** What a session adds to the kept rows, stopped in state s of its disk. */
  lemma KeptNext(base: Base, rs: seq<Record>, at: seq<nat>, rows: seq<Row>, h: seq<DiskImage>, logged: seq<Record>,
                 acks: seq<nat>, more: seq<Row>, s: nat)
    requires Kept(base, rs, at, rows) && rs <= logged && s < |h| && |acks| == |more|
    requires AllSpare(base, logged, |rs|) && AllApart(logged, |rs|) && LoggedRows(logged, |rs|, more)
    requires Beyond(h, base, |rs|, logged) && Durable(h, base, |rs|, logged, acks) && AcksWithin(acks, h)
    ensures
      var d, n := h[s], AckedBy(acks, s);
      var rs' := Records(d.wal);
      && DiskSound(d) && rs <= rs' && Recoverable(d, Fixed(base, d), rs') && AllFirmer(Fixed(base, d), base)
      && Kept(Fixed(base, d), rs', at + Positions(|rs|, n), rows + more[..n])
  {
    hide Recoverable, Records, Held, Beyond, Durable, AcksWithin, KeptAt, AllFirmer, AllSpare, AllApart, KeptBy, Fixed;
    var d, n := h[s], AckedBy(acks, s);
    var rs' := Records(d.wal);
    AckedOnDisk(h, base, |rs|, logged, acks, s);
    FixedRecoverable(d, base, rs');
    var firm := Fixed(base, d);
    var at', rows' := at + Positions(|rs|, n), rows + more[..n];
    forall m | 0 <= m < |at'| ensures KeptAt(firm, rs', at'[m], rows'[m]) {
      if m < |at| {
        StaysKept(base, firm, rs, rs', logged, at[m], rows[m]);
      } else {
        BecomesKept(firm, rs', logged, |rs|, more, m - |at|);
      }
    }
    KeptBefore(base, rs, at, rows);
  }

  function Positions(from: nat, n: nat): (at: seq<nat>)
    ensures |at| == n && forall c :: 0 <= c < n ==> at[c] == from + c
  {
    seq(n, c requires 0 <= c < n => from + c)
  }

  lemma KeptBefore(base: Base, rs: seq<Record>, at: seq<nat>, rows: seq<Row>)
    requires Kept(base, rs, at, rows)
    ensures forall m :: 0 <= m < |at| ==> at[m] < |rs|
  {
    hide KeptBy, Apart, RowBytes;
    forall m | 0 <= m < |at| ensures at[m] < |rs| {
      assert KeptAt(base, rs, at[m], rows[m]);
    }
  }

  /** Replay changes no page's slots. */
  lemma {:induction false} ReplayLists(rs: seq<Record>, heap: Heap, p: int, s: Slot)
    requires HeapTotal(heap) && AllFit(rs) && Listed(heap[p], s)
    ensures Listed(ReplayAll(rs, heap).0[p], s)
  {
    if rs != [] && rs[0].rid.pid >= 0 {
      ReplayLists(rs[1..], heap[rs[0].rid.pid := RedoPage(heap[rs[0].rid.pid], rs[0])], p, s);
    }
  }

  /** After replay a kept row is on its page. */
  lemma KeptIsListed(d: DiskImage, base: Base, rs: seq<Record>, i: nat, row: Row)
    requires Recoverable(d, base, rs) && StorableRow(row) && KeptAt(base, rs, i, row)
    ensures AllFit(rs) && ReplayAll(rs, HeapOf(d)).1 && RowListed(ReplayAll(rs, HeapOf(d)).0, rs[i])
  {
    Recovers(d, base, rs);
    KeptIsHeld(d, base, rs, rs[i]);
    hide Consistent, GoodLog, LogFile, HeapOf, ReplayAll, DataAfter, Listed, Records, RowBytes, Apart;
    var pid := rs[i].rid.pid;
    ReplayLists(rs, HeapOf(d), pid, rs[i].rid.slot);
    RowSurvives(base[pid], rs, i);
    assert ReplayAll(rs, HeapOf(d)).0[pid].data == DataAfter(base[pid], rs, pid);
  }

  /** A listed row is one the scan of its page reads. */
  lemma ListedIsRead(heap: Heap, r: Record, row: Row, types: seq<ColumnType>) returns (j: nat)
    requires HeapTotal(heap) && RowListed(heap, r) && StorableRow(row) && r.row == RowBytes(row)
    requires Typed(row, types) && PlainTexts(row)
    ensures j < heap[r.rid.pid].slotCount && j < MAX_SLOTS && heap[r.rid.pid].slots[j] == r.rid.slot
    ensures !heap[r.rid.pid].slots[j].deleted
    ensures r.rid.slot.offset + RowSize(types) <= HEAP_PAYLOAD_SIZE && ReadSlot(heap[r.rid.pid], types, j) == Some(row)
  {
    var h, s := heap[r.rid.pid], r.rid.slot;
    j :| 0 <= j < h.slotCount && j < |h.slots| && h.slots[j] == s;
    TypedSize(row, types);
    assert h.data[s.offset..] == RowBytes(row) + h.data[s.offset + |r.row|..];
    RowRoundTrip(row, types, h.data[s.offset + |r.row|..]);
  }

  // ---------- sessions ----------

  /**
    A session that took place: the states of its disk, the moments between its statements, the log
    after it, which statements were acknowledged, and the state the machine stopped in.
   */
  datatype Session = Session(history: seq<DiskImage>, ms: seq<Moment>, logged: seq<Record>, done: seq<bool>, stop: nat)

  /** For every acknowledged statement, how many states the disk had been in. */
  function AcksIn(s: Session): seq<nat>
    requires |s.ms| == |s.done| + 1
  {
    AcksOf(s.ms, s.done)
  }

  function StoppedAt(s: Session): DiskImage
    requires s.stop < |s.history|
  {
    s.history[s.stop]
  }

  /** The pool a session begins with: what replay makes of the disk it is opened on, and no pins. */
  ghost predicate OpenedOn(p: Pool, before: DiskImage) {
    && Sound(p) && DiskSound(before) && AllFit(Records(before.wal)) && Pins(p) == map[]
    && FlatHeap(p) == ReplayAll(Records(before.wal), HeapOf(before)).0
  }

  /** The session takes up the plan on the disk `before`, does its statements one by one, and stops as planned. */
  ghost predicate Ran(s: Session, before: DiskImage, plan: Plan, base: Base)
    requires AllGood(plan.work)
  {
    var n := |Records(before.wal)|;
    && s.history != [] && s.history[0] == before && s.stop == plan.stop % |s.history|
    && |s.done| == |plan.work| && Steps(s.ms, s.history, n, plan.work, s.done)
    && OpenedOn(s.ms[0].pool, before) && s.ms[|s.done|].past == |s.history|
    && Records(before.wal) <= s.logged && LoggedRows(s.logged, n, Acknowledged(plan.work, s.done))
    && |AcksIn(s)| == |Acknowledged(plan.work, s.done)| && AcksWithin(AcksIn(s), s.history)
    && Beyond(s.history, base, n, s.logged) && Durable(s.history, base, n, s.logged, AcksIn(s))
  }

  ghost predicate AllGoodPlans(plans: seq<Plan>) {
    forall i :: 0 <= i < |plans| ==> AllGood(plans[i].work)
  }

  /** Each session ran on what the one before it stopped in. */
  ghost predicate AllRan(ss: seq<Session>, d: DiskImage, plans: seq<Plan>, base: Base)
    requires AllGoodPlans(plans)
  {
    && |ss| <= |plans|
    && forall i :: 0 <= i < |ss| ==>
         && Ran(ss[i], DiskBefore(ss, d, i), plans[i], base)
  }

  /** The disk session i is opened on. */
  function DiskBefore(ss: seq<Session>, d: DiskImage, i: nat): DiskImage
    requires i <= |ss|
  {
    if i == 0 || ss[i - 1].stop >= |ss[i - 1].history| then d else StoppedAt(ss[i - 1])
  }

  /** The rows each session had acknowledged when it was stopped, one session after the other. */
  function AckedRows(plans: seq<Plan>, ss: seq<Session>): seq<Row>
    requires |ss| <= |plans|
  {
    if ss == [] then []
    else
      var n := |ss| - 1;
      AckedRows(plans, ss[..n]) + AckedIn(plans[n], ss[n])
  }

  function AckedIn(plan: Plan, s: Session): seq<Row> {
    if |s.ms| != |s.done| + 1 || |s.done| > |plan.work| then []
    else
      var rows, n := Acknowledged(plan.work, s.done), AckedBy(AcksIn(s), s.stop);
      if n <= |rows| then rows[..n] else rows
  }

  lemma AckedNext(plans: seq<Plan>, ss: seq<Session>, s: Session)
    requires |ss| < |plans|
    ensures AckedRows(plans, ss + [s]) == AckedRows(plans, ss) + AckedIn(plans[|ss|], s)
  {
    assert (ss + [s])[..|ss|] == ss;
  }

  lemma RanNext(ss: seq<Session>, d: DiskImage, plans: seq<Plan>, base: Base, s: Session)
    requires AllGoodPlans(plans) && AllRan(ss, d, plans, base) && |ss| < |plans|
    requires AllGood(plans[|ss|].work) && Ran(s, DiskBefore(ss, d, |ss|), plans[|ss|], base) && s.stop < |s.history|
    ensures AllRan(ss + [s], d, plans, base) && DiskBefore(ss + [s], d, |ss| + 1) == StoppedAt(s)
  {
    hide Ran;
    var ss' := ss + [s];
    forall i | 0 <= i < |ss'| ensures Ran(ss'[i], DiskBefore(ss', d, i), plans[i], base) {
      assert DiskBefore(ss', d, i) == DiskBefore(ss, d, i);
    }
  }

  /** What holds of a session's disk states for a firmer base holds for the base. */
  lemma FirmerStates(h: seq<DiskImage>, firm: Base, base: Base, n: nat, logged: seq<Record>, acks: seq<nat>)
    requires AllFirmer(firm, base) && Beyond(h, firm, n, logged) && Durable(h, firm, n, logged, acks)
    ensures Beyond(h, base, n, logged) && Durable(h, base, n, logged, acks)
  {
    hide Recoverable, AllFirmer, Held, Durable;
    forall i | 0 <= i < |h| ensures RecoverableUpTo(h[i], base, n, logged) {
      FirmerUpTo(h[i], firm, base, n, logged);
    }
    FirmerDurable(h, firm, base, n, logged, acks);
  }

  lemma FirmerDurable(h: seq<DiskImage>, firm: Base, base: Base, n: nat, logged: seq<Record>, acks: seq<nat>)
    requires AllFirmer(firm, base) && Durable(h, firm, n, logged, acks)
    ensures Durable(h, base, n, logged, acks)
  {
    hide Recoverable, AllFirmer, Held, RecoverableUpTo;
    forall c, i | 0 <= c < |acks| && 0 < acks[c] <= i + 1 && i < |h| ensures RowDurable(h[i], base, n + c, logged) {
      assert RowDurable(h[i], firm, n + c, logged);
      FirmerUpTo(h[i], firm, base, n + c + 1, logged);
    }
  }

  lemma FirmerUpTo(d: DiskImage, firm: Base, base: Base, n: nat, logged: seq<Record>)
    requires AllFirmer(firm, base) && RecoverableUpTo(d, firm, n, logged)
    ensures RecoverableUpTo(d, base, n, logged)
  {
    hide Recoverable, AllFirmer;
    var k :| n <= k <= |logged| && Recoverable(d, firm, logged[..k]);
    FirmerRecoverable(d, firm, base, logged[..k]);
  }

  lemma RanNow(s: Session, before: DiskImage, plan: Plan, firm: Base, base: Base, rs: seq<Record>, acks: seq<nat>)
    requires AllGood(plan.work) && Recoverable(before, firm, rs) && AllFirmer(firm, base) && rs <= s.logged
    requires s.history != [] && s.history[0] == before && s.stop == plan.stop % |s.history|
    requires |s.done| == |plan.work| && |s.ms| == |s.done| + 1
    requires Steps(s.ms, s.history, |rs|, plan.work, s.done) && acks == AcksOf(s.ms, s.done)
    requires s.ms[|s.done|].past == |s.history| && Sound(s.ms[0].pool) && Pins(s.ms[0].pool) == map[]
    requires DiskSound(before) && AllFit(rs) && FlatHeap(s.ms[0].pool) == ReplayAll(rs, HeapOf(before)).0
    requires LoggedRows(s.logged, |rs|, Acknowledged(plan.work, s.done)) && |acks| == |Acknowledged(plan.work, s.done)|
    requires AcksWithin(acks, s.history) && Beyond(s.history, firm, |rs|, s.logged)
    requires Durable(s.history, firm, |rs|, s.logged, acks)
    ensures Ran(s, before, plan, base)
    ensures AckedIn(plan, s) == Acknowledged(plan.work, s.done)[..AckedBy(acks, s.stop)]
  {
    hide Recoverable, Records, Steps, LoggedRows, AcksWithin, Beyond, Durable, AllFirmer, Acknowledged, Sound, HeapOf,
         FlatHeap, ReplayAll, AllFit, DiskSound, AcksOf, Pins;
    RecordsAre(before, firm, rs);
    FirmerStates(s.history, firm, base, |rs|, s.logged, acks);
  }

  lemma RecordsAre(d: DiskImage, base: Base, rs: seq<Record>)
    requires Recoverable(d, base, rs)
    ensures Records(d.wal) == rs
  {
    Recovers(d, base, rs);
  }

  /**
    Session after session, each opened with the tail dropped on what the crash before it left, of
    its inserts or of its own recovery. The records on disk at a crash are never lost again; and
    every row acknowledged before its session's crash has its record in the last log, its live slot
    on its page, and its bytes there once the last log is replayed.
   */
  method CrashRun(d: DiskImage, plans: seq<Plan>, ghost base: Base, ghost rs: seq<Record>)
    returns (last: DiskImage, acked: seq<Row>, ghost ss: seq<Session>, ghost rs': seq<Record>, ghost at: seq<nat>)
    requires Recoverable(d, base, rs) && AllGoodPlans(plans)
    ensures |ss| == |plans| && AllRan(ss, d, plans, base)
    ensures last == DiskBefore(ss, d, |ss|) && acked == AckedRows(plans, ss)
    ensures Recoverable(last, base, rs') && rs <= rs' && Records(last.wal) == rs' && AllFit(rs')
    ensures |at| == |acked| && StorableRows(acked) && forall m, l :: 0 <= m < l < |at| ==> at[m] < at[l]
    ensures forall m :: 0 <= m < |at| ==>
      at[m] < |rs'| && rs'[at[m]].row == RowBytes(acked[m]) && RowListed(ReplayAll(rs', HeapOf(last)).0, rs'[at[m]])
  {
    hide Recoverable, AllGood, Settled, Restored, AllRecoverable, Beyond, LoggedRows, AllApart, AllSpare, Durable,
         AcksWithin, Kept, AllFirmer, Fixed, Acknowledged, Records, Ran, AllRan, Steps, AckedRows, AckedIn, HeapOf,
         ReplayAll, Sound, Pins, AcksOf;
    last, acked, rs', at, ss := d, [], rs, [], [];
    ghost var firm := base;
    RunBegins(d, base, rs, plans);
    for i := 0 to |plans|
      invariant Recoverable(last, firm, rs') && AllFirmer(firm, base) && rs <= rs' && Kept(firm, rs', at, acked)
      invariant |ss| == i && AllRan(ss, d, plans, base) && last == DiskBefore(ss, d, i) && acked == AckedRows(plans, ss)
    {
      RecoverableSound(last, firm, rs');
      var ins, replayed := Open(last, DropTail, firm, rs');
      ghost var h0 := ins.pool.disk.history;
      var done;
      ghost var logged, ms, busy;
      done, logged, ms, busy := RunSession(ins, plans[i].work, firm, rs');
      var history := ins.pool.disk.history;
      var stop, more := plans[i].stop % |history|, Acknowledged(plans[i].work, done);
      KeptNext(firm, rs', at, acked, history, logged, ins.acks, more, stop);
      ghost var s := Session(history, ms, logged, done, stop);
      assert history[0] == h0[0];
      RanNow(s, last, plans[i], firm, base, rs', ins.acks);
      RanNext(ss, d, plans, base, s);
      AckedNext(plans, ss, s);
      last := history[stop];
      FirmerTwice(Fixed(firm, last), firm, base);
      at := at + Positions(|rs'|, AckedBy(ins.acks, stop));
      acked := acked + more[..AckedBy(ins.acks, stop)];
      ss := ss + [s];
      rs' := Records(last.wal);
      firm := Fixed(firm, last);
    }
    RunEnds(last, firm, base, rs', at, acked);
  }

  lemma RunBegins(d: DiskImage, base: Base, rs: seq<Record>, plans: seq<Plan>)
    requires Recoverable(d, base, rs) && AllGoodPlans(plans)
    ensures AllFirmer(base, base) && Kept(base, rs, [], [])
    ensures AllRan([], d, plans, base) && AckedRows(plans, []) == []
  {
  }

  lemma RunEnds(last: DiskImage, firm: Base, base: Base, rs: seq<Record>, at: seq<nat>, acked: seq<Row>)
    requires Recoverable(last, firm, rs) && AllFirmer(firm, base) && Kept(firm, rs, at, acked)
    ensures Recoverable(last, base, rs) && Records(last.wal) == rs && AllFit(rs)
    ensures |at| == |acked| && StorableRows(acked) && forall m, l :: 0 <= m < l < |at| ==> at[m] < at[l]
    ensures forall m :: 0 <= m < |at| ==>
      at[m] < |rs| && rs[at[m]].row == RowBytes(acked[m]) && RowListed(ReplayAll(rs, HeapOf(last)).0, rs[at[m]])
  {
    FirmerRecoverable(last, firm, base, rs);
    Recovers(last, firm, rs);
    RecoverableSound(last, firm, rs);
    hide Recoverable, HeapOf, ReplayAll, Records, RowListed, AllFirmer, RowBytes;
    forall m | 0 <= m < |at|
      ensures at[m] < |rs| && rs[at[m]].row == RowBytes(acked[m]) && RowListed(ReplayAll(rs, HeapOf(last)).0, rs[at[m]])
    {
      assert KeptAt(firm, rs, at[m], acked[m]);
      KeptIsListed(last, firm, rs, at[m], acked[m]);
    }
  }
}
