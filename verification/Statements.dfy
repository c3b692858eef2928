/**
  What a run of inserts does, statement by statement: which are acknowledged, what each leaves of the
  pool, and which states of the disk belong to it.
 */
module Statements {
  import opened StorageTypes
  import opened Disks
  import opened PoolSpec
  import opened HeapRows
  import opened HeapSpec
  import opened HeapPages
  import opened LogFormat
  import opened Recovery
  import opened InsertEntry

  /** Rows with the column widths of their tables, as the planner hands them on. */
  datatype Work = Work(row: Row, sizes: seq<nat>)

  ghost predicate GoodWork(w: Work) {
    && StorableRow(w.row) && Sum(w.sizes) == |RowBytes(w.row)|
    && forall i :: 0 <= i < |w.row| && w.row[i].Text? ==> |w.row[i].s| <= STRING_MAX_SIZE
  }

  ghost predicate AllGood(work: seq<Work>) {
    forall i :: 0 <= i < |work| ==> GoodWork(work[i])
  }

  /** The rows of the inserts that were acknowledged. */
  function Acknowledged(work: seq<Work>, done: seq<bool>): (rows: seq<Row>)
    requires |done| <= |work|
  {
    if done == [] then []
    else
      var n := |done| - 1;
      Acknowledged(work, done[..n]) + if done[n] then [work[n].row] else []
  }

  lemma AcknowledgedNext(work: seq<Work>, done: seq<bool>, ok: bool)
    requires |done| < |work|
    ensures Acknowledged(work, done + [ok]) == Acknowledged(work, done) + if ok then [work[|done|].row] else []
  {
    assert (done + [ok])[..|done|] == done;
  }

  // ---------- one statement ----------

  /**
    One insert, over a log with `lsn` records. If nothing but the page stands in the way, it is
    acknowledged exactly when the page takes the row. An acknowledged row is on its page, in memory and
    on disk; one that is not leaves at most a slot behind, or, once the log has no number left, its
    bytes in the frame.
   */
  ghost predicate Statement(p: Pool, lsn: nat, w: Work, ok: bool, q: Pool)
    requires Sound(p) && Sound(q) && AllReadable(p) && GoodWork(w)
  {
    var pid := TargetId(p);
    var taken := WriteRow(HeapAt(p, pid), w.row).1.Success?;
    && (LastReachable(p) && AdmitsAt(p, lsn, pid, w.row) ==> (ok <==> taken))
    && if ok then pid >= 0 && taken && lsn < LSN_MAX && InsertedAs(p, pid, w.row, lsn + 1, q)
       else
         || (!taken && RejectedAs(p, pid, w.row, q))
         || (Flat(q) == Flat(p) && Pins(q) == Pins(p))
         || (taken && lsn >= LSN_MAX && PlacedAs(p, pid, w.row, q))
  }

  /** Every page can take further rows after a statement, if it could before. */
  lemma StatementReadable(p: Pool, lsn: nat, w: Work, ok: bool, q: Pool)
    requires Sound(p) && Sound(q) && AllReadable(p) && GoodWork(w) && Statement(p, lsn, w, ok, q)
    ensures AllReadable(q)
  {
    hide WriteRow, Flat, Pins, HeapAt, TargetId, AdmitsAt, LastReachable, RowBytes, FrameSound, DiskSound, QueueExact;
    var pid := TargetId(p);
    var h := WriteRow(HeapAt(p, pid), w.row).0;
    AcceptedIff(HeapAt(p, pid), w.row);
    if Flat(q) == Flat(p) {
      SameFlatHeap(p, q);
    } else {
      var g := if ok then h.(lsn := lsn + 1) else h;
      forall i: int ensures HeapReadable(HeapAt(q, i)) {
        ChangedHeap(p, pid, g, q, i);
        NumberedReadable(h, lsn + 1);
      }
    }
  }

  lemma NumberedReadable(h: HeapImage, lsn: nat)
    requires HeapReadable(h)
    ensures lsn <= LSN_MAX ==> HeapReadable(h.(lsn := lsn))
  {
  }

  // ---------- a run of them ----------

  /** The pool between two statements, and how many states the disk has been in by then. */
  datatype Moment = Moment(pool: Pool, past: nat)

  ghost predicate MomentOf(m: Moment, h: seq<DiskImage>) {
    Sound(m.pool) && AllReadable(m.pool) && 0 < m.past <= |h| && h[m.past - 1] == m.pool.disk
  }

  /** Statement after statement from the first moment to the last, over a log that began with n records. */
  ghost predicate Steps(ms: seq<Moment>, h: seq<DiskImage>, n: nat, work: seq<Work>, done: seq<bool>)
    requires AllGood(work)
  {
    && |done| <= |work| && |ms| == |done| + 1
    && (forall i :: 0 <= i < |ms| ==> MomentOf(ms[i], h))
    && forall i :: 0 <= i < |done| ==> StepAt(ms, n, work, done, i)
  }

  ghost predicate StepAt(ms: seq<Moment>, n: nat, work: seq<Work>, done: seq<bool>, i: nat)
    requires AllGood(work) && i < |done| <= |work| && |ms| == |done| + 1
  {
    var p, q := ms[i], ms[i + 1];
    && Sound(p.pool) && Sound(q.pool) && AllReadable(p.pool) && p.past <= q.past
    && Statement(p.pool, n + |Acknowledged(work, done[..i])|, work[i], done[i], q.pool)
  }

  /** For every acknowledged statement, how many states the disk had been in when it was over. */
  function AcksOf(ms: seq<Moment>, done: seq<bool>): (acks: seq<nat>)
    requires |ms| == |done| + 1
  {
    if done == [] then []
    else
      var n := |done| - 1;
      AcksOf(ms[..n + 1], done[..n]) + if done[n] then [ms[n + 1].past] else []
  }

  lemma StepsBegin(p: Pool, h: seq<DiskImage>, n: nat, work: seq<Work>)
    requires AllGood(work) && MomentOf(Moment(p, |h|), h)
    ensures Steps([Moment(p, |h|)], h, n, work, []) && AcksOf([Moment(p, |h|)], []) == []
  {
  }

  lemma StepsNext(ms: seq<Moment>, h: seq<DiskImage>, n: nat, work: seq<Work>, done: seq<bool>, ok: bool, q: Pool,
                  h2: seq<DiskImage>)
    requires AllGood(work) && Steps(ms, h, n, work, done) && |done| < |work| && h <= h2
    requires ms[|done|].past == |h| && MomentOf(Moment(q, |h2|), h2)
    requires
      var p := ms[|done|].pool;
      Sound(p) && AllReadable(p) && Statement(p, n + |Acknowledged(work, done)|, work[|done|], ok, q)
    ensures Steps(ms + [Moment(q, |h2|)], h2, n, work, done + [ok])
    ensures AcksOf(ms + [Moment(q, |h2|)], done + [ok]) == AcksOf(ms, done) + if ok then [|h2|] else []
  {
    hide Sound, Statement, AllReadable, Acknowledged, StepAt, MomentOf, AllGood;
    var m := Moment(q, |h2|);
    var ms', done' := ms + [m], done + [ok];
    assert ms'[..(|done'| - 1) + 1] == ms && done'[..|done'| - 1] == done;
    forall i | 0 <= i < |ms'| ensures MomentOf(ms'[i], h2) {
      if i < |ms| {
        MomentLater(ms[i], h, h2);
      }
    }
    forall i | 0 <= i < |done'| ensures StepAt(ms', n, work, done', i) {
      if i < |done| {
        EarlierStep(ms, n, work, done, i, m, ok);
      } else {
        LastStep(ms, h, h2, n, work, done, m, ok);
      }
    }
  }

  lemma MomentLater(m: Moment, h: seq<DiskImage>, h2: seq<DiskImage>)
    requires MomentOf(m, h) && h <= h2
    ensures MomentOf(m, h2)
  {
  }

  lemma EarlierStep(ms: seq<Moment>, n: nat, work: seq<Work>, done: seq<bool>, i: nat, m: Moment, ok: bool)
    requires AllGood(work) && i < |done| < |work| && |ms| == |done| + 1 && StepAt(ms, n, work, done, i)
    ensures StepAt(ms + [m], n, work, done + [ok], i)
  {
    hide Sound, Statement, AllReadable, Acknowledged, GoodWork;
    assert (done + [ok])[..i] == done[..i];
  }

  lemma LastStep(ms: seq<Moment>, h: seq<DiskImage>, h2: seq<DiskImage>, n: nat, work: seq<Work>, done: seq<bool>,
                 m: Moment, ok: bool)
    requires AllGood(work) && |done| < |work| && |ms| == |done| + 1 && MomentOf(ms[|done|], h) && MomentOf(m, h2)
    requires ms[|done|].past <= m.past
    requires Statement(ms[|done|].pool, n + |Acknowledged(work, done)|, work[|done|], ok, m.pool)
    ensures StepAt(ms + [m], n, work, done + [ok], |done|)
  {
    hide Sound, Statement, AllReadable, Acknowledged, GoodWork;
    assert (done + [ok])[..|done|] == done;
  }
}
