/**
  Whole runs of scans over the lock tables. Every scan locks the rows of the heap page in slot
  order and gives them all back when its statement ends; inserts lock nothing but add slots.
 */
module LockRuns {
  import opened StorageTypes
  import opened HeapRows
  import opened HeapSpec
  import opened LockTables

  /** A statement: its number, how many rows it has locked, and whether it is over. */
  datatype Transaction = Transaction(tid: nat, pos: nat, done: bool)

  /** `slots` of the rows in `order` exist so far. */
  datatype State = State(txs: seq<Transaction>, owners: Owners, slots: nat)

  const START := State([], map[], 0)

  // ---------- steps ----------

  ghost predicate Draw(s: State, s': State) {
    s' == s.(txs := s.txs + [Transaction(|s.txs| % TIDS, 0, false)])
  }

  ghost predicate Active(s: State, i: nat) {
    i < |s.txs| && !s.txs[i].done
  }

  /** The scan locks its next row. */
  ghost predicate Lock(order: seq<RowName>, s: State, s': State, i: nat) {
    && Active(s, i) && s.txs[i].pos < s.slots <= |order|
    && var t := s.txs[i];
       && Free(s.owners, t.tid, order[t.pos])
       && s' == State(s.txs[i := t.(pos := t.pos + 1)], Taken(s.owners, t.tid, order[t.pos]), s.slots)
  }

  ghost function Ended(s: State, i: nat): State
    requires i < |s.txs|
  {
    State(s.txs[i := s.txs[i].(done := true)], Without(s.owners, s.txs[i].tid), s.slots)
  }

  /** The scan has come to the end of the page. */
  ghost predicate Finish(order: seq<RowName>, s: State, s': State, i: nat) {
    Active(s, i) && s.txs[i].pos == s.slots && s' == Ended(s, i)
  }

  /** The statement ends early: it was no scan, or it failed. Its rows are given back all the same. */
  ghost predicate Abandon(s: State, s': State, i: nat) {
    Active(s, i) && s' == Ended(s, i)
  }

  /** An insert adds a slot. */
  ghost predicate Grow(order: seq<RowName>, s: State, s': State) {
    s.slots < |order| && s' == s.(slots := s.slots + 1)
  }

  /** A scan moves: the steps that cannot be put off for ever. */
  ghost predicate Moves(order: seq<RowName>, s: State, s': State, i: nat) {
    Lock(order, s, s', i) || Finish(order, s, s', i)
  }

  ghost predicate Step(order: seq<RowName>, s: State, s': State) {
    Draw(s, s') || Grow(order, s, s') || exists i: nat :: Moves(order, s, s', i) || Abandon(s, s', i)
  }

  ghost predicate Run(order: seq<RowName>, trace: seq<State>) {
    && trace != [] && trace[0] == START
    && forall n :: 0 <= n < |trace| - 1 ==> Step(order, trace[n], trace[n + 1])
  }

  ghost predicate Different(order: seq<RowName>) {
    forall i, j :: 0 <= i < j < |order| ==> order[i] != order[j]
  }

  /**
    The rows of a packed page have different names, as long as they have any column at all; so no
    run over it gets stuck.
   */
  lemma PackedDifferent(h: HeapImage, rows: seq<Row>, pid: int)
    requires Packed(h, rows) && forall i :: 0 <= i < |rows| ==> rows[i] != []
    ensures Different(SlotNames(h, pid)) && Grouped(SlotNames(h, pid))
  {
    forall i, j | 0 <= i < j < |rows| ensures h.slots[j].offset < h.slots[i].offset {
      OffsetsFall(h, rows, i, j);
    }
  }

  lemma {:induction false} OffsetsFall(h: HeapImage, rows: seq<Row>, i: nat, j: nat)
    requires Packed(h, rows) && i < j < |rows| && forall k :: 0 <= k < |rows| ==> rows[k] != []
    ensures h.slots[j].offset < h.slots[i].offset
    decreases j
  {
    RegionsTile(h, rows, j);
    assert SlotHolds(h, rows, j) && |RowBytes(rows[j])| > 0;
    if i < j - 1 {
      OffsetsFall(h, rows, i, j - 1);
    }
  }

  // ---------- what every reachable state keeps ----------

  /** Every locked row is held for an active scan that has come past it. */
  ghost predicate Held(order: seq<RowName>, s: State, r: RowName)
    requires r in s.owners
  {
    exists i: nat, j: nat :: Active(s, i) && s.txs[i].tid == s.owners[r] && j < s.txs[i].pos <= |order| && order[j] == r
  }

  ghost predicate Sound(order: seq<RowName>, s: State) {
    && s.slots <= |order|
    && (forall i :: 0 <= i < |s.txs| ==> s.txs[i].tid == i % TIDS && s.txs[i].pos <= s.slots)
    && (forall r :: r in s.owners ==> Held(order, s, r))
  }

  lemma LockKeepsHeld(order: seq<RowName>, s: State, s': State, i: nat, r: RowName)
    requires Sound(order, s) && Lock(order, s, s', i) && r in s'.owners
    ensures Held(order, s', r)
  {
    if r == order[s.txs[i].pos] {
      assert Active(s', i) && s.txs[i].pos < s'.txs[i].pos;
    } else {
      assert Held(order, s, r);
      var k: nat, j: nat :| Active(s, k) && s.txs[k].tid == s.owners[r] && j < s.txs[k].pos <= |order| && order[j] == r;
      assert Active(s', k) && j < s'.txs[k].pos;
    }
  }

  lemma EndKeepsHeld(order: seq<RowName>, s: State, i: nat, r: RowName)
    requires Sound(order, s) && Active(s, i) && r in Ended(s, i).owners
    ensures Held(order, Ended(s, i), r)
  {
    var k: nat, j: nat :| Active(s, k) && s.txs[k].tid == s.owners[r] && j < s.txs[k].pos <= |order| && order[j] == r;
    assert k != i && Active(Ended(s, i), k) && Ended(s, i).txs[k] == s.txs[k];
  }

  lemma SameHeld(order: seq<RowName>, s: State, s': State, r: RowName)
    requires Sound(order, s) && s'.owners == s.owners && s.txs <= s'.txs && r in s.owners
    ensures Held(order, s', r)
  {
    assert Held(order, s, r);
    var k: nat, j: nat :| Active(s, k) && s.txs[k].tid == s.owners[r] && j < s.txs[k].pos <= |order| && order[j] == r;
    assert Active(s', k) && s'.txs[k] == s.txs[k];
  }

  lemma StepSound(order: seq<RowName>, s: State, s': State)
    requires Sound(order, s) && Step(order, s, s')
    ensures Sound(order, s')
  {
    if Draw(s, s') || Grow(order, s, s') {
      forall r | r in s'.owners ensures Held(order, s', r) {
        SameHeld(order, s, s', r);
      }
    } else {
      var i: nat :| Moves(order, s, s', i) || Abandon(s, s', i);
      forall r | r in s'.owners ensures Held(order, s', r) {
        if Lock(order, s, s', i) {
          LockKeepsHeld(order, s, s', i, r);
        } else {
          EndKeepsHeld(order, s, i, r);
        }
      }
    }
  }

  lemma {:induction false} RunSound(order: seq<RowName>, trace: seq<State>, n: nat)
    requires Run(order, trace) && n < |trace|
    ensures Sound(order, trace[n])
  {
    if n > 0 {
      RunSound(order, trace, n - 1);
      StepSound(order, trace[n - 1], trace[n]);
    }
  }

  /** A row changes hands only when its owner gives its rows back. */
  lemma OwnerStays(order: seq<RowName>, s: State, s': State, r: RowName)
    requires Step(order, s, s') && r in s.owners
    ensures (r in s'.owners && s'.owners[r] == s.owners[r])
      || exists i: nat :: Active(s, i) && s.txs[i].tid == s.owners[r] && s' == Ended(s, i)
  {
    if i: nat :| Moves(order, s, s', i) || Abandon(s, s', i) {
      if s' == Ended(s, i) && s.txs[i].tid == s.owners[r] {
        assert Active(s, i);
      }
    }
  }

  // ---------- statements with different numbers ----------

  /** No two active statements have the same number. */
  ghost predicate TidsDiffer(s: State) {
    forall i: nat, k: nat :: Active(s, i) && Active(s, k) && i < k ==> s.txs[i].tid != s.txs[k].tid
  }

  /** A scan holds every row it has come past. */
  ghost predicate Keeps(order: seq<RowName>, s: State) {
    s.slots <= |order| && forall i: nat, j: nat :: Active(s, i) && j < s.txs[i].pos && j < |order| ==>
      order[j] in s.owners && s.owners[order[j]] == s.txs[i].tid
  }

  lemma EndKeeps(order: seq<RowName>, s: State, i: nat)
    requires Keeps(order, s) && TidsDiffer(s) && Active(s, i)
    ensures Keeps(order, Ended(s, i))
  {
    var s' := Ended(s, i);
    forall k: nat, j: nat | Active(s', k) && j < s'.txs[k].pos && j < |order|
      ensures order[j] in s'.owners && s'.owners[order[j]] == s'.txs[k].tid
    {
      assert k != i && Active(s, k) && s'.txs[k] == s.txs[k];
      assert s.txs[k].tid != s.txs[i].tid;
    }
  }

  lemma LockKeeps(order: seq<RowName>, s: State, s': State, i: nat)
    requires Keeps(order, s) && TidsDiffer(s) && Lock(order, s, s', i)
    ensures Keeps(order, s')
  {
    forall k: nat, j: nat | Active(s', k) && j < s'.txs[k].pos && j < |order|
      ensures order[j] in s'.owners && s'.owners[order[j]] == s'.txs[k].tid
    {
      assert Active(s, k);
    }
  }

  lemma StepKeeps(order: seq<RowName>, s: State, s': State)
    requires Sound(order, s) && Keeps(order, s) && TidsDiffer(s) && Step(order, s, s')
    ensures Keeps(order, s')
  {
    if !Draw(s, s') && !Grow(order, s, s') {
      var i: nat :| Moves(order, s, s', i) || Abandon(s, s', i);
      hide Keeps, Sound, TidsDiffer;
      if Lock(order, s, s', i) {
        LockKeeps(order, s, s', i);
      } else {
        EndKeeps(order, s, i);
      }
    }
  }

  /** Statements that were active at the same time had different numbers, in every state of the run before n. */
  ghost predicate TidsDifferBefore(trace: seq<State>, n: nat)
    requires n <= |trace|
  {
    forall m :: 0 <= m < n ==> TidsDiffer(trace[m])
  }

  lemma {:induction false} RunKeeps(order: seq<RowName>, trace: seq<State>, n: nat)
    requires Run(order, trace) && n < |trace| && TidsDifferBefore(trace, n)
    ensures Keeps(order, trace[n])
  {
    if n > 0 {
      RunKeeps(order, trace, n - 1);
      RunSound(order, trace, n - 1);
      StepKeeps(order, trace[n - 1], trace[n]);
    }
  }

  // ---------- no deadlock ----------

  /** Of the first n slots, those with the same name follow one another directly. */
  ghost predicate GroupedTo(order: seq<RowName>, n: nat)
    requires n <= |order|
  {
    forall i, j, k :: 0 <= i < j < k < n && order[i] == order[k] ==> order[j] == order[i]
  }

  ghost predicate Grouped(order: seq<RowName>) {
    GroupedTo(order, |order|)
  }

  ghost predicate CanMove(order: seq<RowName>, s: State, i: nat) {
    exists s' :: Moves(order, s, s', i)
  }

  /** Statement i is at the end, or may lock its next row. */
  ghost predicate Unblocked(order: seq<RowName>, s: State, i: nat)
    requires i < |s.txs|
  {
    var t := s.txs[i];
    t.pos == s.slots || (t.pos < s.slots <= |order| && Free(s.owners, t.tid, order[t.pos]))
  }

  lemma MovesIff(order: seq<RowName>, s: State, i: nat)
    requires Active(s, i)
    ensures CanMove(order, s, i) <==> Unblocked(order, s, i)
  {
    var t := s.txs[i];
    if t.pos == s.slots {
      assert Moves(order, s, Ended(s, i), i);
    } else if Unblocked(order, s, i) {
      assert Moves(order, s, State(s.txs[i := t.(pos := t.pos + 1)], Taken(s.owners, t.tid, order[t.pos]), s.slots), i);
    }
  }

  /** A scan that cannot move waits for one that can, or for one that is strictly ahead of it. */
  lemma MovesOrWaits(order: seq<RowName>, s: State, i: nat)
    requires (Grouped(order) || Keeps(order, s)) && Sound(order, s) && Active(s, i)
    ensures exists k: nat :: Active(s, k) && (CanMove(order, s, k) || s.txs[k].pos > s.txs[i].pos)
  {
    MovesIff(order, s, i);
    if !CanMove(order, s, i) {
      var r := order[s.txs[i].pos];
      assert Held(order, s, r);
      var k: nat, j: nat :| Active(s, k) && s.txs[k].tid == s.owners[r] && j < s.txs[k].pos <= |order| && order[j] == r;
      MovesIff(order, s, k);
      if s.txs[k].pos <= s.txs[i].pos {
        assert Grouped(order) ==> order[s.txs[k].pos] == r;
      }
    }
  }

  lemma {:induction false} SomeoneMoves(order: seq<RowName>, s: State, i: nat)
    requires (Grouped(order) || Keeps(order, s)) && Sound(order, s) && Active(s, i)
    ensures exists k: nat :: Active(s, k) && CanMove(order, s, k)
    decreases s.slots - s.txs[i].pos
  {
    MovesOrWaits(order, s, i);
    var k: nat :| Active(s, k) && (CanMove(order, s, k) || s.txs[k].pos > s.txs[i].pos);
    if !CanMove(order, s, k) {
      SomeoneMoves(order, s, k);
    }
  }

  /** Some statement is not over, and no active one can move. */
  ghost predicate Stuck(order: seq<RowName>, s: State) {
    (exists i: nat :: Active(s, i)) && forall k: nat :: Active(s, k) ==> !CanMove(order, s, k)
  }

  /**
    No state of a run is stuck, if slots with one name follow one another or if active statements
    have always had different numbers.
   */
  lemma NoDeadlock(order: seq<RowName>, trace: seq<State>, n: nat)
    requires Run(order, trace) && n < |trace| && (Grouped(order) || TidsDifferBefore(trace, n))
    ensures !Stuck(order, trace[n])
  {
    RunSound(order, trace, n);
    if !Grouped(order) {
      RunKeeps(order, trace, n);
    }
    if i: nat :| Active(trace[n], i) {
      SomeoneMoves(order, trace[n], i);
    }
  }

  // ---------- every scan ends ----------

  /** How many moves the first n scans can still make, were the page full. */
  ghost function Left(order: seq<RowName>, txs: seq<Transaction>): int {
    if txs == [] then 0
    else
      var t := txs[|txs| - 1];
      Left(order, txs[..|txs| - 1]) + if t.done then 0 else |order| + 1 - t.pos
  }

  lemma {:induction false} LeftUpdated(order: seq<RowName>, txs: seq<Transaction>, i: nat, t: Transaction)
    requires i < |txs|
    ensures Left(order, txs[i := t]) == Left(order, txs) - Left(order, [txs[i]]) + Left(order, [t])
  {
    var n := |txs| - 1;
    if i < n {
      LeftUpdated(order, txs[..n], i, t);
      assert txs[i := t][..n] == txs[..n][i := t];
    } else {
      assert txs[i := t][..n] == txs[..n];
    }
    assert [t][..0] == [] && [txs[i]][..0] == [];
  }

  lemma {:induction false} LeftNatural(order: seq<RowName>, txs: seq<Transaction>)
    requires forall i :: 0 <= i < |txs| ==> txs[i].pos <= |order|
    ensures 0 <= Left(order, txs) <= (|order| + 1) * |txs|
  {
    if txs != [] {
      LeftNatural(order, txs[..|txs| - 1]);
    }
  }

  /**
    Every move and every early end leaves less to do, and inserts add nothing to it; so scans that
    go on moving while they can all finish, in at most eleven moves each.
   */
  lemma StepsRunOut(order: seq<RowName>, s: State, s': State)
    requires Sound(order, s) && Step(order, s, s')
    ensures 0 <= Left(order, s.txs) <= (|order| + 1) * |s.txs|
    ensures (exists i: nat :: Moves(order, s, s', i) || Abandon(s, s', i)) ==> Left(order, s'.txs) < Left(order, s.txs)
    ensures Grow(order, s, s') ==> Left(order, s'.txs) == Left(order, s.txs)
  {
    LeftNatural(order, s.txs);
    if i: nat :| Moves(order, s, s', i) || Abandon(s, s', i) {
      LeftUpdated(order, s.txs, i, s'.txs[i]);
      assert [s'.txs[i]][..0] == [] && [s.txs[i]][..0] == [];
    }
  }

  ghost predicate NoDraws(trace: seq<State>, n: nat, m: nat)
    requires n <= m < |trace|
  {
    forall k :: n <= k < m ==> !Draw(trace[k], trace[k + 1])
  }

  lemma StepCost(order: seq<RowName>, s: State, s': State)
    requires Sound(order, s) && Step(order, s, s') && !Draw(s, s')
    ensures Left(order, s.txs) - Left(order, s'.txs) + s'.slots - s.slots >= 1
    ensures |s'.txs| == |s.txs|
  {
    StepsRunOut(order, s, s');
    hide Left;
  }

  lemma {:induction false} RunCost(order: seq<RowName>, trace: seq<State>, n: nat, m: nat)
    requires Run(order, trace) && n <= m < |trace| && NoDraws(trace, n, m)
    ensures m - n <= Left(order, trace[n].txs) - Left(order, trace[m].txs) + trace[m].slots - trace[n].slots
    decreases m
  {
    hide Left, Sound, Step, Draw;
    if n < m {
      RunCost(order, trace, n, m - 1);
      RunSound(order, trace, m - 1);
      StepCost(order, trace[m - 1], trace[m]);
    }
  }

  /**
    However they are scheduled, the statements there are take only so many steps, and when none can
    move all are over.
   */
  lemma RunsEnd(order: seq<RowName>, trace: seq<State>, n: nat, m: nat)
    requires Run(order, trace) && n <= m < |trace| && NoDraws(trace, n, m)
    ensures m - n <= (|order| + 1) * |trace[n].txs| + |order|
    ensures Grouped(order) || TidsDifferBefore(trace, m) ==> !Stuck(order, trace[m])
  {
    if Grouped(order) || TidsDifferBefore(trace, m) {
      NoDeadlock(order, trace, m);
    }
    RunCost(order, trace, n, m);
    RunSound(order, trace, n);
    RunSound(order, trace, m);
    LeftNatural(order, trace[n].txs);
    LeftNatural(order, trace[m].txs);
  }

  // ---------- mutual exclusion ----------

  /** An active statement owns a row it has come past. */
  ghost predicate Holds(order: seq<RowName>, s: State, i: nat, r: RowName) {
    && Active(s, i) && r in s.owners && s.owners[r] == s.txs[i].tid
    && exists j: nat :: j < s.txs[i].pos && j < |order| && order[j] == r
  }

  /**
    While active statements have different numbers, whatever names the slots have, a row a scan has
    come past is its own; and as all scans start with the same row, at most one has read any at all.
   */
  lemma OneScanAtATime(order: seq<RowName>, trace: seq<State>, n: nat, i: nat, k: nat)
    requires Run(order, trace) && n < |trace| && TidsDifferBefore(trace, n + 1)
    requires Active(trace[n], i) && Active(trace[n], k) && trace[n].txs[i].pos > 0 && trace[n].txs[k].pos > 0
    ensures i == k
  {
    var s := trace[n];
    RunSound(order, trace, n);
    RunKeeps(order, trace, n);
    assert s.owners[order[0]] == s.txs[i].tid == s.txs[k].tid;
    assert TidsDiffer(s);
  }

  // ---------- runs that go wrong ----------

  /** A run that ends in s. */
  ghost predicate Reachable(order: seq<RowName>, s: State) {
    exists trace :: Run(order, trace) && trace[|trace| - 1] == s
  }

  lemma ReachStart(order: seq<RowName>)
    ensures Reachable(order, START)
  {
    assert Run(order, [START]) && [START][|[START]| - 1] == START;
  }

  lemma ReachNext(order: seq<RowName>, s: State, s': State)
    requires Reachable(order, s) && Step(order, s, s')
    ensures Reachable(order, s')
  {
    var trace :| Run(order, trace) && trace[|trace| - 1] == s;
    var trace' := trace + [s'];
    assert Run(order, trace') && trace'[|trace'| - 1] == s';
  }

  lemma {:induction false} ReachGrown(order: seq<RowName>, n: nat)
    requires n <= |order|
    ensures Reachable(order, START.(slots := n))
  {
    ReachStart(order);
    if n > 0 {
      ReachGrown(order, n - 1);
      assert Grow(order, START.(slots := n - 1), START.(slots := n));
      ReachNext(order, START.(slots := n - 1), START.(slots := n));
    }
  }

  /** After n more draws. */
  ghost function Drawn(s: State, n: nat): State {
    if n == 0 then s else var d := Drawn(s, n - 1); d.(txs := d.txs + [Transaction(|d.txs| % TIDS, 0, false)])
  }

  lemma {:induction false} DrawnReachable(order: seq<RowName>, s: State, n: nat)
    requires Reachable(order, s)
    ensures Reachable(order, Drawn(s, n))
    ensures var d := Drawn(s, n); |d.txs| == |s.txs| + n && s.txs <= d.txs && d.owners == s.owners && d.slots == s.slots
    ensures forall i :: |s.txs| <= i < |s.txs| + n ==> Drawn(s, n).txs[i] == Transaction(i % TIDS, 0, false)
  {
    if n > 0 {
      DrawnReachable(order, s, n - 1);
      assert Draw(Drawn(s, n - 1), Drawn(s, n));
      ReachNext(order, Drawn(s, n - 1), Drawn(s, n));
    }
  }

  // ---------- when a run can get stuck ----------

  /** Statement i after it has locked the slots up to q. */
  ghost function Advanced(order: seq<RowName>, s: State, i: nat, q: nat): State
    requires i < |s.txs| && s.txs[i].pos <= q <= |order|
    decreases q
  {
    if q == s.txs[i].pos then s
    else
      var d := Advanced(order, s, i, q - 1);
      State(s.txs[i := s.txs[i].(pos := q)], Taken(d.owners, s.txs[i].tid, order[q - 1]), s.slots)
  }

  /** The rows owned in d are those owned in s, as before, and the slots from p up to q, owned by t. */
  ghost predicate TakenTo(order: seq<RowName>, s: Owners, d: Owners, t: nat, p: nat, q: nat)
    requires p <= q <= |order|
  {
    && (forall r :: r in s ==> r in d && d[r] == s[r])
    && (forall x :: p <= x < q ==> order[x] in d && d[order[x]] == t)
    && (forall r :: r in d ==> r in s || (d[r] == t && r in order[p..q]))
  }

  lemma TakenOneMore(order: seq<RowName>, s: Owners, d: Owners, t: nat, p: nat, q: nat)
    requires p <= q < |order| && TakenTo(order, s, d, t, p, q) && Free(s, t, order[q])
    ensures Free(d, t, order[q]) && TakenTo(order, s, Taken(d, t, order[q]), t, p, q + 1)
  {
    assert order[p..q + 1] == order[p..q] + [order[q]];
  }

  /** The scan locks one more slot. */
  lemma AdvancedStep(order: seq<RowName>, s: State, i: nat, q: nat)
    requires Active(s, i) && s.txs[i].pos < q <= s.slots <= |order|
    requires
      var d := Advanced(order, s, i, q - 1);
      d.txs == s.txs[i := s.txs[i].(pos := q - 1)] && d.slots == s.slots && Free(d.owners, s.txs[i].tid, order[q - 1])
    ensures
      var d, e := Advanced(order, s, i, q - 1), Advanced(order, s, i, q);
      && Lock(order, d, e, i) && e.txs == s.txs[i := s.txs[i].(pos := q)] && e.slots == s.slots
      && e.owners == Taken(d.owners, s.txs[i].tid, order[q - 1])
  {
    hide Taken, Free;
    var d, e := Advanced(order, s, i, q - 1), Advanced(order, s, i, q);
    assert e == State(s.txs[i := s.txs[i].(pos := q)], Taken(d.owners, s.txs[i].tid, order[q - 1]), s.slots);
    hide Advanced;
    assert e.txs == d.txs[i := d.txs[i].(pos := q)];
  }

  lemma NothingAdvanced(order: seq<RowName>, s: State, i: nat)
    requires i < |s.txs| && s.txs[i].pos <= |order|
    ensures Advanced(order, s, i, s.txs[i].pos) == s && s.txs[i := s.txs[i].(pos := s.txs[i].pos)] == s.txs
    ensures TakenTo(order, s.owners, s.owners, s.txs[i].tid, s.txs[i].pos, s.txs[i].pos)
  {
  }

  lemma {:induction false} AdvancedReachable(order: seq<RowName>, s: State, i: nat, q: nat)
    requires Reachable(order, s) && Active(s, i) && s.txs[i].pos <= q <= s.slots <= |order|
    requires forall x :: s.txs[i].pos <= x < q ==> Free(s.owners, s.txs[i].tid, order[x])
    ensures
      var d := Advanced(order, s, i, q);
      && Reachable(order, d) && d.txs == s.txs[i := s.txs[i].(pos := q)] && d.slots == s.slots
      && TakenTo(order, s.owners, d.owners, s.txs[i].tid, s.txs[i].pos, q)
    decreases q
  {
    hide Reachable, TakenTo, Advanced, Taken, Free;
    var p, t := s.txs[i].pos, s.txs[i].tid;
    if q > p {
      AdvancedReachable(order, s, i, q - 1);
      var d, e := Advanced(order, s, i, q - 1), Advanced(order, s, i, q);
      TakenOneMore(order, s.owners, d.owners, t, p, q - 1);
      AdvancedStep(order, s, i, q);
      assert Moves(order, d, e, i);
      ReachNext(order, d, e);
    } else {
      NothingAdvanced(order, s, i);
    }
  }

  /** Two statements ever hold a row together exactly when their draws are a multiple of 256 apart. */
  lemma HoldTogetherIff(order: seq<RowName>, i: nat, k: nat)
    requires order != [] && i < k
    ensures (exists s, r :: Reachable(order, s) && Holds(order, s, i, r) && Holds(order, s, k, r)) <==>
        (k - i) % 256 == 0
  {
    if s, r :| Reachable(order, s) && Holds(order, s, i, r) && Holds(order, s, k, r) {
      SameHolder(order, s, i, k, r);
    }
    hide Reachable, Holds;
    if (k - i) % TIDS == 0 {
      SharedNumber(order, i, k);
    }
  }

  /** Statements fewer than 256 draws apart have different numbers, whatever else happens, and never share a row. */
  lemma NeighboursApart(order: seq<RowName>, s: State, i: nat, k: nat)
    requires Reachable(order, s) && i < k < |s.txs| && k - i < 256
    ensures s.txs[i].tid < 256 && s.txs[k].tid < 256 && s.txs[i].tid != s.txs[k].tid
    ensures forall r :: !(Holds(order, s, i, r) && Holds(order, s, k, r))
  {
    var trace :| Run(order, trace) && trace[|trace| - 1] == s;
    RunSound(order, trace, |trace| - 1);
  }

  lemma SameHolder(order: seq<RowName>, s: State, i: nat, k: nat, r: RowName)
    requires Reachable(order, s) && Holds(order, s, i, r) && Holds(order, s, k, r)
    ensures i % TIDS == k % TIDS
  {
    var trace :| Run(order, trace) && trace[|trace| - 1] == s;
    RunSound(order, trace, |trace| - 1);
  }

  lemma SharedNumber(order: seq<RowName>, i: nat, k: nat)
    requires order != [] && i < k && (k - i) % TIDS == 0
    ensures exists s :: Reachable(order, s) && Holds(order, s, i, order[0]) && Holds(order, s, k, order[0])
  {
    hide Reachable, Advanced, Drawn;
    ReachGrown(order, 1);
    DrawnReachable(order, START.(slots := 1), k + 1);
    var s1 := Drawn(START.(slots := 1), k + 1);
    assert s1.txs[i].tid == s1.txs[k].tid;
    BothLock(order, s1, i, k);
  }

  /** Statements with one number can both lock a row that nobody owns. */
  lemma BothLock(order: seq<RowName>, s: State, i: nat, k: nat)
    requires Reachable(order, s) && order != [] && s.slots == 1 && s.owners == map[] && Active(s, i) && Active(s, k)
        && i != k
    requires s.txs[i].pos == 0 == s.txs[k].pos && s.txs[i].tid == s.txs[k].tid
    ensures exists d :: Reachable(order, d) && Holds(order, d, i, order[0]) && Holds(order, d, k, order[0])
  {
    hide Reachable, Advanced;
    AdvancedReachable(order, s, i, 1);
    var s2 := Advanced(order, s, i, 1);
    AdvancedReachable(order, s2, k, 1);
    var s3 := Advanced(order, s2, k, 1);
    hide TakenTo;
    TakenFirst(order, s.owners, s2.owners, s3.owners, s.txs[i].tid);
    assert Holds(order, s3, i, order[0]) && Holds(order, s3, k, order[0]);
  }

  lemma TakenFirst(order: seq<RowName>, s: Owners, d: Owners, e: Owners, t: nat)
    requires order != [] && TakenTo(order, s, d, t, 0, 1) && TakenTo(order, d, e, t, 0, 1)
    ensures order[0] in e && e[order[0]] == t
  {
  }

  /** Statements a up to b over. */
  ghost function EndedTo(s: State, a: nat, b: nat): (d: State)
    requires a <= b <= |s.txs|
    ensures |d.txs| == |s.txs|
    decreases b
  {
    if a == b then s else Ended(EndedTo(s, a, b - 1), b - 1)
  }

  lemma {:induction false} EndedReachable(order: seq<RowName>, s: State, a: nat, b: nat)
    requires Reachable(order, s) && a <= b <= |s.txs| && forall x :: a <= x < b ==> Active(s, x)
    ensures
      var d := EndedTo(s, a, b);
      && Reachable(order, d) && d.slots == s.slots
      && (forall x :: 0 <= x < |s.txs| ==> d.txs[x] == if a <= x < b then s.txs[x].(done := true) else s.txs[x])
      && (forall r :: r in d.owners ==> r in s.owners && d.owners[r] == s.owners[r])
      && (forall r, x :: r in d.owners && a <= x < b ==> d.owners[r] != s.txs[x].tid)
    decreases b
  {
    if a < b {
      EndedReachable(order, s, a, b - 1);
      assert EndedTo(s, a, b - 1).txs[b - 1] == s.txs[b - 1] && Active(s, b - 1);
      assert Abandon(EndedTo(s, a, b - 1), EndedTo(s, a, b), b - 1);
      ReachNext(order, EndedTo(s, a, b - 1), EndedTo(s, a, b));
    }
  }

  /** In slots grouped so far, the names from the end of a group on are new. */
  lemma AfterGroup(order: seq<RowName>, n: nat, i: nat, j: nat) returns (hi: nat)
    requires i < j < n <= |order| && GroupedTo(order, n) && order[j] != order[i]
    ensures i < hi <= j && forall p :: hi <= p < n ==> order[p] !in order[..hi]
  {
    hi := i + 1;
    while order[hi] == order[i]
      invariant i < hi <= j && order[hi - 1] == order[i]
      decreases j - hi
    {
      hi := hi + 1;
    }
    forall p, q | hi <= p < n && 0 <= q < hi ensures order[q] != order[p] {
    }
  }

  /** The first name that comes back after another one, at n. */
  lemma ReturnsAt(order: seq<RowName>, n: nat) returns (hi: nat)
    requires n < |order| && GroupedTo(order, n) && !GroupedTo(order, n + 1)
    ensures 0 < hi < n && order[n] in order[..hi]
    ensures forall p :: hi <= p < n ==> order[p] !in order[..hi]
  {
    var i, j, k :| 0 <= i < j < k < n + 1 && order[i] == order[k] && order[j] != order[i];
    assert k == n;
    hide GroupedTo;
    hi := AfterGroup(order, n, i, j);
    assert order[..hi][i] == order[n];
  }

  /** The shortest beginning of the page with a name that comes back after another one. */
  lemma {:induction false} FirstReturn(order: seq<RowName>, n: nat) returns (hi: nat, k: nat)
    requires n <= |order| && GroupedTo(order, n) && !Grouped(order)
    ensures 0 < hi < k < |order| && order[k] in order[..hi]
    ensures forall p :: hi <= p < k ==> order[p] !in order[..hi]
    decreases |order| - n
  {
    hide GroupedTo;
    if GroupedTo(order, n + 1) {
      hi, k := FirstReturn(order, n + 1);
    } else {
      k := n;
      hi := ReturnsAt(order, n);
    }
  }

  /** Half way: 0 has come past the first hi slots, 1 owns them, and all but these two are over. */
  lemma HalfWay(order: seq<RowName>, hi: nat) returns (s: State)
    requires 0 < hi < |order|
    ensures Reachable(order, s) && s.slots == |order| && |s.txs| == 257
    ensures s.txs[0] == Transaction(0, hi, false) && s.txs[1] == Transaction(1, hi, false)
    ensures forall x :: 2 <= x < 257 ==> s.txs[x].done
    ensures TakenTo(order, map[], s.owners, 1, 0, hi)
  {
    hide Reachable, Drawn, Advanced;
    ReachGrown(order, |order|);
    var s0 := START.(slots := |order|);
    DrawnReachable(order, s0, 257);
    var s1 := Drawn(s0, 257);
    AdvancedReachable(order, s1, 0, hi);
    var s2 := Advanced(order, s1, 0, hi);
    assert s2.txs[256].tid == 0 && forall r :: r in s2.owners ==> s2.owners[r] == 0;
    assert forall x :: 2 <= x < 257 ==> s2.txs[x] == s1.txs[x];
    hide TakenTo;
    var s3 := OthersEnd(order, s2);
    AdvancedReachable(order, s3, 1, hi);
    s := Advanced(order, s3, 1, hi);
  }

  /** All but the first two of 257 statements end, and with the last one of them the rows of 0 are given back. */
  lemma OthersEnd(order: seq<RowName>, s: State) returns (d: State)
    requires Reachable(order, s) && |s.txs| == 257 && s.txs[256].tid == 0 && forall x :: 2 <= x < 257 ==> Active(s, x)
    requires forall r :: r in s.owners ==> s.owners[r] == 0
    ensures Reachable(order, d) && d.slots == s.slots && d.owners == map[] && |d.txs| == 257
    ensures d.txs[0] == s.txs[0] && d.txs[1] == s.txs[1] && forall x :: 2 <= x < 257 ==> d.txs[x].done
  {
    EndedReachable(order, s, 2, 257);
    d := EndedTo(s, 2, 257);
    hide EndedTo, Reachable;
    assert d.owners == map[];
  }

  /**
    The state a page with such a name leads to: 0 has locked up to k, which it waits for; 1, which
    got the first hi slots when 256 gave back the rows of 0 with its own, waits for slot hi.
   */
  lemma ReturnGetsStuck(order: seq<RowName>, hi: nat, k: nat)
    requires 0 < hi < k < |order| && order[k] in order[..hi]
    requires forall p :: hi <= p < k ==> order[p] !in order[..hi]
    ensures CanGetStuck(order)
  {
    hide Reachable, Stuck;
    var s := HalfWay(order, hi);
    assert order[0..hi] == order[..hi];
    assert forall r :: r in s.owners ==> r in order[0..hi];
    AdvancedReachable(order, s, 0, k);
    var s' := Advanced(order, s, 0, k);
    var x :| 0 <= x < hi && order[x] == order[k];
    assert order[x] in s.owners && s.owners[order[x]] == 1;
    StuckAt(order, s', hi, k);
  }

  lemma StuckAt(order: seq<RowName>, s: State, hi: nat, k: nat)
    requires 0 < hi < k < |order| == s.slots && |s.txs| == 257 && forall x :: 2 <= x < 257 ==> s.txs[x].done
    requires s.txs[0] == Transaction(0, k, false) && s.txs[1] == Transaction(1, hi, false)
    requires order[k] in s.owners && s.owners[order[k]] == 1 && order[hi] in s.owners && s.owners[order[hi]] == 0
    ensures Stuck(order, s)
  {
    MovesIff(order, s, 0);
    MovesIff(order, s, 1);
    assert Active(s, 0);
  }

  /** Some run gets stuck. */
  ghost predicate CanGetStuck(order: seq<RowName>) {
    exists s :: Reachable(order, s) && Stuck(order, s)
  }

  /**
    On a page no run ever gets stuck, however often numbers are shared, exactly when slots with one
    name follow one another.
   */
  lemma NeverStuckIff(order: seq<RowName>)
    ensures !CanGetStuck(order) <==> Grouped(order)
  {
    if !Grouped(order) {
      var hi, k := FirstReturn(order, 0);
      ReturnGetsStuck(order, hi, k);
    } else if s :| Reachable(order, s) && Stuck(order, s) {
      var trace :| Run(order, trace) && trace[|trace| - 1] == s;
      NoDeadlock(order, trace, |trace| - 1);
    }
  }

  /** The names of a page's slots, as a scan comes to them. */
  function SlotNames(h: HeapImage, pid: int): seq<RowName>
    requires 0 <= h.slotCount <= |h.slots|
  {
    seq(h.slotCount, i requires 0 <= i < h.slotCount => NameOf(RID(pid, h.slots[i])))
  }

  /**
    An accepted row between two rows turned away for space makes such a page: the slots those two
    leave behind have one name, that of the offset they never got.
   */
  lemma RejectedRowsGetStuck(h: HeapImage, a: Row, b: Row, c: Row, pid: int)
    requires HeapReadable(h) && h.initialized && StorableRow(a) && StorableRow(b) && StorableRow(c)
    requires h.slotCount + 3 <= MAX_SLOTS && h.slots[h.slotCount].offset == h.slots[h.slotCount + 2].offset == 0
    requires WriteRow(h, a).1 == Failure(SpaceFull) && |RowBytes(b)| < h.freeSize < |RowBytes(b)| + |RowBytes(c)|
    ensures
      var h1 := WriteRow(h, a).0;
      HeapReadable(h1) && var h2 := WriteRow(h1, b).0;
      HeapReadable(h2) && var h3 := WriteRow(h2, c).0;
      HeapReadable(h3) && h3.slotCount == h.slotCount + 3 && CanGetStuck(SlotNames(h3, pid))
  {
    var h1 := WriteRow(h, a).0;
    var h2 := WriteRow(h1, b).0;
    var h3 := WriteRow(h2, c).0;
    var n := h.slotCount;
    assert h3.slots[n].offset == 0 && h3.slots[n + 1].offset > 0 && h3.slots[n + 2].offset == 0;
    var order := SlotNames(h3, pid);
    assert order[n] == order[n + 2] && order[n + 1] != order[n];
    hide WriteRow, CanGetStuck;
    NeverStuckIff(order);
  }
}
