/**
  What the rows a SELECT answers with are, said slot by slot and value by value: which slots are read,
  which of their rows are kept, and which value stands where.
 */
module SelectMeaning {
  import opened StorageTypes
  import opened HeapRows
  import opened HeapSpec
  import opened LockTables
  import opened SelectSpec
  import opened Pipelines

  // ---------- comparisons ----------

  /** The second number is the first and n more. */
  ghost predicate More(a: int, b: int, n: nat) {
    b == a + n
  }

  /** An integer against a constant, by the difference between them. */
  ghost predicate Stands(op: CompareOp, a: int, k: int) {
    match op
    case EQ => a == k
    case GT => exists d: nat :: More(k, a, d) && d > 0
    case LS => exists d: nat :: More(a, k, d) && d > 0
    case GTE => exists d: nat :: More(k, a, d)
    case LSE => exists d: nat :: More(a, k, d)
  }

  /** The strings agree on their first n bytes, and there a ends or has the smaller byte. */
  ghost predicate PartsAt(a: seq<Byte>, b: seq<Byte>, n: nat) {
    n <= |a| && n < |b| && a[..n] == b[..n] && (n < |a| ==> a[n] < b[n])
  }

  /** String a comes before string b. */
  ghost predicate Precedes(a: seq<Byte>, b: seq<Byte>) {
    exists n: nat :: PartsAt(a, b, n)
  }

  ghost predicate TextStands(op: CompareOp, a: seq<Byte>, k: seq<Byte>) {
    match op
    case EQ => a == k
    case GT => Precedes(k, a)
    case LS => Precedes(a, k)
    case GTE => a == k || Precedes(k, a)
    case LSE => a == k || Precedes(a, k)
  }

  ghost predicate SameKind(v: HeapRows.Value, k: HeapRows.Value) {
    (v.Integer? <==> k.Integer?) && (v.Text? <==> k.Text?)
  }

  /** A value of a row against a constant of its type. */
  ghost predicate Satisfies(op: CompareOp, v: HeapRows.Value, k: HeapRows.Value, floats: FloatOp)
    requires SameKind(v, k)
  {
    match v
    case Integer(a) => Stands(op, a, k.n)
    case Text(s) => TextStands(op, s, k.s)
    case Floating(bits) => floats(op, bits, k.bits)
  }

  lemma {:induction false} LessIff(a: seq<Byte>, b: seq<Byte>)
    ensures TextLess(a, b) <==> Precedes(a, b)
  {
    if b != [] && a != [] {
      if a[0] == b[0] {
        LessIff(a[1..], b[1..]);
        if n: nat :| PartsAt(a[1..], b[1..], n) {
          assert a[..n + 1] == [a[0]] + a[1..][..n] && b[..n + 1] == [b[0]] + b[1..][..n];
          assert PartsAt(a, b, n + 1);
        }
        if n: nat :| PartsAt(a, b, n) {
          assert n > 0;
          assert a[1..][..n - 1] == a[..n][1..] && b[1..][..n - 1] == b[..n][1..];
          assert PartsAt(a[1..], b[1..], n - 1);
        }
      } else {
        assert PartsAt(a, b, 0) <==> a[0] < b[0];
        forall n: nat | PartsAt(a, b, n) ensures n == 0 {
          SameBytes(a, b, n);
        }
      }
    } else {
      assert PartsAt(a, b, 0) <==> b != [];
    }
  }

  lemma SameBytes(a: seq<Byte>, b: seq<Byte>, n: nat)
    requires n <= |a| && n <= |b| && a[..n] == b[..n]
    ensures forall i :: 0 <= i < n ==> a[i] == b[i]
  {
    forall i | 0 <= i < n ensures a[i] == b[i] {
      assert a[..n][i] == b[..n][i];
    }
  }

  /** A proper beginning of a string comes before it; else the first byte they differ in decides. */
  lemma FirstByteDecides(a: seq<Byte>, b: seq<Byte>, n: nat)
    requires n <= |a| && n <= |b| && a[..n] == b[..n]
    ensures n == |a| < |b| ==> Precedes(a, b) && !Precedes(b, a)
    ensures n < |a| && n < |b| && a[n] < b[n] ==> Precedes(a, b) && !Precedes(b, a)
  {
    if (n == |a| < |b|) || (n < |a| && n < |b| && a[n] < b[n]) {
      assert PartsAt(a, b, n);
      SameBytes(a, b, n);
      forall m: nat | PartsAt(b, a, m) ensures false {
        SameBytes(b, a, m);
      }
    }
  }

  /** Where two strings part for the first time. */
  lemma {:induction false} FirstDifference(a: seq<Byte>, b: seq<Byte>) returns (n: nat)
    ensures n <= |a| && n <= |b| && a[..n] == b[..n] && (n < |a| && n < |b| ==> a[n] != b[n])
  {
    if a == [] || b == [] || a[0] != b[0] {
      n := 0;
    } else {
      var m := FirstDifference(a[1..], b[1..]);
      n := m + 1;
      assert a[..n] == [a[0]] + a[1..][..m] && b[..n] == [b[0]] + b[1..][..m];
    }
  }

  /** Of two strings exactly one comes first, unless they are the same. */
  lemma PrecedesTotal(a: seq<Byte>, b: seq<Byte>)
    ensures !(Precedes(a, b) && Precedes(b, a)) && !Precedes(a, a)
    ensures a == b || Precedes(a, b) || Precedes(b, a)
  {
    var n := FirstDifference(a, b);
    FirstByteDecides(a, b, n);
    assert b[..n] == a[..n];
    FirstByteDecides(b, a, n);
    if n == |a| == |b| {
      assert a[..n] == a && b[..n] == b;
    }
  }

  lemma PrecedesTransitive(a: seq<Byte>, b: seq<Byte>, c: seq<Byte>)
    requires Precedes(a, b) && Precedes(b, c)
    ensures Precedes(a, c)
  {
    var n: nat :| PartsAt(a, b, n);
    var m: nat :| PartsAt(b, c, m);
    var l := if n < m then n else m;
    assert a[..l] == a[..n][..l] == b[..n][..l] == b[..l] == b[..m][..l] == c[..m][..l] == c[..l];
    assert l < m ==> b[l] == b[..m][l] == c[..m][l] == c[l];
    assert l < n ==> a[l] == a[..n][l] == b[..n][l] == b[l];
    assert PartsAt(a, c, l);
  }

  /** What the filter compares with is what the comparison says. */
  lemma MatchesIff(op: CompareOp, v: HeapRows.Value, k: HeapRows.Value, floats: FloatOp)
    requires SameKind(v, k)
    ensures Matches(op, v, k, floats) <==> Satisfies(op, v, k, floats)
  {
    match v
    case Integer(a) => IntegersIff(op, a, k.n);
    case Text(s) =>
      LessIff(s, k.s);
      LessIff(k.s, s);
      PrecedesTotal(s, k.s);
    case Floating(_) =>
  }

  lemma IntegersIff(op: CompareOp, a: int, k: int)
    ensures NumberMatches(op, a, k) <==> Stands(op, a, k)
  {
    var more, less: nat := if a >= k then a - k else 0, if a <= k then k - a else 0;
    assert a >= k ==> More(k, a, more);
    assert a <= k ==> More(a, k, less);
  }

  /** Values of different types compare by type, strings before integers before floats. */
  lemma KindsCompare(op: CompareOp, v: HeapRows.Value, k: HeapRows.Value, floats: FloatOp)
    requires (v.Text? && !k.Text?) || (v.Integer? && k.Floating?)
    ensures Matches(op, v, k, floats) <==> op == LS || op == LSE
    ensures Matches(op, k, v, floats) <==> op == GT || op == GTE
  {
  }

  // ---------- choosing from a sequence ----------

  /** Positions below n, each after the one before it. */
  ghost predicate Rising(at: seq<nat>, n: nat) {
    (forall j :: 0 <= j < |at| ==> at[j] < n) && forall j, l :: 0 <= j < l < |at| ==> at[j] < at[l]
  }

  lemma RisingJoins(a: seq<nat>, b: seq<nat>, i: nat, n: nat)
    requires |a| <= 1 && (a != [] ==> a[0] == i) && i < n && Rising(b, n) && forall j :: 0 <= j < |b| ==> i < b[j]
    ensures Rising(a + b, n)
  {
  }

  /** The slots the scan reads: in slot order, those that are not deleted. */
  lemma {:induction false} LiveSlots(h: HeapImage, types: seq<ColumnType>, pid: int, i: nat) returns (at: seq<nat>)
    requires Scannable(h, types) && i <= h.slotCount
    ensures Rising(at, h.slotCount) && forall s :: s in at <==> i <= s < h.slotCount && !h.slots[s].deleted
    ensures |RowsFrom(h, types, i)| == |at| == |NamesFrom(h, pid, i)| && DeletedFrom(h, i) == h.slotCount - i - |at|
    ensures forall j :: 0 <= j < |at| ==>
      SlotDecodes(h, types, at[j]) && RowsFrom(h, types, i)[j] == ReadSlot(h, types, at[j]).value
      && NamesFrom(h, pid, i)[j] == RowName(pid, h.slots[at[j]].offset)
    decreases h.slotCount - i
  {
    if i == h.slotCount {
      at := [];
    } else {
      var rest := LiveSlots(h, types, pid, i + 1);
      forall j | 0 <= j < |rest| ensures i < rest[j] {
        assert rest[j] in rest;
      }
      assert !h.slots[i].deleted ==> SlotDecodes(h, types, i);
      var first: seq<nat> := if h.slots[i].deleted then [] else [i];
      RisingJoins(first, rest, i, h.slotCount);
      at := first + rest;
      hide ReadSlot;
    }
  }

  /** Of these rows, those marked to be kept, with their positions. */
  ghost predicate Picked(rows: seq<Row>, keep: seq<bool>, r: seq<Row>, at: seq<nat>) {
    && |keep| == |rows| && |r| == |at| && Rising(at, |rows|)
    && (forall i :: 0 <= i < |rows| ==> (keep[i] <==> i in at))
    && forall j :: 0 <= j < |at| ==> r[j] == rows[at[j]]
  }

  lemma PickedNext(rows: seq<Row>, keep: seq<bool>, r: seq<Row>, at: seq<nat>, row: Row, more: bool)
    requires Picked(rows, keep, r, at)
    ensures Picked(rows + [row], keep + [more], r + if more then [row] else [], at + if more then [|rows|] else [])
  {
    var rows', keep', at' := rows + [row], keep + [more], at + if more then [|rows|] else [];
    assert Rising(at', |rows'|);
    forall i | 0 <= i < |rows'| ensures keep'[i] <==> i in at' {
      assert i < |rows| ==> (keep[i] <==> i in at);
      assert |rows| !in at;
    }
  }

  ghost function Marks(rows: seq<Row>, c: Condition, floats: FloatOp): seq<bool>
    requires AllFit(rows, c)
  {
    seq(|rows|, i requires 0 <= i < |rows| => Holds(c, rows[i], floats))
  }

  /** The rows the filter keeps: in order, those that hold. */
  lemma {:induction false} Chosen(rows: seq<Row>, c: Condition, floats: FloatOp) returns (at: seq<nat>)
    requires AllFit(rows, c)
    ensures Picked(rows, Marks(rows, c, floats), Filtered(rows, c, floats), at)
    decreases |rows|
  {
    hide Holds, Filtered, Picked;
    if rows == [] {
      at := [];
      NonePicked(c, floats);
    } else {
      var l := |rows| - 1;
      at := Chosen(rows[..l], c, floats);
      FilteredLast(rows, c, floats);
      assert Marks(rows, c, floats) == Marks(rows[..l], c, floats) + [Holds(c, rows[l], floats)];
      assert rows[..l] + [rows[l]] == rows;
      PickedNext(rows[..l], Marks(rows[..l], c, floats), Filtered(rows[..l], c, floats), at, rows[l],
                 Holds(c, rows[l], floats));
      at := at + if Holds(c, rows[l], floats) then [l] else [];
    }
  }

  lemma NonePicked(c: Condition, floats: FloatOp)
    ensures Picked([], Marks([], c, floats), Filtered([], c, floats), [])
  {
  }

  ghost predicate AllFit(rows: seq<Row>, c: Condition) {
    forall j :: 0 <= j < |rows| ==> Fits(c, |rows[j]|)
  }

  lemma FilteredNone(c: Condition, floats: FloatOp)
    ensures Filtered([], c, floats) == []
  {
  }

  lemma FilteredStep(rows: seq<Row>, c: Condition, floats: FloatOp)
    requires rows != [] && AllFit(rows, c)
    ensures
      Filtered(rows, c, floats)
      == (if Holds(c, rows[0], floats) then [rows[0]] else []) + Filtered(rows[1..], c, floats)
  {
    hide Holds;
  }

  lemma {:induction false} FilteredLast(rows: seq<Row>, c: Condition, floats: FloatOp)
    requires rows != [] && AllFit(rows, c)
    ensures
      var l := |rows| - 1;
      Filtered(rows, c, floats) == Filtered(rows[..l], c, floats) + if Holds(c, rows[l], floats) then [rows[l]] else []
    decreases |rows|
  {
    hide Holds, Filtered;
    FilteredStep(rows, c, floats);
    FilteredNone(c, floats);
    if |rows| > 1 {
      var l := |rows| - 1;
      FilteredStep(rows[..l], c, floats);
      FilteredLast(rows[1..], c, floats);
      assert rows[1..][..l - 1] == rows[..l][1..] && rows[1..][l - 1] == rows[l] && rows[..l][0] == rows[0];
    } else {
      assert rows[1..] == [] && rows[..0] == [] && rows[0] == rows[|rows| - 1];
    }
  }

  // ---------- decoded rows ----------

  ghost predicate OfKind(v: HeapRows.Value, t: ColumnType) {
    match t
    case StringCol => v.Text?
    case IntCol => v.Integer?
    case FloatCol => v.Floating?
  }

  lemma {:induction false} DecodedKinds(types: seq<ColumnType>, b: seq<Byte>, i: nat)
    requires |b| >= RowSize(types) && DecodeRow(types, b).Some? && i < |types|
    ensures |DecodeRow(types, b).value| == |types| && OfKind(DecodeRow(types, b).value[i], types[i])
  {
    hide CString;
    DecodedLength(types, b);
    if i > 0 {
      DecodedKinds(types[1..], b[SizeOf(types[0])..], i - 1);
    }
  }

  lemma {:induction false} DecodedLength(types: seq<ColumnType>, b: seq<Byte>)
    requires |b| >= RowSize(types) && DecodeRow(types, b).Some?
    ensures |DecodeRow(types, b).value| == |types|
  {
    hide DecodeValue;
    if types != [] {
      DecodedLength(types[1..], b[SizeOf(types[0])..]);
    }
  }

  // ---------- the answer ----------

  /** The row in slot s has this value in column i. */
  ghost predicate ValueIn(h: HeapImage, types: seq<ColumnType>, s: nat, i: nat, v: HeapRows.Value)
    requires HeapSized(h) && s < MAX_SLOTS
  {
    SlotDecodes(h, types, s) && i < |types| && ReadSlot(h, types, s).value[i] == v
  }

  /** A live slot whose row the condition asks for. */
  ghost predicate Asked(h: HeapImage, types: seq<ColumnType>, columns: seq<string>, p: Option<Predicate>,
                        floats: FloatOp, s: nat)
    requires HeapSized(h) && s < MAX_SLOTS && |columns| == |types|
  {
    && !h.slots[s].deleted
    && (p.Some? ==>
          exists i: nat, v :: ValueIn(h, types, s, i, v) && columns[i] == p.value.column
              && SameKind(v, p.value.constant)
                         && Satisfies(p.value.op, v, p.value.constant, floats))
  }

  /** The constant has the type of its column, as the planner converts it. */
  ghost predicate ConstantFits(columns: seq<string>, types: seq<ColumnType>, p: Option<Predicate>)
    requires |columns| == |types|
  {
    p.Some? ==>
      p.value.column in columns &&
      forall i :: 0 <= i < |columns| && columns[i] == p.value.column ==> OfKind(p.value.constant, types[i])
  }

  lemma HoldsIff(h: HeapImage, types: seq<ColumnType>, columns: seq<string>, p: Option<Predicate>, floats: FloatOp,
                 s: nat)
    requires Scannable(h, types) && |columns| == |types| && DistinctNames(columns) && ConstantFits(columns, types, p)
    requires s < h.slotCount && !h.slots[s].deleted && SlotDecodes(h, types, s)
    ensures ConditionOf(columns, p).Some? && Fits(ConditionOf(columns, p).value, |types|)
    ensures Holds(ConditionOf(columns, p).value, ReadSlot(h, types, s).value, floats)
       <==> Asked(h, types, columns, p, floats, s)
  {
    hide ReadSlot, Satisfies, Matches;
    var row, c := ReadSlot(h, types, s).value, ConditionOf(columns, p).value;
    if p.Some? {
      SlotKinds(h, types, s, c.column);
      assert ValueIn(h, types, s, c.column, row[c.column]);
      assert SameKind(row[c.column], p.value.constant);
      MatchesIff(p.value.op, row[c.column], p.value.constant, floats);
      forall i: nat, v | ValueIn(h, types, s, i, v) && columns[i] == p.value.column
        ensures i == c.column && v == row[c.column]
      {
      }
    }
  }

  lemma SlotKinds(h: HeapImage, types: seq<ColumnType>, s: nat, i: nat)
    requires HeapSized(h) && s < MAX_SLOTS && SlotDecodes(h, types, s) && i < |types|
    ensures OfKind(ReadSlot(h, types, s).value[i], types[i])
  {
    DecodedKinds(types, h.data[h.slots[s].offset..], i);
  }

  /** Value m of the answer from slot s is the one in the column asked for in place m. */
  ghost predicate AnswersSlot(h: HeapImage, types: seq<ColumnType>, columns: seq<string>, names: seq<string>, row: Row,
                              s: nat)
    requires HeapSized(h) && s < MAX_SLOTS && |columns| == |types|
  {
    && |row| == |names|
    && forall m :: 0 <= m < |names| ==> exists i: nat :: ValueIn(h, types, s, i, row[m]) && columns[i] == names[m]
  }

  /**
    The answer to a SELECT over distinct columns: one row for each live slot the condition asks for,
    in slot order, with the values of the asked columns in the order asked.
   */
  lemma SelectMeans(h: HeapImage, columns: seq<string>, types: seq<ColumnType>, names: seq<string>,
                    p: Option<Predicate>, floats: FloatOp)
    returns (at: seq<nat>)
    requires Scannable(h, types) && |columns| == |types| && DistinctNames(columns) && ConstantFits(columns, types, p)
    requires forall m :: 0 <= m < |names| ==> names[m] in columns
    ensures Rising(at, h.slotCount)
    ensures forall s :: s in at <==> 0 <= s < h.slotCount && Asked(h, types, columns, p, floats, s)
    ensures
      && ConditionOf(columns, p).Some?
      && var answer := Answer(h, types, ConditionOf(columns, p).value, floats, Indices(columns, names));
      && |answer| == |at|
      && forall j :: 0 <= j < |at| ==> AnswersSlot(h, types, columns, names, answer[j], at[j])
  {
    hide ReadSlot, RowsFrom, Filtered, Holds, Asked, Indices, ConditionOf, AnswersSlot;
    var c, rows := ConditionOf(columns, p).value, RowsFrom(h, types, 0);
    var live := LiveSlots(h, types, 0, 0);
    var chosen := Chosen(rows, c, floats);
    at := seq(|chosen|, j requires 0 <= j < |chosen| => live[chosen[j]]);
    forall s | 0 <= s < h.slotCount && !h.slots[s].deleted
      ensures SlotDecodes(h, types, s)
      ensures Holds(c, ReadSlot(h, types, s).value, floats) <==> Asked(h, types, columns, p, floats, s)
    {
      HoldsIff(h, types, columns, p, floats, s);
    }
    AskedAt(h, types, columns, p, floats, live, chosen, at, rows, c);
    var answer := Answer(h, types, c, floats, Indices(columns, names));
    forall j | 0 <= j < |at| ensures AnswersSlot(h, types, columns, names, answer[j], at[j]) {
      assert answer[j] == Project(rows[chosen[j]], Indices(columns, names));
      ProjectMeans(h, types, columns, names, at[j]);
    }
  }

  /** The chosen of the live slots are those asked for. */
  lemma AskedAt(h: HeapImage, types: seq<ColumnType>, columns: seq<string>, p: Option<Predicate>, floats: FloatOp,
                live: seq<nat>, chosen: seq<nat>, at: seq<nat>, rows: seq<Row>, c: Condition)
    requires Scannable(h, types) && |columns| == |types| && Fits(c, |types|) && |rows| == |live|
    requires Rising(live, h.slotCount) && forall s :: s in live <==> 0 <= s < h.slotCount && !h.slots[s].deleted
    requires forall i :: 0 <= i < |live| ==>
      SlotDecodes(h, types, live[i]) && rows[i] == ReadSlot(h, types, live[i]).value
    requires forall i :: 0 <= i < |rows| ==> |rows[i]| == |types|
    requires Rising(chosen, |rows|)
    requires forall i :: 0 <= i < |rows| ==> (i in chosen <==> Holds(c, rows[i], floats))
    requires forall s :: 0 <= s < h.slotCount && !h.slots[s].deleted && SlotDecodes(h, types, s) ==>
      (Holds(c, ReadSlot(h, types, s).value, floats) <==> Asked(h, types, columns, p, floats, s))
    requires |at| == |chosen| && forall j :: 0 <= j < |at| ==> at[j] == live[chosen[j]]
    ensures Rising(at, h.slotCount)
    ensures forall s :: s in at <==> 0 <= s < h.slotCount && Asked(h, types, columns, p, floats, s)
  {
    hide ReadSlot, Holds;
    forall s | s in at ensures 0 <= s < h.slotCount && Asked(h, types, columns, p, floats, s) {
      var j :| 0 <= j < |at| && at[j] == s;
      assert chosen[j] in chosen && live[chosen[j]] in live;
    }
    forall s | 0 <= s < h.slotCount && Asked(h, types, columns, p, floats, s) ensures s in at {
      assert s in live;
      var i :| 0 <= i < |live| && live[i] == s;
      assert i in chosen;
      var j :| 0 <= j < |chosen| && chosen[j] == i;
      assert at[j] == s;
    }
  }

  lemma ProjectMeans(h: HeapImage, types: seq<ColumnType>, columns: seq<string>, names: seq<string>, s: nat)
    requires HeapSized(h) && s < MAX_SLOTS && SlotDecodes(h, types, s) && |columns| == |types|
    requires DistinctNames(columns) && forall m :: 0 <= m < |names| ==> names[m] in columns
    ensures AnswersSlot(h, types, columns, names, Project(ReadSlot(h, types, s).value, Indices(columns, names)), s)
  {
    hide ReadSlot, Indices;
    IndicesAre(columns, names);
    var row, indices := ReadSlot(h, types, s).value, Indices(columns, names);
    forall m | 0 <= m < |names|
      ensures exists i: nat :: ValueIn(h, types, s, i, Project(row, indices)[m]) && columns[i] == names[m]
    {
      assert IsAt(columns, indices[m], names[m]);
      assert ValueIn(h, types, s, indices[m], Project(row, indices)[m]);
    }
  }
}
