/**
  What a SELECT means: the live rows of the heap page in slot order, those that match, cut down to
  the asked columns.
 */
module SelectSpec {
  import opened StorageTypes
  import opened HeapRows
  import opened HeapSpec
  import opened LockTables

  datatype CompareOp = EQ | GT | LS | GTE | LSE

  /** How floats compare is not modelled; it is a parameter. */
  type FloatOp = (CompareOp, seq<Byte>, seq<Byte>) -> bool

  function TextLess(a: seq<Byte>, b: seq<Byte>): bool {
    if b == [] then false
    else if a == [] then true
    else if a[0] != b[0] then a[0] < b[0]
    else TextLess(a[1..], b[1..])
  }

  function Rank(v: Value): int {
    match v
    case Text(_) => 0
    case Integer(_) => 1
    case Floating(_) => 2
  }

  function NumberMatches(op: CompareOp, a: int, b: int): bool {
    match op
    case EQ => a == b
    case GT => a > b
    case LS => a < b
    case GTE => a >= b
    case LSE => a <= b
  }

  /** Values of one type compare as such; across types, which the planner never asks for, the types do. */
  function Matches(op: CompareOp, a: Value, b: Value, floats: FloatOp): bool {
    if Rank(a) != Rank(b) then NumberMatches(op, Rank(a), Rank(b))
    else
      match a
      case Integer(n) => NumberMatches(op, n, b.n)
      case Floating(bits) => floats(op, bits, b.bits)
      case Text(s) =>
        match op
        case EQ => s == b.s
        case GT => TextLess(b.s, s)
        case LS => TextLess(s, b.s)
        case GTE => !TextLess(s, b.s)
        case LSE => !TextLess(b.s, s)
  }

  /** A condition on the column at this index; or none. */
  datatype Condition = Always | Compare(column: nat, op: CompareOp, constant: Value)

  predicate Fits(c: Condition, columns: nat) {
    c.Compare? ==> c.column < columns
  }

  function Holds(c: Condition, row: Row, floats: FloatOp): bool
    requires Fits(c, |row|)
  {
    c.Always? || Matches(c.op, row[c.column], c.constant, floats)
  }

  // ---------- the rows of a page ----------

  /** Every slot that counts can be decoded. */
  ghost predicate Scannable(h: HeapImage, types: seq<ColumnType>) {
    && HeapSized(h) && 0 <= h.slotCount <= MAX_SLOTS
    && forall i :: 0 <= i < h.slotCount && !h.slots[i].deleted ==> SlotDecodes(h, types, i)
  }

  ghost predicate SlotDecodes(h: HeapImage, types: seq<ColumnType>, i: nat)
    requires HeapSized(h) && i < MAX_SLOTS
  {
    && h.slots[i].offset + RowSize(types) <= HEAP_PAYLOAD_SIZE
    && ReadSlot(h, types, i).Some? && |ReadSlot(h, types, i).value| == |types|
  }

  /** The rows of the live slots from i on. */
  ghost function RowsFrom(h: HeapImage, types: seq<ColumnType>, i: nat): (rows: seq<Row>)
    requires Scannable(h, types) && i <= h.slotCount
    ensures forall j :: 0 <= j < |rows| ==> |rows[j]| == |types|
    decreases h.slotCount - i
  {
    if i == h.slotCount then []
    else if h.slots[i].deleted then RowsFrom(h, types, i + 1)
    else assert SlotDecodes(h, types, i); [ReadSlot(h, types, i).value] + RowsFrom(h, types, i + 1)
  }

  /** Their names, as the lock tables know them. */
  ghost function NamesFrom(h: HeapImage, pid: int, i: nat): seq<RowName>
    requires HeapSized(h) && i <= h.slotCount <= MAX_SLOTS
    decreases h.slotCount - i
  {
    if i == h.slotCount then []
    else if h.slots[i].deleted then NamesFrom(h, pid, i + 1)
    else [NameOf(RID(pid, h.slots[i]))] + NamesFrom(h, pid, i + 1)
  }

  /** How many deleted slots there are from i on. */
  ghost function DeletedFrom(h: HeapImage, i: nat): nat
    requires HeapSized(h) && i <= h.slotCount <= MAX_SLOTS
    decreases h.slotCount - i
  {
    if i == h.slotCount then 0 else (if h.slots[i].deleted then 1 else 0) + DeletedFrom(h, i + 1)
  }

  /** The rows that match, in order. */
  ghost function Filtered(rows: seq<Row>, c: Condition, floats: FloatOp): (r: seq<Row>)
    requires forall j :: 0 <= j < |rows| ==> Fits(c, |rows[j]|)
    ensures forall row :: row in r <==> row in rows && Holds(c, row, floats)
    ensures forall j :: 0 <= j < |r| ==> r[j] in rows
  {
    if rows == [] then []
    else (if Holds(c, rows[0], floats) then [rows[0]] else []) + Filtered(rows[1..], c, floats)
  }

  function Project(row: Row, indices: seq<nat>): Row
    requires forall j :: 0 <= j < |indices| ==> indices[j] < |row|
  {
    seq(|indices|, j requires 0 <= j < |indices| => row[indices[j]])
  }

  ghost predicate Within(indices: seq<nat>, columns: nat) {
    forall j :: 0 <= j < |indices| ==> indices[j] < columns
  }

  ghost function Projected(rows: seq<Row>, indices: seq<nat>, columns: nat): (r: seq<Row>)
    requires Within(indices, columns) && forall j :: 0 <= j < |rows| ==> |rows[j]| == columns
    ensures |r| == |rows| && forall j :: 0 <= j < |r| ==> r[j] == Project(rows[j], indices)
  {
    seq(|rows|, j requires 0 <= j < |rows| => Project(rows[j], indices))
  }

  /** The positions of the columns with this name, from i on. */
  function PositionsFrom(columns: seq<string>, name: string, i: nat): (r: seq<nat>)
    requires i <= |columns|
    ensures forall k :: k in r <==> i <= k < |columns| && columns[k] == name
    ensures forall j :: 0 <= j < |r| ==> r[j] < |columns|
    decreases |columns| - i
  {
    if i == |columns| then []
    else (if columns[i] == name then [i] else []) + PositionsFrom(columns, name, i + 1)
  }

  /** The positions of the asked names, one name after the other. */
  function Indices(columns: seq<string>, names: seq<string>): (r: seq<nat>)
    ensures forall j :: 0 <= j < |r| ==> r[j] < |columns|
  {
    if names == [] then [] else Indices(columns, names[..|names| - 1]) + PositionsFrom(columns, names[|names| - 1], 0)
  }

  ghost predicate DistinctNames(columns: seq<string>) {
    forall i, j :: 0 <= i < j < |columns| ==> columns[i] != columns[j]
  }

  lemma {:induction false} PositionIsOne(columns: seq<string>, i: nat, k: nat)
    requires DistinctNames(columns) && i <= |columns| && k < |columns|
    ensures PositionsFrom(columns, columns[k], i) == if i <= k then [k] else []
    decreases |columns| - i
  {
    if i < |columns| {
      PositionIsOne(columns, i + 1, k);
    }
  }

  lemma {:induction false} PositionsRise(columns: seq<string>, name: string, i: nat)
    requires i <= |columns|
    ensures
      var at := PositionsFrom(columns, name, i);
      forall k :: i <= k < |columns| && columns[k] == name ==> at != [] && at[0] <= k
    decreases |columns| - i
  {
    if i < |columns| {
      PositionsRise(columns, name, i + 1);
    }
  }

  /** Position i is where the column of this name is. */
  ghost predicate IsAt(columns: seq<string>, i: nat, name: string) {
    i < |columns| && columns[i] == name
  }

  lemma IndicesOne(columns: seq<string>, names: seq<string>)
    requires DistinctNames(columns) && names != [] && names[|names| - 1] in columns
    ensures |Indices(columns, names)| == |Indices(columns, names[..|names| - 1])| + 1
    ensures Indices(columns, names[..|names| - 1]) <= Indices(columns, names)
    ensures IsAt(columns, Indices(columns, names)[|Indices(columns, names)| - 1], names[|names| - 1])
  {
    var k :| 0 <= k < |columns| && columns[k] == names[|names| - 1];
    PositionIsOne(columns, 0, k);
  }

  /** With distinct columns, each asked name that exists gives one position, in the order asked. */
  lemma {:induction false} IndicesAre(columns: seq<string>, names: seq<string>)
    requires DistinctNames(columns) && forall j :: 0 <= j < |names| ==> names[j] in columns
    ensures |Indices(columns, names)| == |names|
    ensures forall j :: 0 <= j < |names| ==> IsAt(columns, Indices(columns, names)[j], names[j])
  {
    if names != [] {
      var n := |names| - 1;
      IndicesOne(columns, names);
      hide Indices, IsAt, DistinctNames;
      IndicesAre(columns, names[..n]);
      forall j | 0 <= j < |names| ensures IsAt(columns, Indices(columns, names)[j], names[j]) {
        if j < n {
          assert names[..n][j] == names[j];
          assert Indices(columns, names)[j] == Indices(columns, names[..n])[j];
        }
      }
    }
  }

  // ---------- a page the heap writer filled ----------

  /** A packed page reads as its rows, none deleted, and names them in slot order. */
  lemma PackedScans(h: HeapImage, rows: seq<Row>, types: seq<ColumnType>, pid: int)
    requires Packed(h, rows) && forall i :: 0 <= i < |rows| ==> Typed(rows[i], types) && PlainTexts(rows[i])
    ensures Scannable(h, types) && RowsFrom(h, types, 0) == rows && DeletedFrom(h, 0) == 0
    ensures |NamesFrom(h, pid, 0)| == |rows|
    ensures forall i :: 0 <= i < |rows| ==> NamesFrom(h, pid, 0)[i] == NameOf(RID(pid, h.slots[i]))
  {
    forall i | 0 <= i < |rows| ensures SlotDecodes(h, types, i) && !h.slots[i].deleted
        && ReadSlot(h, types, i).value == rows[i] {
      ReadsBack(h, rows, types, i);
      assert SlotHolds(h, rows, i);
    }
    PackedFrom(h, rows, types, pid, 0);
    assert rows[0..] == rows;
  }

  lemma {:induction false} PackedFrom(h: HeapImage, rows: seq<Row>, types: seq<ColumnType>, pid: int, i: nat)
    requires Scannable(h, types) && h.slotCount == |rows| && i <= |rows|
    requires forall j :: 0 <= j < |rows| ==>
        SlotDecodes(h, types, j) && !h.slots[j].deleted && ReadSlot(h, types, j).value == rows[j]
    ensures RowsFrom(h, types, i) == rows[i..] && DeletedFrom(h, i) == 0
    ensures |NamesFrom(h, pid, i)| == |rows| - i
    ensures forall j :: i <= j < |rows| ==> NamesFrom(h, pid, i)[j - i] == NameOf(RID(pid, h.slots[j]))
    decreases |rows| - i
  {
    if i < |rows| {
      PackedFrom(h, rows, types, pid, i + 1);
      assert rows[i..] == [rows[i]] + rows[i + 1..];
    }
  }
}
