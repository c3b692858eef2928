/** Rows as bytes: the fixed-width encoding rows have on heap pages and in the log, and the scan's decoding. */
module HeapRows {
  import opened StorageTypes
  import opened Bytes

  const STRING_MAX_SIZE := 500

  datatype ColumnType = StringCol | IntCol | FloatCol

  /** A float is kept as its four bytes; what number they stand for plays no part. */
  datatype Value = Text(s: seq<Byte>) | Integer(n: int) | Floating(bits: seq<Byte>)

  type Row = seq<Value>

  function SizeOf(t: ColumnType): nat {
    match t
    case StringCol => STRING_MAX_SIZE
    case IntCol => 4
    case FloatCol => 4
  }

  function RowSize(types: seq<ColumnType>): nat {
    if types == [] then 0 else SizeOf(types[0]) + RowSize(types[1..])
  }

  /** A value the engine can hold: a 32-bit integer, a 4-byte float, any byte string. */
  ghost predicate Storable(v: Value) {
    match v
    case Text(_) => true
    case Integer(n) => Int32(n)
    case Floating(b) => |b| == 4
  }

  ghost predicate OfType(v: Value, t: ColumnType) {
    Storable(v) &&
    match t
    case StringCol => v.Text?
    case IntCol => v.Integer?
    case FloatCol => v.Floating?
  }

  ghost predicate Typed(row: Row, types: seq<ColumnType>) {
    |row| == |types| && forall i :: 0 <= i < |row| ==> OfType(row[i], types[i])
  }

  ghost predicate StorableRow(row: Row) {
    forall i :: 0 <= i < |row| ==> Storable(row[i])
  }

  // ---------- encoding ----------

  /** A string takes its whole column: cut off, or filled up with zeros. */
  function TextBytes(s: seq<Byte>): (b: seq<Byte>)
    ensures |b| == STRING_MAX_SIZE
  {
    if |s| >= STRING_MAX_SIZE then s[..STRING_MAX_SIZE] else s + Zeros(STRING_MAX_SIZE - |s|)
  }

  function ValueBytes(v: Value): (b: seq<Byte>)
    requires Storable(v)
    ensures |b| == if v.Text? then STRING_MAX_SIZE else 4
  {
    match v
    case Text(s) => TextBytes(s)
    case Integer(n) => Int32ToBytes(n)
    case Floating(bits) => bits
  }

  function RowBytes(row: Row): seq<Byte>
    requires StorableRow(row)
  {
    if row == [] then [] else ValueBytes(row[0]) + RowBytes(row[1..])
  }

  lemma {:induction false} RowBytesAppend(row: Row, v: Value)
    requires StorableRow(row) && Storable(v)
    ensures StorableRow(row + [v]) && RowBytes(row + [v]) == RowBytes(row) + ValueBytes(v)
  {
    hide ValueBytes;
    if row == [] {
      assert row + [v] == [v] && [v][1..] == [];
    } else {
      RowBytesAppend(row[1..], v);
      var first, rest := ValueBytes(row[0]), RowBytes(row[1..]);
      assert (row + [v])[1..] == row[1..] + [v] && (row + [v])[0] == row[0];
      assert first + (rest + ValueBytes(v)) == first + rest + ValueBytes(v);
    }
  }

  /** The log's serializer: a byte vector grown value by value. */
  method SerializeRow(row: Row) returns (bytes: seq<Byte>)
    requires StorableRow(row)
    ensures bytes == RowBytes(row)
  {
    hide RowBytes, TextBytes, Int32ToBytes;
    bytes := [];
    EmptyRow();
    assert row[..0] == [];
    for i := 0 to |row|
      invariant bytes == RowBytes(row[..i])
    {
      match row[i] {
        case Integer(n) =>
          bytes := bytes + Int32ToBytes(n);
        case Floating(bits) =>
          bytes := bytes + bits;
        case Text(s) =>
          var copySize := if |s| < STRING_MAX_SIZE then |s| else STRING_MAX_SIZE;
          var oldSize := |bytes|;
          bytes := bytes + Zeros(STRING_MAX_SIZE);
          TextLaid(bytes[..oldSize], s);
          bytes := bytes[..oldSize] + s[..copySize] + bytes[oldSize + copySize..];
      }
      RowBytesAppend(row[..i], row[i]);
      assert row[..i + 1] == row[..i] + [row[i]];
    }
    assert row[..|row|] == row;
  }

  lemma EmptyRow()
    ensures RowBytes([]) == []
  {
  }

  /** Growing by a column of zeros and copying the string's start over them appends the string's bytes. */
  lemma TextLaid(before: seq<Byte>, s: seq<Byte>)
    ensures
      var n := if |s| < STRING_MAX_SIZE then |s| else STRING_MAX_SIZE;
      var b := before + Zeros(STRING_MAX_SIZE);
      b[..|before|] == before && b[..|before|] + s[..n] + b[|before| + n..] == before + TextBytes(s)
  {
    var n := if |s| < STRING_MAX_SIZE then |s| else STRING_MAX_SIZE;
    var b := before + Zeros(STRING_MAX_SIZE);
    assert b[|before| + n..] == Zeros(STRING_MAX_SIZE)[n..];
    assert s[..n] + Zeros(STRING_MAX_SIZE)[n..] == TextBytes(s);
  }

  lemma {:induction false} TypedSize(row: Row, types: seq<ColumnType>)
    requires Typed(row, types)
    ensures StorableRow(row) && |RowBytes(row)| == RowSize(types)
  {
    if row != [] {
      TypedSize(row[1..], types[1..]);
    }
  }

  // ---------- decoding ----------

  /** The bytes before the first zero; None when there is none, where the source would read past the page. */
  function CString(b: seq<Byte>): Option<seq<Byte>> {
    if b == [] then None
    else if b[0] == 0 then Some([])
    else
      match CString(b[1..])
      case None => None
      case Some(s) => Some([b[0]] + s)
  }

  /** One value of the scan, from the bytes that start at its column. */
  function DecodeValue(t: ColumnType, b: seq<Byte>): Option<Value>
    requires |b| >= SizeOf(t)
  {
    match t
    case StringCol => (match CString(b) case None => None case Some(s) => Some(Text(s)))
    case IntCol => Some(Integer(BytesToInt32(b[..4])))
    case FloatCol => Some(Floating(b[..4]))
  }

  /** The scan's decoding of a row, from the bytes that start at it (and run on to the end of the payload). */
  function DecodeRow(types: seq<ColumnType>, b: seq<Byte>): Option<Row>
    requires |b| >= RowSize(types)
  {
    if types == [] then Some([])
    else
      match DecodeValue(types[0], b)
      case None => None
      case Some(v) =>
        match DecodeRow(types[1..], b[SizeOf(types[0])..])
        case None => None
        case Some(rest) => Some([v] + rest)
  }

  ghost predicate NulFree(s: seq<Byte>) {
    forall i :: 0 <= i < |s| ==> s[i] != 0
  }

  lemma {:induction false} CStringIs(b: seq<Byte>, s: seq<Byte>)
    ensures CString(b) == Some(s) <==> NulFree(s) && |s| < |b| && b[..|s|] == s && b[|s|] == 0
  {
    if b != [] {
      if b[0] == 0 {
        if s != [] && s[0] != 0 && |s| < |b| {
          assert b[..|s|][0] == b[0];
        }
      } else if s != [] {
        CStringIs(b[1..], s[1..]);
        assert s == [s[0]] + s[1..];
        if |s| < |b| {
          assert b[..|s|] == [b[0]] + b[1..][..|s| - 1];
          assert b[1..][|s| - 1] == b[|s|];
        }
        assert NulFree(s) <==> s[0] != 0 && NulFree(s[1..]);
      }
    }
  }

  /**
    The scan gives a string of at most 500 bytes back exactly when it has no zero byte and one
    follows it: always below 500 bytes, and at 500 only if the next byte of the page is zero.
   */
  lemma TextRoundTripIff(s: seq<Byte>, rest: seq<Byte>)
    requires |s| <= STRING_MAX_SIZE
    ensures DecodeValue(StringCol, TextBytes(s) + rest) == Some(Text(s)) <==>
      NulFree(s) && (|s| < STRING_MAX_SIZE || (rest != [] && rest[0] == 0))
  {
    var b := TextBytes(s) + rest;
    CStringIs(b, s);
    assert b[..|s|] == s;
  }

  /** Rows whose strings are short and free of zero bytes. */
  ghost predicate PlainTexts(row: Row) {
    forall i :: 0 <= i < |row| && row[i].Text? ==> NulFree(row[i].s) && |row[i].s| < STRING_MAX_SIZE
  }

  /** The scan decodes what the writer encoded, wherever the row lies. */
  lemma {:induction false} RowRoundTrip(row: Row, types: seq<ColumnType>, rest: seq<Byte>)
    requires Typed(row, types) && PlainTexts(row)
    ensures StorableRow(row) && |RowBytes(row)| == RowSize(types)
    ensures DecodeRow(types, RowBytes(row) + rest) == Some(row)
  {
    TypedSize(row, types);
    if row != [] {
      var v := row[0];
      var tail := RowBytes(row[1..]) + rest;
      TypedSize(row[1..], types[1..]);
      assert RowBytes(row) + rest == ValueBytes(v) + tail;
      assert (ValueBytes(v) + tail)[SizeOf(types[0])..] == tail;
      hide DecodeValue, ValueBytes;
      RowRoundTrip(row[1..], types[1..], rest);
      ValueRoundTrip(v, types[0], tail);
      assert [v] + row[1..] == row;
    }
  }

  lemma ValueRoundTrip(v: Value, t: ColumnType, rest: seq<Byte>)
    requires OfType(v, t) && (v.Text? ==> NulFree(v.s) && |v.s| < STRING_MAX_SIZE)
    ensures DecodeValue(t, ValueBytes(v) + rest) == Some(v)
  {
    match v {
      case Text(s) => TextRoundTripIff(s, rest);
      case Integer(n) =>
        assert (ValueBytes(v) + rest)[..4] == ValueBytes(v);
        Int32RoundTrip(n);
      case Floating(bits) =>
        assert (ValueBytes(v) + rest)[..4] == bits;
    }
  }
}
