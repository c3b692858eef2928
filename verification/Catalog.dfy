/** The catalog file: schemas, their tables and their columns, each with a length before it. */
module Catalogs {
  import opened StorageTypes
  import opened Bytes
  import opened HeapRows

  datatype Column = Column(name: seq<Byte>, kind: ColumnType)
  type PageId = x: int | -INT32_LIMIT <= x < INT32_LIMIT

  datatype Table = Table(heapOffset: nat, pageId: PageId, name: seq<Byte>, columns: seq<Column>)
  datatype Schema = Schema(name: seq<Byte>, tables: seq<Table>)
  type Catalog = seq<Schema>

  const SIZE_BYTES := 8

  ghost predicate Fits64(n: nat) {
    n < Pow256(SIZE_BYTES)
  }

  ghost predicate ColumnFits(c: Column) {
    Fits64(|c.name|)
  }

  /** What the fields of the original can hold. */
  ghost predicate TableFits(t: Table) {
    && Fits64(t.heapOffset) && Fits64(|t.name|) && Fits64(|t.columns|)
    && forall i :: 0 <= i < |t.columns| ==> ColumnFits(t.columns[i])
  }

  ghost predicate SchemaFits(s: Schema) {
    Fits64(|s.name|) && Fits64(|s.tables|) && forall i :: 0 <= i < |s.tables| ==> TableFits(s.tables[i])
  }

  ghost predicate CatalogFits(c: Catalog) {
    forall i :: 0 <= i < |c| ==> SchemaFits(c[i])
  }

  function KindCode(k: ColumnType): nat {
    match k
    case StringCol => 0
    case IntCol => 1
    case FloatCol => 2
  }

  // ---------- encoding ----------

  function EncodeSize(n: nat): seq<Byte> {
    ToLE(n, SIZE_BYTES)
  }

  function EncodeName(s: seq<Byte>): seq<Byte> {
    EncodeSize(|s|) + s
  }

  function EncodeColumn(c: Column): seq<Byte> {
    EncodeName(c.name) + ToLE(KindCode(c.kind), 4)
  }

  function EncodeColumns(cs: seq<Column>): seq<Byte> {
    if cs == [] then [] else EncodeColumn(cs[0]) + EncodeColumns(cs[1..])
  }

  function EncodeTable(t: Table): seq<Byte> {
    EncodeSize(t.heapOffset) + Int32ToBytes(t.pageId) + EncodeName(t.name)
    + EncodeSize(|t.columns|) + EncodeColumns(t.columns)
  }

  function EncodeTables(ts: seq<Table>): seq<Byte> {
    if ts == [] then [] else EncodeTable(ts[0]) + EncodeTables(ts[1..])
  }

  function EncodeSchema(s: Schema): seq<Byte> {
    EncodeName(s.name) + EncodeSize(|s.tables|) + EncodeTables(s.tables)
  }

  function Encode(c: Catalog): seq<Byte> {
    if c == [] then [] else EncodeSchema(c[0]) + Encode(c[1..])
  }

  // ---------- decoding ----------

  /** A value and the bytes after it; none when the bytes run out, which the original does not notice. */
  type Decoded<T> = Option<(T, seq<Byte>)>

  function TakeBytes(n: nat, b: seq<Byte>): (r: Decoded<seq<Byte>>)
    ensures r.Some? ==> |r.value.1| <= |b|
  {
    if n <= |b| then Some((b[..n], b[n..])) else None
  }

  function DecodeSize(b: seq<Byte>): (r: Decoded<nat>)
    ensures r.Some? ==> |r.value.1| < |b|
  {
    match TakeBytes(SIZE_BYTES, b)
    case None => None
    case Some((n, rest)) => Some((FromLE(n), rest))
  }

  function DecodeName(b: seq<Byte>): (r: Decoded<seq<Byte>>)
    ensures r.Some? ==> |r.value.1| < |b|
  {
    match DecodeSize(b)
    case None => None
    case Some((n, rest)) => TakeBytes(n, rest)
  }

  function KindOf(code: nat): Option<ColumnType> {
    if code == 0 then Some(StringCol)
    else if code == 1 then Some(IntCol)
    else if code == 2 then Some(FloatCol)
    else None
  }

  function DecodeColumn(b: seq<Byte>): (r: Decoded<Column>)
    ensures r.Some? ==> |r.value.1| <= |b|
  {
    match DecodeName(b)
    case None => None
    case Some((name, rest)) =>
      match TakeBytes(4, rest)
      case None => None
      case Some((code, rest')) =>
        match KindOf(FromLE(code))
        case None => None
        case Some(kind) => Some((Column(name, kind), rest'))
  }

  function DecodeColumns(n: nat, b: seq<Byte>): (r: Decoded<seq<Column>>)
    ensures r.Some? ==> |r.value.1| <= |b| && |r.value.0| == n
    decreases n
  {
    if n == 0 then Some(([], b))
    else
      match DecodeColumn(b)
      case None => None
      case Some((c, rest)) =>
        match DecodeColumns(n - 1, rest)
        case None => None
        case Some((cs, rest')) => Some(([c] + cs, rest'))
  }

  function DecodeTable(b: seq<Byte>): (r: Decoded<Table>)
    ensures r.Some? ==> |r.value.1| <= |b|
  {
    match DecodeSize(b)
    case None => None
    case Some((offset, b1)) =>
      match TakeBytes(4, b1)
      case None => None
      case Some((pid, b2)) =>
        match DecodeName(b2)
        case None => None
        case Some((name, b3)) =>
          match DecodeSize(b3)
          case None => None
          case Some((n, b4)) =>
            match DecodeColumns(n, b4)
            case None => None
            case Some((cs, b5)) => BytesToInt32Range(pid); Some((Table(offset, BytesToInt32(pid), name, cs), b5))
  }

  function DecodeTables(n: nat, b: seq<Byte>): (r: Decoded<seq<Table>>)
    ensures r.Some? ==> |r.value.1| <= |b| && |r.value.0| == n
    decreases n
  {
    if n == 0 then Some(([], b))
    else
      match DecodeTable(b)
      case None => None
      case Some((t, rest)) =>
        match DecodeTables(n - 1, rest)
        case None => None
        case Some((ts, rest')) => Some(([t] + ts, rest'))
  }

  function DecodeSchema(b: seq<Byte>): (r: Decoded<Schema>)
    ensures r.Some? ==> |r.value.1| < |b|
  {
    match DecodeName(b)
    case None => None
    case Some((name, b1)) =>
      match DecodeSize(b1)
      case None => None
      case Some((n, b2)) =>
        match DecodeTables(n, b2)
        case None => None
        case Some((ts, b3)) => Some((Schema(name, ts), b3))
  }

  function Decode(b: seq<Byte>): Option<Catalog>
    decreases |b|
  {
    if b == [] then Some([])
    else
      match DecodeSchema(b)
      case None => None
      case Some((s, rest)) =>
        match Decode(rest)
        case None => None
        case Some(c) => Some([s] + c)
  }

  // ---------- round trips, whatever follows ----------

  lemma TakeBack(x: seq<Byte>, rest: seq<Byte>)
    ensures TakeBytes(|x|, x + rest) == Some((x, rest))
  {
    assert (x + rest)[..|x|] == x && (x + rest)[|x|..] == rest;
  }

  lemma SizeBack(n: nat, rest: seq<Byte>)
    requires Fits64(n)
    ensures DecodeSize(EncodeSize(n) + rest) == Some((n, rest))
  {
    TakeBack(EncodeSize(n), rest);
    FromToLE(n, SIZE_BYTES);
  }

  lemma NameBack(s: seq<Byte>, rest: seq<Byte>)
    requires Fits64(|s|)
    ensures DecodeName(EncodeName(s) + rest) == Some((s, rest))
  {
    assert EncodeName(s) + rest == EncodeSize(|s|) + (s + rest);
    SizeBack(|s|, s + rest);
    TakeBack(s, rest);
  }

  lemma ColumnBack(c: Column, rest: seq<Byte>)
    requires ColumnFits(c)
    ensures DecodeColumn(EncodeColumn(c) + rest) == Some((c, rest))
  {
    hide DecodeName, EncodeName;
    var code := ToLE(KindCode(c.kind), 4);
    assert EncodeColumn(c) + rest == EncodeName(c.name) + (code + rest);
    NameBack(c.name, code + rest);
    TakeBack(code, rest);
    Widths();
    FromToLE(KindCode(c.kind), 4);
  }

  lemma {:induction false} ColumnsBack(cs: seq<Column>, rest: seq<Byte>)
    requires forall i :: 0 <= i < |cs| ==> ColumnFits(cs[i])
    ensures DecodeColumns(|cs|, EncodeColumns(cs) + rest) == Some((cs, rest))
    decreases |cs|
  {
    hide DecodeColumn, EncodeColumn, ColumnFits;
    if cs == [] {
      assert [] + rest == rest;
    } else {
      assert EncodeColumns(cs) + rest == EncodeColumn(cs[0]) + (EncodeColumns(cs[1..]) + rest);
      ColumnBack(cs[0], EncodeColumns(cs[1..]) + rest);
      ColumnsBack(cs[1..], rest);
      assert [cs[0]] + cs[1..] == cs;
    }
  }

  lemma TableBack(t: Table, rest: seq<Byte>)
    requires TableFits(t)
    ensures DecodeTable(EncodeTable(t) + rest) == Some((t, rest))
  {
    hide DecodeSize, EncodeSize, DecodeName, EncodeName, DecodeColumns, EncodeColumns, Int32ToBytes, BytesToInt32,
         ColumnFits, Fits64;
    var b4 := EncodeColumns(t.columns) + rest;
    var b3 := EncodeSize(|t.columns|) + b4;
    var b2 := EncodeName(t.name) + b3;
    var b1 := Int32ToBytes(t.pageId) + b2;
    assert EncodeTable(t) + rest == EncodeSize(t.heapOffset) + b1;
    SizeBack(t.heapOffset, b1);
    TakeBack(Int32ToBytes(t.pageId), b2);
    Int32RoundTrip(t.pageId);
    NameBack(t.name, b3);
    SizeBack(|t.columns|, b4);
    ColumnsBack(t.columns, rest);
  }

  lemma {:induction false} TablesBack(ts: seq<Table>, rest: seq<Byte>)
    requires forall i :: 0 <= i < |ts| ==> TableFits(ts[i])
    ensures DecodeTables(|ts|, EncodeTables(ts) + rest) == Some((ts, rest))
    decreases |ts|
  {
    hide DecodeTable, EncodeTable;
    if ts == [] {
      assert [] + rest == rest;
    } else {
      assert EncodeTables(ts) + rest == EncodeTable(ts[0]) + (EncodeTables(ts[1..]) + rest);
      TableBack(ts[0], EncodeTables(ts[1..]) + rest);
      TablesBack(ts[1..], rest);
      assert [ts[0]] + ts[1..] == ts;
    }
  }

  lemma SchemaBack(s: Schema, rest: seq<Byte>)
    requires SchemaFits(s)
    ensures DecodeSchema(EncodeSchema(s) + rest) == Some((s, rest))
  {
    hide DecodeSize, EncodeSize, DecodeName, EncodeName, DecodeTables, EncodeTables, Fits64;
    var b2 := EncodeTables(s.tables) + rest;
    var b1 := EncodeSize(|s.tables|) + b2;
    assert EncodeSchema(s) + rest == EncodeName(s.name) + b1;
    NameBack(s.name, b1);
    SizeBack(|s.tables|, b2);
    TablesBack(s.tables, rest);
  }

  lemma DecodeOne(s: Schema, rest: seq<Byte>)
    requires SchemaFits(s)
    ensures Decode(EncodeSchema(s) + rest) == match Decode(rest) case None => None case Some(d) => Some([s] + d)
  {
    SchemaBack(s, rest);
    hide DecodeSchema, EncodeSchema, SchemaFits;
    assert EncodeSchema(s) + rest != [];
  }

  /** Decoding an encoded catalog followed by anything gives the catalog followed by what that decodes to. */
  lemma {:induction false} DecodesOn(c: Catalog, rest: seq<Byte>)
    requires CatalogFits(c)
    ensures Decode(Encode(c) + rest) == match Decode(rest) case None => None case Some(d) => Some(c + d)
    decreases |c|
  {
    hide Decode, EncodeSchema, SchemaFits;
    if c == [] {
      assert [] + rest == rest;
      assert Decode(rest).Some? ==> [] + Decode(rest).value == Decode(rest).value;
    } else {
      DecodesOn(c[1..], rest);
      DecodeOne(c[0], Encode(c[1..]) + rest);
      assert Encode(c) + rest == EncodeSchema(c[0]) + (Encode(c[1..]) + rest);
      assert Decode(rest).Some? ==> [c[0]] + (c[1..] + Decode(rest).value) == c + Decode(rest).value;
    }
  }

  lemma {:induction false} EncodeJoins(c: Catalog, d: Catalog)
    ensures Encode(c + d) == Encode(c) + Encode(d)
  {
    hide EncodeSchema;
    if c == [] {
      assert [] + d == d;
    } else {
      assert (c + d)[0] == c[0] && (c + d)[1..] == c[1..] + d;
      EncodeJoins(c[1..], d);
    }
  }

  /** A catalog is read back as it was written, and two written one after the other as the two joined. */
  lemma RoundTrip(c: Catalog, d: Catalog)
    requires CatalogFits(c) && CatalogFits(d)
    ensures Decode(Encode(c)) == Some(c)
    ensures Decode(Encode(c) + Encode(d)) == Some(c + d)
  {
    DecodesOn(d, []);
    assert Encode(d) + [] == Encode(d) && d + [] == d;
    DecodesOn(c, []);
    assert Encode(c) + [] == Encode(c) && c + [] == c;
    DecodesOn(c, Encode(d));
  }

  // ---------- the manager ----------

  class SchemaManager {
    var file: seq<Byte>
    var pos: nat
    var catalog: Catalog

    /** Opens a file for appending, and reads what is in it. */
    constructor (bytes: seq<Byte>)
      requires Decode(bytes).Some?
      ensures file == bytes && catalog == Decode(bytes).value
    {
      file, pos, catalog := bytes, 0, [];
      new;
      if |file| > 0 {
        Deserialize();
      }
    }

    ghost function Rest(): seq<Byte>
      reads this
      requires pos <= |file|
    {
      file[pos..]
    }

    method ReadBytes(n: nat) returns (b: seq<Byte>)
      requires pos <= |file| && n <= |file| - pos
      modifies this`pos
      ensures pos <= |file| && pos == old(pos) + n && TakeBytes(n, old(Rest())) == Some((b, Rest()))
    {
      b := file[pos..pos + n];
      assert b == file[pos..][..n] && file[pos + n..] == file[pos..][n..];
      pos := pos + n;
    }

    method ReadSize() returns (n: nat)
      requires pos <= |file| && DecodeSize(Rest()).Some?
      modifies this`pos
      ensures pos <= |file| && DecodeSize(old(Rest())) == Some((n, Rest()))
    {
      var b := ReadBytes(SIZE_BYTES);
      n := FromLE(b);
    }

    method ReadName() returns (s: seq<Byte>)
      requires pos <= |file| && DecodeName(Rest()).Some?
      modifies this`pos
      ensures pos <= |file| && DecodeName(old(Rest())) == Some((s, Rest()))
    {
      var n := ReadSize();
      s := ReadBytes(n);
    }

    method ReadColumn() returns (c: Column)
      requires pos <= |file| && DecodeColumn(Rest()).Some?
      modifies this`pos
      ensures pos <= |file| && DecodeColumn(old(Rest())) == Some((c, Rest()))
    {
      hide DecodeName;
      var name := ReadName();
      var code := ReadBytes(4);
      c := Column(name, KindOf(FromLE(code)).value);
    }

    method ReadTable() returns (t: Table)
      requires pos <= |file| && DecodeTable(Rest()).Some?
      modifies this`pos
      ensures pos <= |file| && DecodeTable(old(Rest())) == Some((t, Rest()))
    {
      hide DecodeName, DecodeSize, DecodeColumn, DecodeColumns;
      var offset := ReadSize();
      var pid := ReadBytes(4);
      var name := ReadName();
      var n := ReadSize();
      var columns: seq<Column> := [];
      ghost var b := Rest();
      JoinNone(DecodeColumns(n, b));
      for k := 0 to n
        invariant pos <= |file| && DecodeColumns(n - k, Rest()).Some?
        invariant DecodeColumns(n, b) == Joined(columns, DecodeColumns(n - k, Rest()))
      {
        ColumnsStep(n - k, Rest(), columns);
        var c := ReadColumn();
        columns := columns + [c];
      }
      ColumnsEnd(Rest(), columns);
      BytesToInt32Range(pid);
      t := Table(offset, BytesToInt32(pid), name, columns);
    }

    method ReadSchema() returns (s: Schema)
      requires pos <= |file| && DecodeSchema(Rest()).Some?
      modifies this`pos
      ensures pos <= |file| && DecodeSchema(old(Rest())) == Some((s, Rest()))
    {
      hide DecodeName, DecodeSize, DecodeTable, DecodeTables;
      var name := ReadName();
      var n := ReadSize();
      var tables: seq<Table> := [];
      ghost var b := Rest();
      JoinNone(DecodeTables(n, b));
      for j := 0 to n
        invariant pos <= |file| && DecodeTables(n - j, Rest()).Some?
        invariant DecodeTables(n, b) == Joined(tables, DecodeTables(n - j, Rest()))
      {
        TablesStep(n - j, Rest(), tables);
        var t := ReadTable();
        tables := tables + [t];
      }
      TablesEnd(Rest(), tables);
      s := Schema(name, tables);
    }

    method Deserialize()
      requires pos == 0 && catalog == [] && Decode(file).Some?
      modifies this`pos, this`catalog
      ensures catalog == Decode(file).value
    {
      hide DecodeSchema;
      assert file[0..] == file;
      while pos < |file|
        invariant pos <= |file| && Decode(Rest()).Some? && catalog + Decode(Rest()).value == Decode(file).value
        decreases |file| - pos
      {
        ghost var here := Rest();
        assert here != [];
        var s := ReadSchema();
        assert [s] + Decode(Rest()).value == Decode(here).value;
        catalog := catalog + [s];
      }
    }

    /** Writes the whole catalog at the end of the file: on closing, whether it changed or not. */
    method Serialize()
      modifies this`file
      ensures file == old(file) + Encode(catalog)
    {
      hide Encode, EncodeSchema;
      ghost var before := file;
      assert catalog[0..] == catalog;
      for i := 0 to |catalog|
        invariant file + Encode(catalog[i..]) == before + Encode(catalog)
      {
        EncodeFrom(catalog, i, file);
        file := file + EncodeSchema(catalog[i]);
      }
      assert catalog[|catalog|..] == [];
      EncodeNothing(file);
    }
  }

  lemma EncodeFrom(c: Catalog, i: nat, before: seq<Byte>)
    requires i < |c|
    ensures before + Encode(c[i..]) == before + EncodeSchema(c[i]) + Encode(c[i + 1..])
  {
    hide EncodeSchema;
    assert c[i..][0] == c[i] && c[i..][1..] == c[i + 1..];
  }

  lemma EncodeNothing(before: seq<Byte>)
    ensures before + Encode([]) == before
  {
  }

  /** Values decoded before the ones of r. */
  function Joined<T>(before: seq<T>, r: Decoded<seq<T>>): Decoded<seq<T>> {
    match r
    case None => None
    case Some((xs, rest)) => Some((before + xs, rest))
  }

  lemma JoinNone<T>(r: Decoded<seq<T>>)
    ensures Joined([], r) == r
  {
    if r.Some? {
      assert [] + r.value.0 == r.value.0;
    }
  }

  lemma ColumnsStep(n: nat, b: seq<Byte>, before: seq<Column>)
    requires n > 0 && DecodeColumns(n, b).Some?
    ensures DecodeColumn(b).Some? && var (c, rest) := DecodeColumn(b).value;
      && DecodeColumns(n - 1, rest).Some?
      && Joined(before, DecodeColumns(n, b)) == Joined(before + [c], DecodeColumns(n - 1, rest))
  {
    var (c, rest) := DecodeColumn(b).value;
    assert before + ([c] + DecodeColumns(n - 1, rest).value.0) == before + [c] + DecodeColumns(n - 1, rest).value.0;
  }

  lemma ColumnsEnd(b: seq<Byte>, before: seq<Column>)
    ensures Joined(before, DecodeColumns(0, b)) == Some((before, b))
  {
    assert before + [] == before;
  }

  lemma TablesStep(n: nat, b: seq<Byte>, before: seq<Table>)
    requires n > 0 && DecodeTables(n, b).Some?
    ensures DecodeTable(b).Some? && var (t, rest) := DecodeTable(b).value;
      && DecodeTables(n - 1, rest).Some?
      && Joined(before, DecodeTables(n, b)) == Joined(before + [t], DecodeTables(n - 1, rest))
  {
    hide DecodeTable;
    var (t, rest) := DecodeTable(b).value;
    assert before + ([t] + DecodeTables(n - 1, rest).value.0) == before + [t] + DecodeTables(n - 1, rest).value.0;
  }

  lemma TablesEnd(b: seq<Byte>, before: seq<Table>)
    ensures Joined(before, DecodeTables(0, b)) == Some((before, b))
  {
    assert before + [] == before;
  }

  // ---------- opening and closing ----------

  /** What n sessions that change nothing make of a stored catalog. */
  ghost function AfterSessions(c: Catalog, n: nat): Catalog {
    if n == 0 then c else AfterSessions(c, n - 1) + AfterSessions(c, n - 1)
  }

  function Doubled(k: nat, n: nat): nat {
    if n == 0 then k else 2 * Doubled(k, n - 1)
  }

  /** One session that changes nothing: opens the file, and closes it. */
  method OpenAndClose(bytes: seq<Byte>) returns (after: seq<Byte>)
    requires Decode(bytes).Some?
    ensures after == bytes + Encode(Decode(bytes).value)
  {
    var m := new SchemaManager(bytes);
    m.Serialize();
    after := m.file;
  }

  /**
    As the file is only appended to, closing an unchanged catalog stores it twice: it is stored
    faithfully exactly when it is empty.
   */
  lemma ClosingDoubles(c: Catalog)
    requires CatalogFits(c)
    ensures Decode(Encode(c) + Encode(c)) == Some(c + c)
    ensures Decode(Encode(c) + Encode(c)) == Some(c) <==> c == []
  {
    RoundTrip(c, c);
    assert c + c == c ==> |c| + |c| == |c|;
  }

  /** So the catalog doubles with every session, however many there are; it never holds anything new. */
  lemma {:induction false} SessionsDouble(c: Catalog, n: nat)
    requires CatalogFits(c)
    ensures CatalogFits(AfterSessions(c, n)) && |AfterSessions(c, n)| == Doubled(|c|, n)
    ensures forall s :: s in AfterSessions(c, n) ==> s in c
  {
    hide SchemaFits;
    if n > 0 {
      SessionsDouble(c, n - 1);
    }
  }

  /** Running that many sessions on a stored catalog. */
  method RunSessions(c: Catalog, n: nat) returns (file: seq<Byte>)
    requires CatalogFits(c)
    ensures Decode(file) == Some(AfterSessions(c, n))
  {
    hide Decode, Encode, CatalogFits, AfterSessions;
    file := Encode(c);
    RoundTrip(c, c);
    SessionsDouble(c, 0);
    SessionStep(c, 0);
    for k := 0 to n
      invariant file == Encode(AfterSessions(c, k)) && Decode(file) == Some(AfterSessions(c, k))
          && CatalogFits(AfterSessions(c, k))
    {
      SessionStep(c, k + 1);
      SessionsDouble(c, k);
      SessionsDouble(c, k + 1);
      EncodeJoins(AfterSessions(c, k), AfterSessions(c, k));
      RoundTrip(AfterSessions(c, k), AfterSessions(c, k));
      file := OpenAndClose(file);
    }
  }

  lemma SessionStep(c: Catalog, n: nat)
    ensures AfterSessions(c, n) == if n == 0 then c else AfterSessions(c, n - 1) + AfterSessions(c, n - 1)
  {
  }
}
