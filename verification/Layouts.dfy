/**
  Where every byte lies, in plain numbers: integers, rows, log entries, the log file and the catalog.
 */
module Layouts {
  import opened StorageTypes
  import opened Bytes
  import opened Disks
  import opened PoolSpec
  import HeapRows
  import opened HeapSpec
  import opened LogFormat
  import opened Wals
  import Catalogs

  // ---------- integers ----------

  /** The number that two bytes stand for, the low one first. */
  function Two(b: seq<Byte>, at: nat): nat
    requires at + 2 <= |b|
  {
    var low: nat, high: nat := b[at], b[at + 1];
    low + 0x100 * high
  }

  function Four(b: seq<Byte>, at: nat): nat
    requires at + 4 <= |b|
  {
    Two(b, at) + 0x1_0000 * Two(b, at + 2)
  }

  function Eight(b: seq<Byte>, at: nat): nat
    requires at + 8 <= |b|
  {
    Four(b, at) + 0x1_0000_0000 * Four(b, at + 4)
  }

  /** A 32-bit number with its sign, in two's complement. */
  function Signed(b: seq<Byte>, at: nat): int
    requires at + 4 <= |b|
  {
    if Four(b, at) < 0x8000_0000 then Four(b, at) else Four(b, at) - 0x1_0000_0000
  }

  lemma TwoSteps(b: seq<Byte>)
    requires |b| >= 2
    ensures FromLE(b) == Two(b, 0) + 0x1_0000 * FromLE(b[2..])
  {
    assert b[1..][1..] == b[2..] && b[1..][0] == b[1];
    assert FromLE(b) == b[0] + 256 * FromLE(b[1..]) && FromLE(b[1..]) == b[1] + 256 * FromLE(b[2..]);
  }

  lemma FourIs(b: seq<Byte>)
    requires |b| == 4
    ensures FromLE(b) == Four(b, 0)
  {
    TwoSteps(b);
    TwoSteps(b[2..]);
    assert b[2..][2..] == b[4..] && FromLE(b[4..]) == 0 && b[2..][0] == b[2] && b[2..][1] == b[3];
  }

  lemma TwoIs(b: seq<Byte>)
    requires |b| == 2
    ensures FromLE(b) == Two(b, 0)
  {
    TwoSteps(b);
    assert FromLE(b[2..]) == 0;
  }

  lemma EightIs(b: seq<Byte>)
    requires |b| == 8
    ensures FromLE(b) == Eight(b, 0)
  {
    TwoSteps(b);
    TwoSteps(b[2..]);
    assert b[2..][2..] == b[4..];
    FourIs(b[4..]);
  }

  /** The numbers that begin at a place. */
  lemma ReadsAt(b: seq<Byte>, at: nat)
    ensures at + 2 <= |b| ==> FromLE(b[at..at + 2]) == Two(b, at)
    ensures at + 4 <= |b| ==> FromLE(b[at..at + 4]) == Four(b, at)
    ensures at + 8 <= |b| ==> FromLE(b[at..at + 8]) == Eight(b, at)
  {
    if at + 2 <= |b| {
      TwoIs(b[at..at + 2]);
    }
    if at + 4 <= |b| {
      FourIs(b[at..at + 4]);
    }
    if at + 8 <= |b| {
      EightIs(b[at..at + 8]);
    }
    hide FromLE;
  }

  /** The low byte comes first. */
  lemma SizeLies(n: nat, b: seq<Byte>, at: nat)
    requires n < Pow256(8) && at + 8 <= |b| && b[at..at + 8] == ToLE(n, 8)
    ensures Eight(b, at) == n
  {
    FromToLE(n, 8);
    EightIs(b[at..at + 8]);
  }

  lemma IntegerLies(n: int, b: seq<Byte>, at: nat)
    requires Int32(n) && at + 4 <= |b| && b[at..at + 4] == Int32ToBytes(n)
    ensures Signed(b, at) == n
  {
    Int32RoundTrip(n);
    FourIs(b[at..at + 4]);
  }

  lemma SmallLies(n: nat, b: seq<Byte>, at: nat)
    requires n < 0x1_0000_0000 && at + 4 <= |b| && b[at..at + 4] == ToLE(n, 4)
    ensures Four(b, at) == n
  {
    Widths();
    FromToLE(n, 4);
    FourIs(b[at..at + 4]);
  }

  /** A file length cut to a page id keeps its low 32 bits, the highest of them as the sign. */
  lemma PageIdWraps(n: nat)
    ensures -0x8000_0000 <= ToPageId(n) < 0x8000_0000 && (n - ToPageId(n)) % 0x1_0000_0000 == 0
  {
  }

  /** A page's table key has its id in the low 32 bits, and above them 0 for a heap page and 1 for an index page. */
  lemma KeyPacks(k: Key)
    requires -0x8000_0000 <= k.pid < 0x8000_0000
    ensures (MakeKey(k) - k.pid) % 0x1_0000_0000 == 0
    ensures MakeKey(k) / 0x1_0000_0000 == (match k.kind case HeapFile => 0 case IndexFile => 1)
  {
    assert k.pid % 0x1_0000_0000 == if k.pid < 0 then k.pid + 0x1_0000_0000 else k.pid;
  }

  /** Past the end of its file every field of a page is zero: a heap page not yet in use, a node that is no leaf. */
  lemma PastEndIsZero(d: DiskImage, k: Key)
    requires k.pid < 0 || k.pid >= |FileOf(d, k.kind)|
    ensures match ReadPage(d, k)
      case HeapPage(h) =>
        && k.kind == HeapFile && !h.initialized && h.freeSize == 0 && h.slotCount == 0 && h.lsn == 0
        && |h.slots| == 10 && |h.data| == 4015
        && (forall i :: 0 <= i < 10 ==> h.slots[i] == Slot(0, 0, false)) && forall i :: 0 <= i < 4015 ==> h.data[i] == 0
      case IndexPage(n) =>
        && k.kind == IndexFile && !n.isLeaf && n.keyCount == 0 && n.nextLeaf == 0
        && n.keys == [0, 0, 0] && n.children == [0, 0, 0, 0]
  {
  }

  // ---------- rows ----------

  /** Where column i of a row begins: strings take 500 bytes, numbers four. */
  function ColumnStart(row: HeapRows.Row, i: nat): nat
    requires i <= |row|
  {
    if i == 0 then 0 else ColumnStart(row, i - 1) + if row[i - 1].Text? then 500 else 4
  }

  /** A value in its column: a string's bytes and zeros after them, an integer low byte first, a float's four bytes. */
  ghost predicate ValueLies(v: HeapRows.Value, b: seq<Byte>, at: nat) {
    match v
    case Text(s) =>
      at + 500 <= |b| && forall j :: 0 <= j < 500 ==> b[at + j] == if j < |s| then s[j] else 0
    case Integer(n) => at + 4 <= |b| && Signed(b, at) == n
    case Floating(bits) => at + 4 <= |b| && b[at..at + 4] == bits
  }

  /** The bytes of column i. */
  ghost predicate ColumnHas(row: HeapRows.Row, i: nat, b: seq<Byte>)
    requires HeapRows.StorableRow(row) && i < |row|
  {
    var start, width := ColumnStart(row, i), if row[i].Text? then 500 else 4;
    start + width <= |b| && b[start..start + width] == HeapRows.ValueBytes(row[i])
  }

  lemma {:induction false} RowSplits(row: HeapRows.Row, i: nat)
    requires HeapRows.StorableRow(row) && i < |row|
    ensures ColumnHas(row, i, HeapRows.RowBytes(row)) && |HeapRows.RowBytes(row)| == ColumnStart(row, |row|)
    decreases |row|
  {
    hide HeapRows.RowBytes, HeapRows.ValueBytes, ColumnHas;
    var l := |row| - 1;
    HeapRows.RowBytesAppend(row[..l], row[l]);
    assert row[..l] + [row[l]] == row;
    LengthIs(row[..l]);
    LengthIs(row);
    if i < l {
      RowSplits(row[..l], i);
      ColumnStays(row, i, HeapRows.RowBytes(row[..l]), HeapRows.ValueBytes(row[l]));
    } else {
      LastColumn(row, HeapRows.RowBytes(row[..l]));
    }
  }

  lemma ColumnStays(row: HeapRows.Row, i: nat, b: seq<Byte>, more: seq<Byte>)
    requires HeapRows.StorableRow(row) && i < |row| - 1 && ColumnHas(row[..|row| - 1], i, b)
    ensures ColumnHas(row, i, b + more)
  {
    hide HeapRows.ValueBytes;
    StartPrefix(row, |row| - 1, i);
  }

  lemma LastColumn(row: HeapRows.Row, b: seq<Byte>)
    requires HeapRows.StorableRow(row) && row != [] && |b| == ColumnStart(row[..|row| - 1], |row| - 1)
    ensures ColumnHas(row, |row| - 1, b + HeapRows.ValueBytes(row[|row| - 1]))
  {
    hide HeapRows.TextBytes, Int32ToBytes;
    var l := |row| - 1;
    var v := HeapRows.ValueBytes(row[l]);
    StartPrefix(row, l, l);
    hide ColumnStart, HeapRows.ValueBytes;
    assert (b + v)[|b|..|b| + |v|] == v;
  }

  lemma {:induction false} StartPrefix(row: HeapRows.Row, l: nat, i: nat)
    requires i <= l <= |row|
    ensures ColumnStart(row[..l], i) == ColumnStart(row, i)
  {
    if i > 0 {
      StartPrefix(row, l, i - 1);
    }
  }

  lemma {:induction false} LengthIs(row: HeapRows.Row)
    requires HeapRows.StorableRow(row)
    ensures |HeapRows.RowBytes(row)| == ColumnStart(row, |row|)
  {
    if row != [] {
      var l := |row| - 1;
      LengthIs(row[..l]);
      HeapRows.RowBytesAppend(row[..l], row[l]);
      assert row[..l] + [row[l]] == row;
      StartPrefix(row, l, l);
    }
  }

  /** Column by column, where a row's bytes lie and what they are. */
  lemma RowLies(row: HeapRows.Row, i: nat)
    requires HeapRows.StorableRow(row) && i < |row|
    ensures |HeapRows.RowBytes(row)| == ColumnStart(row, |row|)
    ensures ValueLies(row[i], HeapRows.RowBytes(row), ColumnStart(row, i))
  {
    hide HeapRows.RowBytes, ColumnStart;
    RowSplits(row, i);
    ValueAt(row[i], HeapRows.RowBytes(row), ColumnStart(row, i));
  }

  lemma ValueAt(v: HeapRows.Value, b: seq<Byte>, at: nat)
    requires HeapRows.Storable(v)
    requires var width := if v.Text? then 500 else 4; at + width <= |b| && b[at..at + width] == HeapRows.ValueBytes(v)
    ensures ValueLies(v, b, at)
  {
    match v
    case Text(s) =>
      forall j | 0 <= j < 500 ensures b[at + j] == if j < |s| then s[j] else 0 {
        assert b[at..at + 500][j] == HeapRows.TextBytes(s)[j];
      }
    case Integer(n) => IntegerLies(n, b, at);
    case Floating(_) =>
  }

  /** A page that has never been used takes any row of up to 4015 bytes, at the end of its payload. */
  lemma FreshTakes(h: HeapImage, row: HeapRows.Row)
    requires HeapReadable(h) && !h.initialized && HeapRows.StorableRow(row)
    ensures
      var n := |HeapRows.RowBytes(row)|;
      && (WriteRow(h, row).1.Success? <==> n <= 4015)
      && (n <= 4015 ==> WriteRow(h, row).1.value == Slot(n, 4015 - n, false))
  {
  }

  // ---------- the log ----------

  /** The 24 bytes of a log entry. */
  lemma EntryLies(r: Record)
    requires Loggable(r)
    ensures
      var b := EntryBytes(r);
      && |b| == 24 && Eight(b, 0) == r.lsn && Signed(b, 8) == r.rid.pid && Signed(b, 12) == r.rid.slot.size
      && Two(b, 16) == r.rid.slot.offset && b[18] == (if r.rid.slot.deleted then 1 else 0) && Four(b, 20) == |r.row|
  {
    var b := EntryBytes(r);
    EntryPieces(ToLE(r.lsn, 8), Int32ToBytes(r.rid.pid), Int32ToBytes(r.rid.slot.size), ToLE(r.rid.slot.offset, 2),
                if r.rid.slot.deleted then 1 else 0, ToLE(|r.row|, 4));
    Widths();
    assert b[0..8] == b[..8];
    SizeLies(r.lsn, b, 0);
    IntegerLies(r.rid.pid, b, 8);
    IntegerLies(r.rid.slot.size, b, 12);
    FromToLE(r.rid.slot.offset, 2);
    TwoIs(b[16..18]);
    SmallLies(|r.row|, b, 20);
  }

  /** Where record i of a log begins. */
  function RecordStart(rs: seq<Record>, i: nat): nat
    requires i <= |rs|
  {
    if i == 0 then 8 else RecordStart(rs, i - 1) + 24 + |rs[i - 1].row|
  }

  lemma {:induction false} StartIs(rs: seq<Record>, i: nat)
    requires AllLoggable(rs) && i <= |rs|
    ensures AllLoggable(rs[..i]) && RecordStart(rs, i) == 8 + |AllBytes(rs[..i])|
  {
    if i > 0 {
      StartIs(rs, i - 1);
      assert rs[..i] == rs[..i - 1] + [rs[i - 1]];
      AllBytesAppend(rs[..i - 1], rs[i - 1]);
    }
  }

  /**
    A log file: eight bytes with the place where the last record begins, or zero; then the records, each an
    entry and the bytes of its row, one after the other from byte 8 on.
   */
  lemma LogLies(rs: seq<Record>, tail: seq<Byte>)
    requires AllLoggable(rs) && Addressable(rs)
    ensures
      var log := LogFile(rs, tail);
      && |log| == RecordStart(rs, |rs|) + |tail| && |log| >= 8
      && Eight(log, 0) == (if rs == [] then 0 else RecordStart(rs, |rs| - 1))
    ensures forall i :: 0 <= i < |rs| ==> RecordLies(LogFile(rs, tail), rs, i)
  {
    var log := LogFile(rs, tail);
    assert log[0..8] == ToLE(LastStart(rs), 8);
    SizeLies(LastStart(rs), log, 0);
    StartIs(rs, |rs|);
    assert rs[..|rs|] == rs;
    if rs != [] {
      StartIs(rs, |rs| - 1);
    }
    forall i | 0 <= i < |rs| ensures RecordLies(log, rs, i) {
      RecordAtStart(rs, tail, i);
    }
  }

  ghost predicate RecordLies(log: seq<Byte>, rs: seq<Record>, i: nat)
    requires AllLoggable(rs) && i < |rs|
  {
    var at := RecordStart(rs, i);
    && at + 24 + |rs[i].row| <= |log|
    && log[at..at + 24] == EntryBytes(rs[i]) && log[at + 24..at + 24 + |rs[i].row|] == rs[i].row
  }

  lemma RecordAtStart(rs: seq<Record>, tail: seq<Byte>, i: nat)
    requires AllLoggable(rs) && i < |rs|
    ensures RecordLies(LogFile(rs, tail), rs, i)
  {
    var log, at := LogFile(rs, tail), RecordStart(rs, i);
    StartIs(rs, i);
    var rest := SplitBytes(rs, i);
    hide EntryBytes, AllBytes, ToLE;
    var head := ToLE(LastStart(rs), 8) + AllBytes(rs[..i]);
    assert log == head + (EntryBytes(rs[i]) + rs[i].row) + (rest + tail);
    assert |head| == at;
  }

  /** The record that begins at a place of any log whatever, read if it is whole and its fields are in bounds. */
  lemma ReadIff(log: seq<Byte>, at: nat)
    ensures RecordAt(log, at).Some? <==>
      && at + 24 <= |log| && Eight(log, at) <= 65535 && Signed(log, at + 12) == Four(log, at + 20)
      && Four(log, at + 20) <= |log| - at - 24 && Two(log, at + 16) + Four(log, at + 20) <= 4015
    ensures RecordAt(log, at).Some? ==>
      var r := RecordAt(log, at).value;
      && r.lsn == Eight(log, at) && r.rid.pid == Signed(log, at + 8) && r.rid.slot.size == Signed(log, at + 12)
      && r.rid.slot.offset == Two(log, at + 16) && r.rid.slot.deleted == (log[at + 18] != 0)
      && r.row == log[at + 24..at + 24 + Four(log, at + 20)]
  {
    if at + 24 <= |log| {
      FieldsLie(log, at);
      hide DecodeEntry, Eight, Four, Two;
    }
  }

  lemma Inside(log: seq<Byte>, at: nat, i: nat, j: nat)
    requires at + 24 <= |log| && i <= j <= 24
    ensures log[at..at + 24][i..j] == log[at + i..at + j]
  {
    var x, y := log[at..at + 24][i..j], log[at + i..at + j];
    forall k | 0 <= k < j - i ensures x[k] == y[k] {
      assert log[at..at + 24][i + k] == log[at + i + k];
    }
  }

  /** What is read of an entry, whatever its bytes. */
  lemma FieldsLie(log: seq<Byte>, at: nat)
    requires at + 24 <= |log|
    ensures
      var e := DecodeEntry(log[at..at + 24]);
      && e.lsn == Eight(log, at) && e.rid.pid == Signed(log, at + 8) && e.rid.slot.size == Signed(log, at + 12)
      && e.rid.slot.offset == Two(log, at + 16) && e.rid.slot.deleted == (log[at + 18] != 0)
      && e.rowSize == Four(log, at + 20)
  {
    hide FromLE, Eight, Four, Two;
    var b := log[at..at + 24];
    assert b[..8] == b[0..8];
    Inside(log, at, 0, 8);
    Inside(log, at, 8, 12);
    Inside(log, at, 12, 16);
    Inside(log, at, 16, 18);
    Inside(log, at, 20, 24);
    ReadsAt(log, at);
    ReadsAt(log, at + 8);
    ReadsAt(log, at + 12);
    ReadsAt(log, at + 16);
    ReadsAt(log, at + 20);
  }

  /** Where replay stops reading: at the place in the header, if that is behind the header and inside the file. */
  lemma HeaderIff(log: seq<Byte>)
    ensures LastOffset(log) ==
      if |log| >= 8 && 8 <= Eight(log, 0) < |log| then Some(Eight(log, 0)) else None
  {
    if |log| >= 8 {
      EightIs(log[..8]);
      hide FromLE;
      assert Eight(log[..8], 0) == Eight(log, 0);
    }
  }

  /** The number a reopened log continues from, whatever its bytes: that in the entry the header names, unchecked. */
  lemma ContinuesFrom(log: seq<Byte>)
    ensures LastLsn(log) ==
      if |log| >= 8 && 8 <= Eight(log, 0) < |log| && Eight(log, 0) + 24 <= |log| then Eight(log, Eight(log, 0)) else 0
  {
    HeaderIff(log);
    if LastOffset(log).Some? && LastOffset(log).value + 24 <= |log| {
      FieldsLie(log, LastOffset(log).value);
    }
    hide DecodeEntry, Eight;
  }

  /** Why a row is refused: its size is not its slot's, it does not fit the payload, or 65535 numbers are in use. */
  lemma RefusedIff(rid: RID, row: HeapRows.Row, lsn: nat)
    requires HeapRows.StorableRow(row)
    ensures
      var n, e := |HeapRows.RowBytes(row)|, CommitError(rid, row, lsn);
      && (e == Some(SizeMismatch) <==> rid.slot.size != n)
      && (e == Some(PastPayload) <==> rid.slot.size == n && rid.slot.offset + n > 4015)
      && (e == Some(LsnOverflow) <==> rid.slot.size == n && rid.slot.offset + n <= 4015 && lsn >= 65535)
      && (e.None? <==> rid.slot.size == n && rid.slot.offset + n <= 4015 && lsn < 65535)
  {
  }

  // ---------- the catalog ----------

  /** A name: eight bytes with its length, and its bytes. */
  ghost predicate NameLies(s: seq<Byte>, b: seq<Byte>, at: nat) {
    at + 8 + |s| <= |b| && Eight(b, at) == |s| && b[at + 8..at + 8 + |s|] == s
  }

  /** A column: its name, and four bytes with its type: 0 a string, 1 an integer, 2 a float. */
  ghost predicate ColumnLies(c: Catalogs.Column, b: seq<Byte>, at: nat) {
    && NameLies(c.name, b, at) && at + 12 + |c.name| <= |b|
    && Four(b, at + 8 + |c.name|) == (match c.kind case StringCol => 0 case IntCol => 1 case FloatCol => 2)
  }

  function ColumnsFrom(cs: seq<Catalogs.Column>, i: nat): nat
    requires i <= |cs|
  {
    if i == 0 then 0 else ColumnsFrom(cs, i - 1) + 12 + |cs[i - 1].name|
  }

  /** A table: eight bytes, a 4-byte page id, its name, the number of its columns in eight bytes, and the columns. */
  ghost predicate TableLies(t: Catalogs.Table, b: seq<Byte>, at: nat) {
    var columns := at + 28 + |t.name|;
    && columns <= |b| && Eight(b, at) == t.heapOffset && Signed(b, at + 8) == t.pageId && NameLies(t.name, b, at + 12)
    && Eight(b, at + 20 + |t.name|) == |t.columns|
    && forall i :: 0 <= i < |t.columns| ==> ColumnLies(t.columns[i], b, columns + ColumnsFrom(t.columns, i))
  }

  function TableSize(t: Catalogs.Table): nat {
    28 + |t.name| + ColumnsFrom(t.columns, |t.columns|)
  }

  function TablesFrom(ts: seq<Catalogs.Table>, i: nat): nat
    requires i <= |ts|
  {
    if i == 0 then 0 else TablesFrom(ts, i - 1) + TableSize(ts[i - 1])
  }

  /** A schema: its name, the number of its tables in eight bytes, and the tables. */
  ghost predicate SchemaLies(s: Catalogs.Schema, b: seq<Byte>, at: nat) {
    var tables := at + 16 + |s.name|;
    && tables <= |b| && NameLies(s.name, b, at) && Eight(b, at + 8 + |s.name|) == |s.tables|
    && forall i :: 0 <= i < |s.tables| ==> TableLies(s.tables[i], b, tables + TablesFrom(s.tables, i))
  }

  function SchemaSize(s: Catalogs.Schema): nat {
    16 + |s.name| + TablesFrom(s.tables, |s.tables|)
  }

  function SchemasFrom(c: Catalogs.Catalog, i: nat): nat
    requires i <= |c|
  {
    if i == 0 then 0 else SchemasFrom(c, i - 1) + SchemaSize(c[i - 1])
  }

  /** The bytes of x lie at this place of b. */
  ghost predicate Lies(x: seq<Byte>, b: seq<Byte>, at: nat) {
    at + |x| <= |b| && b[at..at + |x|] == x
  }

  lemma LiesPart(x: seq<Byte>, b: seq<Byte>, at: nat, before: seq<Byte>, y: seq<Byte>, after: seq<Byte>)
    requires Lies(x, b, at) && x == before + y + after
    ensures Lies(y, b, at + |before|)
  {
    var from := at + |before|;
    assert forall j :: 0 <= j < |x| ==> b[at..at + |x|][j] == x[j];
    assert forall j :: 0 <= j < |y| ==> b[from + j] == x[|before| + j] == y[j];
  }

  lemma NameAt(s: seq<Byte>, b: seq<Byte>, at: nat)
    requires Catalogs.Fits64(|s|) && Lies(Catalogs.EncodeName(s), b, at)
    ensures NameLies(s, b, at) && |Catalogs.EncodeName(s)| == 8 + |s|
  {
    var x := Catalogs.EncodeName(s);
    LiesPart(x, b, at, [], ToLE(|s|, 8), s);
    LiesPart(x, b, at, ToLE(|s|, 8), s, []);
    SizeLies(|s|, b, at);
  }

  lemma ColumnAt(c: Catalogs.Column, b: seq<Byte>, at: nat)
    requires Catalogs.ColumnFits(c) && Lies(Catalogs.EncodeColumn(c), b, at)
    ensures ColumnLies(c, b, at) && |Catalogs.EncodeColumn(c)| == 12 + |c.name|
  {
    var x, name, code := Catalogs.EncodeColumn(c), Catalogs.EncodeName(c.name), ToLE(Catalogs.KindCode(c.kind), 4);
    LiesPart(x, b, at, [], name, code);
    LiesPart(x, b, at, name, code, []);
    NameAt(c.name, b, at);
    SmallLies(Catalogs.KindCode(c.kind), b, at + 8 + |c.name|);
  }

  lemma {:induction false} ColumnsAt(cs: seq<Catalogs.Column>, b: seq<Byte>, at: nat, i: nat)
    requires (forall j :: 0 <= j < |cs| ==> Catalogs.ColumnFits(cs[j])) && i < |cs|
    requires Lies(Catalogs.EncodeColumns(cs), b, at)
    ensures ColumnLies(cs[i], b, at + ColumnsFrom(cs, i))
    decreases |cs|
  {
    hide Catalogs.EncodeColumn, Catalogs.ColumnFits, ColumnLies;
    var first, rest := Catalogs.EncodeColumn(cs[0]), Catalogs.EncodeColumns(cs[1..]);
    LiesPart(first + rest, b, at, [], first, rest);
    LiesPart(first + rest, b, at, first, rest, []);
    ColumnAt(cs[0], b, at);
    if i > 0 {
      ColumnsAt(cs[1..], b, at + |first|, i - 1);
      ColumnsLater(cs, i);
    }
  }

  lemma {:induction false} ColumnsLater(cs: seq<Catalogs.Column>, i: nat)
    requires 0 < i <= |cs|
    ensures ColumnsFrom(cs, i) == 12 + |cs[0].name| + ColumnsFrom(cs[1..], i - 1)
  {
    if i > 1 {
      ColumnsLater(cs, i - 1);
    }
  }

  lemma {:induction false} ColumnsLength(cs: seq<Catalogs.Column>)
    ensures |Catalogs.EncodeColumns(cs)| == ColumnsFrom(cs, |cs|)
  {
    if cs != [] {
      ColumnsLength(cs[1..]);
      ColumnsLater(cs, |cs|);
    }
  }

  lemma TableLength(t: Catalogs.Table)
    ensures |Catalogs.EncodeTable(t)| == TableSize(t)
  {
    ColumnsLength(t.columns);
    hide ColumnsFrom, Catalogs.EncodeColumns, ToLE;
  }

  lemma FiveParts(b: seq<Byte>, at: nat, s: seq<Byte>, t: seq<Byte>, u: seq<Byte>, v: seq<Byte>, w: seq<Byte>)
    requires Lies(s + t + u + v + w, b, at)
    ensures Lies(s, b, at) && Lies(t, b, at + |s|) && Lies(u, b, at + |s| + |t|) && Lies(v, b, at + |s| + |t| + |u|)
    ensures Lies(w, b, at + |s| + |t| + |u| + |v|)
  {
    hide Lies;
    var x := s + t + u + v + w;
    LiesPart(x, b, at, [], s, t + u + v + w);
    LiesPart(x, b, at, s, t, u + v + w);
    LiesPart(x, b, at, s + t, u, v + w);
    LiesPart(x, b, at, s + t + u, v, w);
    LiesPart(x, b, at, s + t + u + v, w, []);
  }

  lemma TableAt(t: Catalogs.Table, b: seq<Byte>, at: nat)
    requires Catalogs.TableFits(t) && Lies(Catalogs.EncodeTable(t), b, at)
    ensures TableLies(t, b, at)
  {
    hide ToLE, Int32ToBytes, Pow256, Catalogs.EncodeColumns, Catalogs.EncodeName, Lies, Catalogs.ColumnFits, ColumnLies,
         ColumnsFrom, NameLies;
    var x := Catalogs.EncodeTable(t);
    var size, pid, name, count, columns := ToLE(t.heapOffset, 8), Int32ToBytes(t.pageId), Catalogs.EncodeName(t.name),
        ToLE(|t.columns|, 8), Catalogs.EncodeColumns(t.columns);
    assert x == size + pid + name + count + columns;
    NameLength(t.name);
    FiveParts(b, at, size, pid, name, count, columns);
    SizeAt(t.heapOffset, b, at);
    NumberAt(t.pageId, b, at + 8);
    NameAt(t.name, b, at + 12);
    SizeAt(|t.columns|, b, at + 20 + |t.name|);
    forall i | 0 <= i < |t.columns|
      ensures ColumnLies(t.columns[i], b, at + 28 + |t.name| + ColumnsFrom(t.columns, i))
    {
      ColumnsAt(t.columns, b, at + 28 + |t.name|, i);
    }
    LiesInside(columns, b, at + 28 + |t.name|);
  }

  lemma NameLength(s: seq<Byte>)
    ensures |Catalogs.EncodeName(s)| == 8 + |s|
  {
  }

  lemma LiesInside(x: seq<Byte>, b: seq<Byte>, at: nat)
    requires Lies(x, b, at)
    ensures at + |x| <= |b|
  {
  }

  lemma SizeAt(n: nat, b: seq<Byte>, at: nat)
    requires Catalogs.Fits64(n) && Lies(ToLE(n, 8), b, at)
    ensures at + 8 <= |b| && Eight(b, at) == n
  {
    SizeLies(n, b, at);
  }

  lemma NumberAt(n: int, b: seq<Byte>, at: nat)
    requires Int32(n) && Lies(Int32ToBytes(n), b, at)
    ensures at + 4 <= |b| && Signed(b, at) == n
  {
    IntegerLies(n, b, at);
  }

  lemma {:induction false} TablesAt(ts: seq<Catalogs.Table>, b: seq<Byte>, at: nat, i: nat)
    requires (forall j :: 0 <= j < |ts| ==> Catalogs.TableFits(ts[j])) && i < |ts|
    requires Lies(Catalogs.EncodeTables(ts), b, at)
    ensures TableLies(ts[i], b, at + TablesFrom(ts, i))
    decreases |ts|
  {
    hide Catalogs.EncodeTable, Catalogs.TableFits, TableLies, TableSize, Lies;
    var first, rest := Catalogs.EncodeTable(ts[0]), Catalogs.EncodeTables(ts[1..]);
    LiesPart(first + rest, b, at, [], first, rest);
    LiesPart(first + rest, b, at, first, rest, []);
    TableAt(ts[0], b, at);
    TableLength(ts[0]);
    if i > 0 {
      TablesAt(ts[1..], b, at + |first|, i - 1);
      TablesLater(ts, i);
    }
  }

  lemma {:induction false} TablesLater(ts: seq<Catalogs.Table>, i: nat)
    requires 0 < i <= |ts|
    ensures TablesFrom(ts, i) == TableSize(ts[0]) + TablesFrom(ts[1..], i - 1)
  {
    hide TableSize;
    if i > 1 {
      TablesLater(ts, i - 1);
    }
  }

  lemma {:induction false} TablesLength(ts: seq<Catalogs.Table>)
    ensures |Catalogs.EncodeTables(ts)| == TablesFrom(ts, |ts|)
  {
    hide Catalogs.EncodeTable, TableSize;
    if ts != [] {
      TableLength(ts[0]);
      TablesLength(ts[1..]);
      TablesLater(ts, |ts|);
    }
  }

  lemma SchemaAt(s: Catalogs.Schema, b: seq<Byte>, at: nat)
    requires Catalogs.SchemaFits(s) && Lies(Catalogs.EncodeSchema(s), b, at)
    ensures SchemaLies(s, b, at) && |Catalogs.EncodeSchema(s)| == SchemaSize(s)
  {
    hide ToLE, Pow256, Catalogs.EncodeTables, Catalogs.EncodeName, Lies, Catalogs.TableFits, TableLies, TablesFrom,
         NameLies;
    var x, name, count, tables := Catalogs.EncodeSchema(s), Catalogs.EncodeName(s.name), ToLE(|s.tables|, 8),
        Catalogs.EncodeTables(s.tables);
    assert x == name + count + tables;
    NameLength(s.name);
    TablesLength(s.tables);
    LiesPart(x, b, at, [], name, count + tables);
    LiesPart(x, b, at, name, count, tables);
    LiesPart(x, b, at, name + count, tables, []);
    NameAt(s.name, b, at);
    SizeAt(|s.tables|, b, at + 8 + |s.name|);
    forall i | 0 <= i < |s.tables|
      ensures TableLies(s.tables[i], b, at + 16 + |s.name| + TablesFrom(s.tables, i))
    {
      TablesAt(s.tables, b, at + 16 + |s.name|, i);
    }
    LiesInside(tables, b, at + 16 + |s.name|);
  }

  /** The catalog file: schema after schema, each with its name, its tables and their columns in these places. */
  lemma {:induction false} CatalogLies(c: Catalogs.Catalog, b: seq<Byte>, at: nat, i: nat)
    requires Catalogs.CatalogFits(c) && i < |c| && Lies(Catalogs.Encode(c), b, at)
    ensures SchemaLies(c[i], b, at + SchemasFrom(c, i))
    decreases |c|
  {
    hide Catalogs.EncodeSchema, Catalogs.SchemaFits, SchemaLies, SchemaSize, Lies;
    var first, rest := Catalogs.EncodeSchema(c[0]), Catalogs.Encode(c[1..]);
    LiesPart(first + rest, b, at, [], first, rest);
    LiesPart(first + rest, b, at, first, rest, []);
    SchemaAt(c[0], b, at);
    if i > 0 {
      CatalogLies(c[1..], b, at + |first|, i - 1);
      SchemasLater(c, i);
    }
  }

  lemma {:induction false} SchemasLater(c: Catalogs.Catalog, i: nat)
    requires 0 < i <= |c|
    ensures SchemasFrom(c, i) == SchemaSize(c[0]) + SchemasFrom(c[1..], i - 1)
  {
    hide SchemaSize;
    if i > 1 {
      SchemasLater(c, i - 1);
    }
  }
}
