/**
  The log as bytes: an 8-byte header with the offset of the last record, then the records,
  each a 24-byte entry followed by the row's bytes.
 */
module LogFormat {
  import opened StorageTypes
  import opened Bytes

  const WAL_HEADER_SIZE := 8
  const ENTRY_SIZE := 24
  const LSN_MAX := 65535

  /** A log record: its number, where the row lies, and the row's bytes. */
  datatype Record = Record(lsn: nat, rid: RID, row: seq<Byte>)

  /** A record the writer can produce: it fits its fields and the heap payload. */
  ghost predicate Loggable(r: Record) {
    && r.lsn <= LSN_MAX
    && 0 <= r.rid.pid < PAGE_ID_LIMIT
    && r.rid.slot.size == |r.row|
    && r.rid.slot.offset + |r.row| <= HEAP_PAYLOAD_SIZE
  }

  ghost predicate AllLoggable(rs: seq<Record>) {
    forall i :: 0 <= i < |rs| ==> Loggable(rs[i])
  }

  // ---------- one record ----------

  /** The entry as it lies in memory: number, page, slot (size, offset, flag, one byte of padding), row size. */
  function EntryBytes(r: Record): (b: seq<Byte>)
    requires r.lsn <= LSN_MAX && Int32(r.rid.pid) && Int32(r.rid.slot.size)
    ensures |b| == ENTRY_SIZE
  {
    ToLE(r.lsn, 8) + Int32ToBytes(r.rid.pid) + Int32ToBytes(r.rid.slot.size) + ToLE(r.rid.slot.offset, 2)
    + [if r.rid.slot.deleted then 1 else 0] + [0] + ToLE(|r.row|, 4)
  }

  function RecordBytes(r: Record): (b: seq<Byte>)
    requires r.lsn <= LSN_MAX && Int32(r.rid.pid) && Int32(r.rid.slot.size)
    ensures |b| == ENTRY_SIZE + |r.row|
  {
    EntryBytes(r) + r.row
  }

  datatype Entry = Entry(lsn: nat, rid: RID, rowSize: nat)

  function DecodeEntry(b: seq<Byte>): Entry
    requires |b| == ENTRY_SIZE
  {
    Entry(FromLE(b[..8]),
          RID(BytesToInt32(b[8..12]), Slot(BytesToInt32(b[12..16]), FromLE(b[16..18]), b[18] != 0)),
          FromLE(b[20..24]))
  }

  lemma EntryPieces(a: seq<Byte>, p: seq<Byte>, s: seq<Byte>, o: seq<Byte>, d: Byte, r: seq<Byte>)
    requires |a| == 8 && |p| == 4 && |s| == 4 && |o| == 2 && |r| == 4
    ensures
      var b := a + p + s + o + [d] + [0] + r;
      |b| == 24 && b[..8] == a && b[8..12] == p && b[12..16] == s && b[16..18] == o && b[18] == d && b[20..24] == r
  {
  }

  lemma Pow256At(n: nat)
    requires n <= LSN_MAX
    ensures n < Pow256(8)
  {
    Widths();
  }

  lemma EntryRoundTrip(r: Record)
    requires Loggable(r)
    ensures DecodeEntry(EntryBytes(r)) == Entry(r.lsn, r.rid, |r.row|)
  {
    Widths();
    Pow256At(r.lsn);
    FromToLE(r.lsn, 8);
    Int32RoundTrip(r.rid.pid);
    Int32RoundTrip(r.rid.slot.size);
    FromToLE(r.rid.slot.offset, 2);
    FromToLE(|r.row|, 4);
    EntryPieces(ToLE(r.lsn, 8), Int32ToBytes(r.rid.pid), Int32ToBytes(r.rid.slot.size), ToLE(r.rid.slot.offset, 2),
                if r.rid.slot.deleted then 1 else 0, ToLE(|r.row|, 4));
  }

  /** The record that starts at an offset, if it is complete and passes the checks replay makes. */
  function RecordAt(log: seq<Byte>, offset: nat): Option<Record> {
    if offset + ENTRY_SIZE > |log| then None
    else
      var e := DecodeEntry(log[offset..offset + ENTRY_SIZE]);
      var at := offset + ENTRY_SIZE;
      if e.rowSize > |log| - at || e.rid.slot.size < 0 || e.rowSize != e.rid.slot.size || e.lsn > LSN_MAX
         || e.rid.slot.offset + e.rowSize > HEAP_PAYLOAD_SIZE then None
      else Some(Record(e.lsn, e.rid, log[at..at + e.rowSize]))
  }

  /** Whatever the bytes, a record that is read fits the heap payload. */
  lemma RecordAtFits(log: seq<Byte>, offset: nat)
    requires RecordAt(log, offset).Some?
    ensures var r := RecordAt(log, offset).value;
      r.lsn <= LSN_MAX && r.rid.slot.size == |r.row| && r.rid.slot.offset + |r.row| <= HEAP_PAYLOAD_SIZE
      && offset + ENTRY_SIZE + |r.row| <= |log|
  {
  }

  /** The records replay reads: from `offset` up to the one that starts at `last`, stopping at a bad one. */
  function Parse(log: seq<Byte>, offset: nat, last: nat): seq<Record>
    decreases |log| - offset
  {
    if offset > last || offset > |log| then []
    else
      match RecordAt(log, offset)
      case None => []
      case Some(r) => [r] + Parse(log, offset + ENTRY_SIZE + |r.row|, last)
  }

  // ---------- a whole log ----------

  /** The offset in the header, or none when it points at no record. */
  function LastOffset(log: seq<Byte>): Option<nat> {
    if |log| < WAL_HEADER_SIZE then None
    else
      var last := FromLE(log[..WAL_HEADER_SIZE]);
      if last < WAL_HEADER_SIZE || last >= |log| then None else Some(last)
  }

  /** What replay reads from a log. */
  function Records(log: seq<Byte>): seq<Record> {
    match LastOffset(log)
    case None => []
    case Some(last) => Parse(log, WAL_HEADER_SIZE, last)
  }

  function AllBytes(rs: seq<Record>): seq<Byte>
    requires AllLoggable(rs)
  {
    if rs == [] then [] else AllBytes(rs[..|rs| - 1]) + RecordBytes(rs[|rs| - 1])
  }

  /** Where the last of some records starts; zero, which points at no record, when there is none. */
  function LastStart(rs: seq<Record>): nat
    requires AllLoggable(rs)
  {
    if rs == [] then 0 else WAL_HEADER_SIZE + |AllBytes(rs[..|rs| - 1])|
  }

  /** A log file: a header naming the last of rs, the records of rs, and whatever comes after them. */
  function LogFile(rs: seq<Record>, tail: seq<Byte>): seq<Byte>
    requires AllLoggable(rs)
  {
    ToLE(LastStart(rs), WAL_HEADER_SIZE) + AllBytes(rs) + tail
  }

  /** A file whose offsets fit the 8-byte header. */
  ghost predicate Addressable(rs: seq<Record>)
    requires AllLoggable(rs)
  {
    LastStart(rs) < Pow256(8)
  }

  lemma AllBytesAppend(rs: seq<Record>, r: Record)
    requires AllLoggable(rs) && Loggable(r)
    ensures AllLoggable(rs + [r]) && AllBytes(rs + [r]) == AllBytes(rs) + RecordBytes(r)
    ensures LastStart(rs + [r]) == WAL_HEADER_SIZE + |AllBytes(rs)|
  {
    assert (rs + [r])[..|rs|] == rs;
  }

  /** The record after `before` is read where it starts. */
  lemma RecordIsAt(log: seq<Byte>, before: seq<Byte>, r: Record, after: seq<Byte>)
    requires Loggable(r) && log == before + RecordBytes(r) + after
    ensures RecordAt(log, |before|) == Some(r)
  {
    var at := |before|;
    var b := RecordBytes(r);
    assert log[at..at + |b|] == b;
    assert log[at..at + ENTRY_SIZE] == b[..ENTRY_SIZE] == EntryBytes(r);
    EntryRoundTrip(r);
    assert log[at + ENTRY_SIZE..at + |b|] == b[ENTRY_SIZE..] == r.row;
  }

  /** Reading from record n on gives the records from n on. */
  lemma {:induction false} ParseFrom(head: seq<Byte>, rs: seq<Record>, tail: seq<Byte>, n: nat)
    requires AllLoggable(rs) && n < |rs| && |head| == WAL_HEADER_SIZE
    ensures AllLoggable(rs[..n])
    ensures Parse(head + AllBytes(rs) + tail, WAL_HEADER_SIZE + |AllBytes(rs[..n])|, LastStart(rs)) == rs[n..]
    decreases |rs| - n
  {
    hide RecordBytes, EntryBytes, RecordAt, Parse, AllBytes;
    var log := head + AllBytes(rs) + tail;
    var r := rs[n];
    var rest := SplitBytes(rs, n);
    assert rs[..n + 1] == rs[..n] + [r];
    AllBytesAppend(rs[..n], r);
    var before := head + AllBytes(rs[..n]);
    var next := |before| + ENTRY_SIZE + |r.row|;
    assert log == before + RecordBytes(r) + (rest + tail);
    RecordIsAt(log, before, r, rest + tail);
    StartsGrow(rs, n);
    ParseStep(log, |before|, LastStart(rs), r);
    if n + 1 < |rs| {
      ParseFrom(head, rs, tail, n + 1);
      assert [r] + rs[n + 1..] == rs[n..];
    } else {
      assert rs[..n] == rs[..|rs| - 1] && LastStart(rs) == |before| by {
        LastStartIs(rs);
      }
      ParseStops(log, next, LastStart(rs));
      assert rs[n..] == [r];
    }
  }

  lemma LastStartIs(rs: seq<Record>)
    requires AllLoggable(rs) && rs != []
    ensures LastStart(rs) == WAL_HEADER_SIZE + |AllBytes(rs[..|rs| - 1])|
  {
  }

  lemma ParseStep(log: seq<Byte>, offset: nat, last: nat, r: Record)
    requires offset <= last && RecordAt(log, offset) == Some(r)
    ensures Parse(log, offset, last) == [r] + Parse(log, offset + ENTRY_SIZE + |r.row|, last)
  {
  }

  lemma ParseStops(log: seq<Byte>, offset: nat, last: nat)
    requires offset > last
    ensures Parse(log, offset, last) == []
  {
  }

  /** The bytes after record n. */
  lemma {:induction false} SplitBytes(rs: seq<Record>, n: nat) returns (rest: seq<Byte>)
    requires AllLoggable(rs) && n < |rs|
    ensures AllLoggable(rs[..n]) && AllBytes(rs) == AllBytes(rs[..n]) + RecordBytes(rs[n]) + rest
    decreases |rs|
  {
    hide RecordBytes, EntryBytes;
    var m := |rs| - 1;
    if n == m {
      rest := [];
    } else {
      var some := SplitBytes(rs[..m], n);
      assert rs[..m][..n] == rs[..n];
      rest := some + RecordBytes(rs[m]);
    }
  }

  lemma StartsGrow(rs: seq<Record>, n: nat)
    requires AllLoggable(rs) && n < |rs|
    ensures AllLoggable(rs[..n]) && WAL_HEADER_SIZE + |AllBytes(rs[..n])| <= LastStart(rs)
  {
    if n < |rs| - 1 {
      var rest := SplitBytes(rs[..|rs| - 1], n);
      assert rs[..|rs| - 1][..n] == rs[..n];
    } else {
      assert rs[..n] == rs[..|rs| - 1];
    }
  }

  /** A log file is read back as the records its header covers; what follows them is not looked at. */
  lemma LogRoundTrip(rs: seq<Record>, tail: seq<Byte>)
    requires AllLoggable(rs) && Addressable(rs)
    ensures Records(LogFile(rs, tail)) == rs
    ensures |LogFile(rs, tail)| >= WAL_HEADER_SIZE
  {
    var log := LogFile(rs, tail);
    var head := ToLE(LastStart(rs), WAL_HEADER_SIZE);
    assert log[..WAL_HEADER_SIZE] == head;
    FromToLE(LastStart(rs), WAL_HEADER_SIZE);
    if rs != [] {
      assert AllBytes(rs) == AllBytes(rs[..|rs| - 1]) + RecordBytes(rs[|rs| - 1]);
      assert LastStart(rs) < |log|;
      ParseFrom(head, rs, tail, 0);
      assert rs[..0] == [] && rs[0..] == rs;
    }
  }
}
