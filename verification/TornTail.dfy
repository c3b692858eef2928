/**
  A crash inside the bytes of a record leaves a torn one after the log's last. Reopened without
  dropping it, the log goes on behind it, and from then on is misread from there.
 */
module TornTails {
  import opened StorageTypes
  import opened Bytes
  import opened LogFormat
  import opened Redo
  import opened Recovery
  import opened LogTails

  /** The log after a record is appended behind whatever follows the last one. */
  ghost function Reopened(rs: seq<Record>, tail: seq<Byte>, x: Record): seq<Byte>
    requires AllLoggable(rs) && Loggable(x)
  {
    WithHeader(LogFile(rs, tail) + RecordBytes(x), |LogFile(rs, tail)|)
  }

  /** Where the bytes after the last record start. */
  function EndOf(rs: seq<Record>): nat
    requires AllLoggable(rs)
  {
    WAL_HEADER_SIZE + |AllBytes(rs)|
  }

  /** Replay comes to a record that starts at `at`. */
  ghost predicate ReadsAt(log: seq<Byte>, offset: nat, last: nat, at: nat)
    decreases |log| - offset
  {
    && offset <= last && offset <= |log|
    && match RecordAt(log, offset)
       case None => false
       case Some(r) => offset == at || ReadsAt(log, offset + ENTRY_SIZE + |r.row|, last, at)
  }

  ghost predicate IsRead(log: seq<Byte>, at: nat) {
    LastOffset(log).Some? && ReadsAt(log, WAL_HEADER_SIZE, LastOffset(log).value, at)
  }

  // ---------- reading past the good records ----------

  lemma ReopenedIs(rs: seq<Record>, tail: seq<Byte>, x: Record)
    requires AllLoggable(rs) && Loggable(x) && |tail| <= ENTRY_SIZE + HEAP_PAYLOAD_SIZE && |rs| <= LSN_MAX
    ensures
      var log, last := Reopened(rs, tail, x), EndOf(rs) + |tail|;
      && log == ToLE(last, WAL_HEADER_SIZE) + AllBytes(rs) + (tail + RecordBytes(x))
      && |LogFile(rs, tail)| == last && LastOffset(log) == Some(last)
  {
    hide RecordBytes, AllBytes, ToLE, FromLE, Pow256;
    var last := EndOf(rs) + |tail|;
    OffsetFits(rs, tail);
    var head := ToLE(LastStart(rs), WAL_HEADER_SIZE);
    NewHeader(head, AllBytes(rs) + tail, RecordBytes(x), last);
    assert LogFile(rs, tail) == head + (AllBytes(rs) + tail);
    assert AllBytes(rs) + tail + RecordBytes(x) == AllBytes(rs) + (tail + RecordBytes(x));
    HeaderNames(Reopened(rs, tail, x), last);
  }

  lemma OffsetFits(rs: seq<Record>, tail: seq<Byte>)
    requires AllLoggable(rs) && |tail| <= ENTRY_SIZE + HEAP_PAYLOAD_SIZE && |rs| <= LSN_MAX
    ensures EndOf(rs) + |tail| < Pow256(8)
  {
    LogBounded(rs);
    Widths();
  }

  lemma NewHeader(head: seq<Byte>, body: seq<Byte>, more: seq<Byte>, last: nat)
    requires |head| == WAL_HEADER_SIZE
    ensures WithHeader(head + body + more, last) == ToLE(last, WAL_HEADER_SIZE) + (body + more)
  {
    assert (head + body + more)[WAL_HEADER_SIZE..] == body + more;
  }

  lemma HeaderNames(log: seq<Byte>, last: nat)
    requires WAL_HEADER_SIZE <= last < |log| && last < Pow256(8)
        && log[..WAL_HEADER_SIZE] == ToLE(last, WAL_HEADER_SIZE)
    ensures LastOffset(log) == Some(last)
  {
    FromToLE(last, WAL_HEADER_SIZE);
  }

  /** The records of a log are read one after the other, whatever comes after them. */
  lemma {:induction false} ParsePast(head: seq<Byte>, rs: seq<Record>, rest: seq<Byte>, n: nat, last: nat, at: nat)
    requires AllLoggable(rs) && n <= |rs| && |head| == WAL_HEADER_SIZE && EndOf(rs) <= last && EndOf(rs) <= at
    ensures AllLoggable(rs[..n])
    ensures
      var log, from := head + AllBytes(rs) + rest, EndOf(rs[..n]);
      && Parse(log, from, last) == rs[n..] + Parse(log, EndOf(rs), last)
      && (ReadsAt(log, from, last, at) <==> ReadsAt(log, EndOf(rs), last, at))
    decreases |rs| - n
  {
    hide RecordBytes, EntryBytes, RecordAt, Parse, AllBytes, ReadsAt;
    var log := head + AllBytes(rs) + rest;
    if n == |rs| {
      assert rs[..n] == rs && rs[n..] == [];
    } else {
      var r := rs[n];
      var more := SplitBytes(rs, n);
      assert rs[..n + 1] == rs[..n] + [r];
      AllBytesAppend(rs[..n], r);
      var before := head + AllBytes(rs[..n]);
      assert log == before + RecordBytes(r) + (more + rest);
      RecordIsAt(log, before, r, more + rest);
      ParseStep(log, |before|, last, r);
      ReadsStep(log, |before|, last, at, r);
      ParsePast(head, rs, rest, n + 1, last, at);
      assert [r] + rs[n + 1..] == rs[n..];
    }
  }

  lemma ReadsStep(log: seq<Byte>, offset: nat, last: nat, at: nat, r: Record)
    requires offset <= last && RecordAt(log, offset) == Some(r) && offset < at
    ensures ReadsAt(log, offset, last, at) <==> ReadsAt(log, offset + ENTRY_SIZE + |r.row|, last, at)
  {
  }

  /** What is read of a reopened log: its records, and what follows from where they end. */
  lemma ReopenedReads(rs: seq<Record>, tail: seq<Byte>, x: Record, at: nat)
    requires AllLoggable(rs) && Loggable(x) && |tail| <= ENTRY_SIZE + HEAP_PAYLOAD_SIZE && |rs| <= LSN_MAX
    requires EndOf(rs) <= at
    ensures
      var log, last := Reopened(rs, tail, x), EndOf(rs) + |tail|;
      && Records(log) == rs + Parse(log, EndOf(rs), last)
      && (IsRead(log, at) <==> ReadsAt(log, EndOf(rs), last, at))
  {
    hide RecordBytes, Parse, ReadsAt, ToLE, FromLE, AllBytes, Reopened, AllLoggable, LogFile;
    ReopenedIs(rs, tail, x);
    var last := EndOf(rs) + |tail|;
    NoBytes();
    assert rs[..0] == [] && rs[0..] == rs;
    ParsePast(ToLE(last, WAL_HEADER_SIZE), rs, tail + RecordBytes(x), 0, last, at);
  }

  lemma NoBytes()
    ensures AllLoggable([]) && EndOf([]) == WAL_HEADER_SIZE
  {
  }

  // ---------- what a torn record is taken for ----------

  /** The first n bytes of a record that did not all reach the file. */
  ghost predicate Torn(o: Record, n: nat)
    requires Loggable(o)
  {
    0 < n < |RecordBytes(o)|
  }

  /** A good log, a torn record, and the next session's first, which is put behind it. */
  ghost function TornLog(rs: seq<Record>, o: Record, n: nat, x: Record): seq<Byte>
    requires Orphaned(rs, o, x) && Torn(o, n)
  {
    Reopened(rs, RecordBytes(o)[..n], x)
  }

  /** The record that is read where the torn one starts, if any is. */
  ghost function Misread(rs: seq<Record>, o: Record, n: nat, x: Record): Option<Record>
    requires Orphaned(rs, o, x) && Torn(o, n)
  {
    RecordAt(TornLog(rs, o, n, x), EndOf(rs))
  }

  function Listing(y: Option<Record>): seq<Record> {
    match y case None => [] case Some(r) => [r]
  }

  lemma Bounds(rs: seq<Record>, o: Record, x: Record)
    requires Orphaned(rs, o, x)
    ensures AllLoggable(rs) && |rs| < LSN_MAX && |RecordBytes(o)| <= ENTRY_SIZE + HEAP_PAYLOAD_SIZE
    ensures |RecordBytes(o)| == ENTRY_SIZE + |o.row| && Loggable(o) && Loggable(x)
  {
  }

  /** The bytes from the end of the good records on. */
  lemma TornBytes(rs: seq<Record>, o: Record, n: nat, x: Record)
    requires Orphaned(rs, o, x) && Torn(o, n)
    ensures TornLog(rs, o, n, x)[EndOf(rs)..] == RecordBytes(o)[..n] + RecordBytes(x)
    ensures |TornLog(rs, o, n, x)| == EndOf(rs) + n + |RecordBytes(x)|
  {
    Bounds(rs, o, x);
    ReopenedIs(rs, RecordBytes(o)[..n], x);
    hide RecordBytes, AllBytes, ToLE, Reopened;
    var head := ToLE(EndOf(rs) + n, WAL_HEADER_SIZE);
    assert (head + AllBytes(rs) + (RecordBytes(o)[..n] + RecordBytes(x)))[EndOf(rs)..]
        == RecordBytes(o)[..n] + RecordBytes(x);
  }

  /** With its first 24 bytes there, a torn record is read with its own entry and what follows as its row. */
  lemma TornEntry(rs: seq<Record>, o: Record, n: nat, x: Record)
    requires Orphaned(rs, o, x) && Torn(o, n) && n >= ENTRY_SIZE
    ensures
      var row := RecordBytes(o)[ENTRY_SIZE..n] + RecordBytes(x);
      Misread(rs, o, n, x) == if |o.row| <= |row| then Some(Record(o.lsn, o.rid, row[..|o.row|])) else None
  {
    hide RecordBytes, EntryBytes, TornLog, Orphaned, GoodLog, Loggable, RecordAt;
    Bounds(rs, o, x);
    TornBytes(rs, o, n, x);
    EntryFirst(o, n);
    TailSplit(RecordBytes(o), n, RecordBytes(x));
    EntryRead(TornLog(rs, o, n, x), EndOf(rs), o, RecordBytes(o)[..n] + RecordBytes(x));
  }

  lemma TailSplit(b: seq<Byte>, n: nat, more: seq<Byte>)
    requires ENTRY_SIZE <= n <= |b|
    ensures (b[..n] + more)[..ENTRY_SIZE] == b[..n][..ENTRY_SIZE]
    ensures (b[..n] + more)[ENTRY_SIZE..] == b[ENTRY_SIZE..n] + more
  {
  }

  /** An entry is read with the bytes after it as its row. */
  lemma EntryRead(log: seq<Byte>, at: nat, o: Record, tail: seq<Byte>)
    requires Loggable(o) && at <= |log| && log[at..] == tail && |tail| >= ENTRY_SIZE
        && tail[..ENTRY_SIZE] == EntryBytes(o)
    ensures
      var row := tail[ENTRY_SIZE..];
      RecordAt(log, at) == if |o.row| <= |row| then Some(Record(o.lsn, o.rid, row[..|o.row|])) else None
  {
    hide EntryBytes, DecodeEntry;
    EntryRoundTrip(o);
    Aligned(log, at, tail, 0, ENTRY_SIZE);
    if |o.row| <= |tail| - ENTRY_SIZE {
      Aligned(log, at, tail, ENTRY_SIZE, ENTRY_SIZE + |o.row|);
      assert tail[ENTRY_SIZE..ENTRY_SIZE + |o.row|] == tail[ENTRY_SIZE..][..|o.row|];
    }
  }

  lemma EntryFirst(o: Record, n: nat)
    requires Loggable(o) && ENTRY_SIZE <= n <= |RecordBytes(o)|
    ensures RecordBytes(o)[..n][..ENTRY_SIZE] == EntryBytes(o)
  {
    hide EntryBytes;
  }

  lemma Aligned(log: seq<Byte>, at: nat, tail: seq<Byte>, i: nat, j: nat)
    requires at <= |log| && log[at..] == tail && i <= j <= |tail|
    ensures at + j <= |log| && log[at + i..at + j] == tail[i..j]
  {
    assert |tail| == |log| - at;
    forall k | 0 <= k < j - i ensures log[at + i..at + j][k] == tail[i..j][k] {
      assert log[at..][i + k] == log[at + i + k];
    }
  }

  /** Whatever is read of it, nothing is read behind it. */
  lemma TornEnds(rs: seq<Record>, o: Record, n: nat, x: Record)
    requires Orphaned(rs, o, x) && Torn(o, n)
    ensures Misread(rs, o, n, x).Some? ==> n < ENTRY_SIZE + |Misread(rs, o, n, x).value.row|
  {
    hide TornLog, Orphaned, RecordBytes, Misread, Loggable;
    Bounds(rs, o, x);
    assert n < |RecordBytes(o)| == ENTRY_SIZE + |o.row|;
    if n >= ENTRY_SIZE {
      TornEntry(rs, o, n, x);
    }
  }

  /** After the next commit replay reads the old records and at most one more, the misread one. */
  lemma TornReads(rs: seq<Record>, o: Record, n: nat, x: Record)
    requires Orphaned(rs, o, x) && Torn(o, n)
    ensures Records(TornLog(rs, o, n, x)) == rs + Listing(Misread(rs, o, n, x))
    ensures !IsRead(TornLog(rs, o, n, x), EndOf(rs) + n)
  {
    hide RecordBytes, AllBytes, RecordAt, Records, IsRead, Reopened, Orphaned, Loggable, AllLoggable;
    Bounds(rs, o, x);
    ReopenedReads(rs, RecordBytes(o)[..n], x, EndOf(rs) + n);
    TornEnds(rs, o, n, x);
    TornBytes(rs, o, n, x);
    OneRead(TornLog(rs, o, n, x), EndOf(rs), EndOf(rs) + n);
  }

  lemma OneRead(log: seq<Byte>, offset: nat, last: nat)
    requires offset < last && offset <= |log|
    requires RecordAt(log, offset).Some? ==> last < offset + ENTRY_SIZE + |RecordAt(log, offset).value.row|
    ensures Parse(log, offset, last) == Listing(RecordAt(log, offset))
    ensures !ReadsAt(log, offset, last, last)
  {
    if RecordAt(log, offset).Some? {
      RecordAtFits(log, offset);
      ParseStops(log, offset + ENTRY_SIZE + |RecordAt(log, offset).value.row|, last);
    }
  }

  /**
    Whatever part of a record a crash leaves behind the log: the record committed next is read where
    it starts if and only if none of it is there, or all of it.
   */
  lemma ReadWhereItStartsIff(rs: seq<Record>, o: Record, n: nat, x: Record)
    requires Orphaned(rs, o, x) && n <= |RecordBytes(o)|
    ensures AllLoggable(rs)
    ensures IsRead(Reopened(rs, RecordBytes(o)[..n], x), EndOf(rs) + n) <==> n == 0 || n == |RecordBytes(o)|
  {
    Bounds(rs, o, x);
    if 0 < n < |RecordBytes(o)| {
      TornReads(rs, o, n, x);
    } else {
      WholeIsRead(rs, o, n, x);
    }
  }

  lemma WholeIsRead(rs: seq<Record>, o: Record, n: nat, x: Record)
    requires Orphaned(rs, o, x) && (n == 0 || n == |RecordBytes(o)|) && AllLoggable(rs)
    ensures IsRead(Reopened(rs, RecordBytes(o)[..n], x), EndOf(rs) + n)
  {
    hide RecordBytes, AllBytes, ToLE, IsRead, Records, RecordAt, ReadsAt, Reopened, Parse, Orphaned, Loggable,
         AllLoggable;
    Bounds(rs, o, x);
    var tail, last := RecordBytes(o)[..n], EndOf(rs) + n;
    ReopenedReads(rs, tail, x, last);
    ReopenedIs(rs, tail, x);
    var log, before := Reopened(rs, tail, x), ToLE(last, WAL_HEADER_SIZE) + AllBytes(rs);
    NextIsRead(log, before, tail, x);
    if n > 0 {
      assert tail == RecordBytes(o);
      assert log == before + RecordBytes(o) + RecordBytes(x);
      RecordIsAt(log, before, o, RecordBytes(x));
      ReadsStep(log, EndOf(rs), last, last, o);
    }
  }

  lemma NextIsRead(log: seq<Byte>, before: seq<Byte>, tail: seq<Byte>, x: Record)
    requires Loggable(x) && log == before + (tail + RecordBytes(x))
    ensures ReadsAt(log, |before| + |tail|, |before| + |tail|, |before| + |tail|)
  {
    hide RecordBytes, RecordAt, ReadsAt;
    assert log == before + tail + RecordBytes(x) + [];
    RecordIsAt(log, before + tail, x, []);
    ReadsHere(log, |before| + |tail|);
  }

  lemma ReadsHere(log: seq<Byte>, at: nat)
    requires at <= |log| && RecordAt(log, at).Some?
    ensures ReadsAt(log, at, at, at)
  {
  }

  // ---------- what replay makes of it ----------

  /** On its page, x's row is where it belongs. */
  ghost predicate Back(heap: Heap, x: Record)
    requires HeapTotal(heap) && Fits(x)
  {
    heap[x.rid.pid].data[x.rid.slot.offset..x.rid.slot.offset + |x.row|] == x.row
  }

  /** The page of x held its bytes before x was ever written. */
  ghost predicate WasThere(base: Base, rs: seq<Record>, x: Record)
    requires BaseTotal(base) && AllFit(rs) && Fits(x)
  {
    DataAfter(base[x.rid.pid], rs, x.rid.pid)[x.rid.slot.offset..x.rid.slot.offset + |x.row|] == x.row
  }

  /**
    A crash after x is in the log but before its page is written, with a torn record before x: replay
    fails for a misread page below zero; and it brings x back exactly when the page held x's bytes
    already, or the misread record is one for this page, newer than it, and leaves them there.
   */
  lemma TornLosesIff(heap: Heap, base: Base, rs: seq<Record>, o: Record, n: nat, x: Record)
    requires Orphaned(rs, o, x) && Torn(o, n) && BaseTotal(base) && AllFit(rs) && Consistent(heap, base, rs)
    ensures AllFit(Records(TornLog(rs, o, n, x))) && Fits(x)
        && (Misread(rs, o, n, x).Some? ==> Fits(Misread(rs, o, n, x).value))
    ensures
      var y := Misread(rs, o, n, x);
      var (heap', ok) := ReplayAll(Records(TornLog(rs, o, n, x)), heap);
      && (ok <==> !(y.Some? && y.value.rid.pid < 0))
      && (Back(heap', x) <==>
            if y.Some? && y.value.rid.pid == x.rid.pid && ReplayAll(rs, heap).0[x.rid.pid].lsn < y.value.lsn
            then OrphanAt(base, rs, y.value, x) == x.row else WasThere(base, rs, x))
  {
    RecordsFit(TornLog(rs, o, n, x));
    TornReads(rs, o, n, x);
    OrphanPages(rs, o, x);
    RedoComplete(heap, base, rs);
    var y := Misread(rs, o, n, x);
    if y.Some? {
      RecordAtFits(TornLog(rs, o, n, x), EndOf(rs));
    }
    hide GoodLog, Consistent, ReplayAll, DataAfter, Orphaned, RedoPage, TornLog, RecordAt, Records, RecordBytes,
         AllBytes;
    ReplayTwoParts(rs, Listing(y), heap);
    ReplayLast(ReplayAll(rs, heap).0, y, x);
  }

  /** Replay of at most one record more. */
  lemma ReplayLast(h: Heap, y: Option<Record>, x: Record)
    requires HeapTotal(h) && (y.Some? ==> Fits(y.value)) && x.rid.pid >= 0
    ensures AllFit(Listing(y))
    ensures
      var (h', ok) := ReplayAll(Listing(y), h);
      && (ok <==> !(y.Some? && y.value.rid.pid < 0))
      && h'[x.rid.pid] ==
           (if y.Some? && y.value.rid.pid == x.rid.pid then RedoPage(h[x.rid.pid], y.value) else h[x.rid.pid])
  {
    if y.Some? {
      assert [y.value][1..] == [];
    }
  }

  lemma NewerThan(heap: Heap, base: Base, rs: seq<Record>, o: Record, x: Record)
    requires Orphaned(rs, o, x) && BaseTotal(base) && AllFit(rs) && Consistent(heap, base, rs)
    ensures ReplayAll(rs, heap).0[x.rid.pid].lsn < o.lsn && Fits(o) && Fits(x)
  {
    RedoComplete(heap, base, rs);
    hide Consistent, ReplayAll, DataAfter;
    OrphanPages(rs, o, x);
  }

  /** With its entry there, a torn record of another page, or one too short to be read, loses x for good. */
  lemma TornElsewhere(heap: Heap, base: Base, rs: seq<Record>, o: Record, n: nat, x: Record)
    requires Orphaned(rs, o, x) && Torn(o, n) && BaseTotal(base) && AllFit(rs) && Consistent(heap, base, rs)
    requires n >= ENTRY_SIZE && (o.rid.pid != x.rid.pid || n + |RecordBytes(x)| < |RecordBytes(o)|)
    ensures AllFit(Records(TornLog(rs, o, n, x))) && Fits(x)
    ensures Back(ReplayAll(Records(TornLog(rs, o, n, x)), heap).0, x) <==> WasThere(base, rs, x)
  {
    TornLosesIff(heap, base, rs, o, n, x);
    TornEntry(rs, o, n, x);
    Bounds(rs, o, x);
  }

  /**
    With its entry there and on the page of x, where both rows end at one offset: x comes back exactly
    when the row it is misread with ends with x's, or x's ends with that and the page held the rest.
   */
  lemma TornEndsIff(heap: Heap, base: Base, rs: seq<Record>, o: Record, n: nat, x: Record)
    requires Orphaned(rs, o, x) && Torn(o, n) && BaseTotal(base) && AllFit(rs) && Consistent(heap, base, rs)
    requires n >= ENTRY_SIZE && n + |RecordBytes(x)| >= |RecordBytes(o)|
    requires o.rid.pid == x.rid.pid && o.rid.slot.offset + |o.row| == x.rid.slot.offset + |x.row|
    ensures AllFit(Records(TornLog(rs, o, n, x))) && Fits(x)
        && |o.row| <= |RecordBytes(o)[ENTRY_SIZE..n] + RecordBytes(x)|
    ensures
      var row := (RecordBytes(o)[ENTRY_SIZE..n] + RecordBytes(x))[..|o.row|];
      var before := DataAfter(base[x.rid.pid], rs, x.rid.pid);
      Back(ReplayAll(Records(TornLog(rs, o, n, x)), heap).0, x) <==>
        if |x.row| <= |row| then EndsWith(row, x.row)
        else EndsWith(x.row, row) && before[x.rid.slot.offset..o.rid.slot.offset] == x.row[..|x.row| - |row|]
  {
    TornLosesIff(heap, base, rs, o, n, x);
    TornEntry(rs, o, n, x);
    Bounds(rs, o, x);
    NewerThan(heap, base, rs, o, x);
    hide GoodLog, Consistent, ReplayAll, DataAfter, Orphaned, TornLog, Records, RecordBytes, Misread, EndsWith,
         Loggable;
    var row := (RecordBytes(o)[ENTRY_SIZE..n] + RecordBytes(x))[..|o.row|];
    EndOverwritten(DataAfter(base[x.rid.pid], rs, x.rid.pid), o.rid.slot.offset, row, x.rid.slot.offset, x.row);
  }

  /** A torn record of page 1, and the next one committed, on a page 0 of zeros: its row is lost. */
  lemma TornLosesARow(heap: Heap, base: Base)
    requires BaseTotal(base) && Consistent(heap, base, []) && base[0].data[HEAP_PAYLOAD_SIZE - 4..] == [0, 0, 0, 0]
    ensures
      var slot := Slot(4, HEAP_PAYLOAD_SIZE - 4, false);
      var o, x := Record(1, RID(1, slot), [1, 0, 0, 0]), Record(1, RID(0, slot), [2, 0, 0, 0]);
      && Orphaned([], o, x) && Torn(o, 25) && AllFit(Records(TornLog([], o, 25, x)))
      && !Back(ReplayAll(Records(TornLog([], o, 25, x)), heap).0, x)
  {
    var slot := Slot(4, HEAP_PAYLOAD_SIZE - 4, false);
    var o, x := Record(1, RID(1, slot), [1, 0, 0, 0]), Record(1, RID(0, slot), [2, 0, 0, 0]);
    Widths();
    Bounds([], o, x);
    hide RecordBytes, Consistent, ReplayAll, Records, TornLog;
    TornElsewhere(heap, base, [], o, 25, x);
    assert base[0].data[HEAP_PAYLOAD_SIZE - 4..HEAP_PAYLOAD_SIZE - 4 + 4] == base[0].data[HEAP_PAYLOAD_SIZE - 4..];
  }
}
