/**
  What the log does not protect. A crash between a record and the header leaves an orphan
  after the log's last record, which the next session numbers its first record after; and redo
  restores a row's bytes but not the slot that names them; and two inserts into one page at a
  time let the second one's commit write out the first one's row before it is logged.
 */
module LogTails {
  import opened StorageTypes
  import opened Bytes
  import opened HeapRows
  import opened HeapSpec
  import opened LogFormat
  import opened Redo
  import opened Recovery
  import opened Wals

  /** A good log, the orphan after it and the first record of the next session: both carry the next number. */
  ghost predicate Orphaned(rs: seq<Record>, o: Record, x: Record) {
    GoodLog(rs) && Loggable(o) && Loggable(x) && o.lsn == x.lsn == |rs| + 1
  }

  lemma OrphanedFits(rs: seq<Record>, o: Record, x: Record)
    requires Orphaned(rs, o, x)
    ensures AllFit(rs) && AllFit(rs + [o, x])
  {
    GoodLogFits(rs);
  }

  /**
    Reopening without dropping the orphan continues from the number before it, and a commit then
    puts the orphan into the log.
   */
  lemma OrphanIsAdopted(rs: seq<Record>, o: Record, x: Record)
    requires Orphaned(rs, o, x)
    ensures
      var log := LogFile(rs, RecordBytes(o));
      && LastLsn(log) == |rs| && |log| >= WAL_HEADER_SIZE
      && Records(WithHeader(log + RecordBytes(x), |log|)) == rs + [o, x]
  {
    LastLsnCounts(rs, RecordBytes(o));
    OrphanedAllLoggable(rs, o, x);
    AppendedLog(rs + [o], x);
    TwoLogged(rs, o, x);
    OrphanBytes(rs, o);
    hide RecordBytes, LogFile, Records, WithHeader, LastLsn;
    HeaderOnly(LogFile(rs, RecordBytes(o)), LogFile(rs + [o], []), RecordBytes(x));
  }

  /** A log with an orphan differs from one with the orphan logged in its header only. */
  lemma OrphanBytes(rs: seq<Record>, o: Record)
    requires AllLoggable(rs) && AllLoggable(rs + [o]) && Loggable(o)
    ensures
      var a, b := LogFile(rs, RecordBytes(o)), LogFile(rs + [o], []);
      |a| == |b| >= WAL_HEADER_SIZE && a[WAL_HEADER_SIZE..] == b[WAL_HEADER_SIZE..]
  {
    AllBytesAppend(rs, o);
    hide RecordBytes, AllBytes, ToLE, LastStart, AllLoggable, Loggable;
    AfterHead(ToLE(LastStart(rs), WAL_HEADER_SIZE), AllBytes(rs), RecordBytes(o));
    AfterHead(ToLE(LastStart(rs + [o]), WAL_HEADER_SIZE), AllBytes(rs + [o]), []);
  }

  lemma AfterHead(head: seq<Byte>, body: seq<Byte>, tail: seq<Byte>)
    requires |head| == WAL_HEADER_SIZE
    ensures (head + body + tail)[WAL_HEADER_SIZE..] == body + tail
    ensures body + [] == body
  {
  }

  /** What the header said before it is written over does not matter. */
  lemma HeaderOnly(a: seq<Byte>, b: seq<Byte>, more: seq<Byte>)
    requires |a| == |b| >= WAL_HEADER_SIZE && a[WAL_HEADER_SIZE..] == b[WAL_HEADER_SIZE..]
    ensures WithHeader(a + more, |a|) == WithHeader(b + more, |b|)
  {
    assert (a + more)[WAL_HEADER_SIZE..] == a[WAL_HEADER_SIZE..] + more;
    assert (b + more)[WAL_HEADER_SIZE..] == b[WAL_HEADER_SIZE..] + more;
  }

  lemma OrphanedAllLoggable(rs: seq<Record>, o: Record, x: Record)
    requires Orphaned(rs, o, x)
    ensures AllLoggable(rs + [o]) && AllLoggable(rs + [o, x]) && rs + [o] + [x] == rs + [o, x]
  {
  }

  lemma TwoLogged(rs: seq<Record>, o: Record, x: Record)
    requires Orphaned(rs, o, x) && AllLoggable(rs + [o, x])
    ensures Records(LogFile(rs + [o, x], [])) == rs + [o, x]
  {
    assert AllLoggable(rs + [o]) && rs + [o] + [x] == rs + [o, x];
    AllBytesAppend(rs + [o], x);
    LogBounded(rs + [o]);
    Widths();
    hide RecordBytes, AllBytes, LogFile, Records;
    LogRoundTrip(rs + [o, x], []);
  }

  lemma {:induction false} ReplayTwoParts(a: seq<Record>, b: seq<Record>, heap: Heap)
    requires HeapTotal(heap) && AllFit(a) && AllFit(b) && ReplayAll(a, heap).1
    ensures AllFit(a + b) && ReplayAll(a + b, heap) == ReplayAll(b, ReplayAll(a, heap).0)
  {
    if a == [] {
      assert a + b == b;
    } else {
      assert (a + b)[0] == a[0] && (a + b)[1..] == a[1..] + b;
      ReplayTwoParts(a[1..], b, heap[a[0].rid.pid := RedoPage(heap[a[0].rid.pid], a[0])]);
    }
  }

  /** What the orphan leaves at the place of x. */
  ghost function OrphanAt(base: Base, rs: seq<Record>, o: Record, x: Record): seq<Byte>
    requires BaseTotal(base) && AllFit(rs) && Fits(o) && Fits(x)
  {
    Overwrite(DataAfter(base[x.rid.pid], rs, x.rid.pid), o.rid.slot.offset,
        o.row)[x.rid.slot.offset..x.rid.slot.offset + |x.row|]
  }

  /**
    A crash after x is in the log but before its page is written: replay brings x back exactly
    when the orphan belongs to another page, or happens to leave x's own bytes there.
   */
  lemma OrphanLosesIff(heap: Heap, base: Base, rs: seq<Record>, o: Record, x: Record)
    requires Orphaned(rs, o, x) && BaseTotal(base) && AllFit(rs) && Consistent(heap, base, rs)
    ensures AllFit(rs + [o, x]) && Fits(o) && Fits(x)
    ensures
      var (heap', ok) := ReplayAll(rs + [o, x], heap);
      && ok
      && (heap'[x.rid.pid].data[x.rid.slot.offset..x.rid.slot.offset + |x.row|] == x.row <==>
            o.rid.pid != x.rid.pid || OrphanAt(base, rs, o, x) == x.row)
  {
    OrphanedFits(rs, o, x);
    RedoComplete(heap, base, rs);
    OrphanPages(rs, o, x);
    hide GoodLog, Consistent, ReplayAll, DataAfter, Orphaned, RedoPage;
    var h := ReplayAll(rs, heap).0;
    ReplayTwoParts(rs, [o, x], heap);
    ReplayBoth(o, x, h);
    OrphanFirst(h[x.rid.pid], o, x);
  }

  lemma OrphanPages(rs: seq<Record>, o: Record, x: Record)
    requires Orphaned(rs, o, x)
    ensures Fits(o) && Fits(x) && o.rid.pid >= 0 && x.rid.pid >= 0 && o.lsn == x.lsn == |rs| + 1 && AllFit([o, x])
  {
  }

  lemma ReplayBoth(o: Record, x: Record, h: Heap)
    requires HeapTotal(h) && Fits(o) && Fits(x) && AllFit([o, x]) && o.rid.pid >= 0 && x.rid.pid >= 0
    ensures ReplayAll([o, x], h).1
    ensures ReplayAll([o, x], h).0[x.rid.pid]
        == RedoPage(if o.rid.pid == x.rid.pid then RedoPage(h[x.rid.pid], o) else h[x.rid.pid], x)
  {
    var h1 := h[o.rid.pid := RedoPage(h[o.rid.pid], o)];
    assert HeapTotal(h1) && [o] + [x] == [o, x] && [x] + [] == [x];
    hide RedoPage;
    ReplayOne(o, [x], h);
    ReplayOne(x, [], h1);
  }

  /** On a page older than both, the orphan is redone and the record with its number is not. */
  lemma OrphanFirst(h: HeapImage, o: Record, x: Record)
    requires HeapSized(h) && Fits(o) && Fits(x) && h.lsn < o.lsn == x.lsn
    ensures RedoPage(RedoPage(h, o), x).data == Overwrite(h.data, o.rid.slot.offset, o.row)
    ensures RedoPage(h, x).data[x.rid.slot.offset..x.rid.slot.offset + |x.row|] == x.row
  {
  }

  predicate EndsWith(s: seq<Byte>, end: seq<Byte>) {
    |end| <= |s| && s[|s| - |end|..] == end
  }

  /**
    On one page both rows end at one offset, as the slot of the orphan is forgotten. A record no
    longer than the orphan comes back exactly when the orphan's row ends with its own; a longer one
    exactly when it ends with the orphan's row and the page held the rest of it anyway.
   */
  lemma OrphanEndsIff(heap: Heap, base: Base, rs: seq<Record>, o: Record, x: Record)
    requires Orphaned(rs, o, x) && BaseTotal(base) && AllFit(rs) && Consistent(heap, base, rs)
    requires o.rid.pid == x.rid.pid && o.rid.slot.offset + |o.row| == x.rid.slot.offset + |x.row|
    ensures AllFit(rs + [o, x]) && Fits(x)
    ensures
      var data := ReplayAll(rs + [o, x], heap).0[x.rid.pid].data;
      var before := DataAfter(base[x.rid.pid], rs, x.rid.pid);
      data[x.rid.slot.offset..x.rid.slot.offset + |x.row|] == x.row <==>
        if |x.row| <= |o.row| then EndsWith(o.row, x.row)
        else EndsWith(x.row, o.row) && before[x.rid.slot.offset..o.rid.slot.offset] == x.row[..|x.row| - |o.row|]
  {
    OrphanLosesIff(heap, base, rs, o, x);
    hide ReplayAll, DataAfter, Orphaned, Consistent;
    EndOverwritten(DataAfter(base[x.rid.pid], rs, x.rid.pid), o.rid.slot.offset, o.row, x.rid.slot.offset, x.row);
  }

  /** What is read from a place of the same end as the one written. */
  lemma EndOverwritten(d: seq<Byte>, at: nat, a: seq<Byte>, below: nat, b: seq<Byte>)
    requires at + |a| == below + |b| <= |d|
    ensures Overwrite(d, at, a)[below..below + |b|] == b <==>
      if |b| <= |a| then EndsWith(a, b) else EndsWith(b, a) && d[below..at] == b[..|b| - |a|]
  {
    var r := Overwrite(d, at, a);
    assert r[at..at + |a|] == a;
    if |b| <= |a| {
      assert r[below..below + |b|] == r[at..at + |a|][|a| - |b|..];
    } else {
      assert r[below..at] == d[below..at];
      assert r[below..below + |b|] == d[below..at] + a;
      assert b == b[..|b| - |a|] + b[|b| - |a|..];
    }
  }

  lemma ReplayOne(r: Record, rest: seq<Record>, heap: Heap)
    requires HeapTotal(heap) && Fits(r) && AllFit(rest) && r.rid.pid >= 0
    ensures AllFit([r] + rest)
    ensures ReplayAll([r] + rest, heap) == ReplayAll(rest, heap[r.rid.pid := RedoPage(heap[r.rid.pid], r)])
  {
    assert ([r] + rest)[1..] == rest;
  }

  /** An orphan and a record for the same place, with different bytes: the logged row is lost. */
  lemma OrphanLosesARow(heap: Heap, base: Base)
    requires BaseTotal(base) && Consistent(heap, base, [])
    ensures
      var slot := Slot(4, HEAP_PAYLOAD_SIZE - 4, false);
      var o, x := Record(1, RID(0, slot), [1, 0, 0, 0]), Record(1, RID(0, slot), [2, 0, 0, 0]);
      && Orphaned([], o, x) && AllFit([o, x])
      && ReplayAll([o, x], heap).0[0].data[HEAP_PAYLOAD_SIZE - 4..] == o.row != x.row
  {
    var slot := Slot(4, HEAP_PAYLOAD_SIZE - 4, false);
    var o, x := Record(1, RID(0, slot), [1, 0, 0, 0]), Record(1, RID(0, slot), [2, 0, 0, 0]);
    Widths();
    assert PageConsistent(heap[0], base[0], [], 0);
    var h1 := heap[0 := RedoPage(heap[0], o)];
    ReplayOne(o, [x], heap);
    ReplayOne(x, [], h1);
    assert [o] + [x] == [o, x] && [x] + [] == [x];
  }

  /**
    Redo of a row that never reached its page gives back the payload but not the slot: the page
    still lists only the rows before it, and the next row to be accepted ends where it ends.
   */
  lemma RedoForgetsSlot(h: HeapImage, rows: seq<Row>, row: Row, r: Record, next: Row)
    requires Packed(h, rows) && StorableRow(row) && StorableRow(next)
    requires WriteRow(h, row).1 == Success(r.rid.slot) && r.row == RowBytes(row) && h.lsn < r.lsn <= LSN_MAX
    ensures
      Fits(r) && var g := RedoPage(h, r);
      && g.data == WriteRow(h, row).0.data
      && Packed(g, rows)
      && (WriteRow(g, next).1.Success? ==>
            var s := WriteRow(g, next).1.value;
            s.offset + s.size == r.rid.slot.offset + r.rid.slot.size)
  {
    var g := RedoPage(h, r);
    forall i | 0 <= i < |rows| ensures SlotHolds(g, rows, i) {
      RegionsTile(h, rows, i);
      hide Packed, WriteRow;
      SlotKept(h, rows, i, r);
    }
  }

  /**
    When a redone row outlives the next accepted one, which ends where it ends: a next row that is no
    longer must be the end of its bytes, and a longer one must end with them.
   */
  lemma RedoneSurvivesIff(h: HeapImage, rows: seq<Row>, row: Row, r: Record, next: Row)
    requires Packed(h, rows) && StorableRow(row) && StorableRow(next)
    requires WriteRow(h, row).1 == Success(r.rid.slot) && r.row == RowBytes(row) && h.lsn < r.lsn <= LSN_MAX
    ensures
      Fits(r) && Packed(RedoPage(h, r), rows) &&
      var (after, slot) := WriteRow(RedoPage(h, r), next);
      slot.Success? ==>
        (after.data[r.rid.slot.offset..r.rid.slot.offset + |r.row|] == r.row <==>
           if |r.row| <= |RowBytes(next)| then EndsWith(RowBytes(next), r.row) else EndsWith(r.row, RowBytes(next)))
  {
    RedoForgetsSlot(h, rows, row, r, next);
    AcceptedBytes(h, row);
    RedoneBytes(h, r);
    hide WriteRow, Packed, RedoPage, RowBytes, EndsWith;
    if WriteRow(RedoPage(h, r), next).1.Success? {
      NextOver(RedoPage(h, r), r, next);
    }
  }

  lemma NextOver(g: HeapImage, r: Record, next: Row)
    requires HeapReadable(g) && StorableRow(next) && Fits(r) && WriteRow(g, next).1.Success?
    requires g.data[r.rid.slot.offset..r.rid.slot.offset + |r.row|] == r.row
    requires
      var s := WriteRow(g, next).1.value;
      s.offset + s.size == r.rid.slot.offset + |r.row|
    ensures
      WriteRow(g, next).0.data[r.rid.slot.offset..r.rid.slot.offset + |r.row|] == r.row <==>
        if |r.row| <= |RowBytes(next)| then EndsWith(RowBytes(next), r.row) else EndsWith(r.row, RowBytes(next))
  {
    AcceptedBytes(g, next);
    hide WriteRow, RowBytes, EndsWith, HeapReadable;
    EndOver(g.data, WriteRow(g, next).1.value.offset, RowBytes(next), r.rid.slot.offset, r.row);
  }

  lemma EndOver(d: seq<Byte>, at: nat, a: seq<Byte>, below: nat, b: seq<Byte>)
    requires at + |a| == below + |b| <= |d| && d[below..below + |b|] == b
    ensures Overwrite(d, at, a)[below..below + |b|] == b <==> if |b| <= |a| then EndsWith(a, b) else EndsWith(b, a)
  {
    EndOverwritten(d, at, a, below, b);
    hide EndsWith, Overwrite;
    if |a| < |b| {
      assert d[below..at] == d[below..below + |b|][..|b| - |a|];
    }
  }

  lemma RedoneBytes(h: HeapImage, r: Record)
    requires HeapSized(h) && Fits(r) && h.lsn < r.lsn
    ensures RedoPage(h, r).data[r.rid.slot.offset..r.rid.slot.offset + |r.row|] == r.row
  {
  }

  lemma AcceptedBytes(h: HeapImage, row: Row)
    requires HeapReadable(h) && StorableRow(row) && WriteRow(h, row).1.Success?
    ensures
      var s := WriteRow(h, row).1.value;
      && s.size == |RowBytes(row)| && s.offset + |RowBytes(row)| <= HEAP_PAYLOAD_SIZE
      && WriteRow(h, row).0.data == Overwrite(h.data, s.offset, RowBytes(row))
  {
  }

  /** Two rows of one integer each: the redone one is lost to the next unless they are equal. */
  lemma RedoneRowIsLost(h: HeapImage, rows: seq<Row>, r: Record, a: int, b: int)
    requires Packed(h, rows) && Int32(a) && Int32(b) && a != b && h.lsn < r.lsn <= LSN_MAX
    requires WriteRow(h, [Integer(a)]).1 == Success(r.rid.slot) && r.row == RowBytes([Integer(a)])
    ensures Fits(r) && Packed(RedoPage(h, r), rows) && WriteRow(RedoPage(h, r), [Integer(b)]).1.Success?
    ensures WriteRow(RedoPage(h, r), [Integer(b)]).0.data[r.rid.slot.offset..r.rid.slot.offset + |r.row|] != r.row
  {
    RedoForgetsSlot(h, rows, [Integer(a)], r, [Integer(b)]);
    IntegerRows(a, b);
    AcceptedIff(h, [Integer(a)]);
    AcceptedIff(RedoPage(h, r), [Integer(b)]);
    RedoneSurvivesIff(h, rows, [Integer(a)], r, [Integer(b)]);
  }

  lemma IntegerRows(a: int, b: int)
    requires Int32(a) && Int32(b) && a != b
    ensures StorableRow([Integer(a)]) && StorableRow([Integer(b)])
    ensures |RowBytes([Integer(a)])| == 4 == |RowBytes([Integer(b)])|
        && RowBytes([Integer(a)]) != RowBytes([Integer(b)])
  {
    Int32RoundTrip(a);
    Int32RoundTrip(b);
    assert [Integer(a)][1..] == [] && [Integer(b)][1..] == [];
    assert RowBytes([Integer(a)]) == Int32ToBytes(a) && RowBytes([Integer(b)]) == Int32ToBytes(b);
  }

  lemma SlotKept(h: HeapImage, rows: seq<Row>, i: nat, r: Record)
    requires HeapSized(h) && StorableRows(rows) && i < |rows| <= MAX_SLOTS && SlotHolds(h, rows, i) && Fits(r)
    requires r.rid.slot.offset + |r.row| <= h.slots[i].offset
    ensures HeapSized(RedoPage(h, r)) && SlotHolds(RedoPage(h, r), rows, i)
  {
    var s := h.slots[i];
    assert RedoPage(h, r).data[s.offset..s.offset + s.size] == h.data[s.offset..s.offset + s.size];
  }

  /**
    Two pieces written, the second before the first: it is as if only the second had been, exactly
    when the first was there already.
   */
  lemma FirstLeavesNothingIff(d: seq<Byte>, at: nat, a: seq<Byte>, below: nat, b: seq<Byte>)
    requires at + |a| <= |d| && below + |b| <= at
    ensures Overwrite(Overwrite(d, at, a), below, b) == Overwrite(d, below, b) <==> d[at..at + |a|] == a
  {
    var both, one := Overwrite(Overwrite(d, at, a), below, b), Overwrite(d, below, b);
    assert both[at..at + |a|] == a by {
      forall i | at <= i < at + |a| ensures both[i] == a[i - at] {
        assert Overwrite(d, at, a)[i] == Overwrite(d, at, a)[at..at + |a|][i - at];
      }
    }
    assert one[at..at + |a|] == d[at..at + |a|];
    if d[at..at + |a|] == a {
      assert Overwrite(d, at, a) == d[..at] + d[at..at + |a|] + d[at + |a|..] == d;
    }
  }

  /**
    Row a is in the page but not in the log when row b, next to it, is committed: the page
    written out is then the image of the log's records only if a's bytes were there anyway.
   */
  lemma InterleavedInsertsIff(h: HeapImage, base: PageBase, rs: seq<Record>, pid: int, a: Row, b: Row)
    requires |base.data| == HEAP_PAYLOAD_SIZE && AllFit(rs) && |rs| < LSN_MAX
    requires PageConsistent(h, base, rs, pid) && PageComplete(h, base, rs, pid)
    requires StorableRow(a) && StorableRow(b) && WriteRow(h, a).1.Success? && HeapReadable(WriteRow(h, a).0)
    requires WriteRow(WriteRow(h, a).0, b).1.Success?
    ensures
      var first := WriteRow(h, a);
      var (after, slot) := WriteRow(first.0, b);
      var rec := Record(|rs| + 1, RID(pid, slot.value), RowBytes(b));
      && Fits(rec) && AllFit(rs + [rec])
      && (PageConsistent(after.(lsn := |rs| + 1), base, rs + [rec], pid) <==>
            h.data[first.1.value.offset..first.1.value.offset + first.1.value.size] == RowBytes(a))
  {
    var first := WriteRow(h, a);
    var (after, slot) := WriteRow(first.0, b);
    var rec := Record(|rs| + 1, RID(pid, slot.value), RowBytes(b));
    var rs' := rs + [rec];
    TwoLaid(h, a, b);
    AcceptedIff(first.0, b);
    WriteTightens(h, a);
    WriteTightens(first.0, b);
    hide WriteRow, Tightens, Spares;
    TightensSpares(h, first.0, 0, base);
    TightensSpares(first.0, after, |rs| + 1, base);
    DataAfterLast(base, rs, rec);
    assert rs'[..|rs| + 1] == rs';
    FirstLeavesNothingIff(h.data, first.1.value.offset, RowBytes(a), slot.value.offset, RowBytes(b));
  }

  /** Two accepted rows lie next to each other, the second below the first, and nothing else of the payload changes. */
  lemma TwoLaid(h: HeapImage, a: Row, b: Row)
    requires HeapReadable(h) && StorableRow(a) && StorableRow(b) && WriteRow(h, a).1.Success?
    requires HeapReadable(WriteRow(h, a).0) && WriteRow(WriteRow(h, a).0, b).1.Success?
    ensures
      var (first, s) := WriteRow(h, a);
      var (second, t) := WriteRow(first, b);
      && s.value.size == |RowBytes(a)| && s.value.offset + |RowBytes(a)| <= HEAP_PAYLOAD_SIZE
      && t.value.size == |RowBytes(b)| && t.value.offset + |RowBytes(b)| == s.value.offset
      && second.data == Overwrite(Overwrite(h.data, s.value.offset, RowBytes(a)), t.value.offset, RowBytes(b))
  {
  }
}
