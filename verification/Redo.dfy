/**
  Redo as a fold of log records over heap pages, and what it restores: every page comes out
  as its base contents overwritten by all of its logged rows.
 */
module Redo {
  import opened StorageTypes
  import opened HeapSpec
  import opened LogFormat

  type Heap = imap<int, HeapImage>

  ghost predicate HeapTotal(heap: Heap) {
    forall p: int :: p in heap && HeapSized(heap[p])
  }

  /** A record that passed the checks of replay. */
  ghost predicate Fits(r: Record) {
    r.lsn <= LSN_MAX && r.rid.slot.offset + |r.row| <= HEAP_PAYLOAD_SIZE
  }

  ghost predicate AllFit(rs: seq<Record>) {
    forall i :: 0 <= i < |rs| ==> Fits(rs[i])
  }

  /** Redo of one record on its page: only if the page is older. */
  function RedoPage(h: HeapImage, r: Record): HeapImage
    requires HeapSized(h) && Fits(r)
  {
    if h.lsn < r.lsn then h.(data := Overwrite(h.data, r.rid.slot.offset, r.row), lsn := r.lsn) else h
  }

  /**
    A page with the record's number or a later one stays as it is; an older one gets the row's
    bytes and the number.
   */
  lemma RedoneIff(h: HeapImage, r: Record)
    requires HeapSized(h) && Fits(r)
    ensures
      var g, at := RedoPage(h, r), r.rid.slot.offset;
      && (h.lsn >= r.lsn ==> g == h)
      && (h.lsn < r.lsn ==>
            && g == h.(data := g.data, lsn := r.lsn) && |g.data| == |h.data|
            && forall i :: 0 <= i < |h.data| ==>
                 g.data[i] == if at <= i < at + |r.row| then r.row[i - at] else h.data[i])
  {
    if h.lsn < r.lsn {
      var g, at := RedoPage(h, r), r.rid.slot.offset;
      forall i | at <= i < at + |r.row| ensures g.data[i] == r.row[i - at] {
        assert g.data[at..at + |r.row|][i - at] == r.row[i - at];
      }
    }
  }

  /** Replay of records in log order; it gives up at a negative page id, which the pool refuses. */
  ghost function ReplayAll(rs: seq<Record>, heap: Heap): (out: (Heap, bool))
    requires HeapTotal(heap) && AllFit(rs)
    ensures HeapTotal(out.0)
  {
    if rs == [] then (heap, true)
    else if rs[0].rid.pid < 0 then (heap, false)
    else ReplayAll(rs[1..], heap[rs[0].rid.pid := RedoPage(heap[rs[0].rid.pid], rs[0])])
  }

  ghost predicate PagesValid(rs: seq<Record>) {
    forall i :: 0 <= i < |rs| ==> rs[i].rid.pid >= 0
  }

  /** Whatever the log's bytes, the records replay reads fit the payload. */
  lemma {:induction false} ParseFits(log: seq<Byte>, offset: nat, last: nat)
    ensures AllFit(Parse(log, offset, last))
    decreases |log| - offset
  {
    if offset <= last && offset <= |log| && RecordAt(log, offset).Some? {
      RecordAtFits(log, offset);
      var r := RecordAt(log, offset).value;
      ParseFits(log, offset + ENTRY_SIZE + |r.row|, last);
    }
  }

  lemma RecordsFit(log: seq<Byte>)
    ensures AllFit(Records(log))
  {
    match LastOffset(log)
    case None =>
    case Some(last) => ParseFits(log, WAL_HEADER_SIZE, last);
  }

  // ---------- replay is monotone and idempotent, on any records ----------

  lemma {:induction false} ReplayMonotone(rs: seq<Record>, heap: Heap, p: int)
    requires HeapTotal(heap) && AllFit(rs)
    ensures heap[p].lsn <= ReplayAll(rs, heap).0[p].lsn
    ensures PagesValid(rs) ==> ReplayAll(rs, heap).1
  {
    if rs != [] && rs[0].rid.pid >= 0 {
      ReplayMonotone(rs[1..], heap[rs[0].rid.pid := RedoPage(heap[rs[0].rid.pid], rs[0])], p);
    }
  }

  /** No record is newer than its page. */
  ghost predicate Covers(heap: Heap, rs: seq<Record>)
    requires HeapTotal(heap)
  {
    forall i :: 0 <= i < |rs| ==> rs[i].rid.pid >= 0 && rs[i].lsn <= heap[rs[i].rid.pid].lsn
  }

  lemma {:induction false} CoveredReplayIsNothing(rs: seq<Record>, heap: Heap)
    requires HeapTotal(heap) && AllFit(rs) && Covers(heap, rs)
    ensures ReplayAll(rs, heap) == (heap, true)
  {
    if rs != [] {
      assert heap[rs[0].rid.pid := RedoPage(heap[rs[0].rid.pid], rs[0])] == heap;
      CoveredReplayIsNothing(rs[1..], heap);
    }
  }

  lemma {:induction false} ReplayCovers(rs: seq<Record>, heap: Heap)
    requires HeapTotal(heap) && AllFit(rs) && ReplayAll(rs, heap).1
    ensures Covers(ReplayAll(rs, heap).0, rs)
  {
    if rs != [] {
      var heap' := heap[rs[0].rid.pid := RedoPage(heap[rs[0].rid.pid], rs[0])];
      ReplayCovers(rs[1..], heap');
      ReplayMonotone(rs[1..], heap', rs[0].rid.pid);
      var out := ReplayAll(rs, heap).0;
      forall i | 0 <= i < |rs| ensures rs[i].rid.pid >= 0 && rs[i].lsn <= out[rs[i].rid.pid].lsn {
        if i > 0 {
          assert rs[1..][i - 1] == rs[i];
        }
      }
    }
  }

  /** A second replay changes nothing. */
  lemma ReplayIdempotent(rs: seq<Record>, heap: Heap)
    requires HeapTotal(heap) && AllFit(rs) && ReplayAll(rs, heap).1
    ensures ReplayAll(rs, ReplayAll(rs, heap).0) == ReplayAll(rs, heap)
  {
    ReplayCovers(rs, heap);
    CoveredReplayIsNothing(rs, ReplayAll(rs, heap).0);
  }

  // ---------- replay is complete ----------

  /** The k-th record carries number k. */
  ghost predicate Numbered(rs: seq<Record>) {
    forall i :: 0 <= i < |rs| ==> rs[i].lsn == i + 1
  }

  /** A log the writer makes: well-formed records, numbered from one. */
  ghost predicate GoodLog(rs: seq<Record>) {
    AllLoggable(rs) && Numbered(rs) && Addressable(rs)
  }

  /** What a page held before its log, and the slots it must not lose any more: those it has on disk. */
  datatype PageBase = PageBase(data: seq<Byte>, kept: set<Slot>)

  /** The page has the slot in its directory, and its free space ends below it. */
  ghost predicate Listed(h: HeapImage, s: Slot) {
    && h.initialized && h.freeSize <= s.offset
    && exists j :: 0 <= j < h.slotCount && j < |h.slots| && h.slots[j] == s
  }

  ghost predicate Spares(h: HeapImage, base: PageBase) {
    forall s :: s in base.kept ==> Listed(h, s)
  }

  lemma TightensSpares(h: HeapImage, g: HeapImage, lsn: nat, base: PageBase)
    requires Tightens(h, g) && Spares(h, base)
    ensures Spares(g, base) && Spares(g.(lsn := lsn), base)
  {
    forall s | s in base.kept ensures Listed(g, s) && Listed(g.(lsn := lsn), s) {
      assert Listed(h, s);
      var j :| 0 <= j < h.slotCount && j < |h.slots| && h.slots[j] == s;
      assert g.slots[j] == s;
    }
  }

  /** The payload of page p after the rows of some records, all written over its base contents. */
  ghost function DataAfter(base: PageBase, rs: seq<Record>, p: int): (d: seq<Byte>)
    requires |base.data| == HEAP_PAYLOAD_SIZE && AllFit(rs)
    ensures |d| == HEAP_PAYLOAD_SIZE
  {
    if rs == [] then base.data
    else
      var r, d := rs[|rs| - 1], DataAfter(base, rs[..|rs| - 1], p);
      if r.rid.pid == p then Overwrite(d, r.rid.slot.offset, r.row) else d
  }

  type Base = imap<int, PageBase>

  ghost predicate BaseTotal(base: Base) {
    forall p: int :: p in base && |base[p].data| == HEAP_PAYLOAD_SIZE
  }

  /**
    A page is its base overwritten by the rows of its records up to its own number, and its header
    makes sense and lists the slots to be kept.
   */
  ghost predicate PageConsistent(h: HeapImage, base: PageBase, rs: seq<Record>, p: int)
    requires |base.data| == HEAP_PAYLOAD_SIZE && AllFit(rs)
  {
    HeapReadable(h) && h.lsn <= |rs| && h.data == DataAfter(base, rs[..h.lsn], p) && Spares(h, base)
  }

  /** Every page is the image of some prefix of its own records. */
  ghost predicate Consistent(heap: Heap, base: Base, rs: seq<Record>)
    requires BaseTotal(base) && AllFit(rs)
  {
    HeapTotal(heap) && forall p: int :: PageConsistent(heap[p], base[p], rs, p)
  }

  lemma GoodLogFits(rs: seq<Record>)
    requires GoodLog(rs)
    ensures AllFit(rs) && PagesValid(rs)
  {
    forall i | 0 <= i < |rs| ensures Fits(rs[i]) && rs[i].rid.pid >= 0 {
      assert Loggable(rs[i]);
    }
  }

  /** A consistent heap stays consistent when records are added. */
  lemma ConsistentExtends(h: HeapImage, base: PageBase, rs: seq<Record>, r: Record, p: int)
    requires |base.data| == HEAP_PAYLOAD_SIZE && AllFit(rs) && Fits(r) && PageConsistent(h, base, rs, p)
    ensures AllFit(rs + [r]) && PageConsistent(h, base, rs + [r], p)
  {
    assert (rs + [r])[..h.lsn] == rs[..h.lsn];
  }

  /** Where one page is after the first i records: it was at its own number m, and is now at m or at i. */
  ghost predicate PageMidway(h: HeapImage, m: nat, base: PageBase, rs: seq<Record>, i: nat, p: int)
    requires |base.data| == HEAP_PAYLOAD_SIZE && AllFit(rs) && i <= |rs|
  {
    var upTo := if m > i then m else i;
    m <= h.lsn <= upTo <= |rs| && h.data == DataAfter(base, rs[..upTo], p)
  }

  ghost predicate Midway(heap: Heap, start: Heap, base: Base, rs: seq<Record>, i: nat)
    requires BaseTotal(base) && AllFit(rs) && i <= |rs| && HeapTotal(start)
  {
    HeapTotal(heap) && forall p: int :: PageMidway(heap[p], start[p].lsn, base[p], rs, i, p)
  }

  lemma DataAfterOne(base: PageBase, rs: seq<Record>, i: nat, p: int)
    requires |base.data| == HEAP_PAYLOAD_SIZE && AllFit(rs) && i < |rs|
    ensures
      var d := DataAfter(base, rs[..i], p);
      Fits(rs[i]) &&
      DataAfter(base, rs[..i + 1], p) == if rs[i].rid.pid
          == p then Overwrite(d, rs[i].rid.slot.offset, rs[i].row) else d
  {
    assert Fits(rs[i]);
    assert rs[..i + 1][..i] == rs[..i] && rs[..i + 1][i] == rs[i];
  }

  /** The page of record i takes it or already has it; any other page is only carried over. */
  lemma PageMidwayStep(h: HeapImage, m: nat, base: PageBase, rs: seq<Record>, i: nat, p: int)
    requires |base.data| == HEAP_PAYLOAD_SIZE && AllFit(rs) && Numbered(rs) && i < |rs| && HeapSized(h)
    requires PageMidway(h, m, base, rs, i, p)
    ensures Fits(rs[i])
    ensures PageMidway(if rs[i].rid.pid == p then RedoPage(h, rs[i]) else h, m, base, rs, i + 1, p)
  {
    DataAfterOne(base, rs, i, p);
  }

  lemma MidwayStep(heap: Heap, start: Heap, base: Base, rs: seq<Record>, i: nat)
    requires BaseTotal(base) && AllFit(rs) && Numbered(rs) && i < |rs| && HeapTotal(start) && rs[i].rid.pid >= 0
    requires Midway(heap, start, base, rs, i)
    ensures HeapTotal(heap)
    ensures Midway(heap[rs[i].rid.pid := RedoPage(heap[rs[i].rid.pid], rs[i])], start, base, rs, i + 1)
  {
    var r := rs[i];
    var heap' := heap[r.rid.pid := RedoPage(heap[r.rid.pid], r)];
    forall p: int ensures PageMidway(heap'[p], start[p].lsn, base[p], rs, i + 1, p) {
      hide PageMidway, RedoPage;
      assert PageMidway(heap[p], start[p].lsn, base[p], rs, i, p);
      PageMidwayStep(heap[p], start[p].lsn, base[p], rs, i, p);
    }
  }

  lemma {:induction false} ReplayFrom(heap: Heap, start: Heap, base: Base, rs: seq<Record>, i: nat)
    requires BaseTotal(base) && AllFit(rs) && Numbered(rs) && PagesValid(rs) && i <= |rs| && HeapTotal(start)
    requires Midway(heap, start, base, rs, i)
    ensures ReplayAll(rs[i..], heap).1 && Midway(ReplayAll(rs[i..], heap).0, start, base, rs, |rs|)
    decreases |rs| - i
  {
    if i < |rs| {
      hide Midway, RedoPage;
      assert rs[i..][0] == rs[i] && rs[i..][1..] == rs[i + 1..];
      MidwayStep(heap, start, base, rs, i);
      ReplayFrom(heap[rs[i].rid.pid := RedoPage(heap[rs[i].rid.pid], rs[i])], start, base, rs, i + 1);
    }
  }

  /** From any consistent heap, replay gives every page all of its logged rows. */
  lemma RedoComplete(heap: Heap, base: Base, rs: seq<Record>)
    requires BaseTotal(base) && GoodLog(rs) && AllFit(rs) && Consistent(heap, base, rs)
    ensures
      var (heap', ok) := ReplayAll(rs, heap);
      ok && forall p: int :: heap'[p].data == DataAfter(base[p], rs, p) && heap'[p].lsn <= |rs|
  {
    GoodLogFits(rs);
    assert Midway(heap, heap, base, rs, 0) by {
      forall p: int ensures heap[p].lsn <= |rs| && heap[p].data == DataAfter(base[p], rs[..heap[p].lsn], p) {
        assert PageConsistent(heap[p], base[p], rs, p);
      }
    }
    ReplayFrom(heap, heap, base, rs, 0);
    assert rs[0..] == rs;
    var heap' := ReplayAll(rs, heap).0;
    forall p: int ensures heap'[p].data == DataAfter(base[p], rs, p) && heap'[p].lsn <= |rs| {
      assert PageConsistent(heap[p], base[p], rs, p);
      assert rs[..|rs|] == rs;
    }
  }

  /** Two records of one page whose rows do not overlap. */
  ghost predicate Apart(a: Record, b: Record) {
    || a.rid.pid != b.rid.pid
    || a.rid.slot.offset + |a.row| <= b.rid.slot.offset
    || b.rid.slot.offset + |b.row| <= a.rid.slot.offset
  }

  /** A row no later record writes over is in the page, byte for byte. */
  lemma {:induction false} RowSurvives(base: PageBase, rs: seq<Record>, i: nat)
    requires |base.data| == HEAP_PAYLOAD_SIZE && AllFit(rs) && i < |rs|
    requires forall j :: i < j < |rs| ==> Apart(rs[i], rs[j])
    ensures
      var r := rs[i];
      Fits(r) && DataAfter(base, rs, r.rid.pid)[r.rid.slot.offset..r.rid.slot.offset + |r.row|] == r.row
  {
    var n := |rs| - 1;
    var r := rs[i];
    assert Fits(r);
    if i < n {
      RowSurvives(base, rs[..n], i);
      var d := DataAfter(base, rs[..n], r.rid.pid);
      var d' := DataAfter(base, rs, r.rid.pid);
      var at, end := r.rid.slot.offset, r.rid.slot.offset + |r.row|;
      assert d'[at..end] == d[at..end] by {
        assert Apart(r, rs[n]);
        forall k | at <= k < end ensures d'[k] == d[k] {
        }
      }
    }
  }
}
