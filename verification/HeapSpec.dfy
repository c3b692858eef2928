/** The slotted heap page as a value: what the heap writer makes of it, and what the scan reads. */
module HeapSpec {
  import opened StorageTypes
  import opened HeapRows

  datatype HeapError = SlotsFull | SpaceFull

  /** d with b written over it at `at`. */
  function Overwrite(d: seq<Byte>, at: nat, b: seq<Byte>): (r: seq<Byte>)
    requires at + |b| <= |d|
    ensures |r| == |d|
    ensures r[at..at + |b|] == b
    ensures forall i :: 0 <= i < |d| && !(at <= i < at + |b|) ==> r[i] == d[i]
  {
    d[..at] + b + d[at + |b|..]
  }

  /** Writing two pieces side by side is writing them joined. */
  lemma OverwriteJoined(d: seq<Byte>, at: nat, a: seq<Byte>, b: seq<Byte>)
    requires at + |a| + |b| <= |d|
    ensures Overwrite(Overwrite(d, at, a), at + |a|, b) == Overwrite(d, at, a + b)
  {
    var l, r := Overwrite(Overwrite(d, at, a), at + |a|, b), Overwrite(d, at, a + b);
    assert l[..at] == d[..at] == r[..at];
    assert Overwrite(d, at, a)[at..at + |a|] == a;
    assert l[at..at + |a|] == a;
    assert l == l[..at] + l[at..at + |a|] + l[at + |a|..at + |a| + |b|] + l[at + |a| + |b|..];
    assert l[at + |a| + |b|..] == d[at + |a| + |b|..];
    assert r == d[..at] + (a + b) + d[at + |a| + |b|..];
  }

  ghost predicate HeapReadable(h: HeapImage) {
    HeapSized(h) && (h.initialized ==> 0 <= h.slotCount <= MAX_SLOTS && 0 <= h.freeSize <= HEAP_PAYLOAD_SIZE)
  }

  /** A page that has never been used is set up on its first row. */
  function Initialized(h: HeapImage): HeapImage {
    if h.initialized then h else h.(initialized := true, freeSize := HEAP_PAYLOAD_SIZE, slotCount := 0)
  }

  /** One call of the heap writer: the page afterwards, and the slot or the error. */
  function WriteRow(h: HeapImage, row: Row): (HeapImage, Result<Slot, HeapError>)
    requires HeapReadable(h) && StorableRow(row)
  {
    var g := Initialized(h);
    var b := RowBytes(row);
    var n := g.slotCount;
    if n >= MAX_SLOTS then (g, Failure(SlotsFull))
    else if |b| > g.freeSize then
      (g.(slotCount := n + 1, slots := g.slots[n := g.slots[n].(size := |b|)]), Failure(SpaceFull))
    else
      var s := Slot(|b|, g.freeSize - |b|, false);
      (g.(slotCount := n + 1, freeSize := g.freeSize - |b|, slots := g.slots[n := s],
          data := Overwrite(g.data, s.offset, b)),
       Success(s))
  }

  /** A page in use stays in use, with the slots it had, and its free space does not grow upwards again. */
  ghost predicate Tightens(h: HeapImage, g: HeapImage) {
    h.initialized ==>
      && g.initialized && g.freeSize <= h.freeSize
      && |g.slots| == |h.slots| && h.slotCount <= g.slotCount
      && forall j :: 0 <= j < h.slotCount && j < |h.slots| ==> g.slots[j] == h.slots[j]
  }

  /** Taken or turned away, a row leaves a page its slots and no more free space than it had. */
  lemma WriteTightens(h: HeapImage, row: Row)
    requires HeapReadable(h) && StorableRow(row)
    ensures Tightens(h, WriteRow(h, row).0)
  {
  }

  // ---------- packing ----------

  function TotalSize(rows: seq<Row>): nat
    requires forall i :: 0 <= i < |rows| ==> StorableRow(rows[i])
  {
    if rows == [] then 0 else TotalSize(rows[..|rows| - 1]) + |RowBytes(rows[|rows| - 1])|
  }

  ghost predicate StorableRows(rows: seq<Row>) {
    forall i :: 0 <= i < |rows| ==> StorableRow(rows[i])
  }

  /** Slot i describes row i, which ends where the row before it begins, and its bytes are the row's. */
  ghost predicate SlotHolds(h: HeapImage, rows: seq<Row>, i: nat)
    requires HeapSized(h) && StorableRows(rows) && i < |rows| <= MAX_SLOTS
  {
    var s := h.slots[i];
    && s.size == |RowBytes(rows[i])| && !s.deleted
    && s.offset + s.size + TotalSize(rows[..i]) == HEAP_PAYLOAD_SIZE
    && h.data[s.offset..s.offset + s.size] == RowBytes(rows[i])
  }

  /** The page holds exactly these rows, packed from the end of the payload downwards. */
  ghost predicate Packed(h: HeapImage, rows: seq<Row>) {
    && HeapSized(h) && h.initialized && StorableRows(rows)
    && h.slotCount == |rows| <= MAX_SLOTS
    && h.freeSize + TotalSize(rows) == HEAP_PAYLOAD_SIZE && h.freeSize >= 0
    && forall i :: 0 <= i < |rows| ==> SlotHolds(h, rows, i)
  }

  lemma {:induction false} TotalSizePrefix(rows: seq<Row>, n: nat)
    requires StorableRows(rows) && n <= |rows|
    ensures TotalSize(rows[..n]) <= TotalSize(rows)
    ensures n < |rows| ==> TotalSize(rows[..n]) + |RowBytes(rows[n])| == TotalSize(rows[..n + 1]) <= TotalSize(rows)
  {
    if n < |rows| {
      assert rows[..n + 1][..n] == rows[..n];
      if n + 1 < |rows| {
        assert rows[..|rows| - 1][..n + 1] == rows[..n + 1];
        TotalSizePrefix(rows[..|rows| - 1], n + 1);
      } else {
        assert rows[..n + 1] == rows;
      }
    } else {
      assert rows[..n] == rows;
    }
  }

  /** The regions of the rows tile the payload from the free space up: no gap, no overlap. */
  lemma RegionsTile(h: HeapImage, rows: seq<Row>, i: nat)
    requires Packed(h, rows) && i < |rows|
    ensures h.freeSize <= h.slots[i].offset
    ensures h.slots[i].offset + h.slots[i].size == if i == 0 then HEAP_PAYLOAD_SIZE else h.slots[i - 1].offset
    ensures i == |rows| - 1 ==> h.slots[i].offset == h.freeSize
  {
    assert SlotHolds(h, rows, i);
    TotalSizePrefix(rows, i);
    if i > 0 {
      assert SlotHolds(h, rows, i - 1);
      TotalSizePrefix(rows, i - 1);
    }
    assert i == |rows| - 1 ==> rows[..i + 1] == rows;
  }

  /** A slot whose bytes and entry a change leaves alone holds the row it held. */
  lemma SlotKept(h: HeapImage, rows: seq<Row>, i: nat, g: HeapImage, rows': seq<Row>)
    requires HeapSized(h) && HeapSized(g) && StorableRows(rows) && StorableRows(rows')
    requires i < |rows| <= |rows'| <= MAX_SLOTS && rows'[..i + 1] == rows[..i + 1]
    requires SlotHolds(h, rows, i) && g.slots[i] == h.slots[i]
    requires forall j :: h.slots[i].offset <= j < h.slots[i].offset + h.slots[i].size ==> g.data[j] == h.data[j]
    ensures SlotHolds(g, rows', i)
  {
    var s := h.slots[i];
    assert rows'[..i + 1][i] == rows[..i + 1][i];
    assert rows'[..i] == rows'[..i + 1][..i] == rows[..i];
    assert g.data[s.offset..s.offset + s.size] == h.data[s.offset..s.offset + s.size];
  }

  /** An accepted row is added to the packed rows; the earlier ones keep their slots and bytes. */
  lemma WritePacks(h: HeapImage, rows: seq<Row>, row: Row)
    requires Packed(h, rows) && StorableRow(row) && WriteRow(h, row).1.Success?
    ensures Packed(WriteRow(h, row).0, rows + [row])
  {
    var g := WriteRow(h, row).0;
    var rows' := rows + [row];
    assert rows'[..|rows|] == rows;
    assert SlotHolds(g, rows', |rows|);
    forall i | 0 <= i < |rows| ensures SlotHolds(g, rows', i) {
      RegionsTile(h, rows, i);
      assert rows'[..i + 1] == rows[..i + 1];
      hide TotalSize, RowBytes;
      SlotKept(h, rows, i, g, rows');
    }
  }

  /** The row is accepted exactly when a slot and enough space are left. */
  lemma AcceptedIff(h: HeapImage, row: Row)
    requires HeapReadable(h) && StorableRow(row)
    ensures WriteRow(h, row).1.Success? <==>
      Initialized(h).slotCount < MAX_SLOTS && |RowBytes(row)| <= Initialized(h).freeSize
    ensures HeapReadable(WriteRow(h, row).0) && WriteRow(h, row).0.initialized && WriteRow(h, row).0.lsn == h.lsn
  {
  }

  /**
    The writer keeps a page packed exactly when it does not reject the row for space: such a row
    leaves a slot behind.
   */
  lemma PackedAfterIff(h: HeapImage, rows: seq<Row>, row: Row)
    requires Packed(h, rows) && StorableRow(row)
    ensures (exists rows' :: Packed(WriteRow(h, row).0, rows')) <==> WriteRow(h, row).1 != Failure(SpaceFull)
  {
    var (g, r) := WriteRow(h, row);
    match r
    case Success(_) => WritePacks(h, rows, row);
    case Failure(SlotsFull) => assert Packed(g, rows);
    case Failure(SpaceFull) =>
      forall rows' | Packed(g, rows') ensures false {
        var n := |rows|;
        assert SlotHolds(g, rows', n) && g.slots[n].size == |RowBytes(row)|;
        TotalSizePrefix(rows', n);
        assert rows'[..n + 1] == rows';
        SameSizes(g, rows', h, rows);
      }
  }

  lemma SameSizes(g: HeapImage, rows': seq<Row>, h: HeapImage, rows: seq<Row>)
    requires Packed(g, rows') && Packed(h, rows) && |rows| <= |rows'|
    requires forall i :: 0 <= i < |rows| ==> g.slots[i].size == h.slots[i].size
    ensures TotalSize(rows'[..|rows|]) == TotalSize(rows)
  {
    var n := 0;
    while n < |rows|
      invariant n <= |rows| && TotalSize(rows'[..n]) == TotalSize(rows[..n])
    {
      assert SlotHolds(g, rows', n) && SlotHolds(h, rows, n);
      TotalSizePrefix(rows', n);
      TotalSizePrefix(rows, n);
      n := n + 1;
    }
    assert rows[..n] == rows;
  }

  // ---------- reading back ----------

  /** The scan's decoding of slot i. */
  function ReadSlot(h: HeapImage, types: seq<ColumnType>, i: nat): Option<Row>
    requires HeapSized(h) && i < MAX_SLOTS && h.slots[i].offset + RowSize(types) <= HEAP_PAYLOAD_SIZE
  {
    DecodeRow(types, h.data[h.slots[i].offset..])
  }

  /** Every packed row is read back as it was written. */
  lemma ReadsBack(h: HeapImage, rows: seq<Row>, types: seq<ColumnType>, i: nat)
    requires Packed(h, rows) && i < |rows| && Typed(rows[i], types) && PlainTexts(rows[i])
    ensures h.slots[i].offset + RowSize(types) <= HEAP_PAYLOAD_SIZE
    ensures ReadSlot(h, types, i) == Some(rows[i])
  {
    assert SlotHolds(h, rows, i);
    TypedSize(rows[i], types);
    var s := h.slots[i];
    assert h.data[s.offset..] == RowBytes(rows[i]) + h.data[s.offset + s.size..];
    RowRoundTrip(rows[i], types, h.data[s.offset + s.size..]);
  }
}
