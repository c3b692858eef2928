/**
  How far the heap file grows. The page for the next row is looked for by asking whether the
  last page has any free byte at all; the payload is 4015 bytes and every row takes a multiple
  of four, so it always has. Every row ever offered goes to page 0, which takes at most ten; a
  row turned away uses up a slot too.
 */
module HeapGrowth {
  import opened StorageTypes
  import opened PoolSpec
  import opened HeapRows
  import opened HeapSpec
  import opened LogFormat
  import opened Redo
  import opened Recovery
  import opened InsertEntry
  import opened Sessions
  import opened Statements

  lemma {:induction false} RowSizeMod(row: Row)
    requires StorableRow(row)
    ensures |RowBytes(row)| % 4 == 0
  {
    if row != [] {
      RowSizeMod(row[1..]);
    }
  }

  lemma {:induction false} TotalSizeMod(rows: seq<Row>)
    requires StorableRows(rows)
    ensures TotalSize(rows) % 4 == 0
  {
    if rows != [] {
      TotalSizeMod(rows[..|rows| - 1]);
      RowSizeMod(rows[|rows| - 1]);
    }
  }

  /** The free space of a packed page is three more than a multiple of four: it never runs out. */
  lemma NeverFull(h: HeapImage, rows: seq<Row>)
    requires Packed(h, rows)
    ensures h.freeSize % 4 == 3 && h.freeSize > 0
  {
    TotalSizeMod(rows);
  }

  /** A rejected row does not change that, though it leaves a slot behind. */
  lemma NeverFullAfter(h: HeapImage, row: Row)
    requires HeapReadable(h) && StorableRow(row) && (h.initialized ==> h.freeSize % 4 == 3)
    ensures var g := WriteRow(h, row).0; g.freeSize % 4 == 3 && g.freeSize > 0
  {
    RowSizeMod(row);
  }

  /** Which of the rows offered page 0 takes: of the first ten, those there is room for in their turn. */
  ghost function Taken(rows: seq<Row>): (taken: seq<Row>)
    requires StorableRows(rows)
    ensures StorableRows(taken) && |taken| <= |rows| && |taken| <= MAX_SLOTS
    decreases |rows|, 0
  {
    if rows == [] then []
    else
      var before, row := Taken(rows[..|rows| - 1]), rows[|rows| - 1];
      if Takes(rows[..|rows| - 1], row) then before + [row] else before
  }

  /** Page 0 has a slot left after the rows offered, and room beside those it took. */
  ghost predicate Takes(rows: seq<Row>, row: Row)
    requires StorableRows(rows) && StorableRow(row)
    decreases |rows|, 1
  {
    |rows| < MAX_SLOTS && TotalSize(Taken(rows)) + |RowBytes(row)| <= HEAP_PAYLOAD_SIZE
  }

  /** Row i of those offered has the slot of its turn; if it was taken, the slot leads to its bytes. */
  ghost predicate TurnHeld(h: HeapImage, rows: seq<Row>, i: nat)
    requires HeapSized(h) && StorableRows(rows) && i < |rows| && i < MAX_SLOTS
  {
    var s := h.slots[i];
    && s.size == |RowBytes(rows[i])|
    && (Takes(rows[..i], rows[i]) ==>
          && !s.deleted && s.offset + s.size + TotalSize(Taken(rows[..i])) == HEAP_PAYLOAD_SIZE
          && h.data[s.offset..s.offset + s.size] == RowBytes(rows[i]))
  }

  /** The page after these rows were offered to it. */
  ghost predicate Offered(h: HeapImage, rows: seq<Row>) {
    && HeapSized(h) && StorableRows(rows)
    && (if rows == [] then !h.initialized
        else
          && h.initialized && h.slotCount == (if |rows| < MAX_SLOTS then |rows| else MAX_SLOTS)
          && h.freeSize + TotalSize(Taken(rows)) == HEAP_PAYLOAD_SIZE && h.freeSize >= 0)
    && forall i :: 0 <= i < |rows| && i < MAX_SLOTS ==> TurnHeld(h, rows, i)
  }

  /** The heap file is empty, or it is page 0; and page 0 was offered these rows. */
  ghost predicate OnePage(p: Pool, rows: seq<Row>)
    requires Sound(p)
  {
    && Offered(HeapAt(p, 0), rows) && |p.disk.heap| == (if Taken(rows) == [] then 0 else 1)
  }

  /** After whatever rows were offered, the next one goes to page 0. */
  lemma OnePageTarget(p: Pool, rows: seq<Row>)
    requires Sound(p) && OnePage(p, rows)
    ensures TargetId(p) == 0
  {
    TotalSizeMod(Taken(rows));
  }

  lemma TakesIff(h: HeapImage, rows: seq<Row>, row: Row)
    requires Offered(h, rows) && StorableRow(row)
    ensures StorableRows(rows) && HeapReadable(h) && (WriteRow(h, row).1.Success? <==> Takes(rows, row))
  {
    AcceptedIff(h, row);
  }

  lemma TakenNext(rows: seq<Row>, row: Row)
    requires StorableRows(rows) && StorableRow(row)
    ensures StorableRows(rows + [row])
    ensures Taken(rows + [row]) == if Takes(rows, row) then Taken(rows) + [row] else Taken(rows)
    ensures TotalSize(Taken(rows + [row])) == TotalSize(Taken(rows)) + if Takes(rows, row) then |RowBytes(row)| else 0
  {
    assert (rows + [row])[..|rows|] == rows;
    assert (Taken(rows) + [row])[..|Taken(rows)|] == Taken(rows);
  }

  /** Of rows of up to 401 bytes the page takes the first ten. */
  lemma {:induction false} TenFit(rows: seq<Row>)
    requires StorableRows(rows) && forall i :: 0 <= i < |rows| ==> |RowBytes(rows[i])| <= 401
    ensures Taken(rows) == if |rows| <= 10 then rows else rows[..10]
    ensures TotalSize(Taken(rows)) <= 401 * |Taken(rows)|
  {
    if rows != [] {
      var l := |rows| - 1;
      TenFit(rows[..l]);
      TakenNext(rows[..l], rows[l]);
      assert rows[..l] + [rows[l]] == rows;
      assert l >= 10 ==> rows[..l][..10] == rows[..10];
    }
  }

  /** What the rows taken up to one of them take up lies above what all of them leave free. */
  lemma {:induction false} TakenPrefix(rows: seq<Row>, n: nat)
    requires StorableRows(rows) && n <= |rows|
    ensures TotalSize(Taken(rows[..n])) <= TotalSize(Taken(rows))
    decreases |rows| - n
  {
    hide Taken, Takes, TotalSize, RowBytes;
    if n < |rows| {
      TakenPrefix(rows, n + 1);
      TakenNext(rows[..n], rows[n]);
      assert rows[..n + 1] == rows[..n] + [rows[n]];
    } else {
      assert rows[..n] == rows;
    }
  }

  /** A change below the used part and of later slots keeps the turns before it. */
  lemma TurnKept(h: HeapImage, rows: seq<Row>, i: nat, g: HeapImage, row: Row)
    requires Offered(h, rows) && HeapSized(g) && StorableRow(row) && i < |rows| && i < MAX_SLOTS
    requires g.slots[i] == h.slots[i] && forall j :: h.freeSize <= j < HEAP_PAYLOAD_SIZE ==> g.data[j] == h.data[j]
    ensures StorableRows(rows + [row]) && TurnHeld(g, rows + [row], i)
  {
    var s := h.slots[i];
    TurnAbove(h, rows, i);
    hide Taken, Takes, TotalSize, RowBytes;
    assert (rows + [row])[..i] == rows[..i] && (rows + [row])[i] == rows[i];
    assert TurnHeld(h, rows, i);
    if Takes(rows[..i], rows[i]) {
      assert g.data[s.offset..s.offset + s.size] == h.data[s.offset..s.offset + s.size];
    }
  }

  /** A row that was taken lies in the used part of the page. */
  lemma TurnAbove(h: HeapImage, rows: seq<Row>, i: nat)
    requires Offered(h, rows) && i < |rows| && i < MAX_SLOTS
    ensures Takes(rows[..i], rows[i]) ==> h.freeSize <= h.slots[i].offset
  {
    hide RowBytes, TotalSize, Takes;
    assert TurnHeld(h, rows, i);
    TakenPrefix(rows, i + 1);
    TakenNext(rows[..i], rows[i]);
    assert rows[..i + 1] == rows[..i] + [rows[i]];
  }

  /** Offering one more row, taken or turned away. */
  lemma OfferedNext(h: HeapImage, rows: seq<Row>, row: Row, lsn: nat)
    requires Offered(h, rows) && StorableRow(row) && lsn < 0x1_0000
    ensures HeapReadable(h) && Offered(WriteRow(h, row).0.(lsn := lsn), rows + [row])
  {
    TakesIff(h, rows, row);
    TakenNext(rows, row);
    WrittenShape(h, rows, row);
    hide WriteRow, TotalSize, RowBytes, Takes, Taken;
    var g, all := WriteRow(h, row).0.(lsn := lsn), rows + [row];
    forall i | 0 <= i < |all| && i < MAX_SLOTS ensures TurnHeld(g, all, i) {
      if i < |rows| {
        TurnKept(h, rows, i, g, row);
      } else {
        NewTurn(h, rows, row, lsn);
      }
    }
  }

  /** What the writer does to a page, whether it takes the row or not. */
  lemma WriteShape(h: HeapImage, row: Row)
    requires HeapReadable(h) && StorableRow(row)
    ensures
      var (g, r) := WriteRow(h, row);
      var i := Initialized(h);
      && HeapSized(g) && g.initialized
      && g.slotCount == (if i.slotCount < MAX_SLOTS then i.slotCount + 1 else MAX_SLOTS)
      && g.freeSize == i.freeSize - (if r.Success? then |RowBytes(row)| else 0) >= 0
      && (forall j :: 0 <= j < i.slotCount ==> g.slots[j] == h.slots[j])
      && forall j :: i.freeSize <= j < HEAP_PAYLOAD_SIZE ==> g.data[j] == h.data[j]
  {
    hide RowBytes;
  }

  lemma OfferedStart(h: HeapImage, rows: seq<Row>)
    requires Offered(h, rows)
    ensures
      var i := Initialized(h);
      && i.slotCount == (if |rows| < MAX_SLOTS then |rows| else MAX_SLOTS)
      && i.freeSize + TotalSize(Taken(rows)) == HEAP_PAYLOAD_SIZE
      && (rows != [] ==> i == h)
  {
    assert TotalSize(Taken([])) == 0;
    hide Taken, TurnHeld, TotalSize;
  }

  lemma WrittenShape(h: HeapImage, rows: seq<Row>, row: Row)
    requires Offered(h, rows) && StorableRow(row) && HeapReadable(h)
    ensures
      var (g, r) := WriteRow(h, row);
      && HeapSized(g) && g.initialized && g.slotCount == (if |rows| + 1 < MAX_SLOTS then |rows| + 1 else MAX_SLOTS)
      && g.freeSize == HEAP_PAYLOAD_SIZE - TotalSize(Taken(rows)) - (if r.Success? then |RowBytes(row)| else 0) >= 0
      && (forall i :: 0 <= i < |rows| && i < MAX_SLOTS ==> g.slots[i] == h.slots[i])
      && (rows != [] ==> forall j :: h.freeSize <= j < HEAP_PAYLOAD_SIZE ==> g.data[j] == h.data[j])
  {
    OfferedStart(h, rows);
    WriteShape(h, row);
    hide Offered, WriteRow, Initialized, Taken, TotalSize, RowBytes;
  }

  lemma NewTurn(h: HeapImage, rows: seq<Row>, row: Row, lsn: nat)
    requires Offered(h, rows) && StorableRow(row) && HeapReadable(h) && |rows| < MAX_SLOTS && lsn < 0x1_0000
    ensures StorableRows(rows + [row]) && TurnHeld(WriteRow(h, row).0.(lsn := lsn), rows + [row], |rows|)
  {
    var all := rows + [row];
    assert all[..|rows|] == rows && all[|rows|] == row;
    TakesIff(h, rows, row);
  }

  lemma OnePageTaken(p: Pool, rows: seq<Row>, row: Row, lsn: nat, q: Pool)
    requires Sound(p) && Sound(q) && OnePage(p, rows) && DirtyInside(p) && StorableRow(row)
        && HeapReadable(HeapAt(p, 0))
    requires WriteRow(HeapAt(p, 0), row).1.Success? && InsertedAs(p, 0, row, lsn, q) && lsn <= LSN_MAX
    ensures OnePage(q, rows + [row]) && DirtyInside(q) && Pins(q) == Pins(p)
        && Taken(rows + [row]) == Taken(rows) + [row]
  {
    hide HeapAt, WriteRow, Offered, Sound, Flat, Pins;
    TakesIff(HeapAt(p, 0), rows, row);
    TakenNext(rows, row);
    InsertedHeap(p, 0, row, lsn, q, 0);
    OfferedNext(HeapAt(p, 0), rows, row, lsn);
  }

  lemma OnePageRejected(p: Pool, rows: seq<Row>, row: Row, q: Pool)
    requires Sound(p) && Sound(q) && OnePage(p, rows) && DirtyInside(p) && StorableRow(row)
        && HeapReadable(HeapAt(p, 0))
    requires WriteRow(HeapAt(p, 0), row).1.Failure? && RejectedAs(p, 0, row, q)
    ensures OnePage(q, rows + [row]) && DirtyInside(q) && FrameFor(q, 0) && Taken(rows + [row]) == Taken(rows)
  {
    hide HeapAt, WriteRow, Offered, Sound, Flat;
    TakesIff(HeapAt(p, 0), rows, row);
    TakenNext(rows, row);
    ChangedHeap(p, 0, WriteRow(HeapAt(p, 0), row).0, q, 0);
    RejectedLsn(HeapAt(p, 0), row);
    OfferedNext(HeapAt(p, 0), rows, row, HeapAt(p, 0).lsn);
  }

  lemma RejectedLsn(h: HeapImage, row: Row)
    requires HeapReadable(h) && StorableRow(row)
    ensures WriteRow(h, row).0.lsn == h.lsn < 0x1_0000
  {
  }

  /** No slot of the page is marked as deleted; nothing in the engine marks one. */
  ghost predicate AllLive(h: HeapImage) {
    forall i :: 0 <= i < |h.slots| ==> !h.slots[i].deleted
  }

  /** Taken or turned away, a row leaves the slots live. */
  lemma StaysLive(p: Pool, row: Row, lsn: nat, q: Pool)
    requires Sound(p) && Sound(q) && StorableRow(row) && HeapReadable(HeapAt(p, 0)) && AllLive(HeapAt(p, 0))
    requires InsertedAs(p, 0, row, lsn, q) || RejectedAs(p, 0, row, q)
    ensures AllLive(HeapAt(q, 0))
  {
    WriteLive(HeapAt(p, 0), row);
    hide HeapAt, Sound, Flat, Pins, WriteRow;
    var g := WriteRow(HeapAt(p, 0), row).0;
    if InsertedAs(p, 0, row, lsn, q) {
      ChangedHeap(p, 0, g.(lsn := lsn), q, 0);
    } else {
      ChangedHeap(p, 0, g, q, 0);
    }
  }

  lemma WriteLive(h: HeapImage, row: Row)
    requires HeapReadable(h) && StorableRow(row) && AllLive(h)
    ensures AllLive(WriteRow(h, row).0)
  {
  }

  ghost function Rows(work: seq<Work>): (r: seq<Row>)
    ensures |r| == |work| && forall i :: 0 <= i < |r| ==> r[i] == work[i].row
  {
    seq(|work|, i requires 0 <= i < |work| => work[i].row)
  }

  /** Inserts the next row, which goes to page 0 and is taken there or turned away. */
  method OfferNext(ins: Inserter, w: Work, ghost base: Base, ghost rs: seq<Record>, ghost rows: seq<Row>)
    returns (ok: bool, ghost rs': seq<Record>)
    requires ins.pool.Valid() && ins.wal.pool == ins.pool && ins.wal.lsn == |rs| && GoodWork(w)
    requires Settled(ins.pool.State(), base, rs, NONE) && DirtyInside(ins.pool.State())
    requires FrameFor(ins.pool.State(), 0) && OnePage(ins.pool.State(), rows)
    requires StorableRows(rows) && |rs| + MAX_SLOTS <= LSN_MAX + |Taken(rows)|
    modifies ins`acks, ins.wal`lsn, ins.pool, ins.pool.frames, ins.pool.disk
    ensures ins.pool.Valid() && ins.wal.lsn == |rs'| == |rs| + if ok then 1 else 0
    ensures Settled(ins.pool.State(), base, rs', NONE) && DirtyInside(ins.pool.State())
    ensures FrameFor(ins.pool.State(), 0) && OnePage(ins.pool.State(), rows + [w.row]) && StorableRows(rows + [w.row])
    ensures |Taken(rows + [w.row])| == |Taken(rows)| + if ok then 1 else 0
    ensures old(AllLive(HeapAt(ins.pool.State(), 0))) ==> AllLive(HeapAt(ins.pool.State(), 0))
  {
    hide Sound, Settled, HeapAt, Flat, Pins, InsertedAs, RejectedAs, WriteRow, AllReadable, HeapReadable, OnePage,
         DirtyInside, Taken, TargetId, AdmitsAt, FrameFor, LastReachable, AllLive;
    ghost var p := ins.pool.State();
    SettledReadable(p, base, rs);
    ReadableAt(p, 0);
    OnePageTarget(p, rows);
    OnePageAdmits(p, base, rs, rows, w.row);
    var r;
    r, rs' := ins.CreateEntry(w.row, w.sizes, base, rs, NONE);
    ok := r.Success?;
    OfferedTurn(p, rows, w.row, ok, ins.wal.lsn, ins.pool.State());
  }

  /**
    Inserts rows into an empty heap, one after the other, going on past every row that is turned
    away. All of them are offered to page 0 and nothing else goes wrong; the file never gets a
    second page, and exactly the rows there was a slot and room for in their turn are taken, so
    never more than ten.
   */
  method FillHeap(ins: Inserter, work: seq<Work>, ghost base: Base, ghost rs: seq<Record>)
    returns (count: nat, ghost rs': seq<Record>)
    requires ins.pool.Valid() && ins.wal.pool == ins.pool && ins.wal.lsn == |rs| && |rs| + MAX_SLOTS <= LSN_MAX
    requires AllGood(work) && Settled(ins.pool.State(), base, rs, NONE)
    requires DirtyInside(ins.pool.State()) && FrameFor(ins.pool.State(), 0) && OnePage(ins.pool.State(), [])
    modifies ins`acks, ins.wal`lsn, ins.pool, ins.pool.frames, ins.pool.disk
    ensures ins.pool.Valid() && OnePage(ins.pool.State(), Rows(work)) && Settled(ins.pool.State(), base, rs', NONE)
    ensures StorableRows(Rows(work)) && count == |Taken(Rows(work))| <= MAX_SLOTS
    ensures |ins.pool.disk.now.heap| <= 1 && |rs'| == |rs| + count
    ensures old(AllLive(HeapAt(ins.pool.State(), 0))) ==> AllLive(HeapAt(ins.pool.State(), 0))
  {
    hide Sound, Settled, HeapAt, OnePage, DirtyInside, Taken, FrameFor, AllLive, GoodWork;
    count, rs' := 0, rs;
    ghost var live := AllLive(HeapAt(ins.pool.State(), 0));
    assert Rows(work[..0]) == [];
    for i := 0 to |work|
      invariant ins.pool.Valid() && ins.wal.lsn == |rs'| == |rs| + count && Settled(ins.pool.State(), base, rs', NONE)
      invariant DirtyInside(ins.pool.State()) && OnePage(ins.pool.State(), Rows(work[..i]))
          && FrameFor(ins.pool.State(), 0)
      invariant StorableRows(Rows(work[..i])) && count == |Taken(Rows(work[..i]))| <= i
      invariant live ==> AllLive(HeapAt(ins.pool.State(), 0))
    {
      ghost var rows := Rows(work[..i]);
      assert GoodWork(work[i]);
      assert Rows(work[..i + 1]) == rows + [work[i].row];
      var ok;
      ok, rs' := OfferNext(ins, work[i], base, rs', rows);
      count := count + if ok then 1 else 0;
    }
    assert work[..|work|] == work;
    OnePageStorable(ins.pool.State(), Rows(work));
  }

  /** One row offered, taken or turned away. */
  lemma OfferedTurn(p: Pool, rows: seq<Row>, row: Row, ok: bool, lsn: nat, q: Pool)
    requires Sound(p) && Sound(q) && OnePage(p, rows) && DirtyInside(p) && FrameFor(p, 0) && StorableRow(row)
    requires HeapReadable(HeapAt(p, 0)) && lsn <= LSN_MAX
    requires if ok then WriteRow(HeapAt(p, 0), row).1.Success? && InsertedAs(p, 0, row, lsn, q)
             else WriteRow(HeapAt(p, 0), row).1.Failure? && RejectedAs(p, 0, row, q)
    ensures StorableRows(rows) && OnePage(q, rows + [row]) && DirtyInside(q) && FrameFor(q, 0)
    ensures StorableRows(rows + [row]) && |Taken(rows + [row])| == |Taken(rows)| + if ok then 1 else 0
    ensures AllLive(HeapAt(p, 0)) ==> AllLive(HeapAt(q, 0))
  {
    hide Sound, HeapAt, Flat, Pins, InsertedAs, RejectedAs, WriteRow, HeapReadable, DirtyInside, Taken, FrameFor,
         AllLive;
    OnePageStorable(p, rows);
    OnePageStorable(q, rows + [row]) by {
      if ok {
        OnePageTaken(p, rows, row, lsn, q);
      } else {
        OnePageRejected(p, rows, row, q);
      }
    }
    if ok {
      OnePageTaken(p, rows, row, lsn, q);
      SameFrameFor(p, q);
    } else {
      OnePageRejected(p, rows, row, q);
    }
    if AllLive(HeapAt(p, 0)) {
      StaysLive(p, row, lsn, q);
    }
  }

  lemma SameFrameFor(p: Pool, q: Pool)
    requires Sound(p) && Sound(q) && Pins(q) == Pins(p) && FrameFor(p, 0)
    ensures FrameFor(q, 0)
  {
  }

  lemma OnePageStorable(p: Pool, rows: seq<Row>)
    requires Sound(p) && OnePage(p, rows)
    ensures StorableRows(rows) && |p.disk.heap| <= 1 && |Taken(rows)| <= MAX_SLOTS
  {
  }

  lemma OnePageAdmits(p: Pool, base: Base, rs: seq<Record>, rows: seq<Row>, row: Row)
    requires Settled(p, base, rs, NONE) && OnePage(p, rows) && FrameFor(p, 0) && StorableRow(row)
    requires HeapReadable(HeapAt(p, 0)) && |rs| + MAX_SLOTS <= LSN_MAX + |Taken(rows)|
    ensures LastReachable(p) && AdmitsAt(p, |rs|, 0, row)
  {
    hide HeapAt, Flat, Pins, Offered, WriteRow, Taken;
    SettledLength(p, base, rs, NONE);
    TakesIff(HeapAt(p, 0), rows, row);
    TakenNext(rows, row);
  }
}
