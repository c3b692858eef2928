/** The three iterators of a SELECT, stacked on one another, and the loop that drains them. */
module Pipelines {
  import opened StorageTypes
  import opened PoolSpec
  import opened BufferPools
  import opened HeapRows
  import opened HeapSpec
  import opened LockTables
  import opened Recovery
  import opened Wals
  import opened SelectSpec

  datatype ScanResult = Next(row: Row) | EndOfPage | EndOfPages | Error(e: PoolError)

  /** n more pins on page k. */
  ghost function PinMore(pins: map<Key, int>, k: Key, n: nat): map<Key, int> {
    if n == 0 then pins else PinUp(PinMore(pins, k, n - 1), k)
  }

  /** The pool has the same pages, and n more pins on heap page pid. */
  ghost predicate PinnedMore(p: Pool, q: Pool, pid: int, n: int) {
    Sound(p) && Sound(q) && n >= 0 && Flat(q) == Flat(p) && Pins(q) == PinMore(Pins(p), HeapKey(pid), n)
  }

  /** The page can be fetched: it is pinned already, or a frame is not. */
  ghost predicate Room(p: Pool, pid: int)
    requires Sound(p)
  {
    |Pins(p)| < BUFFER_SIZE || HeapKey(pid) in Pins(p)
  }

  lemma {:induction false} PinMoreAdds(pins: map<Key, int>, k: Key, n: nat, m: nat)
    ensures PinMore(PinMore(pins, k, n), k, m) == PinMore(pins, k, n + m)
  {
    if m > 0 {
      PinMoreAdds(pins, k, n, m - 1);
    }
  }

  lemma PinnedMoreTwice(p: Pool, q: Pool, r: Pool, pid: int, n: int, m: int)
    requires PinnedMore(p, q, pid, n) && PinnedMore(q, r, pid, m)
    ensures PinnedMore(p, r, pid, n + m)
  {
    PinMoreAdds(Pins(p), HeapKey(pid), n, m);
  }

  lemma PinnedMoreHeap(p: Pool, q: Pool, pid: int, n: int)
    requires PinnedMore(p, q, pid, n)
    ensures forall i: int :: HeapAt(q, i) == HeapAt(p, i)
  {
    SameFlatHeap(p, q);
  }

  class HeapScan {
    const pool: BufferPool
    const types: seq<ColumnType>
    var currPid: int
    var currSlot: int
    /** The rows whose locks the scan has asked for, in that order. */
    ghost var asked: seq<RowName>

    constructor (pool: BufferPool, types: seq<ColumnType>)
      ensures this.pool == pool && this.types == types && currPid == 0 && currSlot == 0 && asked == []
    {
      this.pool, this.types, currPid, currSlot, asked := pool, types, 0, 0, [];
    }

    ghost function Where(): Cursor
      reads this, pool, pool.frames, pool.disk
    {
      Cursor(pool.State(), currPid, currSlot, asked)
    }

    ghost predicate Ready()
      reads this, pool, pool.frames, pool.disk
    {
      pool.Valid() && At(Where(), types)
    }

    /** Reads the values of a row one after the other. */
    method ReadRow(h: HeapImage, start: nat) returns (row: Row)
      requires |h.data| == HEAP_PAYLOAD_SIZE && start + RowSize(types) <= HEAP_PAYLOAD_SIZE
      requires DecodeRow(types, h.data[start..]).Some?
      ensures row == DecodeRow(types, h.data[start..]).value
    {
      hide DecodeRow, DecodeValue, RowSize;
      row := [];
      var at := start;
      assert types[0..] == types;
      ghost var whole := DecodeRow(types, h.data[start..]).value;
      for i := 0 to |types|
        invariant 0 <= at && at + RowSize(types[i..]) <= HEAP_PAYLOAD_SIZE && DecodeRow(types[i..], h.data[at..]).Some?
        invariant whole == row + DecodeRow(types[i..], h.data[at..]).value
      {
        DecodeStep(types, i, h.data, at);
        var v := DecodeValue(types[i], h.data[at..]);
        row := row + [v.value];
        at := at + SizeOf(types[i]);
      }
      DecodeEnd(h.data[at..]);
      assert types[|types|..] == [];
    }

    /** Fetches the page under the cursor. */
    method Fetch(ghost p: Pool, ghost n: nat) returns (r: Result<HeapImage, PoolError>)
      requires pool.Valid() && PinnedMore(p, pool.State(), currPid, n)
      modifies pool, pool.frames, pool.disk
      ensures pool.Valid()
      ensures r.Success? ==>
        && r.value == HeapAt(p, currPid) && PinnedMore(p, pool.State(), currPid, n + 1)
        && Releasable(pool.State(), HeapKey(currPid))
      ensures currPid >= 0 && Room(p, currPid) ==> r.Success?
    {
      hide Sound, FetchedAs, Flat, Pins, HeapAt, PoolSpec.Value, PinnedMore;
      ghost var q := pool.State();
      PinnedMoreHeap(p, q, currPid, n);
      PinnedRoom(p, q, currPid, n);
      var page := pool.PageAccess(HeapKey(currPid));
      if page.Failure? {
        return Failure(page.error);
      }
      FetchedFrame(q, currPid, pool.State(), page.value);
      FetchedPins(q, currPid, pool.State(), page.value);
      PinnedOneMore(p, q, pool.State(), currPid, n + 1, page.value);
      return Success(pool.frames[page.value].data.heap);
    }

    method LetGo(ghost p: Pool, ghost n: nat)
      requires pool.Valid() && PinnedMore(p, pool.State(), currPid, n + 1)
      requires Releasable(pool.State(), HeapKey(currPid))
      modifies pool.frames
      ensures pool.Valid() && PinnedMore(p, pool.State(), currPid, n)
    {
      hide Sound, Flat, Pins, PinnedMore;
      ghost var q := pool.State();
      PinnedOneLess(p, q, currPid, n);
      var u := pool.Unpin(HeapKey(currPid));
      PinnedIs(p, q, pool.State(), currPid, n);
    }

    /**
      The next row that is not deleted. A deleted slot is skipped by fetching the page once more,
      without letting go of it.
     */
    method Scan() returns (r: ScanResult)
      requires Ready()
      modifies this, pool, pool.frames, pool.disk
      ensures pool.Valid()
      ensures old(Room(pool.State(), currPid)) ==> !r.Error?
      ensures ScannedAs(old(Where()), types, r, Where())
    {
      hide Sound, Flat, Pins, HeapAt, PinnedMore, RowsFrom, NamesFrom, DeletedFrom;
      ghost var p, slot0 := pool.State(), currSlot;
      ghost var h0 := HeapAt(p, currPid);
      PinnedNothing(p, currPid);
      while true
        invariant pool.Valid() && currPid == old(currPid) && slot0 <= currSlot <= h0.slotCount && asked == old(asked)
        invariant RowsFrom(h0, types, currSlot) == RowsFrom(h0, types, slot0)
        invariant NamesFrom(h0, currPid, currSlot) == NamesFrom(h0, currPid, slot0)
        invariant DeletedFrom(h0, slot0) >= DeletedFrom(h0, currSlot)
        invariant PinnedMore(p, pool.State(), currPid, DeletedFrom(h0, slot0) - DeletedFrom(h0, currSlot))
        decreases h0.slotCount - currSlot
      {
        ghost var skipped := DeletedFrom(h0, slot0) - DeletedFrom(h0, currSlot);
        SlotStep(h0, types, currPid, currSlot);
        var page := Fetch(p, skipped);
        if page.Failure? {
          return Error(page.error);
        }
        var h := page.value;
        if currSlot == h.slotCount {
          LetGo(p, skipped);
          currPid := currPid + 1;
          currSlot := 0;
          return EndOfPage;
        }
        var s := h.slots[currSlot];
        if !s.deleted {
          var row := ReadRow(h, s.offset);
          LetGo(p, skipped);
          currSlot := currSlot + 1;
          asked := asked + [NameOf(RID(currPid, s))];
          PinnedMoreHeap(p, pool.State(), currPid, skipped);
          return Next(row);
        }
        currSlot := currSlot + 1;
      }
    }
  }

  /** A row decoded from column i on is its value there and the row from the next column on. */
  lemma DecodeStep(types: seq<ColumnType>, i: nat, data: seq<Byte>, at: nat)
    requires i < |types| && at + RowSize(types[i..]) <= |data| && DecodeRow(types[i..], data[at..]).Some?
    ensures RowSize(types[i..]) == SizeOf(types[i]) + RowSize(types[i + 1..])
    ensures DecodeValue(types[i], data[at..]).Some? && DecodeRow(types[i + 1..], data[at + SizeOf(types[i])..]).Some?
    ensures DecodeRow(types[i..], data[at..]).value
      == [DecodeValue(types[i], data[at..]).value] + DecodeRow(types[i + 1..], data[at + SizeOf(types[i])..]).value
  {
    var ts, b := types[i..], data[at..];
    assert ts[0] == types[i] && ts[1..] == types[i + 1..];
    assert b[SizeOf(types[i])..] == data[at + SizeOf(types[i])..];
    hide DecodeValue;
  }

  lemma DecodeEnd(b: seq<Byte>)
    ensures DecodeRow([], b) == Some([])
  {
  }

  /** Where a scan is: the pool, the page and slot, and the locks asked for so far. */
  datatype Cursor = Cursor(pool: Pool, pid: int, slot: int, asked: seq<RowName>)

  ghost predicate At(c: Cursor, types: seq<ColumnType>) {
    Sound(c.pool) && c.pid >= 0 && Scannable(HeapAt(c.pool, c.pid), types)
        && 0 <= c.slot <= HeapAt(c.pool, c.pid).slotCount
  }

  /**
    One call of the scan: the first of the rows that are left, or the end of the page. It asks
    for the lock of the row it returns, and leaves one pin behind for every slot it skips.
   */
  ghost predicate ScannedAs(c: Cursor, types: seq<ColumnType>, r: ScanResult, d: Cursor)
    requires At(c, types)
  {
    var h := HeapAt(c.pool, c.pid);
    var rest := RowsFrom(h, types, c.slot);
    match r
    case Error(_) => true
    case EndOfPages => false
    case EndOfPage =>
      && rest == [] && NamesFrom(h, c.pid, c.slot) == [] && d.asked == c.asked
      && PinnedMore(c.pool, d.pool, c.pid, DeletedFrom(h, c.slot))
    case Next(row) =>
      && d.pid == c.pid && c.slot < d.slot <= h.slotCount
      && PinnedMore(c.pool, d.pool, c.pid, DeletedFrom(h, c.slot) - DeletedFrom(h, d.slot))
      && HeapAt(d.pool, c.pid) == h
      && rest == [row] + RowsFrom(h, types, d.slot)
      && c.asked + NamesFrom(h, c.pid, c.slot) == d.asked + NamesFrom(h, c.pid, d.slot)
  }

  /** One slot of the page, as the row, the name and the count see it. */
  lemma SlotStep(h: HeapImage, types: seq<ColumnType>, pid: int, i: nat)
    requires Scannable(h, types) && i <= h.slotCount
    ensures i == h.slotCount ==> RowsFrom(h, types, i) == [] && NamesFrom(h, pid, i) == [] && DeletedFrom(h, i) == 0
    ensures i < h.slotCount && h.slots[i].deleted ==>
      && RowsFrom(h, types, i) == RowsFrom(h, types, i + 1)
      && NamesFrom(h, pid, i) == NamesFrom(h, pid, i + 1)
      && DeletedFrom(h, i) == DeletedFrom(h, i + 1) + 1
    ensures i < h.slotCount && !h.slots[i].deleted ==>
      && SlotDecodes(h, types, i)
      && RowsFrom(h, types, i) == [ReadSlot(h, types, i).value] + RowsFrom(h, types, i + 1)
      && NamesFrom(h, pid, i) == [NameOf(RID(pid, h.slots[i]))] + NamesFrom(h, pid, i + 1)
      && DeletedFrom(h, i) == DeletedFrom(h, i + 1)
  {
  }

  lemma PinnedOneLess(p: Pool, q: Pool, pid: int, n: nat)
    requires PinnedMore(p, q, pid, n + 1)
    ensures Sound(p) && Sound(q) && HeapKey(pid) in q.table
    ensures Flat(q) == Flat(p) && PinDown(Pins(q), HeapKey(pid)) == PinMore(Pins(p), HeapKey(pid), n)
  {
    assert HeapKey(pid) in Pins(q);
    PinMorePositive(Pins(p), HeapKey(pid), n);
    PinUpDown(PinMore(Pins(p), HeapKey(pid), n), HeapKey(pid));
  }

  lemma {:induction false} PinMorePositive(pins: map<Key, int>, k: Key, n: nat)
    requires k in pins ==> pins[k] > 0
    ensures var more := PinMore(pins, k, n); k in more ==> more[k] > 0
  {
    if n > 0 {
      PinMorePositive(pins, k, n - 1);
    }
  }

  lemma PinnedIs(p: Pool, q: Pool, r: Pool, pid: int, n: nat)
    requires Sound(p) && Sound(q) && Sound(r) && Flat(q) == Flat(p) && Flat(r) == Flat(q)
    requires Pins(r) == PinMore(Pins(p), HeapKey(pid), n)
    ensures PinnedMore(p, r, pid, n)
  {
  }

  lemma PinnedNothing(p: Pool, pid: int)
    requires Sound(p)
    ensures PinnedMore(p, p, pid, 0)
  {
  }

  /** A page that was fetched again without being let go of is still there. */
  lemma PinnedRoom(p: Pool, q: Pool, pid: int, n: int)
    requires PinnedMore(p, q, pid, n)
    ensures Sound(p) && Sound(q)
    ensures Room(p, pid) ==> Room(q, pid) && (|Pins(q)| < BUFFER_SIZE || HeapKey(pid) in q.table)
  {
    if n > 0 {
      assert HeapKey(pid) in Pins(q);
    }
  }

  lemma PinnedOneMore(p: Pool, q: Pool, m: Pool, pid: int, n: int, f: nat)
    requires n > 0 && PinnedMore(p, q, pid, n - 1) && FetchedAs(q, HeapKey(pid), m, f)
    ensures PinnedMore(p, m, pid, n)
  {
  }

  // ---------- the filter ----------

  /** The scan has moved on from c to d, on the same page. */
  ghost predicate Passed(c: Cursor, types: seq<ColumnType>, d: Cursor)
    requires At(c, types)
  {
    var h := HeapAt(c.pool, c.pid);
    && d.pid == c.pid && c.slot <= d.slot <= h.slotCount
    && PinnedMore(c.pool, d.pool, c.pid, DeletedFrom(h, c.slot) - DeletedFrom(h, d.slot))
    && HeapAt(d.pool, c.pid) == h
    && c.asked + NamesFrom(h, c.pid, c.slot) == d.asked + NamesFrom(h, c.pid, d.slot)
  }

  /** The scan has come from c to the end of the page; every row's lock was asked for, in slot order. */
  ghost predicate PassedAll(c: Cursor, types: seq<ColumnType>, d: Cursor)
    requires At(c, types)
  {
    var h := HeapAt(c.pool, c.pid);
    PinnedMore(c.pool, d.pool, c.pid, DeletedFrom(h, c.slot)) && d.asked == c.asked + NamesFrom(h, c.pid, c.slot)
  }

  lemma PassedNothing(c: Cursor, types: seq<ColumnType>)
    requires At(c, types)
    ensures Passed(c, types, c)
  {
    PinnedNothing(c.pool, c.pid);
  }

  lemma PassedTwice(c: Cursor, types: seq<ColumnType>, d: Cursor, e: Cursor)
    requires At(c, types) && Passed(c, types, d) && At(d, types)
    ensures Passed(d, types, e) ==> Passed(c, types, e)
    ensures PassedAll(d, types, e) ==> PassedAll(c, types, e)
  {
    hide Sound, NamesFrom, DeletedFrom, PinnedMore;
    var h := HeapAt(c.pool, c.pid);
    if Passed(d, types, e) {
      PinnedMoreTwice(c.pool, d.pool, e.pool, c.pid, DeletedFrom(h, c.slot) - DeletedFrom(h, d.slot),
                      DeletedFrom(h, d.slot) - DeletedFrom(h, e.slot));
    }
    if PassedAll(d, types, e) {
      PinnedMoreTwice(c.pool, d.pool, e.pool, c.pid, DeletedFrom(h, c.slot) - DeletedFrom(h, d.slot),
          DeletedFrom(h, d.slot));
    }
  }

  lemma ScannedPassed(c: Cursor, types: seq<ColumnType>, r: ScanResult, d: Cursor)
    requires At(c, types) && ScannedAs(c, types, r, d)
    ensures r.Next? ==> Passed(c, types, d) && At(d, types) && c.slot < d.slot
    ensures r.EndOfPage? ==> PassedAll(c, types, d)
  {
  }

  ghost function RowsAt(c: Cursor, types: seq<ColumnType>): (rows: seq<Row>)
    requires At(c, types)
    ensures forall j :: 0 <= j < |rows| ==> |rows[j]| == |types|
  {
    RowsFrom(HeapAt(c.pool, c.pid), types, c.slot)
  }

  /** One call of the filter: the first of the rows left that match, or the end. */
  ghost predicate FilteredAs(c: Cursor, types: seq<ColumnType>, cond: Condition, floats: FloatOp, r: ScanResult,
                             d: Cursor)
    requires At(c, types) && Fits(cond, |types|)
  {
    var rest := Filtered(RowsAt(c, types), cond, floats);
    match r
    case Error(_) => true
    case EndOfPage => false
    case EndOfPages => rest == [] && PassedAll(c, types, d)
    case Next(row) =>
      && Passed(c, types, d) && At(d, types) && c.slot < d.slot && |row| == |types|
      && rest == [row] + Filtered(RowsAt(d, types), cond, floats)
  }

  lemma FilterEnds(c: Cursor, types: seq<ColumnType>, r: ScanResult, d: Cursor, cond: Condition, floats: FloatOp)
    requires At(c, types) && Fits(cond, |types|) && ScannedAs(c, types, r, d)
    ensures !r.EndOfPages? && (r.Error? ==> FilteredAs(c, types, cond, floats, r, d))
    ensures r.EndOfPage? ==> FilteredAs(c, types, cond, floats, EndOfPages, d)
    ensures r.Next? ==>
      && At(d, types) && |r.row| == |types|
      && (Holds(cond, r.row, floats) ==> FilteredAs(c, types, cond, floats, r, d))
      && (!Holds(cond, r.row, floats) ==>
            Passed(c, types, d) && c.slot < d.slot
            && Filtered(RowsAt(c, types), cond, floats) == Filtered(RowsAt(d, types), cond, floats))
  {
    ScannedPassed(c, types, r, d);
    if r.Next? {
      assert RowsAt(c, types) == [r.row] + RowsAt(d, types);
      assert RowsAt(c, types)[0] == r.row && RowsAt(c, types)[1..] == RowsAt(d, types);
      hide Sound, HeapAt, PinnedMore, RowsAt, Passed, PassedAll, At;
    }
  }

  lemma FilterSkips(c: Cursor, types: seq<ColumnType>, d: Cursor, r: ScanResult, e: Cursor, cond: Condition,
                    floats: FloatOp)
    requires At(c, types) && Fits(cond, |types|) && Passed(c, types, d) && At(d, types)
    requires Filtered(RowsAt(c, types), cond, floats) == Filtered(RowsAt(d, types), cond, floats)
    requires FilteredAs(d, types, cond, floats, r, e)
    ensures FilteredAs(c, types, cond, floats, r, e)
  {
    PassedTwice(c, types, d, e);
    hide Sound, HeapAt, PinnedMore, RowsAt, PassedAll, At;
  }

  class Filter {
    const scan: HeapScan
    const cond: Condition
    const floats: FloatOp

    constructor (scan: HeapScan, cond: Condition, floats: FloatOp)
      ensures this.scan == scan && this.cond == cond && this.floats == floats
    {
      this.scan, this.cond, this.floats := scan, cond, floats;
    }

    method Pull() returns (r: ScanResult)
      requires scan.Ready() && Fits(cond, |scan.types|)
      modifies scan, scan.pool, scan.pool.frames, scan.pool.disk
      ensures scan.pool.Valid()
      ensures FilteredAs(old(scan.Where()), scan.types, cond, floats, r, scan.Where())
      ensures old(Room(scan.pool.State(), scan.currPid)) ==> !r.Error?
    {
      hide Sound, HeapAt, RowsAt, Passed, PassedAll, FilteredAs, ScannedAs, Filtered, Scannable, Pins, Flat, PinnedMore;
      ghost var c := scan.Where();
      ghost var top := HeapAt(c.pool, c.pid).slotCount;
      PassedNothing(c, scan.types);
      while true
        invariant scan.Ready() && scan.currSlot <= top
        invariant Room(c.pool, c.pid) ==> Room(scan.pool.State(), scan.currPid)
        invariant Passed(c, scan.types, scan.Where())
        invariant Filtered(RowsAt(c, scan.types), cond, floats)
            == Filtered(RowsAt(scan.Where(), scan.types), cond, floats)
        decreases top - scan.currSlot
      {
        ghost var d := scan.Where();
        r := scan.Scan();
        ghost var e := scan.Where();
        FilterEnds(d, scan.types, r, e, cond, floats);
        if r.EndOfPage? || r.EndOfPages? {
          r := EndOfPages;
          FilterSkips(c, scan.types, d, r, e, cond, floats);
          return;
        }
        if r.Error? {
          FilterSkips(c, scan.types, d, r, e, cond, floats);
          return;
        }
        if cond.Always? || Matches(cond.op, r.row[cond.column], cond.constant, floats) {
          FilterSkips(c, scan.types, d, r, e, cond, floats);
          return;
        }
        PassedTwice(c, scan.types, d, e);
        PassedBound(c, scan.types, e);
      }
    }
  }

  lemma PassedBound(c: Cursor, types: seq<ColumnType>, d: Cursor)
    requires At(c, types) && Passed(c, types, d)
    ensures d.pid == c.pid && d.slot <= HeapAt(c.pool, c.pid).slotCount
    ensures Sound(d.pool) && (Room(c.pool, c.pid) ==> Room(d.pool, d.pid))
  {
    hide Sound, HeapAt, DeletedFrom, NamesFrom, PinnedMore, Room;
    var h := HeapAt(c.pool, c.pid);
    PinnedRoom(c.pool, d.pool, c.pid, DeletedFrom(h, c.slot) - DeletedFrom(h, d.slot));
  }

  // ---------- the projection ----------

  lemma ProjectedStep(row: Row, rest: seq<Row>, indices: seq<nat>, columns: nat)
    requires Within(indices, columns) && |row| == columns && forall j :: 0 <= j < |rest| ==> |rest[j]| == columns
    ensures Projected([row] + rest, indices, columns) == [Project(row, indices)] + Projected(rest, indices, columns)
  {
    var l, r := Projected([row] + rest, indices, columns), [Project(row, indices)] + Projected(rest, indices, columns);
    assert |l| == |r| && forall j :: 0 <= j < |l| ==> l[j] == r[j];
  }

  /** The answers the projection still has to give. */
  ghost function Left(c: Cursor, types: seq<ColumnType>, cond: Condition, floats: FloatOp, indices: seq<nat>): seq<Row>
    requires At(c, types) && Fits(cond, |types|) && Within(indices, |types|)
  {
    Projected(Filtered(RowsAt(c, types), cond, floats), indices, |types|)
  }

  /** One call of the projection. */
  ghost predicate PulledAs(c: Cursor, types: seq<ColumnType>, cond: Condition, floats: FloatOp, indices: seq<nat>,
                           r: ScanResult, d: Cursor)
    requires At(c, types) && Fits(cond, |types|) && Within(indices, |types|)
  {
    match r
    case Error(_) => true
    case EndOfPage => false
    case EndOfPages => Left(c, types, cond, floats, indices) == [] && PassedAll(c, types, d)
    case Next(row) =>
      && Passed(c, types, d) && At(d, types) && c.slot < d.slot
      && Left(c, types, cond, floats, indices) == [row] + Left(d, types, cond, floats, indices)
  }

  lemma PulledFrom(c: Cursor, types: seq<ColumnType>, cond: Condition, floats: FloatOp, indices: seq<nat>,
                   r: ScanResult, d: Cursor)
    requires At(c, types) && Fits(cond, |types|) && Within(indices, |types|) && FilteredAs(c, types, cond, floats, r, d)
    ensures
      var out := match r case Next(whole) => if |whole|
          == |types| then Next(Project(whole, indices)) else r case _ => r;
      PulledAs(c, types, cond, floats, indices, out, d)
    ensures r.Next? ==> |r.row| == |types|
  {
    hide Sound, HeapAt, PinnedMore, RowsAt, Passed, PassedAll, At, Projected, Filtered;
    if r.Next? {
      ProjectedStep(r.row, Filtered(RowsAt(d, types), cond, floats), indices, |types|);
    }
  }

  class Projection {
    const filter: Filter
    var indices: seq<nat>

    constructor (filter: Filter)
      ensures this.filter == filter && indices == []
    {
      this.filter, indices := filter, [];
    }

    /** Looks one asked column up. */
    method FindColumn(columns: seq<string>, name: string)
      modifies this
      ensures indices == old(indices) + PositionsFrom(columns, name, 0)
    {
      ghost var want := indices + PositionsFrom(columns, name, 0);
      for i := 0 to |columns|
        invariant indices + PositionsFrom(columns, name, i) == want
      {
        ghost var rest := PositionsFrom(columns, name, i + 1);
        if columns[i] == name {
          assert indices + ([i] + rest) == indices + [i] + rest;
          indices := indices + [i];
        }
      }
    }

    /** Looks the asked columns up, one after the other. */
    method Init(columns: seq<string>, names: seq<string>)
      requires indices == []
      modifies this
      ensures indices == Indices(columns, names)
    {
      hide PositionsFrom;
      for n := 0 to |names|
        invariant indices == Indices(columns, names[..n])
      {
        FindColumn(columns, names[n]);
        assert names[..n + 1][..n] == names[..n];
      }
      assert names[..|names|] == names;
    }

    method Pull() returns (r: ScanResult)
      requires filter.scan.Ready() && Fits(filter.cond, |filter.scan.types|) && Within(indices, |filter.scan.types|)
      modifies filter.scan, filter.scan.pool, filter.scan.pool.frames, filter.scan.pool.disk
      ensures filter.scan.pool.Valid()
      ensures PulledAs(old(filter.scan.Where()), filter.scan.types, filter.cond, filter.floats, indices, r,
          filter.scan.Where())
      ensures old(Room(filter.scan.pool.State(), filter.scan.currPid)) ==> !r.Error?
    {
      hide FilteredAs, PulledAs, Sound, HeapAt;
      var whole := filter.Pull();
      PulledFrom(old(filter.scan.Where()), filter.scan.types, filter.cond, filter.floats, indices, whole,
          filter.scan.Where());
      if !whole.Next? {
        return whole;
      }
      var row := [];
      for j := 0 to |indices|
        invariant row == Project(whole.row, indices)[..j]
      {
        row := row + [whole.row[indices[j]]];
      }
      assert Project(whole.row, indices)[..|indices|] == Project(whole.row, indices);
      return Next(row);
    }
  }

  // ---------- the driver ----------

  datatype SelectError = NoColumn | ScanFailed

  /** The predicate of a SELECT: a column by name, a comparison, and a constant of the column's type. */
  datatype Predicate = Predicate(column: string, op: CompareOp, constant: HeapRows.Value)

  /** The filter's condition; none when the column does not exist. */
  function ConditionOf(columns: seq<string>, p: Option<Predicate>): (c: Option<Condition>)
    ensures c.None? <==> p.Some? && p.value.column !in columns
    ensures c.Some? ==> Fits(c.value, |columns|)
    ensures c.Some? && p.None? ==> c.value == Always
    ensures c.Some? && p.Some? ==>
      && c.value.Compare? && columns[c.value.column] == p.value.column
      && (forall i :: 0 <= i < c.value.column ==> columns[i] != p.value.column)
      && c.value.op == p.value.op && c.value.constant == p.value.constant
  {
    match p
    case None => Some(Always)
    case Some(q) =>
      var at := PositionsFrom(columns, q.column, 0);
      assert forall k :: 0 <= k < |columns| && columns[k] == q.column ==> k in at;
      PositionsRise(columns, q.column, 0);
      if at == [] then None else assert at[0] in at; Some(Compare(at[0], q.op, q.constant))
  }

  /** Finds the predicate's column. */
  method InitFilter(columns: seq<string>, p: Option<Predicate>) returns (c: Option<Condition>)
    ensures c == ConditionOf(columns, p)
  {
    if p.None? {
      return Some(Always);
    }
    var i := 0;
    while i < |columns|
      invariant i <= |columns| && PositionsFrom(columns, p.value.column, i) == PositionsFrom(columns, p.value.column, 0)
    {
      if columns[i] == p.value.column {
        return Some(Compare(i, p.value.op, p.value.constant));
      }
      i := i + 1;
    }
    return None;
  }

  /** What a SELECT over a page answers. */
  ghost function Answer(h: HeapImage, types: seq<ColumnType>, cond: Condition, floats: FloatOp,
                        indices: seq<nat>): seq<Row>
    requires Scannable(h, types) && Fits(cond, |types|) && Within(indices, |types|)
  {
    Projected(Filtered(RowsFrom(h, types, 0), cond, floats), indices, |types|)
  }

  /**
    Runs a SELECT. It reads page 0 only, answers with the asked columns of its matching rows in
    slot order, asks for the lock of every live row on the way, and reports the operation as
    incomplete whatever happens.
   */
  method SelectPlan(pool: BufferPool, columns: seq<string>, types: seq<ColumnType>, names: seq<string>,
                    condition: Option<Predicate>, floats: FloatOp)
    returns (r: Result<seq<Row>, SelectError>, complete: bool, ghost asked: seq<RowName>)
    requires pool.Valid() && |columns| == |types| && Scannable(HeapAt(pool.State(), 0), types)
    modifies pool, pool.frames, pool.disk
    ensures pool.Valid() && !complete
    ensures ConditionOf(columns, condition).None? ==> r == Failure(NoColumn) && pool.State() == old(pool.State())
    ensures ConditionOf(columns, condition).Some? && old(Room(pool.State(), 0)) ==> r.Success?
    ensures r.Success? ==>
      && ConditionOf(columns, condition).Some?
      && r.value == Answer(HeapAt(old(pool.State()), 0), types, ConditionOf(columns, condition).value, floats,
          Indices(columns, names))
      && asked == NamesFrom(HeapAt(old(pool.State()), 0), 0, 0)
      && PinnedMore(old(pool.State()), pool.State(), 0, DeletedFrom(HeapAt(old(pool.State()), 0), 0))
  {
    hide FilteredAs, PulledAs, Sound, HeapAt, Passed, PassedAll, Left, Answer, PinnedMore, Room, ConditionOf;
    complete := false;
    asked := [];
    var scan := new HeapScan(pool, types);
    ghost var c := scan.Where();
    var cond := InitFilter(columns, condition);
    if cond.None? {
      return Failure(NoColumn), complete, asked;
    }
    var filter := new Filter(scan, cond.value, floats);
    var project := new Projection(filter);
    project.Init(columns, names);
    var indices := project.indices;
    var rows := [];
    ghost var top := HeapAt(c.pool, 0).slotCount;
    PassedNothing(c, types);
    ghost var d := c;
    var row := project.Pull();
    while row.Next?
      invariant project.indices == indices && (complete ==> row.Next?)
      invariant pool.Valid() && At(d, types) && Passed(c, types, d) && d.slot <= top
      invariant PulledAs(d, types, cond.value, floats, indices, row, scan.Where())
      invariant rows + Left(d, types, cond.value, floats, indices) == Left(c, types, cond.value, floats, indices)
      invariant Room(c.pool, 0) ==> !row.Error?
      decreases top - d.slot
    {
      rows := rows + [row.row];
      ghost var e := scan.Where();
      PulledNext(c, types, cond.value, floats, indices, d, row, e);
      d := e;
      row := project.Pull();
      complete := row.Next?;
    }
    if row.Error? {
      return Failure(ScanFailed), complete, asked;
    }
    PulledEnd(c, types, cond.value, floats, indices, d, row, scan.Where());
    asked := scan.asked;
    return Success(rows), complete, asked;
  }

  lemma PulledNext(c: Cursor, types: seq<ColumnType>, cond: Condition, floats: FloatOp, indices: seq<nat>, d: Cursor,
                   r: ScanResult, e: Cursor)
    requires At(c, types) && Fits(cond, |types|) && Within(indices, |types|) && Passed(c, types, d) && At(d, types)
    requires PulledAs(d, types, cond, floats, indices, r, e) && r.Next?
    ensures At(e, types) && Passed(c, types, e) && d.slot < e.slot <= HeapAt(c.pool, c.pid).slotCount && e.pid == c.pid
    ensures Left(d, types, cond, floats, indices) == [r.row] + Left(e, types, cond, floats, indices)
    ensures Room(c.pool, c.pid) ==> Room(e.pool, e.pid)
  {
    hide Sound, HeapAt, PinnedMore, Left, Passed, Scannable, Room;
    PassedTwice(c, types, d, e);
    PassedBound(c, types, e);
  }

  lemma PulledEnd(c: Cursor, types: seq<ColumnType>, cond: Condition, floats: FloatOp, indices: seq<nat>, d: Cursor,
                  r: ScanResult, e: Cursor)
    requires At(c, types) && Fits(cond, |types|) && Within(indices, |types|) && Passed(c, types, d) && At(d, types)
    requires PulledAs(d, types, cond, floats, indices, r, e) && !r.Next? && !r.Error? && c.slot == 0
    ensures Left(d, types, cond, floats, indices) == []
    ensures Left(c, types, cond, floats, indices) == Answer(HeapAt(c.pool, c.pid), types, cond, floats, indices)
    ensures e.asked == c.asked + NamesFrom(HeapAt(c.pool, c.pid), c.pid, 0)
    ensures PinnedMore(c.pool, e.pool, c.pid, DeletedFrom(HeapAt(c.pool, c.pid), 0))
  {
    PassedTwice(c, types, d, e);
  }

  /** Over a page the heap writer filled, the answer is the comprehension over its rows; no pin is left behind. */
  lemma SelectOverPacked(h: HeapImage, rows: seq<Row>, types: seq<ColumnType>, cond: Condition, floats: FloatOp,
                         indices: seq<nat>)
    requires Packed(h, rows) && forall i :: 0 <= i < |rows| ==> Typed(rows[i], types) && PlainTexts(rows[i])
    requires Fits(cond, |types|) && Within(indices, |types|)
    ensures Scannable(h, types) && DeletedFrom(h, 0) == 0
    ensures forall i :: 0 <= i < |rows| ==> |rows[i]| == |types|
    ensures Answer(h, types, cond, floats, indices) == Projected(Filtered(rows, cond, floats), indices, |types|)
    ensures |NamesFrom(h, 0, 0)| == |rows|
    ensures forall i :: 0 <= i < |rows| ==> NamesFrom(h, 0, 0)[i] == NameOf(RID(0, h.slots[i]))
  {
    PackedScans(h, rows, types, 0);
  }
}
