/**
  A SELECT over the page that inserts have filled. A row turned away for space leaves a live slot that
  leads to no row of its own, and the scan reads it all the same.
 */
module SelectFilled {
  import opened StorageTypes
  import opened PoolSpec
  import opened HeapRows
  import opened HeapSpec
  import opened Recovery
  import opened HeapGrowth
  import opened SelectSpec
  import Pipelines

  /** Of the rows offered while the page had a slot left, each was taken. */
  ghost predicate NoneTurnedAway(rows: seq<Row>)
    requires StorableRows(rows)
  {
    forall i :: 0 <= i < |rows| && i < MAX_SLOTS ==> Takes(rows[..i], rows[i])
  }

  function Turns(n: nat): nat {
    if n < MAX_SLOTS then n else MAX_SLOTS
  }

  lemma NoneTaken()
    ensures Taken([]) == []
  {
  }

  /** Then the page took just those. */
  lemma {:induction false} TakenAll(rows: seq<Row>)
    requires StorableRows(rows) && NoneTurnedAway(rows)
    ensures Taken(rows) == rows[..Turns(|rows|)]
  {
    hide Taken, Takes;
    if rows == [] {
      NoneTaken();
    } else {
      var before, row := rows[..|rows| - 1], rows[|rows| - 1];
      forall i | 0 <= i < |before| && i < MAX_SLOTS ensures Takes(before[..i], before[i]) {
        assert before[..i] == rows[..i];
      }
      TakenAll(before);
      TakenNext(before, row);
      assert rows == before + [row];
      LastTakes(before, row);
      assert |before| < MAX_SLOTS ==> Takes(rows[..|before|], rows[|before|]);
    }
  }

  lemma LastTakes(rows: seq<Row>, row: Row)
    requires StorableRows(rows) && StorableRow(row)
    ensures (rows + [row])[..|rows|] == rows
    ensures |rows| >= MAX_SLOTS ==> !Takes(rows, row)
    ensures (rows + [row])[..Turns(|rows| + 1)] == rows[..Turns(|rows|)] + if |rows| < MAX_SLOTS then [row] else []
  {
  }

  /** A row turned away leaves the page with fewer rows than slots. */
  lemma {:induction false} TakenFewer(rows: seq<Row>)
    requires StorableRows(rows)
    ensures |Taken(rows)| <= Turns(|rows|) && (|Taken(rows)| == Turns(|rows|) ==> NoneTurnedAway(rows))
  {
    hide Taken, Takes;
    if rows == [] {
      NoneTaken();
    } else {
      var before, row := rows[..|rows| - 1], rows[|rows| - 1];
      TakenFewer(before);
      TakenNext(before, row);
      assert rows == before + [row];
      LastTakes(before, row);
      if |Taken(rows)| == Turns(|rows|) {
        forall i | 0 <= i < |rows| && i < MAX_SLOTS ensures Takes(rows[..i], rows[i]) {
          if i < |before| {
            assert before[..i] == rows[..i] && before[i] == rows[i];
          }
        }
      }
    }
  }

  /** If no row was turned away for space, the page is packed with the rows it took. */
  lemma FilledIsPacked(h: HeapImage, rows: seq<Row>)
    requires Offered(h, rows) && rows != [] && NoneTurnedAway(rows)
    ensures Packed(h, Taken(rows))
  {
    TakenAll(rows);
    var taken := Taken(rows);
    hide Taken, Takes, TotalSize, RowBytes;
    forall i | 0 <= i < |taken| ensures SlotHolds(h, taken, i) {
      assert TurnHeld(h, rows, i) && Takes(rows[..i], rows[i]);
      PrefixTaken(rows, i);
      assert taken[..i] == rows[..i] && taken[i] == rows[i];
    }
  }

  lemma PrefixTaken(rows: seq<Row>, i: nat)
    requires StorableRows(rows) && NoneTurnedAway(rows) && i <= |rows| && i <= MAX_SLOTS
    ensures Taken(rows[..i]) == rows[..i]
  {
    forall j | 0 <= j < i ensures Takes(rows[..i][..j], rows[..i][j]) {
      assert rows[..i][..j] == rows[..j];
    }
    TakenAll(rows[..i]);
  }

  /** The scan returns a row for every slot of a page without deleted ones. */
  lemma {:induction false} RowPerSlot(h: HeapImage, types: seq<ColumnType>, i: nat)
    requires Scannable(h, types) && AllLive(h) && i <= h.slotCount
    ensures |RowsFrom(h, types, i)| == h.slotCount - i
    decreases h.slotCount - i
  {
    if i < h.slotCount {
      RowPerSlot(h, types, i + 1);
    }
  }

  lemma {:induction false} FilteredAlways(rows: seq<Row>, floats: FloatOp)
    ensures Filtered(rows, Always, floats) == rows
  {
    if rows != [] {
      FilteredAlways(rows[1..], floats);
    }
  }

  ghost predicate AllTyped(rows: seq<Row>, types: seq<ColumnType>) {
    forall i :: 0 <= i < |rows| ==> Typed(rows[i], types) && PlainTexts(rows[i])
  }

  lemma {:induction false} TakenFrom(rows: seq<Row>, types: seq<ColumnType>)
    requires StorableRows(rows) && AllTyped(rows, types)
    ensures AllTyped(Taken(rows), types)
  {
    if rows != [] {
      var n := |rows| - 1;
      assert AllTyped(rows[..n], types);
      TakenFrom(rows[..n], types);
    }
  }

  lemma TypedWidth(rows: seq<Row>, types: seq<ColumnType>)
    requires AllTyped(rows, types)
    ensures forall i :: 0 <= i < |rows| ==> |rows[i]| == |types|
  {
  }

  /** The answer to a SELECT is the comprehension over these rows. */
  ghost predicate AnswersAs(h: HeapImage, types: seq<ColumnType>, rows: seq<Row>, cond: Condition, floats: FloatOp,
                            indices: seq<nat>)
    requires Scannable(h, types) && AllTyped(rows, types) && Fits(cond, |types|) && Within(indices, |types|)
  {
    TypedWidth(rows, types);
    Pipelines.Answer(h, types, cond, floats, indices) == Projected(Filtered(rows, cond, floats), indices, |types|)
  }

  /**
    After any run of inserts: every SELECT over the page answers from exactly the rows the page took if
    and only if no row was turned away for space.
   */
  lemma SelectAfterFillIff(p: Pool, rows: seq<Row>, types: seq<ColumnType>, floats: FloatOp)
    requires Sound(p) && OnePage(p, rows) && rows != [] && AllLive(HeapAt(p, 0)) && Scannable(HeapAt(p, 0), types)
    requires StorableRows(rows) && AllTyped(rows, types)
    ensures AllTyped(Taken(rows), types)
    ensures
      (forall cond, indices :: Fits(cond, |types|) && Within(indices, |types|) ==>
         AnswersAs(HeapAt(p, 0), types, Taken(rows), cond, floats, indices))
      <==> NoneTurnedAway(rows)
  {
    var h := HeapAt(p, 0);
    TakenFrom(rows, types);
    hide Sound, HeapAt, Taken, Scannable, Offered;
    if NoneTurnedAway(rows) {
      FilledAnswers(h, rows, types, floats);
    } else {
      UnfilledAnswers(h, rows, types, floats);
      assert Within([], |types|);
      assert !AnswersAs(h, types, Taken(rows), Always, floats, []);
    }
  }

  lemma FilledAnswers(h: HeapImage, rows: seq<Row>, types: seq<ColumnType>, floats: FloatOp)
    requires Offered(h, rows) && rows != [] && NoneTurnedAway(rows) && Scannable(h, types)
        && AllTyped(Taken(rows), types)
    ensures forall cond, indices :: Fits(cond, |types|) && Within(indices, |types|) ==>
      AnswersAs(h, types, Taken(rows), cond, floats, indices)
  {
    FilledIsPacked(h, rows);
    PackedScans(h, Taken(rows), types, 0);
    hide Taken, Offered, Packed;
  }

  lemma UnfilledAnswers(h: HeapImage, rows: seq<Row>, types: seq<ColumnType>, floats: FloatOp)
    requires Offered(h, rows) && rows != [] && !NoneTurnedAway(rows) && AllLive(h) && Scannable(h, types)
    requires AllTyped(Taken(rows), types)
    ensures !AnswersAs(h, types, Taken(rows), Always, floats, [])
  {
    TakenFewer(rows);
    RowPerSlot(h, types, 0);
    FilteredAlways(Taken(rows), floats);
    FilteredAlways(RowsFrom(h, types, 0), floats);
    hide Taken, NoneTurnedAway, RowsFrom;
    TypedWidth(Taken(rows), types);
  }

  /** A page whose every slot was taken can be scanned; so the condition alone makes every SELECT right. */
  lemma FilledIsScannable(h: HeapImage, rows: seq<Row>, types: seq<ColumnType>)
    requires Offered(h, rows) && rows != [] && NoneTurnedAway(rows) && AllTyped(rows, types)
    ensures Scannable(h, types)
  {
    FilledIsPacked(h, rows);
    TakenFrom(rows, types);
    PackedScans(h, Taken(rows), types, 0);
  }
}
