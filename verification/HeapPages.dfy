/** The heap writer at work on a page in memory. */
module HeapPages {
  import opened StorageTypes
  import opened Bytes
  import opened HeapRows
  import opened HeapSpec

  class HeapPageBuffer {
    var freeSize: int
    var slotCount: int
    var isInitialized: bool
    var lsn: nat
    const slots: array<Slot>
    const data: array<Byte>

    ghost function Image(): HeapImage
      reads this, slots, data
    {
      HeapImage(freeSize, slotCount, isInitialized, lsn, slots[..], data[..])
    }

    /** The typed view of a heap page's bytes. */
    constructor (h: HeapImage)
      requires HeapSized(h)
      ensures Image() == h && fresh(slots) && fresh(data)
    {
      freeSize, slotCount, isInitialized, lsn := h.freeSize, h.slotCount, h.initialized, h.lsn;
      slots := new Slot[MAX_SLOTS](i requires 0 <= i < MAX_SLOTS => h.slots[i]);
      data := new Byte[HEAP_PAYLOAD_SIZE](i requires 0 <= i < HEAP_PAYLOAD_SIZE => h.data[i]);
      new;
      assert slots[..] == h.slots && data[..] == h.data;
    }

    method Bytes() returns (h: HeapImage)
      ensures h == Image()
    {
      h := HeapImage(freeSize, slotCount, isInitialized, lsn, slots[..], data[..]);
    }

    method Initialize()
      modifies this
      ensures Image() == old(Image()).(initialized := true, freeSize := HEAP_PAYLOAD_SIZE, slotCount := 0)
    {
      isInitialized := true;
      freeSize := HEAP_PAYLOAD_SIZE;
      slotCount := 0;
    }

    /** Copies bytes into the payload. */
    method CopyIn(at: nat, b: seq<Byte>)
      requires at + |b| <= data.Length
      modifies data
      ensures data[..] == Overwrite(old(data[..]), at, b)
    {
      forall i | 0 <= i < |b| { data[at + i] := b[i]; }
      assert data[..] == Overwrite(old(data[..]), at, b);
    }

    /** Writes one value at its column; a string is followed by zeros up to its width. */
    method WriteValue(at: nat, v: Value) returns (next: nat)
      requires Storable(v) && at + |ValueBytes(v)| <= data.Length
      requires v.Text? ==> |v.s| <= STRING_MAX_SIZE
      modifies data
      ensures data[..] == Overwrite(old(data[..]), at, ValueBytes(v)) && next == at + |ValueBytes(v)|
    {
      match v
      case Integer(n) =>
        CopyIn(at, Int32ToBytes(n));
        next := at + 4;
      case Floating(bits) =>
        CopyIn(at, bits);
        next := at + 4;
      case Text(s) =>
        ghost var d := data[..];
        CopyIn(at, s);
        CopyIn(at + |s|, Zeros(STRING_MAX_SIZE - |s|));
        OverwriteJoined(d, at, s, Zeros(STRING_MAX_SIZE - |s|));
        assert |s| == STRING_MAX_SIZE ==> s + Zeros(0) == s[..STRING_MAX_SIZE];
        next := at + STRING_MAX_SIZE;
    }

    /** Writes the values of a row one after the other. */
    method WriteValues(start: nat, row: Row)
      requires StorableRow(row) && start + |RowBytes(row)| <= data.Length
      requires forall i :: 0 <= i < |row| && row[i].Text? ==> |row[i].s| <= STRING_MAX_SIZE
      modifies data
      ensures data[..] == Overwrite(old(data[..]), start, RowBytes(row))
    {
      ghost var d := data[..];
      var at := start;
      assert Overwrite(d, start, []) == d;
      for i := 0 to |row|
        invariant at == start + |RowBytes(row[..i])| && |RowBytes(row[..i])| <= |RowBytes(row)|
        invariant data[..] == Overwrite(d, start, RowBytes(row[..i]))
      {
        RowBytesPrefix(row, i);
        RowBytesAppend(row[..i], row[i]);
        assert row[..i + 1] == row[..i] + [row[i]];
        OverwriteJoined(d, start, RowBytes(row[..i]), ValueBytes(row[i]));
        at := WriteValue(at, row[i]);
      }
      assert row[..|row|] == row;
    }

    /**
      Adds a row: a slot, room at the low end of the used space, and the row's bytes there.
      The slot is taken before the room is checked. `sizes` are the column widths of the table.
     */
    method HeapWrite(row: Row, sizes: seq<nat>) returns (r: Result<Slot, HeapError>)
      requires HeapReadable(Image()) && StorableRow(row) && Sum(sizes) == |RowBytes(row)|
      requires forall i :: 0 <= i < |row| && row[i].Text? ==> |row[i].s| <= STRING_MAX_SIZE
      modifies this, slots, data
      ensures Image() == WriteRow(old(Image()), row).0 && r == WriteRow(old(Image()), row).1
    {
      if !isInitialized {
        Initialize();
      }
      if slotCount < MAX_SLOTS {
        slotCount := slotCount + 1;
      } else {
        return Failure(SlotsFull);
      }
      var rowSize := 0;
      for i := 0 to |sizes|
        invariant rowSize == Sum(sizes[..i])
      {
        assert sizes[..i + 1][..i] == sizes[..i];
        rowSize := rowSize + sizes[i];
      }
      assert sizes[..|sizes|] == sizes;
      var n := slotCount - 1;
      slots[n] := slots[n].(size := rowSize);
      if rowSize <= freeSize {
        freeSize := freeSize - rowSize;
      } else {
        return Failure(SpaceFull);
      }
      slots[n] := slots[n].(offset := freeSize);
      slots[n] := slots[n].(deleted := false);
      WriteValues(slots[n].offset, row);
      return Success(slots[n]);
    }
  }

  function Sum(s: seq<nat>): nat {
    if s == [] then 0 else Sum(s[..|s| - 1]) + s[|s| - 1]
  }

  /** The widths a table's columns give the planner. */
  function SizesOf(types: seq<ColumnType>): seq<nat> {
    seq(|types|, i requires 0 <= i < |types| => SizeOf(types[i]))
  }

  /** A row typed as its table takes exactly the sum of the column widths. */
  lemma {:induction false} TypedRowFits(row: Row, types: seq<ColumnType>)
    requires Typed(row, types)
    ensures StorableRow(row) && Sum(SizesOf(types)) == |RowBytes(row)|
    decreases |row|
  {
    if row != [] {
      var n := |row| - 1;
      TypedRowFits(row[..n], types[..n]);
      assert SizesOf(types)[..n] == SizesOf(types[..n]);
      assert row == row[..n] + [row[n]];
      RowBytesAppend(row[..n], row[n]);
    }
  }

  lemma {:induction false} RowBytesPrefix(row: Row, i: nat)
    requires StorableRow(row) && i < |row|
    ensures |RowBytes(row[..i])| + |ValueBytes(row[i])| <= |RowBytes(row)|
  {
    if i == 0 {
    } else {
      RowBytesPrefix(row[1..], i - 1);
      assert row[1..][..i - 1] == row[..i][1..];
    }
  }
}
