/**
  The rows no later row is written over: those whose slot is on their page on disk, above its
  free space. Which they are is part of what pages start from, so that everything that keeps a
  disk recoverable keeps them too.
 */
module KeptRows {
  import opened StorageTypes
  import opened Disks
  import opened PoolSpec
  import opened HeapRows
  import opened HeapSpec
  import opened LogFormat
  import opened Redo
  import opened Recovery
  import opened InsertEntry

  /** The record's page on disk lists its row. */
  ghost predicate Held(d: DiskImage, r: Record) {
    DiskSound(d) && Listed(HeapOf(d)[r.rid.pid], r.rid.slot)
  }

  /** The record's row is one of those its page must not lose. */
  ghost predicate KeptBy(base: Base, r: Record)
    requires BaseTotal(base)
  {
    r.rid.slot in base[r.rid.pid].kept
  }

  /** The same contents, and every row that is kept by the one is kept by the other. */
  ghost predicate Firmer(strong: PageBase, weak: PageBase) {
    strong.data == weak.data && weak.kept <= strong.kept
  }

  ghost predicate AllFirmer(strong: Base, weak: Base) {
    BaseTotal(strong) && BaseTotal(weak) && forall p: int :: Firmer(strong[p], weak[p])
  }

  /** Only the contents a page starts from matter to what its rows make of them. */
  lemma {:induction false} SameData(a: PageBase, b: PageBase, rs: seq<Record>, p: int)
    requires |a.data| == HEAP_PAYLOAD_SIZE && a.data == b.data && AllFit(rs)
    ensures DataAfter(a, rs, p) == DataAfter(b, rs, p)
  {
    if rs != [] {
      SameData(a, b, rs[..|rs| - 1], p);
    }
  }

  lemma FirmerPage(h: HeapImage, strong: PageBase, weak: PageBase, rs: seq<Record>, p: int)
    requires |strong.data| == HEAP_PAYLOAD_SIZE && AllFit(rs) && Firmer(strong, weak)
    ensures PageConsistent(h, strong, rs, p) ==> PageConsistent(h, weak, rs, p)
    ensures PageComplete(h, strong, rs, p) <==> PageComplete(h, weak, rs, p)
    ensures PageConsistent(h, strong, rs, p) <==> PageConsistent(h, weak, rs, p) && Spares(h, strong)
  {
    SameData(strong, weak, rs, p);
    if h.lsn <= |rs| {
      SameData(strong, weak, rs[..h.lsn], p);
    }
  }

  lemma FirmerRecoverable(d: DiskImage, strong: Base, weak: Base, rs: seq<Record>)
    requires AllFirmer(strong, weak) && Recoverable(d, strong, rs)
    ensures Recoverable(d, weak, rs)
  {
    hide GoodLog, LogFile, HeapOf, DiskSound, PageConsistent, Firmer;
    forall p: int ensures PageConsistent(HeapOf(d)[p], weak[p], rs, p) {
      FirmerPage(HeapOf(d)[p], strong[p], weak[p], rs, p);
      assert PageConsistent(HeapOf(d)[p], strong[p], rs, p);
    }
  }

  /** A recoverable disk is as good for the firmer base its own pages allow. */
  lemma FirmRecoverable(d: DiskImage, strong: Base, weak: Base, rs: seq<Record>)
    requires AllFirmer(strong, weak) && Recoverable(d, weak, rs)
    requires forall p: int :: Spares(HeapOf(d)[p], strong[p])
    ensures Recoverable(d, strong, rs)
  {
    hide GoodLog, LogFile, HeapOf, DiskSound, PageConsistent, Firmer, Spares;
    forall p: int ensures PageConsistent(HeapOf(d)[p], strong[p], rs, p) {
      FirmerPage(HeapOf(d)[p], strong[p], weak[p], rs, p);
      assert PageConsistent(HeapOf(d)[p], weak[p], rs, p);
    }
  }

  lemma FirmerSettled(p: Pool, strong: Base, weak: Base, rs: seq<Record>, busy: set<int>)
    requires AllFirmer(strong, weak) && Settled(p, strong, rs, busy)
    ensures Settled(p, weak, rs, busy)
  {
    hide Sound, Settled, Recoverable, PageConsistent, PageComplete, Firmer, LogFile, HeapAt, Pins;
    SettledPages(p, strong, rs, busy);
    FirmerRecoverable(p.disk, strong, weak, rs);
    forall pid: int | pid >= 0 && pid !in busy
      ensures PageConsistent(HeapAt(p, pid), weak[pid], rs, pid) && PageComplete(HeapAt(p, pid), weak[pid], rs, pid)
    {
      FirmerPage(HeapAt(p, pid), strong[pid], weak[pid], rs, pid);
    }
    SettledFrom(p, weak, rs, busy);
  }

  /** A disk that is recoverable holds every row its base keeps. */
  lemma KeptIsHeld(d: DiskImage, base: Base, rs: seq<Record>, r: Record)
    requires Recoverable(d, base, rs) && KeptBy(base, r)
    ensures Held(d, r)
  {
    hide GoodLog, LogFile, HeapOf, DiskSound;
    assert PageConsistent(HeapOf(d)[r.rid.pid], base[r.rid.pid], rs, r.rid.pid);
  }

  lemma FirmerKeeps(strong: Base, weak: Base, r: Record)
    requires AllFirmer(strong, weak) && KeptBy(weak, r)
    ensures KeptBy(strong, r)
  {
    assert Firmer(strong[r.rid.pid], weak[r.rid.pid]);
  }

  lemma FirmerTwice(a: Base, b: Base, c: Base)
    requires AllFirmer(a, b) && AllFirmer(b, c)
    ensures AllFirmer(a, c)
  {
    forall p: int ensures Firmer(a[p], c[p]) {
      assert Firmer(a[p], b[p]) && Firmer(b[p], c[p]);
    }
  }

  // ---------- keeping one more row ----------

  /** The base with the row of a record kept from now on. */
  ghost function Keeping(base: Base, r: Record): (b: Base)
    requires BaseTotal(base)
    ensures BaseTotal(b) && AllFirmer(b, base) && KeptBy(b, r)
  {
    var pid := r.rid.pid;
    base[pid := base[pid].(kept := base[pid].kept + {r.rid.slot})]
  }

  /** A row whose slot is on its page, in memory and on disk, can be kept from now on. */
  lemma KeepingSettles(p: Pool, base: Base, rs: seq<Record>, r: Record)
    requires Settled(p, base, rs, NONE) && Listed(HeapAt(p, r.rid.pid), r.rid.slot) && Held(p.disk, r)
    ensures BaseTotal(base) && Settled(p, Keeping(base, r), rs, NONE)
  {
    SettledPages(p, base, rs, NONE);
    var b := Keeping(base, r);
    KeepingRecoverable(p.disk, base, rs, r);
    hide Sound, Settled, Recoverable, PageComplete, LogFile, HeapAt, Pins, Listed, Held, DataAfter;
    forall pid: int | pid >= 0
      ensures PageConsistent(HeapAt(p, pid), b[pid], rs, pid) && PageComplete(HeapAt(p, pid), b[pid], rs, pid)
    {
      assert PageConsistent(HeapAt(p, pid), base[pid], rs, pid);
      KeepingPage(HeapAt(p, pid), base, rs, r, pid);
    }
    SettledFrom(p, b, rs, NONE);
  }

  lemma KeepingPage(h: HeapImage, base: Base, rs: seq<Record>, r: Record, p: int)
    requires BaseTotal(base) && AllFit(rs) && PageConsistent(h, base[p], rs, p)
        && (p == r.rid.pid ==> Listed(h, r.rid.slot))
    ensures PageConsistent(h, Keeping(base, r)[p], rs, p)
    ensures PageComplete(h, base[p], rs, p) ==> PageComplete(h, Keeping(base, r)[p], rs, p)
  {
    var b := Keeping(base, r);
    assert Spares(h, b[p]);
    hide PageConsistent, PageComplete, Spares;
    SameData(b[p], base[p], rs, p);
    FirmerPage(h, b[p], base[p], rs, p);
  }

  lemma KeepingRecoverable(d: DiskImage, base: Base, rs: seq<Record>, r: Record)
    requires Recoverable(d, base, rs) && Held(d, r)
    ensures Recoverable(d, Keeping(base, r), rs)
  {
    var b := Keeping(base, r);
    hide GoodLog, LogFile, HeapOf, DiskSound, DataAfter;
    forall p: int ensures Spares(HeapOf(d)[p], b[p]) {
      assert PageConsistent(HeapOf(d)[p], base[p], rs, p);
    }
    FirmRecoverable(d, b, base, rs);
  }

  // ---------- keeping what a disk holds ----------

  /** The base with every row kept that has its slot on this disk. */
  ghost function Fixed(base: Base, d: DiskImage): (b: Base)
    requires BaseTotal(base) && DiskSound(d)
    ensures BaseTotal(b)
  {
    imap p: int | true :: PageBase(base[p].data, SlotsOn(HeapOf(d)[p]))
  }

  /** The slots a page lists above its free space. */
  ghost function SlotsOn(h: HeapImage): (slots: set<Slot>)
    ensures forall s :: s in slots <==> Listed(h, s)
  {
    if h.initialized then set j | 0 <= j < h.slotCount && j < |h.slots| && h.freeSize <= h.slots[j].offset :: h.slots[j]
    else {}
  }

  /** What a crash leaves is recoverable with every row kept that it holds, and all kept before. */
  lemma FixedRecoverable(d: DiskImage, base: Base, rs: seq<Record>)
    requires Recoverable(d, base, rs)
    ensures DiskSound(d) && BaseTotal(base) && AllFirmer(Fixed(base, d), base) && Recoverable(d, Fixed(base, d), rs)
    ensures forall r: Record :: Held(d, r) ==> KeptBy(Fixed(base, d), r)
  {
    var b := Fixed(base, d);
    hide GoodLog, LogFile, HeapOf, DiskSound, DataAfter;
    forall p: int ensures Firmer(b[p], base[p]) && Spares(HeapOf(d)[p], b[p]) {
      assert PageConsistent(HeapOf(d)[p], base[p], rs, p);
    }
    forall r: Record | Held(d, r) ensures KeptBy(b, r) {
      assert PageConsistent(HeapOf(d)[r.rid.pid], base[r.rid.pid], rs, r.rid.pid);
    }
    FirmRecoverable(d, b, base, rs);
  }

  // ---------- inserting beside kept rows ----------

  /** An accepted row goes below everything its page holds. */
  lemma NewRowBelow(h: HeapImage, row: Row, lsn: nat, r: Record)
    requires HeapReadable(h) && StorableRow(row)
    requires WriteRow(h, row).1 == Success(r.rid.slot) && r.row == RowBytes(row)
    ensures Listed(WriteRow(h, row).0.(lsn := lsn), r.rid.slot)
    ensures forall s :: Listed(h, s) ==> r.rid.slot.offset + |r.row| <= s.offset
  {
    assert WriteRow(h, row).0.slots[Initialized(h).slotCount] == r.rid.slot;
  }

  /** A row accepted by a settled pool does not touch a kept one. */
  lemma InsertSpares(p: Pool, base: Base, rs: seq<Record>, row: Row, r: Record, o: Record)
    requires Settled(p, base, rs, NONE) && StorableRow(row) && r.rid.pid >= 0 && HeapReadable(HeapAt(p, r.rid.pid))
    requires WriteRow(HeapAt(p, r.rid.pid), row).1 == Success(r.rid.slot) && r.row == RowBytes(row)
    ensures BaseTotal(base) && (KeptBy(base, o) ==> Apart(o, r))
  {
    SettledPages(p, base, rs, NONE);
    if KeptBy(base, o) && o.rid.pid == r.rid.pid {
      KeptAbove(HeapAt(p, r.rid.pid), base, rs, o);
      NewRowBelow(HeapAt(p, r.rid.pid), row, 0, r);
    }
  }

  lemma KeptAbove(h: HeapImage, base: Base, rs: seq<Record>, o: Record)
    requires BaseTotal(base) && AllFit(rs) && PageConsistent(h, base[o.rid.pid], rs, o.rid.pid) && KeptBy(base, o)
    ensures Listed(h, o.rid.slot)
  {
  }

  /** Once inserted it can be kept as well: its slot is on its page, in memory and on disk. */
  lemma InsertedKept(p: Pool, row: Row, lsn: nat, q: Pool, base: Base, rs: seq<Record>, r: Record)
    requires Sound(p) && Settled(q, base, rs, NONE) && StorableRow(row) && HeapReadable(HeapAt(p, r.rid.pid))
    requires WriteRow(HeapAt(p, r.rid.pid), row).1 == Success(r.rid.slot) && r.row == RowBytes(row)
    requires InsertedAs(p, r.rid.pid, row, lsn, q)
    ensures BaseTotal(base) && Settled(q, Keeping(base, r), rs, NONE)
  {
    SettledPages(q, base, rs, NONE);
    var pid := r.rid.pid;
    NewRowBelow(HeapAt(p, pid), row, lsn, r);
    ChangedHeap(p, pid, WriteRow(HeapAt(p, pid), row).0.(lsn := lsn), q, pid);
    FlatHeapAt(q, pid);
    assert ReadPage(q.disk, HeapKey(pid)) == Flat(q)[HeapKey(pid)];
    hide Sound, Flat, Pins, HeapAt, WriteRow, Settled, HeapReadable, ReadPage;
    assert HeapOf(q.disk)[pid] == HeapAt(q, pid);
    KeepingSettles(q, base, rs, r);
  }
}
