/**
  What a crash may leave on disk, and what the pool must look like for no crash to lose a
  committed row: the log file holds the records, every page on disk is the image of some
  prefix of its own records, and so is every page the pool may write back.
 */
module Recovery {
  import opened StorageTypes
  import opened Bytes
  import opened Disks
  import opened PoolSpec
  import opened LogFormat
  import opened Redo

  function HeapKey(pid: int): Key {
    Key(HeapFile, pid)
  }

  ghost function HeapOf(d: DiskImage): (h: Heap)
    requires DiskSound(d)
    ensures HeapTotal(h)
  {
    imap p: int | true :: ReadPage(d, HeapKey(p)).heap
  }

  /** The heap page the pool answers with. */
  ghost function HeapAt(p: Pool, pid: int): (h: HeapImage)
    requires Sound(p)
    ensures HeapSized(h)
  {
    ValueTyped(p, HeapKey(pid));
    Value(p, HeapKey(pid)).heap
  }

  ghost function FlatHeap(p: Pool): (h: Heap)
    requires Sound(p)
    ensures HeapTotal(h)
  {
    imap pid: int | true :: HeapAt(p, pid)
  }

  lemma ValueTyped(p: Pool, k: Key)
    requires Sound(p)
    ensures PageOf(k.kind, Value(p, k))
  {
    if k in p.table {
      assert FrameSound(p.frames[p.table[k]], p.disk);
    }
  }

  lemma FlatHeapAt(p: Pool, pid: int)
    requires Sound(p)
    ensures Flat(p)[HeapKey(pid)].HeapPage? && HeapAt(p, pid) == Flat(p)[HeapKey(pid)].heap
  {
    ValueTyped(p, HeapKey(pid));
  }

  /** A change of one heap page changes no other. */
  lemma ChangedHeap(p: Pool, pid: int, h: HeapImage, q: Pool, i: int)
    requires Sound(p) && Sound(q) && Flat(q) == Flat(p)[HeapKey(pid) := HeapPage(h)]
    ensures HeapAt(q, i) == if i == pid then h else HeapAt(p, i)
  {
    FlatHeapAt(q, i);
    FlatHeapAt(p, i);
  }

  // ---------- the recovery guarantee ----------

  /** The disk holds a log with exactly these records, and pages replay can complete from them. */
  ghost predicate Recoverable(d: DiskImage, base: Base, rs: seq<Record>) {
    && BaseTotal(base) && GoodLog(rs) && DiskSound(d)
    && (exists tail :: d.wal == LogFile(rs, tail))
    && AllFit(rs) && Consistent(HeapOf(d), base, rs)
  }

  /** Replaying what the log of a recoverable disk holds gives every page all of its logged rows. */
  lemma Recovers(d: DiskImage, base: Base, rs: seq<Record>)
    requires Recoverable(d, base, rs)
    ensures Records(d.wal) == rs
    ensures var (heap, ok) := ReplayAll(rs, HeapOf(d));
      ok && forall p: int :: heap[p].data == DataAfter(base[p], rs, p) && heap[p].lsn <= |rs|
  {
    var tail :| d.wal == LogFile(rs, tail);
    LogRoundTrip(rs, tail);
    RedoComplete(HeapOf(d), base, rs);
  }

  // ---------- the pool between operations ----------

  /** No page is busy. */
  const NONE: set<int> := {}

  /**
    No eviction can break the guarantee: the disk is recoverable, and so is every page the
    pool may write back, that is, every page but the pinned ones that are busy.
   */
  ghost predicate Safe(p: Pool, base: Base, rs: seq<Record>, busy: set<int>) {
    && Sound(p) && Recoverable(p.disk, base, rs)
    && (forall pid: int :: pid >= 0 && pid !in busy ==> PageConsistent(HeapAt(p, pid), base[pid], rs, pid))
    && (forall b :: b in busy ==> HeapKey(b) in Pins(p))
  }

  /** A page that has all of its rows. */
  ghost predicate PageComplete(h: HeapImage, base: PageBase, rs: seq<Record>, p: int)
    requires |base.data| == HEAP_PAYLOAD_SIZE && AllFit(rs)
  {
    h.data == DataAfter(base, rs, p)
  }

  /** The pool holds every row of the log, which has nothing after its last record. */
  ghost predicate Settled(p: Pool, base: Base, rs: seq<Record>, busy: set<int>) {
    && Safe(p, base, rs, busy)
    && p.disk.wal == LogFile(rs, [])
    && forall pid: int :: pid >= 0 && pid !in busy ==> PageComplete(HeapAt(p, pid), base[pid], rs, pid)
  }

  /** One page of a sound disk written: the other pages are as they were. */
  lemma HeapWritten(d: DiskImage, k: Key, page: Page)
    requires DiskSound(d) && k.pid >= 0 && PageOf(k.kind, page)
    ensures DiskSound(WritePage(d, k, page)) && WritePage(d, k, page).wal == d.wal
    ensures HeapOf(WritePage(d, k, page)) == if k.kind == HeapFile then HeapOf(d)[k.pid := page.heap] else HeapOf(d)
  {
    var d' := WritePage(d, k, page);
    assert DiskSound(d');
    forall p: int ensures HeapOf(d')[p] == if k == HeapKey(p) then page.heap else HeapOf(d)[p] {
      ReadAfterWrite(d, k, page, HeapKey(p));
    }
  }

  lemma ConsistentWritten(heap: Heap, base: Base, rs: seq<Record>, pid: int, h: HeapImage)
    requires BaseTotal(base) && AllFit(rs) && Consistent(heap, base, rs) && PageConsistent(h, base[pid], rs, pid)
    ensures Consistent(heap[pid := h], base, rs)
  {
  }

  /** Writing back a page that is not busy keeps every page the image of a prefix of its records. */
  lemma WriteBackConsistent(p: Pool, base: Base, rs: seq<Record>, busy: set<int>, k: Key)
    requires Safe(p, base, rs, busy) && k.pid >= 0 && (k.kind == HeapFile ==> k.pid !in busy)
    ensures DiskSound(WritePage(p.disk, k, Value(p, k))) && WritePage(p.disk, k, Value(p, k)).wal == p.disk.wal
    ensures Consistent(HeapOf(WritePage(p.disk, k, Value(p, k))), base, rs)
  {
    ValueTyped(p, k);
    HeapWritten(p.disk, k, Value(p, k));
    hide Sound, GoodLog, LogFile, PageConsistent, DataAfter, HeapOf;
    if k.kind == HeapFile {
      assert k == HeapKey(k.pid) && PageConsistent(HeapAt(p, k.pid), base[k.pid], rs, k.pid);
      ConsistentWritten(HeapOf(p.disk), base, rs, k.pid, HeapAt(p, k.pid));
    }
  }

  lemma SameLogRecoverable(d: DiskImage, base: Base, rs: seq<Record>, e: DiskImage)
    requires Recoverable(d, base, rs) && e.wal == d.wal && DiskSound(e) && Consistent(HeapOf(e), base, rs)
    ensures Recoverable(e, base, rs)
  {
    hide GoodLog, LogFile, Consistent, HeapOf, DiskSound;
  }

  /** An eviction writes a page that is not busy, so it cannot take the disk out of the recoverable states. */
  lemma EvictionRecoverable(p: Pool, base: Base, rs: seq<Record>, busy: set<int>, d: DiskImage)
    requires Safe(p, base, rs, busy) && EvictedFrom(p, d)
    ensures Recoverable(d, base, rs) && d.wal == p.disk.wal
  {
    if d != p.disk {
      var k: Key :| k.pid >= 0 && k in p.table && k !in Pins(p) && d == WritePage(p.disk, k, Value(p, k));
      WriteBackConsistent(p, base, rs, busy, k);
      SameLogRecoverable(p.disk, base, rs, d);
    }
  }

  /** Two pools with the same page values answer with the same heap pages. */
  lemma SameFlatHeap(p: Pool, q: Pool)
    requires Sound(p) && Sound(q) && Flat(p) == Flat(q)
    ensures FlatHeap(p) == FlatHeap(q)
    ensures forall pid: int :: HeapAt(q, pid) == HeapAt(p, pid)
  {
    forall pid: int ensures HeapAt(q, pid) == HeapAt(p, pid) {
      FlatHeapAt(p, pid);
      FlatHeapAt(q, pid);
    }
  }

  /** A fetch keeps the pool safe, and settled if it was. */
  lemma FetchKeeps(p: Pool, base: Base, rs: seq<Record>, busy: set<int>, k: Key, q: Pool, f: nat)
    requires Safe(p, base, rs, busy) && FetchedAs(p, k, q, f)
    ensures Safe(q, base, rs, busy)
    ensures Settled(p, base, rs, busy) ==> Settled(q, base, rs, busy)
  {
    EvictionRecoverable(p, base, rs, busy, q.disk);
    SameFlatHeap(p, q);
    hide Sound, EvictedFrom, PageConsistent, HeapAt, Recoverable, Flat, Pins;
  }

  /** So does letting go of a page, while the busy pages stay pinned. */
  lemma UnpinKeeps(p: Pool, base: Base, rs: seq<Record>, busy: set<int>, q: Pool)
    requires Safe(p, base, rs, busy) && Sound(q) && Flat(q) == Flat(p) && q.disk == p.disk
    requires forall b :: b in busy ==> HeapKey(b) in Pins(q)
    ensures Safe(q, base, rs, busy)
    ensures Settled(p, base, rs, busy) ==> Settled(q, base, rs, busy)
  {
    SameFlatHeap(p, q);
    hide Sound, PageConsistent, HeapAt, Recoverable, Flat, Pins;
  }

  // ---------- appending to the log ----------

  /** A log file with another offset in its header. */
  function WithHeader(wal: seq<Byte>, last: nat): seq<Byte>
    requires |wal| >= WAL_HEADER_SIZE
  {
    ToLE(last, WAL_HEADER_SIZE) + wal[WAL_HEADER_SIZE..]
  }

  function AfterBytes(d: DiskImage, b: seq<Byte>, n: nat): DiskImage
    requires n <= |b|
  {
    d.(wal := d.wal + b[..n])
  }

  function AfterHeader(d: DiskImage, b: seq<Byte>): DiskImage
    requires |d.wal| >= WAL_HEADER_SIZE
  {
    d.(wal := WithHeader(d.wal + b, |d.wal|))
  }

  /** Every state of the disk while a record is appended: byte by byte, then the header. */
  ghost function AppendStates(d: DiskImage, b: seq<Byte>): seq<DiskImage>
    requires |d.wal| >= WAL_HEADER_SIZE
  {
    seq(|b|, i requires 0 <= i < |b| => AfterBytes(d, b, i + 1)) + [AfterHeader(d, b)]
  }

  /** 65535 records of at most a page each fit an 8-byte offset many times over. */
  lemma {:induction false} LogBounded(rs: seq<Record>)
    requires AllLoggable(rs)
    ensures |AllBytes(rs)| <= (ENTRY_SIZE + HEAP_PAYLOAD_SIZE) * |rs|
  {
    if rs != [] {
      LogBounded(rs[..|rs| - 1]);
      assert Loggable(rs[|rs| - 1]);
    }
  }

  lemma NextRecordGood(rs: seq<Record>, r: Record)
    requires GoodLog(rs) && Loggable(r) && r.lsn == |rs| + 1
    ensures GoodLog(rs + [r]) && AllFit(rs + [r])
  {
    AllBytesAppend(rs, r);
    LogBounded(rs);
    Widths();
    GoodLogFits(rs + [r]);
  }

  /** Appending a record to a log file and then pointing the header at it gives the longer log file. */
  lemma AppendedLog(rs: seq<Record>, r: Record)
    requires AllLoggable(rs) && Loggable(r)
    ensures AllLoggable(rs + [r]) && |LogFile(rs, [])| >= WAL_HEADER_SIZE
    ensures WithHeader(LogFile(rs, []) + RecordBytes(r), |LogFile(rs, [])|) == LogFile(rs + [r], [])
    ensures forall tail :: LogFile(rs, []) + tail == LogFile(rs, tail)
  {
    hide RecordBytes, AllBytes, ToLE, LastStart;
    AllBytesAppend(rs, r);
    HeaderMoved(ToLE(LastStart(rs), WAL_HEADER_SIZE), AllBytes(rs), RecordBytes(r), |LogFile(rs, [])|);
    forall tail ensures LogFile(rs, []) + tail == LogFile(rs, tail) {
    }
  }

  lemma HeaderMoved(head: seq<Byte>, body: seq<Byte>, more: seq<Byte>, last: nat)
    requires |head| == WAL_HEADER_SIZE
    ensures WithHeader(head + body + [] + more, last) == ToLE(last, WAL_HEADER_SIZE) + (body + more) + []
  {
    assert (head + body + [] + more)[WAL_HEADER_SIZE..] == body + more;
  }

  lemma ConsistentNext(heap: Heap, base: Base, rs: seq<Record>, r: Record)
    requires BaseTotal(base) && AllFit(rs) && Fits(r) && Consistent(heap, base, rs)
    ensures AllFit(rs + [r]) && Consistent(heap, base, rs + [r])
  {
    forall p: int ensures AllFit(rs + [r]) && PageConsistent(heap[p], base[p], rs + [r], p) {
      ConsistentExtends(heap[p], base[p], rs, r, p);
    }
  }

  /** Only the pages matter to consistency. */
  lemma SamePages(d: DiskImage, e: DiskImage)
    requires DiskSound(d) && e == d.(wal := e.wal)
    ensures DiskSound(e) && HeapOf(e) == HeapOf(d)
  {
  }

  lemma TornRecoverable(d: DiskImage, base: Base, rs: seq<Record>, e: DiskImage, tail: seq<Byte>)
    requires Recoverable(d, base, rs) && e == d.(wal := LogFile(rs, tail))
    ensures Recoverable(e, base, rs)
  {
    SamePages(d, e);
    hide GoodLog, LogFile, Consistent, HeapOf, DiskSound;
    assert e.wal == LogFile(rs, tail);
  }

  lemma ExtendedRecoverable(d: DiskImage, base: Base, rs: seq<Record>, r: Record, e: DiskImage)
    requires Recoverable(d, base, rs) && Loggable(r) && r.lsn == |rs| + 1
    requires GoodLog(rs + [r]) && e == d.(wal := LogFile(rs + [r], []))
    ensures Recoverable(e, base, rs + [r])
  {
    NextRecordGood(rs, r);
    SamePages(d, e);
    hide GoodLog, LogFile, HeapOf, DiskSound;
    ConsistentNext(HeapOf(d), base, rs, r);
    assert e.wal == LogFile(rs + [r], []);
  }

  /** A crash while a record is appended finds the old log or, once the header points at it, the new one. */
  lemma AppendRecoverable(d: DiskImage, base: Base, rs: seq<Record>, r: Record)
    requires Recoverable(d, base, rs) && d.wal == LogFile(rs, []) && Loggable(r) && r.lsn == |rs| + 1
    ensures |d.wal| >= WAL_HEADER_SIZE && AllLoggable(rs + [r])
    ensures forall n :: 0 <= n <= |RecordBytes(r)| ==> Recoverable(AfterBytes(d, RecordBytes(r), n), base, rs)
    ensures Recoverable(AfterHeader(d, RecordBytes(r)), base, rs + [r])
    ensures AfterHeader(d, RecordBytes(r)).wal == LogFile(rs + [r], [])
  {
    AppendedLog(rs, r);
    NextRecordGood(rs, r);
    var b := RecordBytes(r);
    hide Recoverable, GoodLog, LogFile, AllLoggable, Loggable, RecordBytes;
    forall n | 0 <= n <= |b| ensures Recoverable(AfterBytes(d, b, n), base, rs) {
      TornRecoverable(d, base, rs, AfterBytes(d, b, n), b[..n]);
    }
    ExtendedRecoverable(d, base, rs, r, AfterHeader(d, b));
  }

  /** A page none of whose records is new is as complete as it was. */
  lemma CompleteNext(h: HeapImage, base: PageBase, rs: seq<Record>, r: Record, p: int)
    requires |base.data| == HEAP_PAYLOAD_SIZE && AllFit(rs) && Fits(r) && PageComplete(h, base, rs, p) && r.rid.pid != p
    ensures AllFit(rs + [r]) && PageComplete(h, base, rs + [r], p)
  {
    assert (rs + [r])[..|rs|] == rs;
  }

  /** What a record of another page leaves alone. */
  lemma OtherPageNext(h: HeapImage, base: Base, rs: seq<Record>, r: Record, pid: int)
    requires BaseTotal(base) && AllFit(rs) && Fits(r) && r.rid.pid != pid
    requires PageConsistent(h, base[pid], rs, pid) && PageComplete(h, base[pid], rs, pid)
    ensures AllFit(rs + [r]) && PageConsistent(h, base[pid], rs + [r], pid) && PageComplete(h, base[pid], rs + [r], pid)
  {
    ConsistentExtends(h, base[pid], rs, r, pid);
    CompleteNext(h, base[pid], rs, r, pid);
  }

  lemma SettledPages(p: Pool, base: Base, rs: seq<Record>, busy: set<int>)
    requires Settled(p, base, rs, busy)
    ensures Sound(p) && Recoverable(p.disk, base, rs) && BaseTotal(base) && AllFit(rs) && p.disk.wal == LogFile(rs, [])
    ensures forall pid: int :: pid >= 0 && pid !in busy ==>
      PageConsistent(HeapAt(p, pid), base[pid], rs, pid) && PageComplete(HeapAt(p, pid), base[pid], rs, pid)
    ensures forall b :: b in busy ==> HeapKey(b) in Pins(p)
  {
  }

  lemma SettledFrom(p: Pool, base: Base, rs: seq<Record>, busy: set<int>)
    requires Sound(p) && Recoverable(p.disk, base, rs) && p.disk.wal == LogFile(rs, [])
    requires forall pid: int :: pid >= 0 && pid !in busy ==>
      PageConsistent(HeapAt(p, pid), base[pid], rs, pid) && PageComplete(HeapAt(p, pid), base[pid], rs, pid)
    requires forall b :: b in busy ==> HeapKey(b) in Pins(p)
    ensures Settled(p, base, rs, busy)
  {
  }

  /** Once the record is logged the pool is settled for the longer log, its page still busy. */
  lemma LoggedSettles(p: Pool, base: Base, rs: seq<Record>, r: Record, q: Pool)
    requires Settled(p, base, rs, {r.rid.pid}) && Loggable(r) && r.lsn == |rs| + 1
    requires |p.disk.wal| >= WAL_HEADER_SIZE && q == p.(disk := AfterHeader(p.disk, RecordBytes(r)))
    ensures Sound(q) && Flat(q) == Flat(p) && Pins(q) == Pins(p)
    ensures Settled(q, base, rs + [r], {r.rid.pid})
  {
    assert q == p.(disk := p.disk.(wal := q.disk.wal));
    LoggedFits(p, base, rs, r);
    hide Sound, Flat, Pins, HeapAt, Loggable, GoodLog, LogFile, HeapOf, Consistent, AfterHeader, RecordBytes,
         Recoverable, Settled, Safe, PageConsistent, PageComplete, AllFit, Fits, BaseTotal;
    SettledPages(p, base, rs, {r.rid.pid});
    OnlyLogChanged(p, q);
    AppendRecoverable(p.disk, base, rs, r);
    LoggedPages(p, base, rs, r, q);
    SettledFrom(q, base, rs + [r], {r.rid.pid});
  }

  lemma LoggedPages(p: Pool, base: Base, rs: seq<Record>, r: Record, q: Pool)
    requires Settled(p, base, rs, {r.rid.pid}) && Fits(r) && Sound(q) && Flat(q) == Flat(p)
    ensures BaseTotal(base) && AllFit(rs + [r])
    ensures forall pid: int :: pid >= 0 && pid !in {r.rid.pid} ==>
      PageConsistent(HeapAt(q, pid), base[pid], rs + [r], pid) && PageComplete(HeapAt(q, pid), base[pid], rs + [r], pid)
  {
    hide Sound, Flat, Pins, HeapAt, Recoverable, Settled, PageConsistent, PageComplete, LogFile;
    SettledPages(p, base, rs, {r.rid.pid});
    SameFlatHeap(p, q);
    forall pid: int | pid >= 0 && pid != r.rid.pid
      ensures PageConsistent(HeapAt(q, pid), base[pid], rs + [r], pid)
      ensures PageComplete(HeapAt(q, pid), base[pid], rs + [r], pid)
    {
      OtherPageNext(HeapAt(p, pid), base, rs, r, pid);
    }
  }

  lemma LoggedFits(p: Pool, base: Base, rs: seq<Record>, r: Record)
    requires Settled(p, base, rs, {r.rid.pid}) && Loggable(r)
    ensures Fits(r) && AllFit(rs + [r])
  {
    hide Sound, HeapAt, PageComplete, PageConsistent;
  }

  /** The log is no part of the pages. */
  lemma OnlyLogChanged(p: Pool, q: Pool)
    requires Sound(p) && q == p.(disk := p.disk.(wal := q.disk.wal))
    ensures Sound(q) && Flat(q) == Flat(p) && Pins(q) == Pins(p) && (DirtyInside(p) ==> DirtyInside(q))
  {
    forall k ensures ReadPage(q.disk, k) == ReadPage(p.disk, k) {
    }
    forall f | 0 <= f < |q.frames| ensures FrameSound(q.frames[f], q.disk) {
      assert FrameSound(p.frames[f], p.disk);
    }
    SamePlacesSound(p, q);
  }

  /** Pool q is pool p with page pid changed to h, in its frame and on disk. */
  ghost predicate WrittenThrough(p: Pool, pid: int, h: HeapImage, q: Pool) {
    && Sound(p) && Sound(q) && pid >= 0 && HeapSized(h)
    && Flat(q) == Flat(p)[HeapKey(pid) := HeapPage(h)]
    && q.disk == WritePage(p.disk, HeapKey(pid), HeapPage(h))
  }

  lemma WrittenHeap(p: Pool, pid: int, h: HeapImage, q: Pool, i: int)
    requires WrittenThrough(p, pid, h, q)
    ensures HeapAt(q, i) == if i == pid then h else HeapAt(p, i)
  {
    ChangedHeap(p, pid, h, q, i);
  }

  lemma WrittenRecoverable(p: Pool, base: Base, rs: seq<Record>, pid: int, h: HeapImage, q: Pool)
    requires Recoverable(p.disk, base, rs) && WrittenThrough(p, pid, h, q) && PageConsistent(h, base[pid], rs, pid)
    ensures Recoverable(q.disk, base, rs) && q.disk.wal == p.disk.wal
  {
    HeapWritten(p.disk, HeapKey(pid), HeapPage(h));
    ConsistentWritten(HeapOf(p.disk), base, rs, pid, h);
    SameLogRecoverable(p.disk, base, rs, q.disk);
  }

  lemma SafePages(p: Pool, base: Base, rs: seq<Record>, busy: set<int>)
    requires Safe(p, base, rs, busy)
    ensures Sound(p) && Recoverable(p.disk, base, rs) && BaseTotal(base) && AllFit(rs)
    ensures forall pid: int :: pid >= 0 && pid !in busy ==> PageConsistent(HeapAt(p, pid), base[pid], rs, pid)
  {
  }

  lemma SafeFrom(p: Pool, base: Base, rs: seq<Record>)
    requires Sound(p) && Recoverable(p.disk, base, rs)
    requires forall pid: int :: pid >= 0 ==> PageConsistent(HeapAt(p, pid), base[pid], rs, pid)
    ensures Safe(p, base, rs, NONE)
  {
  }

  /** A page written through in a consistent state is busy no more. */
  lemma WrittenSafe(p: Pool, base: Base, rs: seq<Record>, busy: set<int>, pid: int, h: HeapImage, q: Pool)
    requires Safe(p, base, rs, busy) && busy <= {pid}
    requires WrittenThrough(p, pid, h, q) && PageConsistent(h, base[pid], rs, pid)
    ensures Safe(q, base, rs, NONE) && q.disk.wal == p.disk.wal
  {
    SafePages(p, base, rs, busy);
    WrittenRecoverable(p, base, rs, pid, h, q);
    assert Sound(q) && pid >= 0;
    hide Recoverable, Sound, HeapAt, PageConsistent, WrittenThrough, Safe;
    forall i: int | i >= 0 ensures PageConsistent(HeapAt(q, i), base[i], rs, i) {
      WrittenHeap(p, pid, h, q, i);
    }
    SafeFrom(q, base, rs);
  }

  /** And the pool is settled again if the page has all of its rows. */
  lemma WrittenKeeps(p: Pool, base: Base, rs: seq<Record>, pid: int, h: HeapImage, q: Pool)
    requires Safe(p, base, rs, {pid}) || Safe(p, base, rs, NONE)
    requires WrittenThrough(p, pid, h, q) && PageConsistent(h, base[pid], rs, pid)
    ensures Safe(q, base, rs, NONE)
    ensures Settled(p, base, rs, {pid}) && PageComplete(h, base[pid], rs, pid) ==> Settled(q, base, rs, NONE)
  {
    WrittenSafe(p, base, rs, if Safe(p, base, rs, {pid}) then {pid} else NONE, pid, h, q);
    if Settled(p, base, rs, {pid}) && PageComplete(h, base[pid], rs, pid) {
      SettledPages(p, base, rs, {pid});
      SafePages(q, base, rs, NONE);
      hide Recoverable, Sound, HeapAt, PageConsistent, PageComplete, WrittenThrough, Safe, Settled;
      forall i: int | i >= 0 ensures PageComplete(HeapAt(q, i), base[i], rs, i) {
        WrittenHeap(p, pid, h, q, i);
      }
      SettledFrom(q, base, rs, NONE);
    }
  }

  /** A page written in its frame only is busy from then on. */
  lemma StoredSettles(p: Pool, base: Base, rs: seq<Record>, busy: set<int>, pid: int, h: HeapImage, q: Pool)
    requires Settled(p, base, rs, busy) && Sound(q) && HeapSized(h)
    requires forall b :: b in busy + {pid} ==> HeapKey(b) in Pins(q)
    requires Flat(q) == Flat(p)[HeapKey(pid) := HeapPage(h)] && q.disk == p.disk
    ensures Settled(q, base, rs, busy + {pid}) && HeapAt(q, pid) == h
  {
    hide Sound, Flat, Pins, HeapAt, PageConsistent, PageComplete, Recoverable;
    forall i: int ensures HeapAt(q, i) == if i == pid then h else HeapAt(p, i) {
      ChangedHeap(p, pid, h, q, i);
    }
  }
}
