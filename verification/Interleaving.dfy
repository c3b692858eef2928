/**
  One insert at a time among any other traffic in the pool. Other threads fetch pages of either
  kind, let go of what they hold, and change index pages in their frames or through to disk; between
  any two of their steps the insert takes its next one: fetch the page, write the row, append the
  record byte by byte, point the header at it, stamp the page, let go. Wherever the machine stops in
  such a run, the disk is recovered as exactly the records logged by then.
 */
module Interleavings {
  import opened StorageTypes
  import opened Bytes
  import opened Disks
  import opened PoolSpec
  import opened HeapRows
  import opened HeapSpec
  import opened LogFormat
  import opened Redo
  import opened Recovery
  import opened Wals
  import opened InsertEntry

  /** How far the insert under way is. */
  datatype Phase =
    | Idle
    | Fetched(pid: int, row: Row)
    | Logging(rec: Record, row: Row, n: nat)
    | Logged(rec: Record)
    | Stamped(pid: int)

  /**
    The pool, the pins other threads hold, the pages with a pin no one gives back, those of them with
    a row the log had no number for, the insert, and the records logged.
   */
  datatype World = World(pool: Pool, held: multiset<Key>, lost: set<Key>, full: set<int>, phase: Phase,
                         rs: seq<Record>)

  /** The page the insert holds. */
  function PageHeld(f: Phase): int {
    match f
    case Idle => INVALID_PAGE_ID
    case Fetched(pid, _) => pid
    case Logging(rec, _, _) => rec.rid.pid
    case Logged(rec) => rec.rid.pid
    case Stamped(pid) => pid
  }

  /** The pages that may not be written out: a row is in the frame and not yet, or never, stamped. */
  function Busy(w: World): set<int> {
    if w.phase.Logging? || w.phase.Logged? then w.full + {PageHeld(w.phase)} else w.full
  }

  ghost function PinCount(p: Pool, k: Key): int
    requires InTable(p)
  {
    if k in Pins(p) then Pins(p)[k] else 0
  }

  function Claims(w: World, k: Key): nat {
    w.held[k] + (if k in w.lost then 1 else 0) + (if k == HeapKey(PageHeld(w.phase)) && !w.phase.Idle? then 1 else 0)
  }

  /** Every pin some thread still counts on is there. */
  ghost predicate Covered(w: World)
    requires InTable(w.pool)
  {
    forall k :: PinCount(w.pool, k) >= Claims(w, k)
  }

  /** Only pages with a lost pin differ from the disk without being marked. */
  ghost predicate AllBacked(p: Pool, lost: set<Key>)
    requires InTable(p)
  {
    forall k :: k !in lost ==> Backed(p, k)
  }

  /** A pool that holds every row of the log, whatever follows the last record on disk. */
  ghost predicate Settling(p: Pool, base: Base, rs: seq<Record>, tail: seq<Byte>, busy: set<int>) {
    && Safe(p, base, rs, busy)
    && p.disk.wal == LogFile(rs, tail)
    && forall pid: int :: pid >= 0 && pid !in busy ==> PageComplete(HeapAt(p, pid), base[pid], rs, pid)
  }

  /** A record as the log manager writes it. */
  ghost function BytesOf(rec: Record): seq<Byte> {
    if rec.lsn <= LSN_MAX && Int32(rec.rid.pid) && Int32(rec.rid.slot.size) then RecordBytes(rec) else []
  }

  /** What follows the last record on disk: the bytes of the next one written so far. */
  ghost function Tail(f: Phase): seq<Byte> {
    if f.Logging? && f.n <= |BytesOf(f.rec)| then BytesOf(f.rec)[..f.n] else []
  }

  /** The row is in its page's frame, and its record is the next one. */
  ghost predicate Pending(p: Pool, base: Base, rs: seq<Record>, rec: Record, row: Row)
    requires Sound(p)
  {
    && StorableRow(row) && rec.row == RowBytes(row) && Loggable(rec) && rec.lsn == |rs| + 1
    && BaseTotal(base) && AllFit(rs) && HeapReadable(HeapAt(p, rec.rid.pid))
    && Spares(HeapAt(p, rec.rid.pid), base[rec.rid.pid])
    && HeapAt(p, rec.rid.pid).data
        == Overwrite(DataAfter(base[rec.rid.pid], rs, rec.rid.pid), rec.rid.slot.offset, rec.row)
  }

  ghost predicate PhaseHolds(w: World, base: Base)
    requires Sound(w.pool)
  {
    match w.phase
    case Fetched(pid, row) => 0 <= pid < PAGE_ID_LIMIT && StorableRow(row)
    case Logging(rec, row, n) => n <= |BytesOf(rec)| && Pending(w.pool, base, w.rs, rec, row)
    case Logged(rec) =>
      && BaseTotal(base) && AllFit(w.rs) && |w.rs| == rec.lsn <= LSN_MAX && rec.rid.pid >= 0
      && HeapReadable(HeapAt(w.pool, rec.rid.pid)) && Spares(HeapAt(w.pool, rec.rid.pid), base[rec.rid.pid])
      && PageComplete(HeapAt(w.pool, rec.rid.pid), base[rec.rid.pid], w.rs, rec.rid.pid)
    case Stamped(pid) => pid >= 0
    case Idle => true
  }

  /** Pages with a row the log had no number for: pinned for ever, and there is no number left. */
  ghost predicate FullPages(w: World)
    requires Sound(w.pool)
  {
    && (w.full != {} ==> |w.rs| >= LSN_MAX && (w.phase.Idle? || w.phase.Fetched?))
    && forall b :: b in w.full ==> b >= 0 && HeapKey(b) in w.lost && HeapReadable(HeapAt(w.pool, b))
  }

  /** What every step keeps. */
  ghost predicate Good(w: World, base: Base) {
    && Settling(w.pool, base, w.rs, Tail(w.phase), Busy(w))
    && Covered(w) && AllBacked(w.pool, w.lost) && PhaseHolds(w, base) && FullPages(w)
  }

  // ---------- the steps of other threads ----------

  ghost predicate Fetches(w: World, k: Key, v: World)
    requires Sound(w.pool)
  {
    match Access(w.pool, k)
    case Failure(_) => v == w
    case Success((q, _)) => v == w.(pool := q, held := w.held + multiset{k})
  }

  ghost predicate LetsGo(w: World, k: Key, v: World)
    requires Sound(w.pool)
  {
    && k in w.held && UnPin(w.pool, k).Success?
    && v == w.(pool := UnPin(w.pool, k).value, held := w.held - multiset{k})
  }

  ghost predicate ChangesNode(w: World, k: Key, node: NodeImage, v: World)
    requires Sound(w.pool)
  {
    && k.kind == IndexFile && k in w.pool.table && NodeSized(node)
    && v == w.(pool := Store(w.pool, w.pool.table[k], IndexPage(node)))
  }

  ghost predicate WritesNode(w: World, k: Key, node: NodeImage, dirty: bool, v: World)
    requires Sound(w.pool)
  {
    && k.kind == IndexFile && k in w.pool.table && NodeSized(node)
    && v == w.(pool := StoreThrough(w.pool, w.pool.table[k], IndexPage(node), dirty))
  }

  ghost predicate OtherStep(w: World, v: World)
    requires Sound(w.pool)
  {
    || (exists k :: Fetches(w, k, v))
    || (exists k :: LetsGo(w, k, v))
    || (exists k, node :: ChangesNode(w, k, node, v))
    || (exists k, node, dirty :: WritesNode(w, k, node, dirty, v))
  }

  // ---------- the steps of the insert ----------

  ghost predicate Begins(w: World, pid: int, row: Row, v: World)
    requires Sound(w.pool)
  {
    && w.phase.Idle? && 0 <= pid < PAGE_ID_LIMIT && StorableRow(row)
    && match Access(w.pool, HeapKey(pid))
       case Failure(_) => v == w
       case Success((q, _)) => v == w.(pool := q, phase := Fetched(pid, row))
  }

  /**
    The row is written into the fetched page. Turned away, or with no number left in the log, the
    insert fails there and leaves the page pinned.
   */
  ghost predicate Writes(w: World, v: World)
    requires Sound(w.pool)
  {
    && w.phase.Fetched? && HeapKey(w.phase.pid) in w.pool.table
    && StorableRow(w.phase.row) && HeapReadable(HeapAt(w.pool, w.phase.pid))
    && var pid, row := w.phase.pid, w.phase.row;
       var f, (h, slot) := w.pool.table[HeapKey(pid)], WriteRow(HeapAt(w.pool, pid), row);
       match slot
       case Failure(_) => v == w.(pool := Scribble(w.pool, f, HeapPage(h)), lost := w.lost + {HeapKey(pid)},
           phase := Idle)
       case Success(s) =>
         if |w.rs| >= LSN_MAX then
           v == w.(pool := Store(w.pool, f, HeapPage(h)), lost := w.lost + {HeapKey(pid)}, full := w.full + {pid},
                   phase := Idle)
         else
           v == w.(pool := Store(w.pool, f, HeapPage(h)),
                   phase := Logging(Record(|w.rs| + 1, RID(pid, s), RowBytes(row)), row, 0))
  }

  function OnDisk(p: Pool, wal: seq<Byte>): Pool {
    p.(disk := p.disk.(wal := wal))
  }

  /** One more byte of the record reaches the log. */
  ghost predicate LogsByte(w: World, v: World) {
    && w.phase.Logging? && w.phase.n < |BytesOf(w.phase.rec)|
    && v == w.(pool := OnDisk(w.pool, w.pool.disk.wal + [BytesOf(w.phase.rec)[w.phase.n]]),
               phase := w.phase.(n := w.phase.n + 1))
  }

  /** The header is pointed at the record, which is then logged. */
  ghost predicate LogsHeader(w: World, v: World) {
    && w.phase.Logging? && w.phase.n == |BytesOf(w.phase.rec)|
    && WAL_HEADER_SIZE <= |w.pool.disk.wal| - w.phase.n
    && v == w.(pool := OnDisk(w.pool, WithHeader(w.pool.disk.wal, |w.pool.disk.wal| - w.phase.n)),
               phase := Logged(w.phase.rec), rs := w.rs + [w.phase.rec])
  }

  /** The page gets its number and is written out. */
  ghost predicate Stamps(w: World, v: World)
    requires Sound(w.pool)
  {
    && w.phase.Logged? && HeapKey(w.phase.rec.rid.pid) in w.pool.table
    && var pid := w.phase.rec.rid.pid;
       var h := HeapAt(w.pool, pid).(lsn := w.phase.rec.lsn);
       v == w.(pool := StoreThrough(w.pool, w.pool.table[HeapKey(pid)], HeapPage(h), false), phase := Stamped(pid))
  }

  ghost predicate Finishes(w: World, v: World)
    requires Sound(w.pool)
  {
    && w.phase.Stamped? && UnPin(w.pool, HeapKey(w.phase.pid)).Success?
    && v == w.(pool := UnPin(w.pool, HeapKey(w.phase.pid)).value, phase := Idle)
  }

  ghost predicate InsertStep(w: World, v: World)
    requires Sound(w.pool)
  {
    || (exists pid, row :: Begins(w, pid, row, v))
    || Writes(w, v) || LogsByte(w, v) || LogsHeader(w, v) || Stamps(w, v) || Finishes(w, v)
  }

  ghost predicate Step(w: World, v: World)
    requires Sound(w.pool)
  {
    OtherStep(w, v) || InsertStep(w, v)
  }

  // ---------- what every step keeps ----------

  /** A step that changes no heap page and leaves the disk recoverable as before. */
  ghost predicate Unmoved(p: Pool, base: Base, rs: seq<Record>, busy: set<int>, q: Pool)
    requires Sound(p)
  {
    Safe(q, base, rs, busy) && q.disk.wal == p.disk.wal && forall pid: int :: HeapAt(q, pid) == HeapAt(p, pid)
  }

  lemma UnmovedGood(w: World, base: Base, v: World)
    requires Good(w, base) && Unmoved(w.pool, base, w.rs, Busy(w), v.pool)
    requires v.phase == w.phase && v.rs == w.rs && v.lost == w.lost && v.full == w.full
    requires Covered(v) && AllBacked(v.pool, v.lost)
    ensures Good(v, base)
  {
    hide Sound, HeapAt, Covered, AllBacked, BytesOf, LogFile, Safe, Loggable, PageComplete, HeapReadable;
    SafePages(v.pool, base, w.rs, Busy(w));
    assert Settling(v.pool, base, v.rs, Tail(v.phase), Busy(v)) && FullPages(v);
  }

  lemma CoveredPins(w: World)
    requires Sound(w.pool) && Covered(w)
    ensures forall k :: Claims(w, k) > 0 ==> k in Pins(w.pool)
  {
    forall k | Claims(w, k) > 0 ensures k in Pins(w.pool) {
      assert PinCount(w.pool, k) >= Claims(w, k);
    }
  }

  /** A pin may go when another claim on the page is left or the page is backed. */
  lemma MayRelease(w: World, k: Key)
    requires Sound(w.pool) && Covered(w) && AllBacked(w.pool, w.lost)
    requires k in w.lost ==> Claims(w, k) >= 2
    ensures Releasable(w.pool, k)
  {
    assert PinCount(w.pool, k) >= Claims(w, k);
  }

  // ---------- fetching and letting go ----------

  lemma RepinBacked(p: Pool, k: Key, n: int, lost: set<Key>)
    requires Sound(p) && k in p.table && AllBacked(p, lost)
    ensures InTable(Repin(p, k, n)) && AllBacked(Repin(p, k, n), lost)
  {
    var q := Repin(p, k, n);
    forall k' | k' !in lost ensures Backed(q, k') {
      assert Backed(p, k');
    }
  }

  lemma InstallBacked(p: Pool, f: nat, k: Key, lost: set<Key>)
    requires Sound(p) && f < |p.frames| && !Used(p.frames[f]) && AllBacked(p, lost)
    ensures InTable(Install(p, f, k)) && AllBacked(Install(p, f, k), lost)
  {
    hide QueueExact, FrameSound, DiskSound;
    var q := Install(p, f, k);
    forall k' | k' !in lost ensures Backed(q, k') {
      assert Backed(p, k');
      assert k' in p.table ==> p.table[k'] != f;
    }
  }

  lemma FreeBacked(p: Pool, f: nat, queue: seq<nat>, lost: set<Key>)
    requires Evictable(p, f) && AllBacked(p, lost)
    ensures InTable(Free(p, f, queue)) && AllBacked(Free(p, f, queue), lost)
  {
    var q := Free(p, f, queue);
    forall k | k !in lost ensures Backed(q, k) {
      assert Backed(p, k);
      FreeDisk(p, f, queue, k);
      assert k in q.table ==> p.table[k] != f;
    }
  }

  lemma EvictBacked(p: Pool, k: Key, lost: set<Key>)
    requires Sound(p) && AllBacked(p, lost) && k !in p.table && Replace(p).Success?
    ensures
      var (q, f) := Replace(p).value;
      f < |q.frames| && InTable(Install(q, f, k)) && AllBacked(Install(q, f, k), lost)
  {
    var i := PinnedPrefix(p.frames, p.queue);
    assert i < |p.queue| && p.queue[i] < |p.frames|;
    ReplaceKeeps(p);
    FirstIsEvictable(p, i);
    FreeBacked(p, p.queue[i], p.queue[i + 1..] + p.queue[..i], lost);
    var (q, f) := Replace(p).value;
    InstallBacked(q, f, k, lost);
  }

  /** A fetch, whatever it evicts, leaves every page backed that was. */
  lemma AccessBacked(p: Pool, k: Key, lost: set<Key>)
    requires Sound(p) && AllBacked(p, lost) && Access(p, k).Success?
    ensures InTable(Access(p, k).value.0) && AllBacked(Access(p, k).value.0, lost)
  {
    hide AllBacked, Install, Repin, QueueExact, FrameSound, DiskSound;
    if k in p.table {
      RepinBacked(p, k, p.frames[p.table[k]].pin + 1, lost);
    } else if FirstFree(p.frames) < |p.frames| {
      InstallBacked(p, FirstFree(p.frames), k, lost);
    } else {
      EvictBacked(p, k, lost);
    }
  }

  lemma PinUpCount(p: Pool, q: Pool, k: Key)
    requires Sound(p) && Sound(q) && Pins(q) == PinUp(Pins(p), k)
    ensures forall k' :: PinCount(q, k') == PinCount(p, k') + if k' == k then 1 else 0
  {
  }

  lemma PinDownCount(p: Pool, q: Pool, k: Key)
    requires Sound(p) && InTable(q) && Pins(q) == PinDown(Pins(p), k) && k in Pins(p)
    ensures forall k' :: PinCount(q, k') == PinCount(p, k') - if k' == k then 1 else 0
  {
    PinsPositive(p, k);
  }

  lemma BusyPinned(w: World)
    requires Sound(w.pool) && Covered(w) && forall b :: b in w.full ==> HeapKey(b) in w.lost
    ensures forall b :: b in Busy(w) ==> HeapKey(b) in Pins(w.pool)
  {
    CoveredPins(w);
    forall b | b in Busy(w) ensures HeapKey(b) in Pins(w.pool) {
      assert Claims(w, HeapKey(b)) > 0;
    }
  }

  lemma GoodMeans(w: World, base: Base)
    requires Good(w, base)
    ensures Sound(w.pool) && Safe(w.pool, base, w.rs, Busy(w)) && Covered(w) && AllBacked(w.pool, w.lost)
    ensures FullPages(w)
  {
  }

  /** A fetch by anyone. */
  lemma AccessUnmoved(w: World, base: Base, k: Key)
    requires Good(w, base) && Access(w.pool, k).Success?
    ensures
      var q := Access(w.pool, k).value.0;
      && Unmoved(w.pool, base, w.rs, Busy(w), q) && Sound(q) && AllBacked(q, w.lost)
      && k.pid >= 0 && forall k' :: PinCount(q, k') == PinCount(w.pool, k') + if k' == k then 1 else 0
  {
    GoodMeans(w, base);
    hide Good, Access, Covered, Safe, AllBacked, Sound, PinCount, HeapAt, Flat, Pins;
    AccessSound(w.pool, k);
    var (q, f) := Access(w.pool, k).value;
    AccessBacked(w.pool, k, w.lost);
    FetchedLog(w.pool, k, q, f);
    FetchKeeps(w.pool, base, w.rs, Busy(w), k, q, f);
    SameFlatHeap(w.pool, q);
    PinUpCount(w.pool, q, k);
  }

  lemma AccessSound(p: Pool, k: Key)
    requires Sound(p) && Access(p, k).Success?
    ensures
      var (q, f) := Access(p, k).value;
      FetchedAs(p, k, q, f) && Sound(q) && Flat(q) == Flat(p) && Pins(q) == PinUp(Pins(p), k) && k.pid >= 0
  {
    AccessKeeps(p, k);
  }

  lemma FetchesGood(w: World, base: Base, k: Key, v: World)
    requires Good(w, base) && Fetches(w, k, v)
    ensures Good(v, base)
  {
    GoodMeans(w, base);
    hide Good, Access, Safe, AllBacked, Sound, PinCount, HeapAt, Unmoved;
    if Access(w.pool, k).Success? {
      AccessUnmoved(w, base, k);
      assert forall k' :: Claims(v, k') == Claims(w, k') + if k' == k then 1 else 0;
      UnmovedGood(w, base, v);
    }
  }

  lemma BeginsGood(w: World, base: Base, pid: int, row: Row, v: World)
    requires Good(w, base) && Begins(w, pid, row, v)
    ensures Good(v, base)
  {
    hide Access, Safe, AllBacked, Sound, PinCount, HeapAt, Unmoved, Good, Covered;
    GoodMeans(w, base);
    var k := HeapKey(pid);
    if Access(w.pool, k).Success? {
      AccessUnmoved(w, base, k);
      var u := w.(pool := v.pool);
      assert forall k' :: Claims(u, k') == Claims(w, k') && Claims(v, k') == Claims(w, k') + if k' == k then 1 else 0;
      MoreCovered(w, u, k);
      MoreCovered(w, v, k);
      UnmovedGood(w, base, u);
      FetchedGood(u, base, v);
    }
  }

  /** So does a pin less with a claim less. */
  lemma FewerCovered(w: World, v: World, k: Key)
    requires Sound(w.pool) && Sound(v.pool) && Covered(w)
    requires forall k' :: PinCount(v.pool, k') == PinCount(w.pool, k') - if k' == k then 1 else 0
    requires forall k' :: Claims(v, k') == Claims(w, k') - if k' == k then 1 else 0
    ensures Covered(v)
  {
    hide PinCount, Claims;
    forall k' ensures PinCount(v.pool, k') >= Claims(v, k') {
      assert PinCount(w.pool, k') >= Claims(w, k');
    }
  }

  /** A pin more on a page allows for one claim more on it. */
  lemma MoreCovered(w: World, v: World, k: Key)
    requires Sound(w.pool) && Sound(v.pool) && Covered(w)
    requires forall k' :: PinCount(v.pool, k') == PinCount(w.pool, k') + if k' == k then 1 else 0
    requires forall k' :: Claims(v, k') <= Claims(w, k') + if k' == k then 1 else 0
    ensures Covered(v)
  {
    hide PinCount, Claims;
    forall k' ensures PinCount(v.pool, k') >= Claims(v, k') {
      assert PinCount(w.pool, k') >= Claims(w, k');
    }
  }

  lemma FetchedGood(u: World, base: Base, v: World)
    requires Good(u, base) && u.phase.Idle? && v.phase.Fetched? && u == v.(phase := Idle)
    requires Sound(v.pool) && Covered(v) && 0 <= v.phase.pid < PAGE_ID_LIMIT && StorableRow(v.phase.row)
    ensures Good(v, base)
  {
    hide Safe, Covered, AllBacked, Sound;
  }

  /** Letting go of a page that may go. */
  lemma UnPinUnmoved(w: World, base: Base, k: Key)
    requires Good(w, base) && UnPin(w.pool, k).Success? && Releasable(w.pool, k) && k in Pins(w.pool)
    ensures
      var q := UnPin(w.pool, k).value;
      && Sound(q) && AllBacked(q, w.lost)
      && (forall k' :: PinCount(q, k') == PinCount(w.pool, k') - if k' == k then 1 else 0)
      && ((forall b :: b in Busy(w) ==> HeapKey(b) in Pins(q)) ==> Unmoved(w.pool, base, w.rs, Busy(w), q))
  {
    var q := UnPin(w.pool, k).value;
    GoodMeans(w, base);
    hide Good, Covered, AllBacked, Sound, PinCount, HeapAt, Flat, Pins, Safe;
    UnPinKeeps(w.pool, k);
    PinDownCount(w.pool, q, k);
    UnPinBacked(w.pool, k, w.lost);
    SameFlatHeap(w.pool, q);
    if forall b :: b in Busy(w) ==> HeapKey(b) in Pins(q) {
      UnpinKeeps(w.pool, base, w.rs, Busy(w), q);
    }
  }

  lemma UnPinBacked(p: Pool, k: Key, lost: set<Key>)
    requires Sound(p) && UnPin(p, k).Success? && AllBacked(p, lost)
    ensures InTable(UnPin(p, k).value) && AllBacked(UnPin(p, k).value, lost)
  {
    hide AllBacked, Repin;
    var pin := p.frames[p.table[k]].pin;
    if pin > 0 {
      RepinBacked(p, k, pin - 1, lost);
    }
  }

  lemma LetsGoGood(w: World, base: Base, k: Key, v: World)
    requires Good(w, base) && LetsGo(w, k, v)
    ensures Good(v, base)
  {
    hide Good, UnPin, Safe, AllBacked, Sound, PinCount, HeapAt, Unmoved, Pins;
    GoodMeans(w, base);
    CoveredPins(w);
    assert Claims(w, k) > 0;
    MayRelease(w, k);
    UnPinUnmoved(w, base, k);
    assert forall k' :: Claims(v, k') == Claims(w, k') - if k' == k then 1 else 0;
    FewerCovered(w, v, k);
    BusyPinned(v);
    UnmovedGood(w, base, v);
  }

  lemma FinishesGood(w: World, base: Base, v: World)
    requires Good(w, base) && Finishes(w, v)
    ensures Good(v, base)
  {
    var k := HeapKey(w.phase.pid);
    hide Good, UnPin, Safe, AllBacked, Sound, PinCount, HeapAt, Unmoved, Pins, Covered, FullPages, Claims, Releasable;
    GoodMeans(w, base);
    CoveredPins(w);
    StampedClaims(w, v);
    MayRelease(w, k);
    UnPinUnmoved(w, base, k);
    FewerCovered(w, v, k);
    FinishedGood(w, base, v);
  }

  /** The insert gives back the one pin it had. */
  lemma StampedClaims(w: World, v: World)
    requires Sound(w.pool) && FullPages(w) && w.phase.Stamped? && v == w.(pool := v.pool, phase := Idle)
    ensures Busy(w) == NONE && Claims(w, HeapKey(w.phase.pid)) > 0
    ensures HeapKey(w.phase.pid) in w.lost ==> Claims(w, HeapKey(w.phase.pid)) >= 2
    ensures forall k :: Claims(v, k) == Claims(w, k) - if k == HeapKey(w.phase.pid) then 1 else 0
  {
    hide Sound, HeapAt, HeapReadable;
  }

  lemma FinishedGood(w: World, base: Base, v: World)
    requires Good(w, base) && w.phase.Stamped? && v == w.(pool := v.pool, phase := Idle)
    requires Unmoved(w.pool, base, w.rs, NONE, v.pool) && Covered(v) && AllBacked(v.pool, v.lost)
    ensures Good(v, base)
  {
    hide Sound, HeapAt, Covered, AllBacked, LogFile, Safe, PageComplete;
    assert Settling(v.pool, base, v.rs, [], NONE);
  }

  // ---------- index pages ----------

  /** A change of an index page changes no heap page. */
  lemma NodeHeap(p: Pool, k: Key, page: Page, q: Pool)
    requires Sound(p) && Sound(q) && k.kind == IndexFile && Flat(q) == Flat(p)[k := page]
    ensures forall pid: int :: HeapAt(q, pid) == HeapAt(p, pid)
  {
    forall pid: int ensures HeapAt(q, pid) == HeapAt(p, pid) {
      FlatHeapAt(p, pid);
      FlatHeapAt(q, pid);
    }
  }

  lemma StoreBacked(p: Pool, k: Key, page: Page, lost: set<Key>)
    requires Sound(p) && k in p.table && AllBacked(p, lost)
    ensures AllBacked(Store(p, p.table[k], page), lost)
  {
    hide QueueExact, FrameSound, DiskSound;
    var q := Store(p, p.table[k], page);
    forall k' | k' !in lost ensures Backed(q, k') {
      assert Backed(p, k');
    }
  }

  lemma ThroughAllBacked(p: Pool, k: Key, page: Page, dirty: bool, lost: set<Key>)
    requires Sound(p) && k in p.table && AllBacked(p, lost)
    ensures KeyOf(p.frames[p.table[k]]) == k && AllBacked(StoreThrough(p, p.table[k], page, dirty), lost)
  {
    hide QueueExact, FrameSound, DiskSound;
    var q := StoreThrough(p, p.table[k], page, dirty);
    forall k' | k' !in lost ensures Backed(q, k') {
      assert Backed(p, k');
      ReadAfterWrite(p.disk, k, page, k');
      assert k' in p.table && k' != k ==> p.table[k'] != p.table[k];
    }
  }

  /** A change of an index page, in its frame or through to disk, keeps the pool safe whatever page is busy. */
  lemma NodeKeeps(p: Pool, base: Base, rs: seq<Record>, busy: set<int>, k: Key, node: NodeImage, q: Pool)
    requires Safe(p, base, rs, busy) && Sound(q) && k.kind == IndexFile && k.pid >= 0 && NodeSized(node)
    requires Flat(q) == Flat(p)[k := IndexPage(node)] && Pins(q) == Pins(p)
    requires q.disk == p.disk || q.disk == WritePage(p.disk, k, IndexPage(node))
    ensures Unmoved(p, base, rs, busy, q)
  {
    NodeHeap(p, k, IndexPage(node), q);
    hide Sound, HeapAt, Flat, Pins, PageConsistent;
    if q.disk != p.disk {
      HeapWritten(p.disk, k, IndexPage(node));
      SameLogRecoverable(p.disk, base, rs, q.disk);
    }
    hide Recoverable;
  }

  lemma ChangesNodeGood(w: World, base: Base, k: Key, node: NodeImage, v: World)
    requires Good(w, base) && ChangesNode(w, k, node, v)
    ensures Good(v, base)
  {
    GoodMeans(w, base);
    StoreKeeps(w.pool, k, IndexPage(node));
    StoreBacked(w.pool, k, IndexPage(node), w.lost);
    ResidentPid(w.pool, k);
    NodeKeeps(w.pool, base, w.rs, Busy(w), k, node, v.pool);
    SameClaims(w, v);
    hide Good, Unmoved, Safe, Sound, AllBacked, Covered;
    UnmovedGood(w, base, v);
  }

  lemma WritesNodeGood(w: World, base: Base, k: Key, node: NodeImage, dirty: bool, v: World)
    requires Good(w, base) && WritesNode(w, k, node, dirty, v)
    ensures Good(v, base)
  {
    GoodMeans(w, base);
    StoreThroughKeeps(w.pool, k, IndexPage(node), dirty);
    ThroughAllBacked(w.pool, k, IndexPage(node), dirty, w.lost);
    ResidentPid(w.pool, k);
    NodeKeeps(w.pool, base, w.rs, Busy(w), k, node, v.pool);
    SameClaims(w, v);
    hide Good, Unmoved, Safe, Sound, AllBacked, Covered;
    UnmovedGood(w, base, v);
  }

  lemma ResidentPid(p: Pool, k: Key)
    requires Sound(p) && k in p.table
    ensures k.pid >= 0
  {
    assert KeyOf(p.frames[p.table[k]]) == k;
  }

  lemma SameClaims(w: World, v: World)
    requires Sound(w.pool) && InTable(v.pool) && Covered(w) && Pins(v.pool) == Pins(w.pool)
    requires v == w.(pool := v.pool)
    ensures Covered(v)
  {
    hide Pins;
    forall k ensures PinCount(v.pool, k) >= Claims(v, k) {
      assert PinCount(w.pool, k) >= Claims(w, k);
    }
  }

  // ---------- the insert ----------

  lemma IdleSettled(w: World, base: Base)
    requires Good(w, base) && (w.phase.Idle? || w.phase.Fetched? || w.phase.Stamped?)
    ensures Settled(w.pool, base, w.rs, w.full)
  {
  }

  lemma SettledIdle(w: World, base: Base)
    requires Settled(w.pool, base, w.rs, w.full) && Covered(w) && AllBacked(w.pool, w.lost) && FullPages(w)
    requires w.phase.Idle? || (w.phase.Stamped? && w.phase.pid >= 0)
    ensures Good(w, base)
  {
  }

  lemma ScribbleBacked(p: Pool, k: Key, page: Page, lost: set<Key>)
    requires Sound(p) && k in p.table && AllBacked(p, lost)
    ensures AllBacked(Scribble(p, p.table[k], page), lost + {k})
  {
    hide QueueExact, FrameSound, DiskSound;
    var q := Scribble(p, p.table[k], page);
    forall k' | k' !in lost + {k} ensures Backed(q, k') {
      assert Backed(p, k');
      assert KeyOf(p.frames[p.table[k]]) == k;
    }
  }

  /** The fetched page takes the row. */
  ghost predicate Taken(w: World)
    requires Sound(w.pool)
  {
    && w.phase.Fetched? && StorableRow(w.phase.row) && HeapReadable(HeapAt(w.pool, w.phase.pid))
    && WriteRow(HeapAt(w.pool, w.phase.pid), w.phase.row).1.Success?
  }

  /** The pages without a number stay so when the fetched page changes. */
  lemma FullNext(w: World, h: HeapImage, v: World)
    requires Sound(w.pool) && FullPages(w) && w.phase.Fetched? && v.phase.Idle? && v.rs == w.rs && w.lost <= v.lost
    requires v.full == w.full || (v.full == w.full + {w.phase.pid} && |w.rs| >= LSN_MAX)
    requires w.phase.pid >= 0 && HeapKey(w.phase.pid) in v.lost && HeapReadable(h)
    requires Sound(v.pool) && Flat(v.pool) == Flat(w.pool)[HeapKey(w.phase.pid) := HeapPage(h)]
    ensures FullPages(v)
  {
    hide Sound, HeapAt, Flat, HeapReadable;
    forall b | b in v.full ensures b >= 0 && HeapKey(b) in v.lost && HeapReadable(HeapAt(v.pool, b)) {
      ChangedHeap(w.pool, w.phase.pid, h, v.pool, b);
    }
  }

  /** A row turned away: its page keeps a pin for ever. */
  lemma RejectsGood(w: World, base: Base, v: World)
    requires Good(w, base) && Writes(w, v) && !Taken(w)
    ensures Good(v, base)
  {
    var pid, row := w.phase.pid, w.phase.row;
    var k, h := HeapKey(pid), WriteRow(HeapAt(w.pool, pid), row).0;
    GoodMeans(w, base);
    IdleSettled(w, base);
    FetchedMeans(w, base);
    RejectedData(HeapAt(w.pool, pid), row);
    AcceptedIff(HeapAt(w.pool, pid), row);
    WrittenSized(HeapAt(w.pool, pid), row);
    FlatHeapAt(w.pool, pid);
    ScribbleKeeps(w.pool, k, HeapPage(h));
    ScribbleBacked(w.pool, k, HeapPage(h), w.lost);
    assert v.pool == Scribble(w.pool, w.pool.table[k], HeapPage(h)) && v.lost == w.lost + {k};
    hide Good, Sound, Settled, HeapAt, Flat, Pins, WriteRow, HeapReadable, Scribble, Writes, AllBacked, FullPages;
    RejectSettles(w.pool, base, w.rs, w.full, pid, h, v.pool);
    LostCovered(w, v);
    FullNext(w, h, v);
    SettledIdle(v, base);
  }

  lemma FetchedMeans(w: World, base: Base)
    requires Good(w, base) && w.phase.Fetched?
    ensures 0 <= w.phase.pid < PAGE_ID_LIMIT && StorableRow(w.phase.row)
    ensures HeapKey(w.phase.pid) in Pins(w.pool) && HeapKey(w.phase.pid) in w.pool.table
  {
    GoodMeans(w, base);
    CoveredPins(w);
    assert Claims(w, HeapKey(w.phase.pid)) > 0;
  }

  /** The insert's pin becomes one no one gives back. */
  lemma LostCovered(w: World, v: World)
    requires Sound(w.pool) && Sound(v.pool) && Covered(w) && Pins(v.pool) == Pins(w.pool) && w.phase.Fetched?
    requires v == w.(pool := v.pool, lost := w.lost + {HeapKey(w.phase.pid)}, full := v.full, phase := Idle)
    ensures Covered(v)
  {
    hide Pins;
    forall k ensures PinCount(v.pool, k) >= Claims(v, k) {
      assert PinCount(w.pool, k) >= Claims(w, k);
    }
  }

  /** The step that writes a row the page takes. */
  lemma TakenStep(w: World, base: Base, v: World)
    requires Good(w, base) && Writes(w, v) && Taken(w)
    ensures
      var pid, row := w.phase.pid, w.phase.row;
      var k, (h, slot) := HeapKey(pid), WriteRow(HeapAt(w.pool, pid), row);
      && slot.Success? && HeapReadable(h) && HeapSized(h) && k in w.pool.table
      && var q := Store(w.pool, w.pool.table[k], HeapPage(h));
      && v == (if |w.rs| >= LSN_MAX then
                 w.(pool := q, lost := w.lost + {k}, full := w.full + {pid}, phase := Idle)
               else
                 w.(pool := q, phase := Logging(Record(|w.rs| + 1, RID(pid, slot.value), RowBytes(row)), row, 0)))
  {
    GoodMeans(w, base);
    hide Settling, Covered, AllBacked, HeapAt, FullPages;
    AcceptedIff(HeapAt(w.pool, w.phase.pid), w.phase.row);
    hide WriteRow, Sound;
  }

  /** Whether or not it can be logged, the row makes its page busy. */
  lemma TakenSettles(w: World, base: Base, v: World)
    requires Good(w, base) && Writes(w, v) && Taken(w)
    ensures
      var pid, row := w.phase.pid, w.phase.row;
      && Settled(v.pool, base, w.rs, w.full + {pid}) && Sound(v.pool) && Pins(v.pool) == Pins(w.pool)
          && AllBacked(v.pool, w.lost)
      && Flat(v.pool) == Flat(w.pool)[HeapKey(pid) := HeapPage(WriteRow(HeapAt(w.pool, pid), row).0)]
      && HeapAt(v.pool, pid) == WriteRow(HeapAt(w.pool, pid), row).0
  {
    hide Good, Sound, Settled, HeapAt, Flat, Pins, WriteRow, HeapReadable, Store, AllBacked, AllFit, Covered, Safe,
         PageComplete, Writes;
    var pid, row := w.phase.pid, w.phase.row;
    GoodMeans(w, base);
    TakenStep(w, base, v);
    FetchedMeans(w, base);
    var k, h := HeapKey(pid), WriteRow(HeapAt(w.pool, pid), row).0;
    IdleSettled(w, base);
    BusyPinned(w);
    StoreKeeps(w.pool, k, HeapPage(h));
    StoreBacked(w.pool, k, HeapPage(h), w.lost);
    StoreDisk(w.pool, k, HeapPage(h));
    StoredSettles(w.pool, base, w.rs, w.full, pid, h, v.pool);
  }

  /** A row the log has no number for: its page stays busy and pinned, and the insert is over. */
  lemma FullGood(w: World, base: Base, v: World)
    requires Good(w, base) && Writes(w, v) && Taken(w) && |w.rs| >= LSN_MAX
    ensures Good(v, base)
  {
    hide Good, Sound, Settled, HeapAt, Flat, Pins, WriteRow, HeapReadable, Store, AllBacked, AllFit, Covered, Safe,
         PageComplete, Writes, FullPages;
    GoodMeans(w, base);
    TakenStep(w, base, v);
    TakenSettles(w, base, v);
    FetchedMeans(w, base);
    LostCovered(w, v);
    MoreLost(v.pool, w.lost, v.lost);
    FullNext(w, WriteRow(HeapAt(w.pool, w.phase.pid), w.phase.row).0, v);
    SettledIdle(v, base);
  }

  lemma MoreLost(p: Pool, lost: set<Key>, more: set<Key>)
    requires Sound(p) && AllBacked(p, lost) && lost <= more
    ensures AllBacked(p, more)
  {
  }

  /** An accepted row: its page is busy until it is stamped. */
  lemma AcceptsGood(w: World, base: Base, v: World)
    requires Good(w, base) && Writes(w, v) && Taken(w) && |w.rs| < LSN_MAX
    ensures Good(v, base)
  {
    hide Good, Sound, Settled, HeapAt, Flat, Pins, WriteRow, HeapReadable, Store, AllBacked, AllFit, Covered, Safe,
         PageComplete, Writes, Spares;
    GoodMeans(w, base);
    TakenStep(w, base, v);
    TakenSettles(w, base, v);
    FetchedMeans(w, base);
    IdleSettled(w, base);
    AcceptCovered(w, v);
    assert w.full == NONE && w.full + {w.phase.pid} == {w.phase.pid};
    BeforeComplete(w.pool, base, w.rs, NONE, w.phase.pid);
    AcceptedGood(w, base, v, HeapAt(w.pool, w.phase.pid));
  }

  lemma StoreDisk(p: Pool, k: Key, page: Page)
    requires Sound(p) && k in p.table
    ensures Store(p, p.table[k], page).disk == p.disk
  {
  }

  lemma BeforeComplete(p: Pool, base: Base, rs: seq<Record>, busy: set<int>, pid: int)
    requires Settled(p, base, rs, busy) && pid >= 0 && pid !in busy
    ensures BaseTotal(base) && AllFit(rs) && HeapReadable(HeapAt(p, pid))
    ensures PageComplete(HeapAt(p, pid), base[pid], rs, pid) && Spares(HeapAt(p, pid), base[pid])
  {
    assert PageConsistent(HeapAt(p, pid), base[pid], rs, pid);
  }

  lemma AcceptCovered(w: World, v: World)
    requires Sound(w.pool) && Sound(v.pool) && Covered(w) && Pins(v.pool) == Pins(w.pool) && w.phase.Fetched?
    requires v == w.(pool := v.pool, phase := v.phase) && PageHeld(v.phase) == w.phase.pid && !v.phase.Idle?
    ensures Covered(v)
  {
    hide Pins;
    forall k ensures PinCount(v.pool, k) >= Claims(v, k) {
      assert PinCount(w.pool, k) >= Claims(w, k);
    }
  }

  lemma AcceptedGood(w: World, base: Base, v: World, h: HeapImage)
    requires w.phase.Fetched? && 0 <= w.phase.pid < PAGE_ID_LIMIT && StorableRow(w.phase.row) && HeapReadable(h)
    requires |w.rs| < LSN_MAX && w.full == {} && Sound(v.pool)
    requires BaseTotal(base) && AllFit(w.rs) && PageComplete(h, base[w.phase.pid], w.rs, w.phase.pid)
    requires Spares(h, base[w.phase.pid])
    requires Settled(v.pool, base, w.rs, {w.phase.pid}) && Covered(v) && AllBacked(v.pool, v.lost)
    requires
      var (g, slot) := WriteRow(h, w.phase.row);
      && slot.Success? && HeapAt(v.pool, w.phase.pid) == g && v == w.(pool := v.pool, phase := v.phase)
      && v.phase == Logging(Record(|w.rs| + 1, RID(w.phase.pid, slot.value), RowBytes(w.phase.row)), w.phase.row, 0)
    ensures Good(v, base)
  {
    hide Settled, Settling, Sound, HeapAt, Covered, AllBacked, HeapReadable, WriteRow, DataAfter, Spares, Pending,
         RowBytes, StorableRow, BytesOf, BaseTotal, AllFit, PageComplete;
    AcceptedPending(v.pool, base, w.rs, w.phase.pid, w.phase.row, h);
    SettledSettling(v.pool, base, v.rs, {w.phase.pid});
    assert Busy(v) == {w.phase.pid};
  }

  lemma AcceptedPending(q: Pool, base: Base, rs: seq<Record>, pid: int, row: Row, h: HeapImage)
    requires 0 <= pid < PAGE_ID_LIMIT && StorableRow(row) && HeapReadable(h) && |rs| < LSN_MAX && Sound(q)
    requires BaseTotal(base) && AllFit(rs) && PageComplete(h, base[pid], rs, pid) && Spares(h, base[pid])
    requires WriteRow(h, row).1.Success? && HeapAt(q, pid) == WriteRow(h, row).0
    ensures Pending(q, base, rs, Record(|rs| + 1, RID(pid, WriteRow(h, row).1.value), RowBytes(row)), row)
  {
    AcceptedIff(h, row);
    AcceptedData(h, row);
    WriteTightens(h, row);
    hide Sound, HeapAt, HeapReadable, WriteRow, DataAfter, Spares, Tightens;
    TightensSpares(h, WriteRow(h, row).0, 0, base[pid]);
  }

  // ---------- the log ----------

  lemma LoggingMeans(w: World, base: Base)
    requires Good(w, base) && w.phase.Logging?
    ensures
      var (rec, n, b) := (w.phase.rec, w.phase.n, BytesOf(w.phase.rec));
      && Loggable(rec) && rec.lsn == |w.rs| + 1 && n <= |b| && b == RecordBytes(rec) && rec.rid.pid >= 0
      && AllLoggable(w.rs) && w.pool.disk.wal == LogFile(w.rs, b[..n]) && Recoverable(w.pool.disk, base, w.rs)
  {
    hide Sound, HeapAt, Covered, AllBacked, RecordBytes, LogFile, PageComplete, Consistent, HeapOf;
  }

  /** Only the log changes: no page does, and no pin. */
  lemma LogOnly(w: World, base: Base, wal: seq<Byte>)
    requires Good(w, base)
    ensures
      var q := OnDisk(w.pool, wal);
      && Sound(q) && Flat(q) == Flat(w.pool) && Pins(q) == Pins(w.pool) && AllBacked(q, w.lost)
      && forall pid: int :: HeapAt(q, pid) == HeapAt(w.pool, pid)
  {
    hide Good, Sound, Flat, Pins, HeapAt, AllBacked;
    GoodMeans(w, base);
    var q := OnDisk(w.pool, wal);
    OnlyLogChanged(w.pool, q);
    SameFlatHeap(w.pool, q);
    LogBacked(w.pool, wal, w.lost);
  }

  lemma LogBacked(p: Pool, wal: seq<Byte>, lost: set<Key>)
    requires Sound(p) && AllBacked(p, lost)
    ensures InTable(OnDisk(p, wal)) && AllBacked(OnDisk(p, wal), lost)
  {
    var q := OnDisk(p, wal);
    forall k | k !in lost ensures Backed(q, k) {
      assert Backed(p, k);
    }
  }

  lemma LogsByteGood(w: World, base: Base, v: World)
    requires Good(w, base) && LogsByte(w, v)
    ensures Good(v, base)
  {
    hide Good, HeapAt, Flat, Pins, Sound, AllBacked, Recoverable, LogFile, RecordBytes, Loggable, Covered;
    GoodMeans(w, base);
    LoggingMeans(w, base);
    var b, n := BytesOf(w.phase.rec), w.phase.n;
    LogOnly(w, base, w.pool.disk.wal + [b[n]]);
    assert b[..n + 1] == b[..n] + [b[n]];
    LongerTail(w.rs, b[..n], [b[n]]);
    TornRecoverable(w.pool.disk, base, w.rs, v.pool.disk, b[..n + 1]);
    LoggedByte(w, base, v);
  }

  lemma LongerTail(rs: seq<Record>, a: seq<Byte>, b: seq<Byte>)
    requires AllLoggable(rs)
    ensures LogFile(rs, a) + b == LogFile(rs, a + b)
  {
  }

  lemma LoggedByte(w: World, base: Base, v: World)
    requires Good(w, base) && w.phase.Logging? && w.phase.n < |BytesOf(w.phase.rec)|
    requires v == w.(pool := v.pool, phase := w.phase.(n := w.phase.n + 1))
    requires Sound(v.pool) && Flat(v.pool) == Flat(w.pool) && Pins(v.pool) == Pins(w.pool) && AllBacked(v.pool, v.lost)
    requires forall pid: int :: HeapAt(v.pool, pid) == HeapAt(w.pool, pid)
    requires Recoverable(v.pool.disk, base, w.rs) && AllLoggable(w.rs)
        && v.pool.disk.wal == LogFile(w.rs, BytesOf(w.phase.rec)[..w.phase.n + 1])
    ensures Good(v, base)
  {
    hide Sound, HeapAt, Flat, Pins, AllBacked, Covered, LogFile, Recoverable, BytesOf, Settling, Pending, HeapReadable;
    GoodMeans(w, base);
    LoggedClaims(w, v);
    SamePending(w.pool, v.pool, base, w.rs, w.phase.rec, w.phase.row);
    SameSettling(w.pool, v.pool, base, w.rs, Tail(w.phase), Tail(v.phase), Busy(w));
  }

  lemma SamePending(p: Pool, q: Pool, base: Base, rs: seq<Record>, rec: Record, row: Row)
    requires Sound(p) && Sound(q) && Pending(p, base, rs, rec, row)
    requires forall pid: int :: HeapAt(q, pid) == HeapAt(p, pid)
    ensures Pending(q, base, rs, rec, row)
  {
    hide Sound, HeapAt, HeapReadable, Loggable;
  }

  lemma SameSettling(p: Pool, q: Pool, base: Base, rs: seq<Record>, a: seq<Byte>, b: seq<Byte>, busy: set<int>)
    requires Settling(p, base, rs, a, busy) && Sound(q) && Pins(q) == Pins(p)
    requires forall pid: int :: HeapAt(q, pid) == HeapAt(p, pid)
    requires Recoverable(q.disk, base, rs) && AllLoggable(rs) && q.disk.wal == LogFile(rs, b)
    ensures Settling(q, base, rs, b, busy)
  {
    hide Sound, HeapAt, Pins, LogFile, PageComplete, PageConsistent, Recoverable;
  }

  lemma LoggedClaims(w: World, v: World)
    requires Sound(w.pool) && Sound(v.pool) && Covered(w) && Pins(v.pool) == Pins(w.pool)
    requires v == w.(pool := v.pool, phase := v.phase, rs := v.rs) && !w.phase.Idle? && !v.phase.Idle?
    requires PageHeld(v.phase) == PageHeld(w.phase)
    ensures Covered(v)
  {
    hide Pins;
    forall k ensures PinCount(v.pool, k) >= Claims(v, k) {
      assert PinCount(w.pool, k) >= Claims(w, k);
    }
  }

  /** The log without the bytes after its last record: the page's row is written and not logged. */
  lemma BeforeRecord(w: World, base: Base)
    requires Good(w, base) && w.phase.Logging? && AllLoggable(w.rs)
    ensures RowWritten(OnDisk(w.pool, LogFile(w.rs, [])), base, w.rs, w.phase.rec.rid, w.phase.row)
  {
    hide HeapAt, Flat, Pins, AllBacked, Covered, LogFile, PageComplete, PageConsistent, Recoverable, BytesOf;
    var q := OnDisk(w.pool, LogFile(w.rs, []));
    LogOnly(w, base, LogFile(w.rs, []));
    TornRecoverable(w.pool.disk, base, w.rs, q.disk, []);
    hide Sound;
    assert Settled(q, base, w.rs, {w.phase.rec.rid.pid});
  }

  lemma LogsHeaderGood(w: World, base: Base, v: World)
    requires Good(w, base) && LogsHeader(w, v)
    ensures Good(v, base)
  {
    hide Good, HeapAt, Flat, Pins, Sound, AllBacked, Recoverable, LogFile, RecordBytes, Loggable, Covered,
         RowWritten, Stampable;
    GoodMeans(w, base);
    LoggingMeans(w, base);
    var rec := w.phase.rec;
    var b := BytesOf(rec);
    assert b[..w.phase.n] == b;
    BeforeRecord(w, base);
    var p0 := OnDisk(w.pool, LogFile(w.rs, []));
    LogOnly(w, base, LogFile(w.rs, []));
    LogOnly(w, base, v.pool.disk.wal);
    RecordIs(w, base);
    LongerTail(w.rs, [], b);
    AppendedLog(w.rs, rec);
    assert [] + b == b;
    WrittenLogged(p0, base, w.rs, rec.rid, w.phase.row, v.pool);
    LoggedClaims(w, v);
    LoggedGood(v, base);
  }

  lemma RecordIs(w: World, base: Base)
    requires Good(w, base) && w.phase.Logging?
    ensures w.phase.rec == Record(|w.rs| + 1, w.phase.rec.rid, RowBytes(w.phase.row)) && StorableRow(w.phase.row)
    ensures |RowBytes(w.phase.row)| == w.phase.rec.rid.slot.size && |w.rs| < LSN_MAX
  {
    hide Sound, HeapAt, Covered, AllBacked, RecordBytes, LogFile, PageComplete;
  }

  lemma SettledSettling(p: Pool, base: Base, rs: seq<Record>, busy: set<int>)
    requires Settled(p, base, rs, busy)
    ensures Settling(p, base, rs, [], busy)
  {
    hide Sound, HeapAt, LogFile, PageComplete, Safe;
  }

  lemma LoggedGood(v: World, base: Base)
    requires v.phase.Logged? && Stampable(v.pool, base, v.rs, v.phase.rec.rid.pid) && v.phase.rec.rid.pid >= 0
    requires |v.rs| == v.phase.rec.lsn <= LSN_MAX && Covered(v) && AllBacked(v.pool, v.lost) && v.full == {}
    ensures Good(v, base)
  {
    hide Sound, HeapAt, Covered, AllBacked, PageComplete, HeapReadable, Settled, Settling;
    StampableSettled(v.pool, base, v.rs, v.phase.rec.rid.pid);
    SettledSettling(v.pool, base, v.rs, {v.phase.rec.rid.pid});
    assert Busy(v) == {v.phase.rec.rid.pid};
  }

  lemma StampsGood(w: World, base: Base, v: World)
    requires Good(w, base) && Stamps(w, v)
    ensures Good(v, base)
  {
    hide Good, HeapAt, Flat, Pins, Sound, AllBacked, Covered, Settled, Stampable, PageConsistent, PageComplete,
         StoreThrough, Safe;
    GoodMeans(w, base);
    LoggedStampable(w, base);
    var pid := w.phase.rec.rid.pid;
    var k, h := HeapKey(pid), HeapAt(w.pool, pid).(lsn := w.phase.rec.lsn);
    StampedPage(w.pool, base, w.rs, pid);
    StoreThroughKeeps(w.pool, k, HeapPage(h), false);
    ThroughAllBacked(w.pool, k, HeapPage(h), false, w.lost);
    ThroughDisk(w.pool, k, HeapPage(h), false);
    assert WrittenThrough(w.pool, pid, h, v.pool);
    StampableSettled(w.pool, base, w.rs, pid);
    SettledSafe(w.pool, base, w.rs, {pid});
    WrittenKeeps(w.pool, base, w.rs, pid, h, v.pool);
    LoggedClaims(w, v);
    SettledIdle(v, base);
  }

  lemma ThroughDisk(p: Pool, k: Key, page: Page, dirty: bool)
    requires Sound(p) && k in p.table
    ensures k.pid >= 0 && StoreThrough(p, p.table[k], page, dirty).disk == WritePage(p.disk, k, page)
  {
    assert KeyOf(p.frames[p.table[k]]) == k;
  }

  lemma LoggedStampable(w: World, base: Base)
    requires Good(w, base) && w.phase.Logged?
    ensures Stampable(w.pool, base, w.rs, w.phase.rec.rid.pid) && |w.rs| == w.phase.rec.lsn <= LSN_MAX
        && w.phase.rec.rid.pid >= 0
  {
    hide Sound, HeapAt, Covered, AllBacked, LogFile, PageComplete, Safe, HeapReadable;
    assert Busy(w) == {w.phase.rec.rid.pid};
  }

  /** An insert under way can always take its next step. */
  lemma InsertGoesOn(w: World, base: Base) returns (v: World)
    requires Good(w, base) && !w.phase.Idle?
    ensures Sound(w.pool) && (Writes(w, v) || LogsByte(w, v) || LogsHeader(w, v) || Stamps(w, v) || Finishes(w, v))
  {
    hide Good, HeapAt, Sound, Settling, AllBacked, Recoverable, LogFile, RecordBytes, Loggable, WriteRow, Covered,
         HeapReadable;
    GoodMeans(w, base);
    HeldResident(w);
    var k := HeapKey(PageHeld(w.phase));
    match w.phase
    case Fetched(pid, row) =>
      IdleSettled(w, base);
      FetchedReady(w, base);
      var f := w.pool.table[k];
      var (h, slot) := WriteRow(HeapAt(w.pool, pid), row);
      v := match slot
        case Failure(_) => w.(pool := Scribble(w.pool, f, HeapPage(h)), lost := w.lost + {k}, phase := Idle)
        case Success(s) =>
          if |w.rs| >= LSN_MAX then
            w.(pool := Store(w.pool, f, HeapPage(h)), lost := w.lost + {k}, full := w.full + {pid}, phase := Idle)
          else
            w.(pool := Store(w.pool, f, HeapPage(h)),
               phase := Logging(Record(|w.rs| + 1, RID(pid, s), RowBytes(row)), row, 0));
    case Logging(rec, _, n) =>
      LoggingMeans(w, base);
      HeaderFirst(w.rs, BytesOf(rec)[..n]);
      if n < |BytesOf(rec)| {
        v := w.(pool := OnDisk(w.pool, w.pool.disk.wal + [BytesOf(rec)[n]]), phase := w.phase.(n := n + 1));
      } else {
        v := w.(pool := OnDisk(w.pool, WithHeader(w.pool.disk.wal, |w.pool.disk.wal| - n)), phase := Logged(rec),
            rs := w.rs + [rec]);
      }
    case Logged(rec) =>
      var h := HeapAt(w.pool, rec.rid.pid).(lsn := rec.lsn);
      v := w.(pool := StoreThrough(w.pool, w.pool.table[k], HeapPage(h), false), phase := Stamped(rec.rid.pid));
    case Stamped(pid) =>
      v := w.(pool := UnPin(w.pool, k).value, phase := Idle);
  }

  lemma HeldResident(w: World)
    requires Sound(w.pool) && Covered(w) && !w.phase.Idle?
    ensures
      var k := HeapKey(PageHeld(w.phase));
      && InTable(w.pool) && k in w.pool.table && UnPin(w.pool, k).Success?
      && w.pool.table[k] < |w.pool.frames| && w.pool.frames[w.pool.table[k]].pid >= 0
  {
    CoveredPins(w);
    assert Claims(w, HeapKey(PageHeld(w.phase))) > 0;
  }

  lemma FetchedReady(w: World, base: Base)
    requires Good(w, base) && w.phase.Fetched?
    ensures StorableRow(w.phase.row) && HeapReadable(HeapAt(w.pool, w.phase.pid))
  {
    IdleSettled(w, base);
    if w.phase.pid !in w.full {
      BeforeComplete(w.pool, base, w.rs, w.full, w.phase.pid);
    }
  }

  lemma HeaderFirst(rs: seq<Record>, tail: seq<Byte>)
    requires AllLoggable(rs)
    ensures |LogFile(rs, tail)| >= WAL_HEADER_SIZE + |tail|
  {
  }

  // ---------- runs ----------

  lemma OtherGood(w: World, base: Base, v: World)
    requires Good(w, base) && OtherStep(w, v)
    ensures Good(v, base) && v.rs == w.rs
  {
    GoodMeans(w, base);
    hide Good, Sound, Access, UnPin, Store, StoreThrough;
    if k :| Fetches(w, k, v) {
      FetchesGood(w, base, k, v);
    } else if k :| LetsGo(w, k, v) {
      LetsGoGood(w, base, k, v);
    } else if k, node :| ChangesNode(w, k, node, v) {
      ChangesNodeGood(w, base, k, node, v);
    } else {
      var k, node, dirty :| WritesNode(w, k, node, dirty, v);
      WritesNodeGood(w, base, k, node, dirty, v);
    }
  }

  lemma InsertGood(w: World, base: Base, v: World)
    requires Good(w, base) && InsertStep(w, v)
    ensures Good(v, base) && (v.rs == w.rs || LogsHeader(w, v))
  {
    hide Good, Begins, Writes, LogsByte, LogsHeader, Stamps, Finishes;
    GoodMeans(w, base);
    InsertLogs(w, v);
    if pid, row :| Begins(w, pid, row, v) {
      BeginsGood(w, base, pid, row, v);
    } else if Writes(w, v) {
      if !Taken(w) {
        RejectsGood(w, base, v);
      } else if |w.rs| >= LSN_MAX {
        FullGood(w, base, v);
      } else {
        AcceptsGood(w, base, v);
      }
    } else if LogsByte(w, v) {
      LogsByteGood(w, base, v);
    } else if LogsHeader(w, v) {
      LogsHeaderGood(w, base, v);
    } else if Stamps(w, v) {
      StampsGood(w, base, v);
    } else {
      FinishesGood(w, base, v);
    }
  }

  lemma InsertLogs(w: World, v: World)
    requires Sound(w.pool) && InsertStep(w, v)
    ensures v.rs == w.rs || LogsHeader(w, v)
  {
    hide Access, WriteRow, HeapAt, StoreThrough, Store, Scribble, UnPin, BytesOf;
  }

  /** Every step of anyone keeps what crash safety needs, and the log only grows. */
  lemma StepKeeps(w: World, base: Base, v: World)
    requires Good(w, base) && Step(w, v)
    ensures Good(v, base) && w.rs <= v.rs
  {
    GoodMeans(w, base);
    hide Good, OtherStep, InsertStep;
    if OtherStep(w, v) {
      OtherGood(w, base, v);
    } else {
      InsertGood(w, base, v);
    }
  }

  ghost predicate IsRun(run: seq<World>) {
    forall i :: 0 <= i < |run| - 1 ==> Moves(run, i)
  }

  ghost predicate Moves(run: seq<World>, i: nat)
    requires i + 1 < |run|
  {
    Sound(run[i].pool) && Step(run[i], run[i + 1])
  }

  lemma {:induction false} RunGood(run: seq<World>, base: Base, i: nat)
    requires IsRun(run) && i < |run| && Good(run[0], base)
    ensures Good(run[i], base)
  {
    hide Good, Step;
    if i > 0 {
      RunGood(run, base, i - 1);
      assert Moves(run, i - 1);
      StepKeeps(run[i - 1], base, run[i]);
    }
  }

  /** A settled pool no one holds pages of is where a run begins. */
  lemma SettledBegins(p: Pool, base: Base, rs: seq<Record>)
    requires Settled(p, base, rs, NONE) && Pins(p) == map[]
    ensures Good(World(p, multiset{}, {}, {}, Idle, rs), base)
  {
    var w := World(p, multiset{}, {}, {}, Idle, rs);
    forall k ensures Backed(p, k) {
      UnpinnedBacked(p, k);
    }
    assert Covered(w);
    SettledIdle(w, base);
  }

  lemma UnpinnedBacked(p: Pool, k: Key)
    requires Sound(p) && k !in Pins(p)
    ensures Backed(p, k)
  {
    if k in p.table {
      assert FrameSound(p.frames[p.table[k]], p.disk) && KeyOf(p.frames[p.table[k]]) == k;
    }
  }

  /**
    Stop the machine in any state of any run: what is on disk is recovered as exactly the records
    logged by then, which are those of the start and those whose header write was reached.
   */
  lemma RunRecovers(run: seq<World>, base: Base, i: nat)
    requires IsRun(run) && i < |run| && Good(run[0], base)
    ensures Recoverable(run[i].pool.disk, base, run[i].rs) && Records(run[i].pool.disk.wal) == run[i].rs
  {
    hide Good, Step, Records, Recoverable, IsRun;
    RunGood(run, base, i);
    GoodMeans(run[i], base);
    SafeRecoverable(run[i].pool, base, run[i].rs, Busy(run[i]));
    Recovers(run[i].pool.disk, base, run[i].rs);
  }

  lemma PrefixTwice(a: seq<Record>, b: seq<Record>, c: seq<Record>)
    requires a <= b && b <= c
    ensures a <= c
  {
  }

  lemma StepAt(run: seq<World>, base: Base, i: nat)
    requires IsRun(run) && i + 1 < |run| && Good(run[0], base)
    ensures run[i].rs <= run[i + 1].rs
  {
    hide Good, Step;
    assert Moves(run, i);
    RunGood(run, base, i);
    StepKeeps(run[i], base, run[i + 1]);
  }

  /** A record once logged stays logged. */
  lemma {:induction false} RunGrows(run: seq<World>, base: Base, j: nat, i: nat)
    requires IsRun(run) && j <= i < |run| && Good(run[0], base)
    ensures run[j].rs <= run[i].rs
    decreases i
  {
    hide Good, IsRun;
    if j < i {
      RunGrows(run, base, j, i - 1);
      StepAt(run, base, i - 1);
      PrefixTwice(run[j].rs, run[i - 1].rs, run[i].rs);
    }
  }
}
