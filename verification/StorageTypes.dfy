/** The record layouts every part of the engine shares. */
module StorageTypes {

  /** The two kinds of page file; the log is not paged. */
  datatype PageType = HeapFile | IndexFile

  /** A slot directory entry: where a row lies inside the payload of its page. */
  datatype Slot = Slot(size: int, offset: nat, deleted: bool)

  /** A row identifier: the page and a copy of the slot. */
  datatype RID = RID(pid: int, slot: Slot)

  /** The page id that means "no page"; page ids are 32-bit signed. */
  const INVALID_PAGE_ID := -1
  const PAGE_ID_LIMIT := 0x8000_0000

  /** The file length, cut to the 32-bit page id the pool takes. */
  function ToPageId(n: nat): (pid: int)
    ensures n < PAGE_ID_LIMIT ==> pid == n
  {
    var m := n % 0x1_0000_0000;
    if m < PAGE_ID_LIMIT then m else m - 0x1_0000_0000
  }

  /** Keys an index node can hold. */
  const MAX_KEYS := 3

  type Byte = x: int | 0 <= x < 256

  datatype Option<+T> = None | Some(value: T)
  datatype Result<+T, +E> = Success(value: T) | Failure(error: E)

  // ---------- index pages ----------

  /** An index page. The leaf and the internal part share memory; only the one `isLeaf` names is read. */
  datatype NodeImage = NodeImage(
    isLeaf: bool, keyCount: int, keys: seq<int>, values: seq<RID>, nextLeaf: int, children: seq<int>)

  ghost predicate NodeSized(n: NodeImage) {
    |n.keys| == MAX_KEYS && |n.values| == MAX_KEYS && |n.children| == MAX_KEYS + 1
  }

  const ZERO_RID := RID(0, Slot(0, 0, false))
  const ZERO_NODE := NodeImage(false, 0, [0, 0, 0], [ZERO_RID, ZERO_RID, ZERO_RID], 0, [0, 0, 0, 0])

  // ---------- heap pages ----------

  const MAX_SLOTS := 10
  const HEAP_PAYLOAD_SIZE := 4015

  /** A heap page: its header, its slot directory and the bytes rows are packed into. */
  datatype HeapImage = HeapImage(
    freeSize: int, slotCount: int, initialized: bool, lsn: nat, slots: seq<Slot>, data: seq<Byte>)

  ghost predicate HeapSized(h: HeapImage) {
    |h.slots| == MAX_SLOTS && |h.data| == HEAP_PAYLOAD_SIZE && h.lsn < 0x1_0000
  }

  function Zeros(n: nat): (s: seq<Byte>)
    ensures |s| == n && forall i :: 0 <= i < n ==> s[i] == 0
  {
    seq(n, i => 0)
  }

  const NO_SLOT := Slot(0, 0, false)
  const NO_SLOTS := [NO_SLOT, NO_SLOT, NO_SLOT, NO_SLOT, NO_SLOT, NO_SLOT, NO_SLOT, NO_SLOT, NO_SLOT, NO_SLOT]
  const ZERO_HEAP := HeapImage(0, 0, false, 0, NO_SLOTS, Zeros(HEAP_PAYLOAD_SIZE))

  // ---------- pages ----------

  datatype Page = HeapPage(heap: HeapImage) | IndexPage(node: NodeImage)

  /** The bytes of a page belong to its file: heap pages in the heap file, nodes in the index file. */
  ghost predicate PageOf(kind: PageType, p: Page) {
    match kind
    case HeapFile => p.HeapPage? && HeapSized(p.heap)
    case IndexFile => p.IndexPage? && NodeSized(p.node)
  }

  function ZeroPage(kind: PageType): (p: Page)
    ensures PageOf(kind, p)
  {
    match kind
    case HeapFile => HeapPage(ZERO_HEAP)
    case IndexFile => IndexPage(ZERO_NODE)
  }

  /** A page's name: page ids are only unique within a file. */
  datatype Key = Key(kind: PageType, pid: int)
}
