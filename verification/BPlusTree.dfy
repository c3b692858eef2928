/**
  The B+ tree as a value: what the page-level code of NodePages.dfy and IndexWriter.dfy
  computes, and the theorems about it. A tree carries the page ids of its nodes, so that the
  same value says where every node lives.
 */
module BPlusTree {
  import opened StorageTypes

  datatype Entry = Entry(key: int, rid: RID)

  datatype Tree =
    | Leaf(pid: int, entries: seq<Entry>, next: int)
    | Inner(pid: int, keys: seq<int>, kids: seq<Tree>)

  /**
    Which of the four pending keys the new right node of an internal split starts from.
    The source copies from the slot of the promoted key; the repaired form starts one later.
   */
  datatype SplitCopy = AsWritten | Repaired

  datatype Split = Split(key: int, right: Tree)
  datatype InsertResult = InsertResult(left: Tree, split: Option<Split>, pages: nat)

  // ---------- positions inside one node ----------

  /** Child followed by an insert: the number of leading separators below k. */
  function Route(keys: seq<int>, k: int): (i: nat)
    ensures i <= |keys|
    ensures forall j :: 0 <= j < i ==> keys[j] < k
    ensures i < |keys| ==> k <= keys[i]
  {
    if keys == [] || k <= keys[0] then 0
    else 1 + Route(keys[1..], k)
  }

  /** Child followed by a scan: the number of leading separators not above k. */
  function ScanRoute(keys: seq<int>, k: int): (i: nat)
    ensures i <= |keys|
    ensures forall j :: 0 <= j < i ==> keys[j] <= k
    ensures i < |keys| ==> k < keys[i]
  {
    if keys == [] || k < keys[0] then 0
    else 1 + ScanRoute(keys[1..], k)
  }

  /** Where a shift from the right puts k: just after the last key that is not above k. */
  function SlotFor(keys: seq<int>, k: int): (p: nat)
    ensures p <= |keys|
    ensures forall j :: p <= j < |keys| ==> k < keys[j]
    ensures p > 0 ==> keys[p - 1] <= k
  {
    if keys == [] || keys[|keys| - 1] <= k then |keys|
    else SlotFor(keys[..|keys| - 1], k)
  }

  /** That place is the only one. */
  lemma SlotIs(keys: seq<int>, k: int, p: nat)
    requires p <= |keys| && (p > 0 ==> keys[p - 1] <= k)
    requires forall j :: p <= j < |keys| ==> k < keys[j]
    ensures SlotFor(keys, k) == p
  {
  }

  function InsertAt<T>(s: seq<T>, p: nat, x: T): (r: seq<T>)
    requires p <= |s|
    ensures |r| == |s| + 1
    ensures forall i :: 0 <= i < |r| ==> r[i] == if i < p then s[i] else if i == p then x else s[i - 1]
  {
    s[..p] + [x] + s[p..]
  }

  function KeysOf(es: seq<Entry>): (keys: seq<int>)
    ensures |keys| == |es|
    ensures forall i :: 0 <= i < |es| ==> keys[i] == es[i].key
  {
    seq(|es|, i requires 0 <= i < |es| => es[i].key)
  }

  // ---------- shape: heights and occupancy ----------

  /** A node h levels above the leaves, with the occupancy every node but a root leaf has. */
  ghost predicate Shaped(t: Tree, h: nat) {
    match t
    case Leaf(_, es, _) => h == 0 && 2 <= |es| <= MAX_KEYS
    case Inner(_, keys, kids) =>
      && h > 0
      && 1 <= |keys| <= MAX_KEYS
      && |kids| == |keys| + 1
      && AllShaped(kids, h - 1)
  }

  ghost predicate AllShaped(ts: seq<Tree>, h: nat) {
    forall i :: 0 <= i < |ts| ==> Shaped(ts[i], h)
  }

  /** A whole tree: as Shaped, except that a lone leaf may be emptier. */
  ghost predicate RootShaped(t: Tree, h: nat) {
    if t.Leaf? then h == 0 && |t.entries| <= MAX_KEYS else Shaped(t, h)
  }

  // ---------- insertion ----------

  function InsLeaf(t: Tree, k: int, rid: RID, pages: nat): (r: InsertResult)
    requires t.Leaf? && |t.entries| <= MAX_KEYS
    ensures RootShaped(r.left, 0)
    ensures r.split.Some? ==> Shaped(r.left, 0) && Shaped(r.split.value.right, 0)
    ensures Shaped(t, 0) ==> Shaped(r.left, 0)
  {
    var es := InsertAt(t.entries, SlotFor(KeysOf(t.entries), k), Entry(k, rid));
    if |t.entries| < MAX_KEYS then
      InsertResult(Leaf(t.pid, es, t.next), None, pages)
    else
      var right := Leaf(pages, es[2..], t.next);
      InsertResult(Leaf(t.pid, es[..2], pages), Some(Split(es[2].key, right)), pages + 1)
  }

  /** Puts a split child's new sibling into its parent; a full parent splits in turn. */
  function Absorb(pid: int, h: nat, keys: seq<int>, kids: seq<Tree>, s: Split, pages: nat, copy: SplitCopy)
    : (r: InsertResult)
    requires |kids| == |keys| + 1 && 1 <= |keys| <= MAX_KEYS && h > 0
    requires Shaped(s.right, h - 1) && AllShaped(kids, h - 1)
    ensures |keys| < MAX_KEYS <==> r.split.None?
    ensures r.left.Inner? && r.left.pid == pid && r.pages == pages + 1
    ensures Shaped(r.left, h)
    ensures r.split.Some? ==> Shaped(r.split.value.right, h)
  {
    var p := SlotFor(keys, s.key);
    var keys', kids' := InsertAt(keys, p, s.key), InsertAt(kids, p + 1, s.right);
    assert AllShaped(kids', h - 1);
    if |keys| < MAX_KEYS then
      InsertResult(Inner(pid, keys', kids'), None, pages + 1)
    else
      var rightKeys := if copy.Repaired? then keys'[3..] else keys'[2..3];
      InsertResult(Inner(pid, keys'[..2], kids'[..3]), Some(Split(keys'[2], Inner(pages, rightKeys, kids'[3..]))),
          pages + 1)
  }

  /**
    One level of the recursive insert. `pages` is the length of the index file in pages;
    every fetched page is the next one, including the spare page an internal node fetches
    and does not use when it has room.
   */
  function Ins(t: Tree, h: nat, k: int, rid: RID, pages: nat, copy: SplitCopy): (r: InsertResult)
    requires RootShaped(t, h)
    ensures RootShaped(r.left, h)
    ensures r.split.Some? ==> Shaped(r.left, h) && Shaped(r.split.value.right, h)
    ensures Shaped(t, h) ==> Shaped(r.left, h)
    ensures r.left.pid == t.pid
    ensures pages <= r.pages <= pages + h + 1
    decreases h
  {
    if t.Leaf? then InsLeaf(t, k, rid, pages)
    else
      var i := Route(t.keys, k);
      assert AllShaped(t.kids, h - 1);
      var c := Ins(t.kids[i], h - 1, k, rid, pages, copy);
      var kids := t.kids[i := c.left];
      assert AllShaped(kids, h - 1);
      if c.split.None? then InsertResult(Inner(t.pid, t.keys, kids), None, c.pages)
      else Absorb(t.pid, h, t.keys, kids, c.split.value, c.pages, copy)
  }

  lemma KidShaped(t: Tree, h: nat, i: nat)
    requires t.Inner? && Shaped(t, h) && i < |t.kids|
    ensures h > 0 && AllShaped(t.kids, h - 1) && Shaped(t.kids[i], h - 1) && RootShaped(t.kids[i], h - 1)
  {
    assert AllShaped(t.kids, h - 1);
  }

  lemma InnerShaped(t: Tree, h: nat)
    requires RootShaped(t, h) && t.Inner?
    ensures Shaped(t, h) && h > 0 && |t.kids| == |t.keys| + 1
  {
  }

  lemma KidsShaped(kids: seq<Tree>, h: nat, i: nat, l: Tree)
    requires AllShaped(kids, h) && i < |kids| && Shaped(l, h)
    ensures AllShaped(kids[i := l], h)
  {
  }

  /** One level of the tree function. */
  lemma InsStep(t: Tree, h: nat, k: int, rid: RID, pages: nat, copy: SplitCopy, i: nat, c: InsertResult,
                kids: seq<Tree>)
    requires t.Inner? && Shaped(t, h) && i == Route(t.keys, k) && RootShaped(t.kids[i], h - 1)
    requires c == Ins(t.kids[i], h - 1, k, rid, pages, copy) && kids == t.kids[i := c.left]
    ensures AllShaped(kids, h - 1) && c.left.pid == t.kids[i].pid && Shaped(c.left, h - 1)
    ensures c.split.Some? ==> Shaped(c.split.value.right, h - 1)
    ensures pages <= c.pages <= pages + h
    ensures c.split.None? ==> Ins(t, h, k, rid, pages, copy) == InsertResult(Inner(t.pid, t.keys, kids), None, c.pages)
    ensures c.split.Some? ==>
      Ins(t, h, k, rid, pages, copy) == Absorb(t.pid, h, t.keys, kids, c.split.value, c.pages, copy)
  {
    KidShaped(t, h, i);
    KidsShaped(t.kids, h - 1, i, c.left);
  }

  /** How many nodes on the way of k are full, from the leaf up without a gap. */
  ghost function FullLevels(t: Tree, h: nat, k: int): (n: nat)
    requires RootShaped(t, h)
    ensures n <= h + 1
    decreases h
  {
    if t.Leaf? then if |t.entries| == 3 then 1 else 0
    else
      assert AllShaped(t.kids, h - 1);
      var below := FullLevels(t.kids[Route(t.keys, k)], h - 1, k);
      if below == h && |t.keys| == 3 then h + 1 else below
  }

  /**
    An insert splits the full nodes from the leaf up, and fetches a page for each of them and a spare one
    for the node above them that has room; if the leaf has room it fetches none.
   */
  lemma {:induction false} PagesTaken(t: Tree, h: nat, k: int, rid: RID, pages: nat, copy: SplitCopy)
    requires RootShaped(t, h)
    ensures
      var r, full := Ins(t, h, k, rid, pages, copy), FullLevels(t, h, k);
      && (r.split.Some? <==> full == h + 1)
      && r.pages == pages + full + if 0 < full <= h then 1 else 0
    decreases h
  {
    hide SlotFor;
    if t.Inner? {
      var i := Route(t.keys, k);
      KidShaped(t, h, i);
      hide Ins, InsLeaf, Absorb;
      PagesTaken(t.kids[i], h - 1, k, rid, pages, copy);
      InsStep(t, h, k, rid, pages, copy, i, Ins(t.kids[i], h - 1, k, rid, pages, copy),
              t.kids[i := Ins(t.kids[i], h - 1, k, rid, pages, copy).left]);
    }
  }

  /** An index: its root, the root's height and the number of pages in its file. */
  datatype Index = Index(root: Tree, height: nat, pages: nat)

  /** A whole insert: when the root splits, a new root is grown above it. */
  function Insert(x: Index, k: int, rid: RID, copy: SplitCopy): (r: Index)
    requires RootShaped(x.root, x.height)
    ensures RootShaped(r.root, r.height)
    ensures x.height <= r.height <= x.height + 1
    ensures x.pages <= r.pages <= x.pages + x.height + 2
  {
    var c := Ins(x.root, x.height, k, rid, x.pages, copy);
    match c.split
    case None => Index(c.left, x.height, c.pages)
    case Some(s) => Index(Inner(c.pages, [s.key], [c.left, s.right]), x.height + 1, c.pages + 1)
  }

  // ---------- point scan ----------

  function Find(es: seq<Entry>, k: int): Option<RID> {
    if es == [] then None
    else if es[0].key == k then Some(es[0].rid)
    else Find(es[1..], k)
  }

  function Lookup(t: Tree, h: nat, k: int): Option<RID>
    requires RootShaped(t, h)
    decreases h
  {
    if t.Leaf? then Find(t.entries, k)
    else
      var i := ScanRoute(t.keys, k);
      assert AllShaped(t.kids, h - 1);
      Lookup(t.kids[i], h - 1, k)
  }
}
