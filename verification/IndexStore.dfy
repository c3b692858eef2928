/** How a tree lies in the index file: one node a page, children by page id. */
module IndexStore {
  import opened StorageTypes
  import opened BPlusTree
  import opened IndexPids
  import opened NodePages

  function PageKey(pid: int): Key {
    Key(IndexFile, pid)
  }

  ghost function NodeOf(flat: imap<Key, Page>, pid: int): NodeImage {
    if PageKey(pid) in flat && flat[PageKey(pid)].IndexPage? then flat[PageKey(pid)].node else ZERO_NODE
  }

  ghost function RootPids(ts: seq<Tree>): (pids: seq<int>)
    ensures |pids| == |ts| && forall i :: 0 <= i < |ts| ==> pids[i] == ts[i].pid
  {
    seq(|ts|, i requires 0 <= i < |ts| => ts[i].pid)
  }

  /** The page of a node says what the node is. */
  ghost predicate NodeHolds(n: NodeImage, t: Tree) {
    NodeReadable(n) &&
    match t
    case Leaf(_, es, next) => n.isLeaf && EntriesOf(n) == es && n.nextLeaf == next
    case Inner(_, keys, kids) => !n.isLeaf && SeparatorsOf(n) == keys && ChildrenOf(n) == RootPids(kids)
  }

  /** The whole tree is in the file. */
  ghost predicate Stored(flat: imap<Key, Page>, t: Tree) {
    && NodeHolds(NodeOf(flat, t.pid), t)
    && (t.Inner? ==> forall i :: 0 <= i < |t.kids| ==> Stored(flat, t.kids[i]))
  }

  /** Only the pages of a tree matter to it. */
  lemma {:induction false} StoredElsewhere(flat: imap<Key, Page>, flat': imap<Key, Page>, t: Tree)
    requires Stored(flat, t)
    requires forall p :: p in Pids(t) ==> NodeOf(flat', p) == NodeOf(flat, p)
    ensures Stored(flat', t)
    decreases t
  {
    if t.Inner? {
      forall i | 0 <= i < |t.kids| ensures Stored(flat', t.kids[i]) {
        assert forall p :: p in Pids(t.kids[i]) ==> p in Pids(t);
        StoredElsewhere(flat, flat', t.kids[i]);
      }
    }
  }

  /** Two stores agree on all index pages but some. */
  ghost predicate AgreeOff(flat: imap<Key, Page>, flat': imap<Key, Page>, ps: set<int>, lo: int, hi: int) {
    forall p {:trigger NodeOf(flat', p)} :: p !in ps && !(lo <= p < hi) ==> NodeOf(flat', p) == NodeOf(flat, p)
  }

  ghost predicate AllStored(flat: imap<Key, Page>, ts: seq<Tree>) {
    forall i :: 0 <= i < |ts| ==> Stored(flat, ts[i])
  }

  lemma AllStoredElsewhere(flat: imap<Key, Page>, flat': imap<Key, Page>, ts: seq<Tree>)
    requires AllStored(flat, ts)
    requires forall p :: p in PidsAll(ts) ==> NodeOf(flat', p) == NodeOf(flat, p)
    ensures AllStored(flat', ts)
  {
    forall i | 0 <= i < |ts| ensures Stored(flat', ts[i]) {
      assert forall p :: p in Pids(ts[i]) ==> p in PidsAll(ts);
      StoredElsewhere(flat, flat', ts[i]);
    }
  }

  /** What an internal insert leaves on a node's page, and on the new page if it splits. */
  ghost predicate InternalImages(l: NodeImage, r: NodeImage, keys: seq<int>, pids: seq<int>, s: SplitResult,
                                 copy: SplitCopy)
    requires |pids| == |keys| + 1 && |keys| <= MAX_KEYS
  {
    var p := SlotFor(keys, s.key);
    var ks, cs := InsertAt(keys, p, s.key), InsertAt(pids, p + 1, s.pid);
    && NodeReadable(l) && !l.isLeaf
    && if |keys| < MAX_KEYS then
         SeparatorsOf(l) == ks && ChildrenOf(l) == cs
       else
         && SeparatorsOf(l) == ks[..2] && ChildrenOf(l) == cs[..3]
         && NodeReadable(r) && !r.isLeaf
         && SeparatorsOf(r) == (if copy.Repaired? then ks[3..] else ks[2..3])
         && ChildrenOf(r) == cs[3..]
  }

  /** The two pages hold what the tree function makes of the node. */
  lemma AbsorbStored(flat: imap<Key, Page>, pid: int, h: nat, keys: seq<int>, kids: seq<Tree>, s: Split, pages: nat,
                     copy: SplitCopy)
    requires |kids| == |keys| + 1 && 1 <= |keys| <= MAX_KEYS && h > 0
    requires Shaped(s.right, h - 1) && AllShaped(kids, h - 1)
    requires AllStored(flat, kids) && Stored(flat, s.right)
    requires InternalImages(NodeOf(flat, pid), NodeOf(flat, pages), keys, RootPids(kids),
        SplitResult(s.key, s.right.pid), copy)
    ensures
      var r := Absorb(pid, h, keys, kids, s, pages, copy);
      Stored(flat, r.left) && (r.split.Some? ==> Stored(flat, r.split.value.right) && r.split.value.right.pid == pages)
  {
    hide SlotFor;
    var p := SlotFor(keys, s.key);
    var kids' := InsertAt(kids, p + 1, s.right);
    InsertedKids(flat, kids, p + 1, s.right);
    if |keys| == MAX_KEYS {
      SlicedKids(flat, kids');
      hide AllStored, InsertAt, RootPids;
    } else {
      hide AllStored, InsertAt, RootPids;
    }
  }

  lemma InsertedKids(flat: imap<Key, Page>, kids: seq<Tree>, p: nat, t: Tree)
    requires AllStored(flat, kids) && Stored(flat, t) && p <= |kids|
    ensures AllStored(flat, InsertAt(kids, p, t))
        && RootPids(InsertAt(kids, p, t)) == InsertAt(RootPids(kids), p, t.pid)
  {
  }

  lemma SlicedKids(flat: imap<Key, Page>, kids: seq<Tree>)
    requires AllStored(flat, kids) && |kids| >= 3
    ensures AllStored(flat, kids[..3]) && AllStored(flat, kids[3..])
    ensures RootPids(kids[..3]) == RootPids(kids)[..3] && RootPids(kids[3..]) == RootPids(kids)[3..]
  {
  }

  /** What a leaf insert leaves on a leaf's page. */
  ghost predicate LeafImage(l: NodeImage, es: seq<Entry>, next: int) {
    NodeReadable(l) && l.isLeaf && EntriesOf(l) == es && l.nextLeaf == next
  }

  ghost function PendingEntries(t: Tree, k: int, rid: RID): seq<Entry>
    requires t.Leaf?
  {
    InsertAt(t.entries, SlotFor(KeysOf(t.entries), k), Entry(k, rid))
  }

  lemma LeafPut(flat: imap<Key, Page>, t: Tree, l: NodeImage, k: int, rid: RID, pages: nat)
    requires t.Leaf? && |t.entries| < MAX_KEYS && LeafImage(l, PendingEntries(t, k, rid), t.next)
    ensures
      var flat' := flat[PageKey(t.pid) := IndexPage(l)];
      Stored(flat', InsLeaf(t, k, rid, pages).left) && AgreeOff(flat, flat', {t.pid}, pages, pages)
  {
  }

  lemma LeafPutSplit(flat: imap<Key, Page>, t: Tree, e: NodeImage, l: NodeImage, r: NodeImage, k: int, rid: RID,
                     pages: nat)
    requires t.Leaf? && |t.entries| == MAX_KEYS && t.pid < pages
    requires LeafImage(l, PendingEntries(t, k, rid)[..2], pages) && LeafImage(r, PendingEntries(t, k, rid)[2..], t.next)
    ensures
      var flat' := flat[PageKey(pages) := IndexPage(e)][PageKey(t.pid) := IndexPage(l)][PageKey(pages) := IndexPage(r)];
      var c := InsLeaf(t, k, rid, pages);
      && Stored(flat', c.left) && Stored(flat', c.split.value.right)
      && AgreeOff(flat, flat', {t.pid}, pages, pages + 1)
  {
  }

  lemma AbsorbPut(flat: imap<Key, Page>, pid: int, h: nat, keys: seq<int>, kids: seq<Tree>, s: Split,
                  e: NodeImage, l: NodeImage, r: NodeImage, pages: nat, copy: SplitCopy)
    requires |kids| == |keys| + 1 && 1 <= |keys| <= MAX_KEYS && h > 0
    requires Shaped(s.right, h - 1) && AllShaped(kids, h - 1)
    requires AllStored(flat, kids) && Stored(flat, s.right)
    requires Within(PidsAll(kids), 0, pages) && Within(Pids(s.right), 0, pages)
    requires pid !in PidsAll(kids) && pid !in Pids(s.right) && pid < pages
    requires InternalImages(l, r, keys, RootPids(kids), SplitResult(s.key, s.right.pid), copy)
    ensures
      var flat' := flat[PageKey(pages) := IndexPage(e)][PageKey(pid) := IndexPage(l)][PageKey(pages) := IndexPage(r)];
      var c := Absorb(pid, h, keys, kids, s, pages, copy);
      && Stored(flat', c.left)
      && (c.split.Some? ==> Stored(flat', c.split.value.right) && c.split.value.right.pid == pages)
      && (c.split.Some? ==> c.split.value.key == InsertAt(keys, SlotFor(keys, s.key), s.key)[2])
      && AgreeOff(flat, flat', {pid}, pages, pages + 1)
  {
    hide Stored, AllStored, AllShaped, Shaped, InternalImages;
    var flat' := flat[PageKey(pages) := IndexPage(e)][PageKey(pid) := IndexPage(l)][PageKey(pages) := IndexPage(r)];
    AllStoredElsewhere(flat, flat', kids);
    StoredElsewhere(flat, flat', s.right);
    AbsorbStored(flat', pid, h, keys, kids, s, pages, copy);
  }

  /** Once the followed child is done, its new pages are distinct from the node's own. */
  lemma BelowPids(t: Tree, h: nat, k: int, rid: RID, pages: nat, copy: SplitCopy)
    requires t.Inner? && Shaped(t, h) && Distinct(t) && Within(Pids(t), 0, pages)
    requires RootShaped(t.kids[Route(t.keys, k)], h - 1)
    ensures
      var i := Route(t.keys, k);
      var c := Ins(t.kids[i], h - 1, k, rid, pages, copy);
      var kids := t.kids[i := c.left];
      && Within(PidsAll(kids), 0, c.pages) && t.pid !in PidsAll(kids)
      && (c.split.Some? ==> Within(Pids(c.split.value.right), 0, c.pages) && t.pid !in Pids(c.split.value.right))
  {
    var i := Route(t.keys, k);
    var kid := t.kids[i];
    assert Pids(kid) <= PidsAll(t.kids) <= Pids(t);
    InsFetched(kid, h - 1, k, rid, pages, copy);
    var c := Ins(kid, h - 1, k, rid, pages, copy);
    assert pages <= c.pages;
    assert t.pid !in Pids(kid) && t.pid in Pids(t);
    assert forall p :: p in PidsAll(t.kids) ==> p in Pids(t);
    hide Shaped, AllShaped, Ins, Route, DistinctAll;
    KidFetched(t.kids, i, c.left, Pids(t), pages, c.pages);
    var kids := t.kids[i := c.left];
    forall p | p in PidsAll(kids) ensures 0 <= p < c.pages && p != t.pid {
      assert p in PidsAll(t.kids) ==> p in Pids(t);
    }
  }

  /** Once the followed child is done, the node itself is as it was and its children are in the file. */
  lemma BelowDone(flat: imap<Key, Page>, flat': imap<Key, Page>, t: Tree, h: nat, i: nat, c: InsertResult, pages: nat)
    requires t.Inner? && Shaped(t, h) && Distinct(t) && Within(Pids(t), 0, pages) && Stored(flat, t)
    requires i < |t.kids| && c.left.pid == t.kids[i].pid && Shaped(c.left, h - 1)
    requires AgreeOff(flat, flat', Pids(t.kids[i]), pages, c.pages) && Stored(flat', c.left)
    ensures
      var kids := t.kids[i := c.left];
      && AllStored(flat', kids) && AllShaped(kids, h - 1)
      && NodeHolds(NodeOf(flat', t.pid), Inner(t.pid, t.keys, kids))
      && Stored(flat', Inner(t.pid, t.keys, kids))
  {
    var kids := t.kids[i := c.left];
    assert AllShaped(t.kids, h - 1);
    assert AllShaped(kids, h - 1);
    assert RootPids(kids) == RootPids(t.kids);
    OthersStored(flat, flat', t, i, pages, c.pages);
    assert t.pid !in Pids(t.kids[i]);
  }

  lemma OthersStored(flat: imap<Key, Page>, flat': imap<Key, Page>, t: Tree, i: nat, pages: nat, pages': nat)
    requires t.Inner? && i < |t.kids| && Distinct(t) && Within(Pids(t), 0, pages) && Stored(flat, t)
    requires AgreeOff(flat, flat', Pids(t.kids[i]), pages, pages')
    ensures forall j :: 0 <= j < |t.kids| && j != i ==> Stored(flat', t.kids[j])
  {
    forall j | 0 <= j < |t.kids| && j != i ensures Stored(flat', t.kids[j]) {
      assert Pids(t.kids[if i < j then i else j]) !! Pids(t.kids[if i < j then j else i]);
      assert Pids(t.kids[j]) <= PidsAll(t.kids);
      StoredElsewhere(flat, flat', t.kids[j]);
    }
  }

  lemma AgreeTwice(a: imap<Key, Page>, b: imap<Key, Page>, c: imap<Key, Page>, ps: set<int>, qs: set<int>, rs: set<int>,
                   lo: nat, mid: nat, hi: nat)
    requires AgreeOff(a, b, ps, lo, mid) && AgreeOff(b, c, qs, mid, hi) && ps <= rs && qs <= rs && lo <= mid <= hi
    ensures AgreeOff(a, c, rs, lo, hi)
  {
    forall p | p !in rs && !(lo <= p < hi) ensures NodeOf(c, p) == NodeOf(a, p) {
      assert NodeOf(c, p) == NodeOf(b, p);
    }
  }

  /** The page of a new root over two halves. */
  lemma RootPut(flat: imap<Key, Page>, e: NodeImage, n: NodeImage, l: Tree, s: Split, pid: int, ps: set<int>)
    requires Stored(flat, l) && Stored(flat, s.right) && pid !in Pids(l) + Pids(s.right)
    requires NodeHolds(n, Inner(pid, [s.key], [l, s.right]))
    ensures
      var flat' := flat[PageKey(pid) := IndexPage(e)][PageKey(pid) := IndexPage(n)];
      Stored(flat', Inner(pid, [s.key], [l, s.right])) && AgreeOff(flat, flat', ps, pid, pid + 1)
  {
    var flat' := flat[PageKey(pid) := IndexPage(e)][PageKey(pid) := IndexPage(n)];
    StoredElsewhere(flat, flat', l);
    StoredElsewhere(flat, flat', s.right);
  }
}
