/** The leaf chain: following `next` from the leftmost leaf reads the whole index in key order. */
module IndexChain {
  import opened StorageTypes
  import opened BPlusTree
  import opened SortedEntries
  import opened IndexOrder
  import opened IndexInsertion
  import opened IndexPids
  import opened NodePages
  import opened IndexStore
  import opened IndexRuns

  ghost function FirstLeaf(t: Tree): int {
    if t.Inner? && t.kids != [] then FirstLeaf(t.kids[0]) else t.pid
  }

  /** Where the leaves of child i lead: to the next child's first leaf, or out. */
  ghost function ExitOf(kids: seq<Tree>, i: nat, exit: int): int {
    if i + 1 < |kids| then FirstLeaf(kids[i + 1]) else exit
  }

  /** Every leaf of t points to the next one, and the last one to `exit`. */
  ghost predicate Chained(t: Tree, exit: int) {
    match t
    case Leaf(_, _, next) => next == exit
    case Inner(_, _, kids) => forall i :: 0 <= i < |kids| ==> Chained(kids[i], ExitOf(kids, i, exit))
  }

  ghost predicate ChainedKids(kids: seq<Tree>, exit: int) {
    forall i :: 0 <= i < |kids| ==> Chained(kids[i], ExitOf(kids, i, exit))
  }

  /** What one level of an insert does to the chain: the way in and the way out stay. */
  ghost predicate ChainKept(r: InsertResult, entry: int, exit: int) {
    && FirstLeaf(r.left) == entry
    && match r.split
       case None => Chained(r.left, exit)
       case Some(s) => Chained(r.left, FirstLeaf(s.right)) && Chained(s.right, exit)
  }

  lemma KidReplacedChain(kids: seq<Tree>, i: nat, l: Tree, exit: int)
    requires i < |kids| && ChainedKids(kids, exit)
    requires FirstLeaf(l) == FirstLeaf(kids[i]) && Chained(l, ExitOf(kids, i, exit))
    ensures ChainedKids(kids[i := l], exit)
  {
    hide Chained, FirstLeaf;
    var kids' := kids[i := l];
    forall j | 0 <= j < |kids'| ensures Chained(kids'[j], ExitOf(kids', j, exit)) {
      assert Chained(kids[j], ExitOf(kids, j, exit));
    }
  }

  lemma KidSplitChain(kids: seq<Tree>, i: nat, l: Tree, r: Tree, exit: int)
    requires i < |kids| && ChainedKids(kids, exit)
    requires FirstLeaf(l) == FirstLeaf(kids[i]) && Chained(l, FirstLeaf(r)) && Chained(r, ExitOf(kids, i, exit))
    ensures ChainedKids(InsertAt(kids[i := l], i + 1, r), exit)
  {
    hide Chained, FirstLeaf;
    var kids' := InsertAt(kids[i := l], i + 1, r);
    forall j | 0 <= j < |kids'| ensures Chained(kids'[j], ExitOf(kids', j, exit)) {
      var o := if j <= i then j else j - 1;
      assert Chained(kids[o], ExitOf(kids, o, exit));
    }
  }

  /** Dividing a list of chained children divides the chain. */
  lemma HalvesChained(kids: seq<Tree>, n: nat, exit: int)
    requires n < |kids| && ChainedKids(kids, exit)
    ensures ChainedKids(kids[..n], FirstLeaf(kids[n])) && ChainedKids(kids[n..], exit)
  {
    hide Chained, FirstLeaf;
    var a, b := kids[..n], kids[n..];
    forall j | 0 <= j < |a| ensures Chained(a[j], ExitOf(a, j, FirstLeaf(kids[n]))) {
      assert Chained(kids[j], ExitOf(kids, j, exit));
    }
    forall j | 0 <= j < |b| ensures Chained(b[j], ExitOf(b, j, exit)) {
      assert Chained(kids[n + j], ExitOf(kids, n + j, exit));
    }
  }

  lemma AbsorbChained(t: Tree, h: nat, k: int, l: Tree, s: Split, pages: nat, copy: SplitCopy, exit: int)
    requires t.Inner? && |t.kids| == |t.keys| + 1 && 1 <= |t.keys| <= MAX_KEYS && h > 0
    requires Chained(t, exit) && SlotFor(t.keys, s.key) == Route(t.keys, k)
    requires AllShaped(t.kids[Route(t.keys, k) := l], h - 1) && Shaped(s.right, h - 1)
    requires
      var i := Route(t.keys, k);
      ChainKept(InsertResult(l, Some(s), pages), FirstLeaf(t.kids[i]), ExitOf(t.kids, i, exit))
    ensures
      var kids := t.kids[Route(t.keys, k) := l];
      ChainKept(Absorb(t.pid, h, t.keys, kids, s, pages, copy), FirstLeaf(t), exit)
  {
    hide Shaped, AllShaped, Chained, FirstLeaf, SlotFor, Route;
    var i := Route(t.keys, k);
    var kids := t.kids[i := l];
    InnerChained(t, exit);
    KidSplitChain(t.kids, i, l, s.right, exit);
    var kids' := InsertAt(kids, i + 1, s.right);
    var r := Absorb(t.pid, h, t.keys, kids, s, pages, copy);
    assert kids'[0] == if i == 0 then l else t.kids[0];
    if |t.keys| == MAX_KEYS {
      HalvesChained(kids', 3, exit);
      assert r.left.kids == kids'[..3] && r.split.value.right.kids == kids'[3..];
      InnerChained(r.left, FirstLeaf(kids'[3]));
      InnerChained(r.split.value.right, exit);
    } else {
      assert r.left.kids == kids';
      InnerChained(r.left, exit);
    }
  }

  lemma InnerChained(t: Tree, exit: int)
    requires t.Inner? && t.kids != []
    ensures Chained(t, exit) <==> ChainedKids(t.kids, exit)
    ensures FirstLeaf(t) == FirstLeaf(t.kids[0])
  {
  }

  lemma KidInserted(t: Tree, h: nat, k: int, rid: RID, c: InsertResult, exit: int)
    requires t.Inner? && Shaped(t, h) && Chained(t, exit) && c.split.None?
    requires
      var i := Route(t.keys, k);
      ChainKept(c, FirstLeaf(t.kids[i]), ExitOf(t.kids, i, exit))
    ensures ChainKept(InsertResult(Inner(t.pid, t.keys, t.kids[Route(t.keys, k) := c.left]), None, c.pages),
        FirstLeaf(t), exit)
  {
    KidReplacedChain(t.kids, Route(t.keys, k), c.left, exit);
  }

  /** An insert of a new key keeps the chain. */
  lemma {:induction false} InsChained(t: Tree, h: nat, k: int, rid: RID, pages: nat, copy: SplitCopy, exit: int)
    requires RootShaped(t, h) && Ordered(t) && !HasKey(Flat(t), k) && Chained(t, exit)
    requires copy.Repaired? || !Overflows(t, h, k)
    ensures ChainKept(Ins(t, h, k, rid, pages, copy), FirstLeaf(t), exit)
    decreases h
  {
    if t.Inner? {
      var i := Route(t.keys, k);
      KidShaped(t, h, i);
      OrderedKid(t, h, i);
      KidLacksKey(t, i, k);
      InnerChained(t, exit);
      var c := Ins(t.kids[i], h - 1, k, rid, pages, copy);
      var kids := t.kids[i := c.left];
      InsChained(t.kids[i], h - 1, k, rid, pages, copy, ExitOf(t.kids, i, exit));
      InsInserted(t.kids[i], h - 1, k, rid, pages, copy);
      InsStep(t, h, k, rid, pages, copy, i, c, kids);
      hide Chained, FirstLeaf, Flat, Separated, Sorted, Absorb, Ins, Shaped, AllShaped, HasKey;
      match c.split {
        case None =>
          KidInserted(t, h, k, rid, c, exit);
        case Some(s) =>
          PromotedPlace(t, h, k, rid, c);
          AbsorbChained(t, h, k, c.left, s, c.pages, copy, exit);
      }
    }
  }

  lemma KidLacksKey(t: Tree, i: nat, k: int)
    requires t.Inner? && i < |t.kids| && !HasKey(Flat(t), k)
    ensures !HasKey(Flat(t.kids[i]), k)
  {
    forall e | e in Flat(t.kids[i]) ensures e in Flat(t) {
      FlatMember(t.kids, i, e);
    }
  }

  lemma PromotedPlace(t: Tree, h: nat, k: int, rid: RID, c: InsertResult)
    requires t.Inner? && Shaped(t, h) && Ordered(t) && !HasKey(Flat(t), k) && c.split.Some?
    requires Inserted(c, InsertSorted(Flat(t.kids[Route(t.keys, k)]), Entry(k, rid)))
    ensures SlotFor(t.keys, c.split.value.key) == Route(t.keys, k)
  {
    var es := InsertSorted(Flat(t.kids[Route(t.keys, k)]), Entry(k, rid));
    assert es[|Flat(c.left)|] in es;
    PromotedSlot(t, h, k, Entry(k, rid), c.split.value.key);
  }

  // ---------- whole indexes ----------

  /** The chain runs through all leaves of the index and ends at the invalid page id. */
  ghost predicate ChainedIndex(x: Index) {
    RootShaped(x.root, x.height) && Chained(x.root, INVALID_PAGE_ID)
  }

  lemma InsertKeepsChain(x: Index, k: int, rid: RID, copy: SplitCopy)
    requires OrderedIndex(x) && !HasKey(Entries(x), k) && ChainedIndex(x)
    requires copy.Repaired? || !Overflows(x.root, x.height, k)
    ensures ChainedIndex(Insert(x, k, rid, copy))
  {
    InsChained(x.root, x.height, k, rid, x.pages, copy, INVALID_PAGE_ID);
  }

  lemma {:induction false} BuildChained(run: seq<Entry>, copy: SplitCopy, pages: nat)
    requires DistinctKeys(run) && (copy.Repaired? || NeverOverflows(run, pages))
    ensures ChainedIndex(Build(run, copy, pages))
  {
    if run != [] {
      var before, e := run[..|run| - 1], run[|run| - 1];
      PrefixDistinct(run, |run| - 1);
      if copy.AsWritten? {
        PrefixNeverOverflows(run, |run| - 1, pages);
      }
      BuildChained(before, copy, pages);
      BuildOrdered(before, copy, pages);
      SortedRunKeys(before);
      NewKey(run, before);
      InsertKeepsChain(Build(before, copy, pages), e.key, e.rid, copy);
    }
  }

  // ---------- walking the pages ----------

  /** The entries met by following `nextLeaf` from a page, for at most n pages. */
  ghost function Walk(flat: imap<Key, Page>, pid: int, n: nat): seq<Entry>
    decreases n
  {
    if n == 0 || pid == INVALID_PAGE_ID || !NodeReadable(NodeOf(flat, pid)) then []
    else EntriesOf(NodeOf(flat, pid)) + Walk(flat, NodeOf(flat, pid).nextLeaf, n - 1)
  }

  ghost function Leaves(t: Tree): nat
    decreases t, 1
  {
    match t
    case Leaf(_, _, _) => 1
    case Inner(_, _, kids) => LeavesAll(kids)
  }

  ghost function LeavesAll(ts: seq<Tree>): nat
    decreases ts, 0
  {
    if ts == [] then 0 else Leaves(ts[0]) + LeavesAll(ts[1..])
  }

  /** Every internal node has children, and no node is at the invalid page id. */
  ghost predicate Walkable(t: Tree, h: nat) {
    RootShaped(t, h) && INVALID_PAGE_ID !in Pids(t)
  }

  lemma WalkLeaf(flat: imap<Key, Page>, t: Tree, exit: int, n: nat)
    requires t.Leaf? && Stored(flat, t) && t.next == exit && t.pid != INVALID_PAGE_ID
    ensures Walk(flat, t.pid, 1 + n) == t.entries + Walk(flat, exit, n)
  {
  }

  lemma InnerParts(flat: imap<Key, Page>, t: Tree, h: nat)
    requires t.Inner? && Walkable(t, h) && Stored(flat, t)
    ensures h > 0 && t.kids != [] && AllShaped(t.kids, h - 1) && AllStored(flat, t.kids)
        && INVALID_PAGE_ID !in PidsAll(t.kids)
    ensures Leaves(t) == LeavesAll(t.kids) && Flat(t) == FlatAll(t.kids)
  {
    assert PidsAll(t.kids) <= Pids(t);
  }

  lemma LeafParts(flat: imap<Key, Page>, t: Tree, h: nat, exit: int)
    requires t.Leaf? && Walkable(t, h) && Chained(t, exit)
    ensures Leaves(t) == 1 && Flat(t) == t.entries && FirstLeaf(t) == t.pid && t.next == exit
        && t.pid != INVALID_PAGE_ID
  {
  }

  /** Walking a subtree's leaves reads its entries and arrives at its exit. */
  lemma {:induction false} WalkSubtree(flat: imap<Key, Page>, t: Tree, h: nat, exit: int, n: nat)
    requires Walkable(t, h) && Stored(flat, t) && Chained(t, exit)
    ensures Walk(flat, FirstLeaf(t), Leaves(t) + n) == Flat(t) + Walk(flat, exit, n)
    decreases h, 1, 0
  {
    hide Walkable, Chained, Walk, FirstLeaf, Pids, PidsAll, Stored, Flat, FlatAll, Leaves, LeavesAll, Shaped, AllShaped;
    if t.Leaf? {
      LeafParts(flat, t, h, exit);
      WalkLeaf(flat, t, exit, n);
    } else {
      InnerParts(flat, t, h);
      InnerChained(t, exit);
      WalkKids(flat, t.kids, h - 1, exit, n);
    }
  }

  lemma {:induction false} WalkKids(flat: imap<Key, Page>, ts: seq<Tree>, h: nat, exit: int, n: nat)
    requires ts != [] && AllShaped(ts, h) && ChainedKids(ts, exit) && AllStored(flat, ts)
        && INVALID_PAGE_ID !in PidsAll(ts)
    ensures Walk(flat, FirstLeaf(ts[0]), LeavesAll(ts) + n) == FlatAll(ts) + Walk(flat, exit, n)
    decreases h, 2, |ts|
  {
    hide Walkable, Chained, Walk, FirstLeaf, Pids, PidsAll, Stored, Flat, FlatAll, Leaves, LeavesAll, Shaped, AllShaped;
    var rest := ts[1..];
    var out := ExitOf(ts, 0, exit);
    KidsTail(ts, h);
    AllParts(ts);
    assert Chained(ts[0], out) && Stored(flat, ts[0]);
    WalkSubtree(flat, ts[0], h, out, LeavesAll(rest) + n);
    if rest != [] {
      HalvesChained(ts, 1, exit);
      assert AllStored(flat, rest);
      WalkKids(flat, rest, h, exit, n);
    }
    assert Flat(ts[0]) + (FlatAll(rest) + Walk(flat, exit, n)) == FlatAll(ts) + Walk(flat, exit, n);
  }

  lemma AllParts(ts: seq<Tree>)
    requires ts != []
    ensures LeavesAll(ts) == Leaves(ts[0]) + LeavesAll(ts[1..]) && FlatAll(ts) == Flat(ts[0]) + FlatAll(ts[1..])
    ensures ts[1..] == [] ==> LeavesAll(ts[1..]) == 0 && FlatAll(ts[1..]) == []
  {
  }

  lemma KidsTail(ts: seq<Tree>, h: nat)
    requires ts != [] && AllShaped(ts, h) && INVALID_PAGE_ID !in PidsAll(ts)
    ensures AllShaped(ts[1..], h) && INVALID_PAGE_ID !in PidsAll(ts[1..]) && Walkable(ts[0], h)
  {
    assert Pids(ts[0]) <= PidsAll(ts);
    assert Shaped(ts[0], h);
    var rest := ts[1..];
    forall i | 0 <= i < |rest| ensures INVALID_PAGE_ID !in Pids(rest[i]) {
      assert Pids(ts[i + 1]) <= PidsAll(ts);
    }
  }

  /**
    The leaf chain of a stored index is its sorted list of entries, whatever bound the walk is
    given beyond its leaves.
   */
  lemma WalkIsEntries(flat: imap<Key, Page>, x: Index, n: nat)
    requires ChainedIndex(x) && Stored(flat, x.root) && Within(Pids(x.root), 0, x.pages)
    ensures Walk(flat, FirstLeaf(x.root), Leaves(x.root) + n) == Entries(x)
  {
    WalkSubtree(flat, x.root, x.height, INVALID_PAGE_ID, n);
  }
}
