/** Inserting a new key: order is kept, and exactly one entry is added. */
module IndexInsertion {
  import opened StorageTypes
  import opened BPlusTree
  import opened SortedEntries
  import opened IndexOrder

  /** The insert of k reaches a full leaf whose parent is full too, so an internal node splits. */
  ghost predicate Overflows(t: Tree, h: nat, k: int)
    requires RootShaped(t, h)
    decreases h
  {
    t.Inner? &&
    var i := Route(t.keys, k);
    assert AllShaped(t.kids, h - 1);
    if t.kids[i].Leaf? then |t.keys| == MAX_KEYS && |t.kids[i].entries| == MAX_KEYS
    else Overflows(t.kids[i], h - 1, k)
  }

  /** What one level of a good insert promises. */
  ghost predicate Inserted(r: InsertResult, es: seq<Entry>) {
    match r.split
    case None => Flat(r.left) == es && Separated(r.left)
    case Some(s) =>
      && Flat(r.left) + Flat(s.right) == es
      && Separated(r.left) && Separated(s.right)
      && Flat(r.left) != [] && Flat(s.right) != [] && s.key == Flat(s.right)[0].key
  }

  lemma BelowPlace(es: seq<Entry>, k: int, p: nat)
    requires Sorted(es) && p <= |es| && !HasKey(es, k) && (p > 0 ==> es[p - 1].key <= k)
    ensures AllBelow(es[..p], k)
  {
    forall x | x in es[..p] ensures x.key < k {
      var i :| 0 <= i < p && es[i] == x;
      assert es[i] in es && es[i].key <= es[p - 1].key;
    }
  }

  lemma AbovePlace(es: seq<Entry>, k: int, p: nat)
    requires p <= |es| && forall j :: p <= j < |es| ==> k < es[j].key
    ensures AllAbove(es[p..], k)
  {
    forall x | x in es[p..] ensures k < x.key {
      var i :| 0 <= i < |es| - p && es[p..][i] == x;
      assert es[p + i] == x;
    }
  }

  lemma InsertAtSortedPlace(es: seq<Entry>, e: Entry, p: nat)
    requires !HasKey(es, e.key) && Sorted(es) && p <= |es|
    requires p > 0 ==> es[p - 1].key <= e.key
    requires forall j :: p <= j < |es| ==> e.key < es[j].key
    ensures InsertAt(es, p, e) == InsertSorted(es, e)
  {
    BelowPlace(es, e.key, p);
    AbovePlace(es, e.key, p);
    assert InsertSorted([], e) == [e] + [];
    hide Sorted, HasKey, AllBelow, AllAbove, InsertSorted;
    var a, b := es[..p], es[p..];
    InsertBetween(a, [], b, e);
    assert a + [] + b == es;
    assert [e] + [] == [e];
  }

  lemma SlotOfSortedLeaf(es: seq<Entry>, e: Entry)
    requires !HasKey(es, e.key) && Sorted(es)
    ensures InsertAt(es, SlotFor(KeysOf(es), e.key), e) == InsertSorted(es, e)
  {
    var keys := KeysOf(es);
    var p := SlotFor(keys, e.key);
    assert p > 0 ==> keys[p - 1] == es[p - 1].key;
    assert forall j :: p <= j < |es| ==> keys[j] == es[j].key;
    InsertAtSortedPlace(es, e, p);
  }

  lemma LeafInserted(t: Tree, k: int, rid: RID, pages: nat)
    requires RootShaped(t, 0) && Sorted(t.entries) && !HasKey(t.entries, k)
    ensures Inserted(InsLeaf(t, k, rid, pages), InsertSorted(t.entries, Entry(k, rid)))
  {
    hide Sorted, HasKey, SlotFor;
    SlotOfSortedLeaf(t.entries, Entry(k, rid));
    var es := InsertAt(t.entries, SlotFor(KeysOf(t.entries), k), Entry(k, rid));
    if |t.entries| == MAX_KEYS {
      assert es[..2] + es[2..] == es;
    }
  }

  /** The promoted key of child i goes between the separators of child i. */
  lemma PromotedSlot(t: Tree, h: nat, k: int, e: Entry, key: int)
    requires t.Inner? && Shaped(t, h) && Ordered(t) && !HasKey(Flat(t), k) && e.key == k
    requires HasKey(InsertSorted(Flat(t.kids[Route(t.keys, k)]), e), key)
    ensures SlotFor(t.keys, key) == Route(t.keys, k)
  {
    var i := Route(t.keys, k);
    OrderedKid(t, h, i);
    var a, b, c := FlatAll(t.kids[..i]), Flat(t.kids[i]), FlatAll(t.kids[i + 1..]);
    SortedParts(a, b, c);
    InsertSortedContents(b, e);
    var x :| x in InsertSorted(b, e) && x.key == key;
    forall j | 0 <= j < i ensures t.keys[j] <= key {
      SeparatorBefore(t, h, i, j, x, e);
    }
    forall j | i <= j < |t.keys| ensures key < t.keys[j] {
      SeparatorAfter(t, h, i, j, x, e);
    }
    SlotIs(t.keys, key, i);
  }

  lemma SeparatorBefore(t: Tree, h: nat, i: nat, j: nat, x: Entry, e: Entry)
    requires t.Inner? && Shaped(t, h) && Ordered(t) && j < i < |t.kids|
    requires t.keys[j] < e.key && (x == e || x in Flat(t.kids[i]))
    ensures t.keys[j] <= x.key
  {
    OrderedKid(t, h, i);
    SortedParts(FlatAll(t.kids[..i]), Flat(t.kids[i]), FlatAll(t.kids[i + 1..]));
    var f := Flat(t.kids[j + 1])[0];
    assert t.keys[j + 1 - 1] == f.key;
    if j + 1 < i {
      assert t.kids[..i][j + 1] == t.kids[j + 1];
      FlatMember(t.kids[..i], j + 1, f);
    }
  }

  lemma SeparatorAfter(t: Tree, h: nat, i: nat, j: nat, x: Entry, e: Entry)
    requires t.Inner? && Shaped(t, h) && Ordered(t) && i <= j < |t.keys|
    requires i > 0 ==> t.keys[i - 1] < e.key
    requires e.key <= t.keys[i] && !HasKey(Flat(t), e.key) && (x == e || x in Flat(t.kids[i]))
    ensures x.key < t.keys[j]
  {
    OrderedKid(t, h, i);
    SeparatorEntry(t, h, i);
    Neighbours(t, h, i, e.key);
    SortedParts(FlatAll(t.kids[..i]), Flat(t.kids[i]), FlatAll(t.kids[i + 1..]));
    var f := Flat(t.kids[j + 1])[0];
    assert t.keys[j + 1 - 1] == f.key;
    assert t.kids[i + 1..][j - i] == t.kids[j + 1];
    FlatMember(t.kids[i + 1..], j - i, f);
  }

  /** The kids of a node after child i has become l, or l and r. */
  lemma KidsAround(kids: seq<Tree>, i: nat, l: Tree, r: Tree)
    requires i < |kids|
    ensures FlatAll(kids[i := l]) == FlatAll(kids[..i]) + Flat(l) + FlatAll(kids[i + 1..])
    ensures FlatAll(InsertAt(kids[i := l], i + 1, r))
         == FlatAll(kids[..i]) + (Flat(l) + Flat(r)) + FlatAll(kids[i + 1..])
  {
    var one := kids[i := l];
    FlatAround(one, i);
    assert one[..i] == kids[..i] && one[i + 1..] == kids[i + 1..];
    var two := InsertAt(one, i + 1, r);
    assert two == kids[..i] + ([l, r] + kids[i + 1..]);
    FlatConcat(kids[..i], [l, r] + kids[i + 1..]);
    FlatConcat([l, r], kids[i + 1..]);
    assert FlatAll([l, r]) == Flat(l) + Flat(r) by {
      assert [l, r][1..] == [r];
      assert [r][1..] == [];
    }
  }

  lemma HeadKept(b: seq<Entry>, e: Entry)
    requires b != [] && b[0].key < e.key
    ensures InsertSorted(b, e) != [] && InsertSorted(b, e)[0] == b[0]
  {
  }

  /** Splitting a node at a promoted key keeps the order on both sides. */
  lemma SplitKeepsOrder(keys: seq<int>, kids: seq<Tree>, pid: int, right: int)
    requires |keys| == 4 && |kids| == 5 && SeparatesKids(keys, kids)
    requires forall i :: 0 <= i < |kids| ==> Separated(kids[i])
    ensures Separated(Inner(pid, keys[..2], kids[..3])) && Separated(Inner(right, keys[3..], kids[3..]))
    ensures Flat(Inner(pid, keys[..2], kids[..3])) + Flat(Inner(right, keys[3..], kids[3..])) == FlatAll(kids)
    ensures Flat(Inner(right, keys[3..], kids[3..])) != []
    ensures Flat(Inner(right, keys[3..], kids[3..]))[0].key == keys[2]
  {
    assert kids == kids[..3] + kids[3..];
    FlatConcat(kids[..3], kids[3..]);
    FlatAround(kids[3..], 0);
    assert kids[3..][0] == kids[3];
    assert Flat(kids[3]) != [] && keys[3 - 1] == Flat(kids[3])[0].key;
    assert SeparatesKids(keys[..2], kids[..3]);
    assert kids[3..][1] == kids[4] && keys[3..][0] == keys[4 - 1];
    assert SeparatesKids(keys[3..], kids[3..]);
  }

  lemma RouteIsStrict(t: Tree, h: nat, k: int)
    requires t.Inner? && Shaped(t, h) && Ordered(t) && !HasKey(Flat(t), k)
    ensures Route(t.keys, k) < |t.keys| ==> k < t.keys[Route(t.keys, k)]
  {
    var i := Route(t.keys, k);
    if i < |t.keys| {
      SeparatorEntry(t, h, i);
    }
  }

  lemma LeastEntryKept(t: Tree, h: nat, i: nat, e: Entry)
    requires t.Inner? && Shaped(t, h) && Ordered(t) && i < |t.kids|
    requires i > 0 ==> t.keys[i - 1] < e.key
    ensures
      var es := InsertSorted(Flat(t.kids[i]), e);
      es != [] && Flat(t.kids[i]) != [] && (i > 0 ==> es[0] == Flat(t.kids[i])[0])
  {
    assert AllShaped(t.kids, h - 1);
    ShapedNonempty(t.kids[i], h - 1);
    if i > 0 {
      assert t.keys[i - 1] == Flat(t.kids[i])[0].key;
      HeadKept(Flat(t.kids[i]), e);
    }
  }

  /** Only the entries of the followed child change. */
  lemma InsertInKid(t: Tree, h: nat, k: int, rid: RID)
    requires t.Inner? && Shaped(t, h) && Ordered(t) && !HasKey(Flat(t), k)
    ensures
      var i := Route(t.keys, k);
      var es := InsertSorted(Flat(t.kids[i]), Entry(k, rid));
      InsertSorted(Flat(t), Entry(k, rid)) == FlatAll(t.kids[..i]) + es + FlatAll(t.kids[i + 1..])
  {
    var i := Route(t.keys, k);
    OrderedKid(t, h, i);
    RouteIsStrict(t, h, k);
    Neighbours(t, h, i, k);
    InsertBetween(FlatAll(t.kids[..i]), Flat(t.kids[i]), FlatAll(t.kids[i + 1..]), Entry(k, rid));
  }

  lemma FlatIsAll(t: Tree)
    requires t.Inner?
    ensures Flat(t) == FlatAll(t.kids)
  {
  }

  lemma KidReplaced(t: Tree, h: nat, k: int, rid: RID, l: Tree)
    requires t.Inner? && Shaped(t, h) && Ordered(t) && !HasKey(Flat(t), k)
    requires Separated(l) && Flat(l) == InsertSorted(Flat(t.kids[Route(t.keys, k)]), Entry(k, rid))
    ensures
      var r := Inner(t.pid, t.keys, t.kids[Route(t.keys, k) := l]);
      Flat(r) == InsertSorted(Flat(t), Entry(k, rid)) && Separated(r)
  {
    hide HasKey, Sorted, InsertSorted, Flat, FlatAll;
    var i := Route(t.keys, k);
    InsertInKid(t, h, k, rid);
    LeastEntryKept(t, h, i, Entry(k, rid));
    FlatIsAll(t);
    FlatIsAll(Inner(t.pid, t.keys, t.kids[i := l]));
    KidsAround(t.kids, i, l, l);
    SeparatesReplaced(t.keys, t.kids, i, l);
  }

  lemma SeparatesReplaced(keys: seq<int>, kids: seq<Tree>, i: nat, l: Tree)
    requires |kids| == |keys| + 1 && i < |kids| && SeparatesKids(keys, kids)
    requires Flat(l) != [] && (i > 0 ==> Flat(l)[0] == Flat(kids[i])[0])
    ensures SeparatesKids(keys, kids[i := l])
  {
    var kids' := kids[i := l];
    forall j | 0 < j < |kids'| ensures Flat(kids'[j]) != [] && keys[j - 1] == Flat(kids'[j])[0].key {
      assert Flat(kids[j]) != [] && keys[j - 1] == Flat(kids[j])[0].key;
    }
  }

  /** The four pending separators and five pending children are in order. */
  lemma KidSplit(t: Tree, h: nat, k: int, rid: RID, l: Tree, s: Split)
    requires t.Inner? && Shaped(t, h) && Ordered(t) && !HasKey(Flat(t), k)
    requires Separated(l) && Separated(s.right) && Flat(l) != [] && Flat(s.right) != []
    requires s.key == Flat(s.right)[0].key
    requires Flat(l) + Flat(s.right) == InsertSorted(Flat(t.kids[Route(t.keys, k)]), Entry(k, rid))
    ensures
      var i := Route(t.keys, k);
      var keys, kids := InsertAt(t.keys, i, s.key), InsertAt(t.kids[i := l], i + 1, s.right);
      && SlotFor(t.keys, s.key) == i
      && SeparatesKids(keys, kids)
      && (forall j :: 0 <= j < |kids| ==> Separated(kids[j]))
      && FlatAll(kids) == InsertSorted(Flat(t), Entry(k, rid))
  {
    var i := Route(t.keys, k);
    var es := Flat(l) + Flat(s.right);
    InsertInKid(t, h, k, rid);
    LeastEntryKept(t, h, i, Entry(k, rid));
    assert es[|Flat(l)|] in es && es[|Flat(l)|].key == s.key;
    PromotedSlot(t, h, k, Entry(k, rid), s.key);
    KidsAround(t.kids, i, l, s.right);
    assert i > 0 ==> Flat(l)[0] == es[0];
    SeparatesAfter(t.keys, t.kids, i, l, s);
  }

  /** The level above a split goes well, unless a full node splits as written. */
  lemma AbsorbInserted(t: Tree, h: nat, k: int, rid: RID, l: Tree, s: Split, pages: nat, copy: SplitCopy)
    requires t.Inner? && Shaped(t, h) && Ordered(t) && !HasKey(Flat(t), k)
    requires Inserted(InsertResult(l, Some(s), pages), InsertSorted(Flat(t.kids[Route(t.keys, k)]), Entry(k, rid)))
    requires Shaped(l, h - 1) && Shaped(s.right, h - 1)
    requires copy.Repaired? || |t.keys| < MAX_KEYS
    ensures
      var kids := t.kids[Route(t.keys, k) := l];
      AllShaped(kids, h - 1) &&
      Inserted(Absorb(t.pid, h, t.keys, kids, s, pages, copy), InsertSorted(Flat(t), Entry(k, rid)))
  {
    assert AllShaped(t.kids, h - 1);
    var i := Route(t.keys, k);
    var kids := t.kids[i := l];
    assert AllShaped(kids, h - 1);
    KidSplit(t, h, k, rid, l, s);
    var r := Absorb(t.pid, h, t.keys, kids, s, pages, copy);
    var keys', kids' := InsertAt(t.keys, i, s.key), InsertAt(kids, i + 1, s.right);
    if |t.keys| == MAX_KEYS {
      SplitKeepsOrder(keys', kids', t.pid, pages);
      assert r.left == Inner(t.pid, keys'[..2], kids'[..3]);
      ShapedNonempty(r.left, h);
    } else {
      assert r.left == Inner(t.pid, keys', kids');
    }
  }

  lemma SeparatesAfter(keys: seq<int>, kids: seq<Tree>, i: nat, l: Tree, s: Split)
    requires |kids| == |keys| + 1 && i < |kids| && SeparatesKids(keys, kids)
    requires forall j :: 0 <= j < |kids| ==> Separated(kids[j])
    requires Flat(l) != [] && Separated(l) && Separated(s.right)
    requires i > 0 ==> Flat(l)[0] == Flat(kids[i])[0]
    requires Flat(s.right) != [] && Flat(s.right)[0].key == s.key
    ensures
      var kids' := InsertAt(kids[i := l], i + 1, s.right);
      && SeparatesKids(InsertAt(keys, i, s.key), kids')
      && forall j :: 0 <= j < |kids'| ==> Separated(kids'[j])
  {
    var keys', kids' := InsertAt(keys, i, s.key), InsertAt(kids[i := l], i + 1, s.right);
    forall j | 0 < j < |kids'| ensures Flat(kids'[j]) != [] && keys'[j - 1] == Flat(kids'[j])[0].key {
      if j > i + 1 {
        assert kids'[j] == kids[j - 1] && keys'[j - 1] == keys[j - 2];
      }
    }
  }

  lemma KidLacks(t: Tree, i: nat, k: int)
    requires t.Inner? && i < |t.kids| && !HasKey(Flat(t), k)
    ensures !HasKey(Flat(t.kids[i]), k)
  {
    forall e | e in Flat(t.kids[i]) ensures e in Flat(t) {
      FlatMember(t.kids, i, e);
    }
  }

  lemma OverflowsStep(t: Tree, h: nat, k: int, i: nat)
    requires t.Inner? && Shaped(t, h) && i == Route(t.keys, k) && RootShaped(t.kids[i], h - 1) && !Overflows(t, h, k)
    ensures t.kids[i].Inner? ==> !Overflows(t.kids[i], h - 1, k)
    ensures t.kids[i].Leaf? && |t.kids[i].entries| == MAX_KEYS ==> |t.keys| < MAX_KEYS
  {
  }

  lemma LeafCase(t: Tree, h: nat, k: int, rid: RID, pages: nat, copy: SplitCopy)
    requires t.Leaf? && RootShaped(t, h) && Ordered(t) && !HasKey(Flat(t), k)
    ensures Inserted(Ins(t, h, k, rid, pages, copy), InsertSorted(Flat(t), Entry(k, rid)))
  {
    LeafInserted(t, k, rid, pages);
    hide Inserted, InsertSorted, InsLeaf, Sorted, HasKey;
  }

  /** Insert is insertion into the sorted list. */
  lemma {:induction false} InsInserted(t: Tree, h: nat, k: int, rid: RID, pages: nat, copy: SplitCopy)
    requires RootShaped(t, h) && Ordered(t) && !HasKey(Flat(t), k)
    requires copy.Repaired? || !Overflows(t, h, k)
    ensures Inserted(Ins(t, h, k, rid, pages, copy), InsertSorted(Flat(t), Entry(k, rid)))
    decreases h
  {
    hide Ins, Flat, FlatAll, Ordered, HasKey, InsertSorted, Shaped, RootShaped, AllShaped, Route, Overflows, Absorb;
    hide Sorted, Separated;
    if t.Leaf? {
      LeafCase(t, h, k, rid, pages, copy);
    } else {
      var i := Route(t.keys, k);
      InnerShaped(t, h);
      KidShaped(t, h, i);
      OrderedKid(t, h, i);
      KidLacks(t, i, k);
      if copy.AsWritten? {
        OverflowsStep(t, h, k, i);
        KidNoOverflow(t.kids[i], h - 1, k);
      }
      InsInserted(t.kids[i], h - 1, k, rid, pages, copy);
      var c := Ins(t.kids[i], h - 1, k, rid, pages, copy);
      SplitNeedsOverflow(t.kids[i], h - 1, k, rid, pages, copy);
      InsStep(t, h, k, rid, pages, copy, i, c, t.kids[i := c.left]);
      match c.split
      case None => KidReplaced(t, h, k, rid, c.left);
      case Some(s) => AbsorbInserted(t, h, k, rid, c.left, s, c.pages, copy);
    }
  }

  lemma KidNoOverflow(t: Tree, h: nat, k: int)
    requires RootShaped(t, h)
    ensures t.Leaf? ==> !Overflows(t, h, k)
  {
  }

  /** An internal node on the path splits only if the lowest one does. */
  lemma {:induction false} SplitNeedsOverflow(t: Tree, h: nat, k: int, rid: RID, pages: nat, copy: SplitCopy)
    requires RootShaped(t, h)
    ensures Ins(t, h, k, rid, pages, copy).split.Some? ==>
              if t.Leaf? then |t.entries| == MAX_KEYS else Overflows(t, h, k)
    decreases h
  {
    if t.Inner? {
      var i := Route(t.keys, k);
      assert AllShaped(t.kids, h - 1);
      SplitNeedsOverflow(t.kids[i], h - 1, k, rid, pages, copy);
    }
  }

  // ---------- whole trees ----------

  ghost predicate OrderedIndex(x: Index) {
    RootShaped(x.root, x.height) && Ordered(x.root)
  }

  ghost function Entries(x: Index): seq<Entry> {
    Flat(x.root)
  }

  /** A new key: the tree stays ordered and its entries are the old ones with the new one in place. */
  lemma InsertAddsOneEntry(x: Index, k: int, rid: RID, copy: SplitCopy)
    requires OrderedIndex(x) && !HasKey(Entries(x), k)
    requires copy.Repaired? || !Overflows(x.root, x.height, k)
    ensures OrderedIndex(Insert(x, k, rid, copy))
    ensures Entries(Insert(x, k, rid, copy)) == InsertSorted(Entries(x), Entry(k, rid))
  {
    InsInserted(x.root, x.height, k, rid, x.pages, copy);
    InsertSortedSorted(Entries(x), Entry(k, rid));
    var c := Ins(x.root, x.height, k, rid, x.pages, copy);
    if c.split.Some? {
      GrownRoot(c.left, c.split.value, c.pages);
    }
  }

  lemma GrownRoot(l: Tree, s: Split, pid: int)
    requires Separated(l) && Separated(s.right) && Flat(s.right) != [] && s.key == Flat(s.right)[0].key
    ensures Separated(Inner(pid, [s.key], [l, s.right]))
    ensures Flat(Inner(pid, [s.key], [l, s.right])) == Flat(l) + Flat(s.right)
  {
    var kids := [l, s.right];
    assert SeparatesKids([s.key], kids);
    FlatAround(kids, 1);
    FlatAround(kids[..1], 0);
    assert kids[..1][..0] == [] && kids[..1][0 + 1..] == [] && kids[1 + 1..] == [];
  }
}
