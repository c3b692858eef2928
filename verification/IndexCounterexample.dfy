/** Ten ascending keys are enough for the internal split as written to hide one of them. */
module IndexCounterexample {
  import opened StorageTypes
  import opened BPlusTree
  import opened SortedEntries
  import opened IndexSplitAsWritten
  import opened IndexRuns

  function Ent(k: int): Entry {
    Entry(k, ZERO_RID)
  }

  /** The keys 0 to n - 1, in order. */
  function Ascending(n: nat): (run: seq<Entry>)
    ensures |run| == n && forall i :: 0 <= i < n ==> run[i] == Ent(i)
  {
    seq(n, i => Ent(i))
  }

  lemma BuildStep(n: nat)
    ensures Build(Ascending(n + 1), AsWritten, 0) == Insert(Build(Ascending(n), AsWritten, 0), n, ZERO_RID, AsWritten)
  {
    assert Ascending(n + 1)[..n] == Ascending(n);
  }

  /** A key above all others goes to the end of its leaf. */
  lemma LeafAppends(pid: int, es: seq<Entry>, k: int, pages: nat)
    requires |es| <= MAX_KEYS && forall i :: 0 <= i < |es| ==> es[i].key < k
    ensures InsLeaf(Leaf(pid, es, INVALID_PAGE_ID), k, ZERO_RID, pages) ==
      var all := es + [Ent(k)];
      if |es| < MAX_KEYS then InsertResult(Leaf(pid, all, INVALID_PAGE_ID), None, pages)
      else InsertResult(Leaf(pid, all[..2], pages), Some(Split(all[2].key, Leaf(pages, all[2..], INVALID_PAGE_ID))),
          pages + 1)
  {
    assert SlotFor(KeysOf(es), k) == |es|;
    assert InsertAt(es, |es|, Ent(k)) == es + [Ent(k)];
  }

  lemma RoutesLast(keys: seq<int>, k: int)
    requires forall i :: 0 <= i < |keys| ==> keys[i] < k
    ensures Route(keys, k) == |keys| && SlotFor(keys, k) == |keys| && ScanRoute(keys, k) == |keys|
  {
  }

  /** A tree of one internal node whose last leaf has room. */
  lemma LastLeafAppends(pid: int, keys: seq<int>, kids: seq<Tree>, last: int, es: seq<Entry>, k: int, pages: nat)
    requires Shaped(Inner(pid, keys, kids), 1) && kids[|keys|] == Leaf(last, es, INVALID_PAGE_ID) && |es| < MAX_KEYS
    requires (forall i :: 0 <= i < |es| ==> es[i].key < k) && (forall i :: 0 <= i < |keys| ==> keys[i] < k)
    ensures Insert(Index(Inner(pid, keys, kids), 1, pages), k, ZERO_RID, AsWritten) ==
      Index(Inner(pid, keys, kids[..|keys|] + [Leaf(last, es + [Ent(k)], INVALID_PAGE_ID)]), 1, pages)
  {
    var t := Inner(pid, keys, kids);
    RoutesLast(keys, k);
    KidShaped(t, 1, |keys|);
    LeafAppends(last, es, k, pages);
    var c := Ins(kids[|keys|], 0, k, ZERO_RID, pages, AsWritten);
    InsStep(t, 1, k, ZERO_RID, pages, AsWritten, |keys|, c, kids[|keys| := c.left]);
    assert kids[|keys| := c.left] == kids[..|keys|] + [c.left];
  }

  /** A tree of one internal node with room, whose last leaf is full. */
  lemma LastLeafSplits(pid: int, keys: seq<int>, kids: seq<Tree>, last: int, es: seq<Entry>, k: int, pages: nat)
    requires Shaped(Inner(pid, keys, kids), 1) && kids[|keys|] == Leaf(last, es, INVALID_PAGE_ID) && |es| == MAX_KEYS
    requires |keys| < MAX_KEYS
    requires (forall i :: 0 <= i < |es| ==> es[i].key < k) && (forall i :: 0 <= i < |keys| ==> keys[i] < es[2].key)
    ensures Insert(Index(Inner(pid, keys, kids), 1, pages), k, ZERO_RID, AsWritten) ==
      Index(Inner(pid, keys + [es[2].key],
                  kids[..|keys|] + [Leaf(last, es[..2], pages), Leaf(pages, [es[2], Ent(k)], INVALID_PAGE_ID)]), 1,
                      pages + 2)
  {
    var t := Inner(pid, keys, kids);
    RoutesLast(keys, k);
    RoutesLast(keys, es[2].key);
    KidShaped(t, 1, |keys|);
    LeafAppends(last, es, k, pages);
    var c := Ins(kids[|keys|], 0, k, ZERO_RID, pages, AsWritten);
    var kids' := kids[|keys| := c.left];
    InsStep(t, 1, k, ZERO_RID, pages, AsWritten, |keys|, c, kids');
    assert (es + [Ent(k)])[..2] == es[..2] && (es + [Ent(k)])[2..] == [es[2], Ent(k)];
    assert InsertAt(kids', |keys| + 1, c.split.value.right) == kids[..|keys|] + [c.left, c.split.value.right];
    assert InsertAt(keys, |keys|, es[2].key) == keys + [es[2].key];
  }

  function L(pid: int, a: int, next: int): Tree {
    Leaf(pid, [Ent(a), Ent(a + 1)], next)
  }

  lemma RootLeafAppends(pid: int, es: seq<Entry>, k: int, pages: nat)
    requires |es| < MAX_KEYS && forall i :: 0 <= i < |es| ==> es[i].key < k
    ensures Insert(Index(Leaf(pid, es, INVALID_PAGE_ID), 0, pages), k, ZERO_RID, AsWritten)
         == Index(Leaf(pid, es + [Ent(k)], INVALID_PAGE_ID), 0, pages)
  {
    LeafAppends(pid, es, k, pages);
  }

  lemma RootLeafSplits(pid: int, es: seq<Entry>, k: int, pages: nat)
    requires |es| == MAX_KEYS && forall i :: 0 <= i < |es| ==> es[i].key < k
    ensures Insert(Index(Leaf(pid, es, INVALID_PAGE_ID), 0, pages), k, ZERO_RID, AsWritten)
         == Index(Inner(pages + 1, [es[2].key],
             [Leaf(pid, es[..2], pages), Leaf(pages, [es[2], Ent(k)], INVALID_PAGE_ID)]), 1, pages + 2)
  {
    LeafAppends(pid, es, k, pages);
    assert (es + [Ent(k)])[..2] == es[..2] && (es + [Ent(k)])[2..] == [es[2], Ent(k)];
  }

  /** A full internal node whose last leaf is full: the right half gets the promoted key again. */
  lemma LastLeafOverflows(pid: int, keys: seq<int>, kids: seq<Tree>, last: int, es: seq<Entry>, k: int, pages: nat)
    requires Shaped(Inner(pid, keys, kids), 1) && kids[|keys|] == Leaf(last, es, INVALID_PAGE_ID) && |es| == MAX_KEYS
    requires |keys| == MAX_KEYS
    requires (forall i :: 0 <= i < |es| ==> es[i].key < k) && (forall i :: 0 <= i < |keys| ==> keys[i] < es[2].key)
    ensures
      var l, r := Leaf(last, es[..2], pages), Leaf(pages, [es[2], Ent(k)], INVALID_PAGE_ID);
      Insert(Index(Inner(pid, keys, kids), 1, pages), k, ZERO_RID, AsWritten) ==
      Index(Inner(pages + 2, [keys[2]], [Inner(pid, keys[..2], kids[..3]), Inner(pages + 1, [keys[2]], [l, r])]), 2,
          pages + 3)
  {
    var t := Inner(pid, keys, kids);
    RoutesLast(keys, k);
    RoutesLast(keys, es[2].key);
    KidShaped(t, 1, |keys|);
    LeafAppends(last, es, k, pages);
    var c := Ins(kids[|keys|], 0, k, ZERO_RID, pages, AsWritten);
    var kids' := kids[|keys| := c.left];
    InsStep(t, 1, k, ZERO_RID, pages, AsWritten, |keys|, c, kids');
    assert (es + [Ent(k)])[..2] == es[..2] && (es + [Ent(k)])[2..] == [es[2], Ent(k)];
    assert InsertAt(kids', |keys| + 1, c.split.value.right) == kids[..3] + [c.left, c.split.value.right];
    assert (kids[..3] + [c.left, c.split.value.right])[3..] == [c.left, c.split.value.right];
    assert (kids[..3] + [c.left, c.split.value.right])[..3] == kids[..3];
    assert InsertAt(keys, |keys|, es[2].key) == keys + [es[2].key];
    assert (keys + [es[2].key])[2..3] == [keys[2]] && (keys + [es[2].key])[..2] == keys[..2];
  }

  lemma NoneBuilt()
    ensures Build(Ascending(0), AsWritten, 0) == Index(Leaf(0, [], INVALID_PAGE_ID), 0, 1)
  {
    assert Ascending(0) == [];
  }

  lemma FourBuilt()
    ensures Build(Ascending(4), AsWritten, 0) == Index(Inner(2, [2], [L(0, 0, 1), L(1, 2, -1)]), 1, 3)
  {
    hide Insert, Build, Ascending, RootShaped;
    NoneBuilt();
    BuildStep(0);
    BuildStep(1);
    BuildStep(2);
    BuildStep(3);
    RootLeafAppends(0, [], 0, 1);
    assert [] + [Ent(0)] == [Ent(0)];
    RootLeafAppends(0, [Ent(0)], 1, 1);
    assert [Ent(0)] + [Ent(1)] == [Ent(0), Ent(1)];
    RootLeafAppends(0, [Ent(0), Ent(1)], 2, 1);
    var three := [Ent(0), Ent(1)] + [Ent(2)];
    RootLeafSplits(0, three, 3, 1);
    assert three[..2] == [Ent(0), Ent(1)];
  }

  /** The tree after 2n keys, with three keys in its last leaf, and after one more. */
  lemma TwoMore(n: nat, keys: seq<int>, kids: seq<Tree>, last: int, a: int, pages: nat)
    requires Build(Ascending(n), AsWritten, 0) == Index(Inner(2, keys, kids), 1, pages)
    requires Shaped(Inner(2, keys, kids), 1) && |keys| < MAX_KEYS && kids[|keys|] == L(last, a, -1) && n == a + 2
    requires forall i :: 0 <= i < |keys| ==> keys[i] <= a
    ensures Build(Ascending(n + 2), AsWritten, 0) ==
      Index(Inner(2, keys + [n], kids[..|keys|] + [L(last, a, pages), L(pages, n, -1)]), 1, pages + 2)
  {
    hide Insert, Build, Ascending;
    BuildStep(n);
    BuildStep(n + 1);
    var es := [Ent(a), Ent(a + 1)];
    LastLeafAppends(2, keys, kids, last, es, n, pages);
    var kids' := kids[..|keys|] + [Leaf(last, es + [Ent(n)], INVALID_PAGE_ID)];
    KidShaped(Inner(2, keys, kids), 1, 0);
    KidsShaped(kids, 0, |keys|, kids'[|keys|]);
    assert kids' == kids[|keys| := kids'[|keys|]];
    LastLeafSplits(2, keys, kids', last, es + [Ent(n)], n + 1, pages);
    assert kids'[..|keys|] == kids[..|keys|] && (es + [Ent(n)])[..2] == es;
  }

  lemma SixBuilt()
    ensures Build(Ascending(6), AsWritten, 0) == Index(Inner(2, [2, 4], [L(0, 0, 1), L(1, 2, 3), L(3, 4, -1)]), 1, 5)
  {
    FourBuilt();
    hide Insert, Build, Ascending;
    var kids := [L(0, 0, 1), L(1, 2, -1)];
    assert AllShaped(kids, 0);
    TwoMore(4, [2], kids, 1, 2, 3);
    assert kids[..1] + [L(1, 2, 3), L(3, 4, -1)] == [L(0, 0, 1), L(1, 2, 3), L(3, 4, -1)];
    assert [2] + [4] == [2, 4];
  }

  lemma EightBuilt()
    ensures Build(Ascending(8), AsWritten, 0) ==
      Index(Inner(2, [2, 4, 6], [L(0, 0, 1), L(1, 2, 3), L(3, 4, 5), L(5, 6, -1)]), 1, 7)
  {
    SixBuilt();
    hide Insert, Build, Ascending;
    var kids := [L(0, 0, 1), L(1, 2, 3), L(3, 4, -1)];
    assert AllShaped(kids, 0);
    TwoMore(6, [2, 4], kids, 3, 4, 5);
    assert kids[..2] + [L(3, 4, 5), L(5, 6, -1)] == [L(0, 0, 1), L(1, 2, 3), L(3, 4, 5), L(5, 6, -1)];
    assert [2, 4] + [6] == [2, 4, 6];
  }

  /** The tree after ten ascending keys: both the root and its right child say 6. */
  lemma TenBuilt()
    ensures Build(Ascending(10), AsWritten, 0) ==
      Index(Inner(9, [6], [Inner(2, [2, 4], [L(0, 0, 1), L(1, 2, 3), L(3, 4, 5)]),
          Inner(8, [6], [L(5, 6, 7), L(7, 8, -1)])]), 2, 10)
  {
    EightBuilt();
    hide Insert, Build, Ascending;
    BuildStep(8);
    BuildStep(9);
    var kids := [L(0, 0, 1), L(1, 2, 3), L(3, 4, 5), L(5, 6, -1)];
    assert AllShaped(kids, 0);
    LastLeafAppends(2, [2, 4, 6], kids, 5, [Ent(6), Ent(7)], 8, 7);
    var es := [Ent(6), Ent(7)] + [Ent(8)];
    var kids' := kids[..3] + [Leaf(5, es, INVALID_PAGE_ID)];
    assert AllShaped(kids', 0);
    LastLeafOverflows(2, [2, 4, 6], kids', 5, es, 9, 7);
    assert [2, 4, 6][..2] == [2, 4] && kids'[..3] == [L(0, 0, 1), L(1, 2, 3), L(3, 4, 5)]
        && es[..2] == [Ent(6), Ent(7)];
  }

  lemma LookupStepDown(t: Tree, h: nat, k: int, i: nat)
    requires t.Inner? && Shaped(t, h) && i == ScanRoute(t.keys, k)
    ensures h > 0 && RootShaped(t.kids[i], h - 1) && Lookup(t, h, k) == Lookup(t.kids[i], h - 1, k)
  {
    KidShaped(t, h, i);
  }

  function TenTree(): Tree {
    Inner(9, [6], [Inner(2, [2, 4], [L(0, 0, 1), L(1, 2, 3), L(3, 4, 5)]), Inner(8, [6], [L(5, 6, 7), L(7, 8, -1)])])
  }

  lemma SixHidden()
    requires RootShaped(TenTree(), 2)
    ensures Lookup(TenTree(), 2, 6).None?
  {
    hide Shaped, AllShaped;
    var right := TenTree().kids[1];
    assert ScanRoute([6], 6) == 1;
    LookupStepDown(TenTree(), 2, 6, 1);
    LookupStepDown(right, 1, 6, 1);
    assert [Ent(8), Ent(9)][1..] == [Ent(9)];
    assert Find([Ent(8), Ent(9)], 6).None?;
  }

  /** After 0 to 9 have been inserted, a scan for 6 finds nothing. */
  lemma AscendingLosesSix()
    ensures Scan(Build(Ascending(10), AsWritten, 0), 6).None? && HasKey(Ascending(10), 6)
    ensures !AlwaysRight(Ascending(10), AsWritten, 0)
  {
    TenBuilt();
    var run := Ascending(10);
    var y := Build(run, AsWritten, 0);
    assert y.root == TenTree() && y.height == 2;
    assert run[6] in run && run[6].key == 6;
    FindNone(run, 6);
    hide Build, Ascending, Shaped, AllShaped, Lookup, Find;
    SixHidden();
    assert run[..10] == run;
    assert Scan(Build(run[..10], AsWritten, 0), 6) != Find(run[..10], 6);
  }
}
