/** Why the index needs distinct keys: an insert and a scan take different ways round equal separators. */
module IndexDuplicates {
  import opened StorageTypes
  import opened BPlusTree
  import opened SortedEntries
  import opened IndexSplitAsWritten
  import opened IndexRuns
  import opened IndexCounterexample

  const SIX_KEYS := [Ent(4), Ent(5), Ent(5), Ent(7), Ent(5), Ent(5)]

  /** A key not below any other goes to the end of its leaf. */
  lemma LeafEnds(pid: int, es: seq<Entry>, next: int, k: int, pages: nat)
    requires |es| <= MAX_KEYS && forall i :: 0 <= i < |es| ==> es[i].key <= k
    ensures InsLeaf(Leaf(pid, es, next), k, ZERO_RID, pages) ==
      var all := es + [Ent(k)];
      if |es| < MAX_KEYS then InsertResult(Leaf(pid, all, next), None, pages)
      else InsertResult(Leaf(pid, all[..2], pages), Some(Split(all[2].key, Leaf(pages, all[2..], next))), pages + 1)
  {
    assert SlotFor(KeysOf(es), k) == |es|;
    assert InsertAt(es, |es|, Ent(k)) == es + [Ent(k)];
  }

  lemma BuildNext(run: seq<Entry>, e: Entry, copy: SplitCopy)
    ensures Build(run + [e], copy, 0) == Insert(Build(run, copy, 0), e.key, e.rid, copy)
  {
    assert (run + [e])[..|run|] == run;
  }

  lemma RootLeafEnds(es: seq<Entry>, k: int, copy: SplitCopy)
    requires |es| < MAX_KEYS && forall i :: 0 <= i < |es| ==> es[i].key <= k
    ensures Insert(Index(Leaf(0, es, INVALID_PAGE_ID), 0, 1), k, ZERO_RID, copy)
        == Index(Leaf(0, es + [Ent(k)], INVALID_PAGE_ID), 0, 1)
  {
    LeafEnds(0, es, INVALID_PAGE_ID, k, 1);
  }

  function TwoLeaves(left: seq<Entry>): Tree {
    Inner(2, [5], [Leaf(0, left, 1), Leaf(1, [Ent(5), Ent(7)], INVALID_PAGE_ID)])
  }

  function ThreeLeaves(): Tree {
    Inner(2, [5, 5], [Leaf(0, [Ent(4), Ent(5)], 3), Leaf(1, [Ent(5), Ent(7)], INVALID_PAGE_ID),
        Leaf(3, [Ent(5), Ent(5)], 1)])
  }

  /** While there is one leaf, ascending keys just pile up in it. */
  lemma OneLeafGrows(es: seq<Entry>, k: int, copy: SplitCopy)
    requires Build(es, copy, 0) == Index(Leaf(0, es, INVALID_PAGE_ID), 0, 1)
    requires |es| < MAX_KEYS && forall i :: 0 <= i < |es| ==> es[i].key <= k
    ensures Build(es + [Ent(k)], copy, 0) == Index(Leaf(0, es + [Ent(k)], INVALID_PAGE_ID), 0, 1)
  {
    BuildNext(es, Ent(k), copy);
    RootLeafEnds(es, k, copy);
  }

  lemma ThreeBuilt(copy: SplitCopy)
    ensures Build([Ent(4), Ent(5), Ent(5)], copy, 0) == Index(Leaf(0, [Ent(4), Ent(5), Ent(5)], INVALID_PAGE_ID), 0, 1)
  {
    hide Build, Insert, RootShaped;
    NoneBuilt(copy);
    OneLeafGrows([], 4, copy);
    var one := [Ent(4)];
    assert [] + [Ent(4)] == one;
    OneLeafGrows(one, 5, copy);
    var two := [Ent(4), Ent(5)];
    assert one + [Ent(5)] == two;
    OneLeafGrows(two, 5, copy);
    assert two + [Ent(5)] == [Ent(4), Ent(5), Ent(5)];
  }

  lemma NoneBuilt(copy: SplitCopy)
    ensures Build([], copy, 0) == Index(Leaf(0, [], INVALID_PAGE_ID), 0, 1)
  {
  }

  lemma FourDuplicates(copy: SplitCopy)
    ensures Build([Ent(4), Ent(5), Ent(5), Ent(7)], copy, 0) == Index(TwoLeaves([Ent(4), Ent(5)]), 1, 3)
  {
    var es := [Ent(4), Ent(5), Ent(5)];
    ThreeBuilt(copy);
    BuildNext(es, Ent(7), copy);
    assert es + [Ent(7)] == [Ent(4), Ent(5), Ent(5), Ent(7)];
    LeafEnds(0, es, INVALID_PAGE_ID, 7, 1);
    assert (es + [Ent(7)])[..2] == [Ent(4), Ent(5)] && (es + [Ent(7)])[2..] == [Ent(5), Ent(7)];
  }

  lemma FifthGoesLeft(copy: SplitCopy)
    requires Shaped(TwoLeaves([Ent(4), Ent(5)]), 1)
    ensures Insert(Index(TwoLeaves([Ent(4), Ent(5)]), 1, 3), 5, ZERO_RID, copy)
         == Index(TwoLeaves([Ent(4), Ent(5), Ent(5)]), 1, 3)
  {
    var t := TwoLeaves([Ent(4), Ent(5)]);
    var leaf := t.kids[0];
    assert Route([5], 5) == 0;
    LeafEnds(0, [Ent(4), Ent(5)], 1, 5, 3);
    assert [Ent(4), Ent(5)] + [Ent(5)] == [Ent(4), Ent(5), Ent(5)];
    var c := Ins(leaf, 0, 5, ZERO_RID, 3, copy);
    InsStep(t, 1, 5, ZERO_RID, 3, copy, 0, c, t.kids[0 := c.left]);
  }

  lemma SixthSplitsWrong(copy: SplitCopy)
    requires Shaped(TwoLeaves([Ent(4), Ent(5), Ent(5)]), 1)
    ensures Insert(Index(TwoLeaves([Ent(4), Ent(5), Ent(5)]), 1, 3), 5, ZERO_RID, copy) == Index(ThreeLeaves(), 1, 5)
  {
    var es := [Ent(4), Ent(5), Ent(5)];
    var t := TwoLeaves(es);
    assert Route([5], 5) == 0;
    LeafEnds(0, es, 1, 5, 3);
    assert (es + [Ent(5)])[..2] == [Ent(4), Ent(5)] && (es + [Ent(5)])[2..] == [Ent(5), Ent(5)];
    var c := Ins(t.kids[0], 0, 5, ZERO_RID, 3, copy);
    var kids := t.kids[0 := c.left];
    InsStep(t, 1, 5, ZERO_RID, 3, copy, 0, c, kids);
    assert SlotFor([5], 5) == 1;
    assert InsertAt([5], 1, 5) == [5, 5];
    assert InsertAt(kids, 2, c.split.value.right) == ThreeLeaves().kids;
  }

  /** With 4, 5, 5, 7, 5, 5 inserted, a scan for 7 finds nothing, whichever way internal nodes are split. */
  lemma DuplicatesLoseSeven(copy: SplitCopy)
    ensures Scan(Build(SIX_KEYS, copy, 0), 7).None? && HasKey(SIX_KEYS, 7)
    ensures !DistinctKeys(SIX_KEYS)
  {
    SixBuilt(copy);
    SixShaped(copy);
    SevenHidden();
    hide Build, Lookup, RootShaped;
    assert SIX_KEYS[3] in SIX_KEYS && SIX_KEYS[3].key == 7;
    assert SIX_KEYS[1].key == SIX_KEYS[2].key;
  }

  lemma SixBuilt(copy: SplitCopy)
    ensures Build(SIX_KEYS, copy, 0) == Index(ThreeLeaves(), 1, 5)
  {
    hide Build, Insert;
    var four := [Ent(4), Ent(5), Ent(5), Ent(7)];
    FourDuplicates(copy);
    BuildShaped(four, copy);
    BuildNext(four, Ent(5), copy);
    FifthGoesLeft(copy);
    BuildShaped(four + [Ent(5)], copy);
    BuildNext(four + [Ent(5)], Ent(5), copy);
    SixthSplitsWrong(copy);
    assert four + [Ent(5)] + [Ent(5)] == SIX_KEYS;
  }

  lemma BuildShaped(run: seq<Entry>, copy: SplitCopy)
    ensures var x := Build(run, copy, 0); RootShaped(x.root, x.height)
  {
  }

  lemma SixShaped(copy: SplitCopy)
    requires Build(SIX_KEYS, copy, 0) == Index(ThreeLeaves(), 1, 5)
    ensures RootShaped(ThreeLeaves(), 1)
  {
    BuildShaped(SIX_KEYS, copy);
  }

  lemma SevenHidden()
    requires RootShaped(ThreeLeaves(), 1)
    ensures Lookup(ThreeLeaves(), 1, 7).None?
  {
    assert ScanRoute([5, 5], 7) == 2;
    LookupStepDown(ThreeLeaves(), 1, 7, 2);
    assert [Ent(5), Ent(5)][1..] == [Ent(5)];
  }
}
