/**
  Every run of inserts, equal keys or not, in either form of the internal split, however often it has
  strayed or been spoilt before. What one insert does to the scan of a key is one of three things, and
  these decide which keys are found after the whole run.
 */
module StrayedRuns {
  import opened StorageTypes
  import opened BPlusTree
  import opened SortedEntries
  import opened IndexOrder
  import opened IndexInsertion
  import opened IndexSplitAsWritten
  import opened IndexRuns
  import opened EqualKeys
  import opened HiddenKeys
  import opened EqualKeysAsWritten

  // ---------- what every insert keeps ----------

  predicate NotBelow(x: int, lo: Option<int>) {
    lo.Some? ==> lo.value <= x
  }

  ghost predicate AllNotBelow(keys: seq<int>, lo: Option<int>) {
    forall j :: 0 <= j < |keys| ==> NotBelow(keys[j], lo)
  }

  /** The separator below child j, which for the first child is the one below the node. */
  function Lower(keys: seq<int>, j: nat, lo: Option<int>): Option<int>
    requires j <= |keys|
  {
    if j == 0 then lo else Some(keys[j - 1])
  }

  /** A leaf in order, with the separator below it for its first key, or as written for a bound. */
  ghost predicate LeafFits(es: seq<Entry>, lo: Option<int>, copy: SplitCopy) {
    && NonDecreasing(KeysOf(es))
    && (lo.Some? ==>
          match copy
          case Repaired => es != [] && es[0].key == lo.value
          case AsWritten => AllNotBelow(KeysOf(es), lo))
  }

  /** Separators in order, each below what is to its right; keys to its left may be larger. */
  ghost predicate Fitted(t: Tree, lo: Option<int>, copy: SplitCopy) {
    match t
    case Leaf(_, es, _) => LeafFits(es, lo, copy)
    case Inner(_, keys, kids) =>
      && |kids| == |keys| + 1 && NonDecreasing(keys) && AllNotBelow(keys, lo)
      && forall j :: 0 <= j < |kids| ==> Fitted(kids[j], Lower(keys, j, lo), copy)
  }

  ghost predicate KidsFit(keys: seq<int>, kids: seq<Tree>, lo: Option<int>, copy: SplitCopy) {
    && |kids| == |keys| + 1 && NonDecreasing(keys) && AllNotBelow(keys, lo)
    && forall j :: 0 <= j < |kids| ==> Fitted(kids[j], Lower(keys, j, lo), copy)
  }

  /** Both halves fit, the right one above the promoted key. */
  ghost predicate Rises(c: InsertResult, lo: Option<int>, copy: SplitCopy) {
    && Fitted(c.left, lo, copy)
    && (c.split.Some? ==>
          NotBelow(c.split.value.key, lo) && Fitted(c.split.value.right, Some(c.split.value.key), copy))
  }

  lemma {:induction false} Looser(t: Tree, a: int, lo: Option<int>)
    requires Fitted(t, Some(a), AsWritten) && NotBelow(a, lo)
    ensures Fitted(t, lo, AsWritten)
  {
    if t.Inner? {
      forall j | 0 <= j < |t.kids| ensures Fitted(t.kids[j], Lower(t.keys, j, lo), AsWritten) {
        assert Fitted(t.kids[j], Lower(t.keys, j, Some(a)), AsWritten);
        if j == 0 {
          Looser(t.kids[0], a, lo);
        }
      }
    }
  }

  lemma LeafRises(t: Tree, k: int, rid: RID, pages: nat, lo: Option<int>, copy: SplitCopy)
    requires t.Leaf? && |t.entries| <= MAX_KEYS && LeafFits(t.entries, lo, copy) && NotBelow(k, lo)
    ensures Rises(InsLeaf(t, k, rid, pages), lo, copy)
  {
    hide SlotFor, LeafFits;
    var es := InsertAt(t.entries, SlotFor(KeysOf(t.entries), k), Entry(k, rid));
    LeafTakes(t.entries, k, rid, lo, copy);
    if |es| == 4 {
      LeafHalvesFit(es, lo, copy);
    } else {
      assert InsLeaf(t, k, rid, pages).left.entries == es;
    }
  }

  lemma LeafTakes(es: seq<Entry>, k: int, rid: RID, lo: Option<int>, copy: SplitCopy)
    requires LeafFits(es, lo, copy) && NotBelow(k, lo)
    ensures LeafFits(InsertAt(es, SlotFor(KeysOf(es), k), Entry(k, rid)), lo, copy)
  {
    LeafOrder(es, k, rid);
    if lo.Some? && copy.Repaired? {
      SlotAtLeast(KeysOf(es), k, 1);
    }
    hide SlotFor, NonDecreasing;
    BoundKept(es, SlotFor(KeysOf(es), k), Entry(k, rid), lo);
  }

  lemma BoundKept(es: seq<Entry>, p: nat, e: Entry, lo: Option<int>)
    requires p <= |es| && NotBelow(e.key, lo)
    ensures AllNotBelow(KeysOf(es), lo) ==> AllNotBelow(KeysOf(InsertAt(es, p, e)), lo)
    ensures p > 0 ==> InsertAt(es, p, e)[0] == es[0]
  {
    var keys, keys' := KeysOf(es), KeysOf(InsertAt(es, p, e));
    if AllNotBelow(keys, lo) {
      forall j | 0 <= j < |keys'| ensures NotBelow(keys'[j], lo) {
        assert j > p ==> keys'[j] == keys[j - 1];
        assert j < p ==> keys'[j] == keys[j];
      }
    }
  }

  lemma LeafHalvesFit(es: seq<Entry>, lo: Option<int>, copy: SplitCopy)
    requires |es| == 4 && LeafFits(es, lo, copy)
    ensures LeafFits(es[..2], lo, copy) && NotBelow(es[2].key, lo) && LeafFits(es[2..], Some(es[2].key), copy)
  {
    PartOrder(es, 0, 2);
    PartOrder(es, 2, 4);
    assert es[0..2] == es[..2] && es[2..4] == es[2..];
    var keys := KeysOf(es);
    assert keys[0] <= keys[2] <= keys[3];
    assert KeysOf(es[2..]) == keys[2..] && KeysOf(es[..2]) == keys[..2];
  }

  /** Child i, which k goes to, with the bound below it. */
  lemma TakesAbove(keys: seq<int>, lo: Option<int>, k: int)
    requires NotBelow(k, lo)
    ensures NotBelow(k, Lower(keys, Route(keys, k), lo))
  {
  }

  lemma SlotAfter(keys: seq<int>, i: nat, lo: Option<int>, s: int)
    requires NonDecreasing(keys) && AllNotBelow(keys, lo) && i <= |keys| && NotBelow(s, Lower(keys, i, lo))
    ensures i <= SlotFor(keys, s) && NotBelow(s, lo)
  {
    if i > 0 {
      assert forall j :: 0 <= j < i ==> keys[j] <= keys[i - 1];
      SlotAtLeast(keys, s, i);
    }
  }

  lemma KidRises(keys: seq<int>, kids: seq<Tree>, i: nat, lo: Option<int>, copy: SplitCopy, c: InsertResult)
    requires KidsFit(keys, kids, lo, copy) && i < |kids| && Rises(c, Lower(keys, i, lo), copy)
    ensures KidsFit(keys, kids[i := c.left], lo, copy)
  {
  }

  lemma SplitRises(keys: seq<int>, kids: seq<Tree>, i: nat, lo: Option<int>, copy: SplitCopy, c: InsertResult)
    requires KidsFit(keys, kids, lo, copy) && i < |kids| && Rises(c, Lower(keys, i, lo), copy) && c.split.Some?
    ensures KidsFit(NewKeys(keys, c.split.value.key), NewKids(keys, kids, i, c.left, c.split.value), lo, copy)
  {
    hide SlotFor, NonDecreasing, NotBelow, AllNotBelow, Fitted, Lower;
    var s := c.split.value;
    SlotAfter(keys, i, lo, s.key);
    NewKeysOrder(keys, s.key);
    KidRises(keys, kids, i, lo, copy, c);
    KidInserted(keys, kids[i := c.left], lo, copy, s);
  }

  lemma KidInserted(keys: seq<int>, kids: seq<Tree>, lo: Option<int>, copy: SplitCopy, s: Split)
    requires KidsFit(keys, kids, lo, copy) && NotBelow(s.key, lo) && Fitted(s.right, Some(s.key), copy)
    requires NonDecreasing(NewKeys(keys, s.key))
    ensures KidsFit(NewKeys(keys, s.key), InsertAt(kids, SlotFor(keys, s.key) + 1, s.right), lo, copy)
  {
    hide SlotFor, NonDecreasing, NotBelow, Fitted;
    var p := SlotFor(keys, s.key);
    var keys', kids' := NewKeys(keys, s.key), InsertAt(kids, p + 1, s.right);
    forall j | 0 <= j < |kids'| ensures Fitted(kids'[j], Lower(keys', j, lo), copy) {
      if j <= p {
        assert kids'[j] == kids[j] && Lower(keys', j, lo) == Lower(keys, j, lo);
      } else if j > p + 1 {
        assert kids'[j] == kids[j - 1] && Lower(keys', j, lo) == Lower(keys, j - 1, lo);
      }
    }
  }

  /** A node cut in either form. */
  function Cut(copy: SplitCopy, pid: int, keys: seq<int>, kids: seq<Tree>, pages: nat): InsertResult
    requires |kids| == |keys| + 1
  {
    if copy.Repaired? then Halved(pid, keys, kids, pages) else HalvedAsWritten(pid, keys, kids, pages)
  }

  lemma AbsorbCuts(t: Tree, h: nat, i: nat, c: InsertResult, pages: nat, copy: SplitCopy)
    requires t.Inner? && Shaped(t, h) && i < |t.kids| && c.split.Some?
    requires AllShaped(t.kids[i := c.left], h - 1) && Shaped(c.split.value.right, h - 1)
    ensures
      var s := c.split.value;
      Absorb(t.pid, h, t.keys, t.kids[i := c.left], s, pages, copy)
      == Cut(copy, t.pid, NewKeys(t.keys, s.key), NewKids(t.keys, t.kids, i, c.left, s), pages)
  {
    hide Absorb, Halved, HalvedAsWritten;
    if copy.Repaired? {
      AbsorbHalves(t, h, i, c, pages);
    } else {
      AbsorbAsWritten(t, h, i, c, pages);
    }
  }

  lemma CutRises(copy: SplitCopy, pid: int, keys: seq<int>, kids: seq<Tree>, pages: nat, lo: Option<int>)
    requires KidsFit(keys, kids, lo, copy) && |keys| <= 4
    ensures Rises(Cut(copy, pid, keys, kids, pages), lo, copy)
  {
    if |keys| == 4 {
      assert Fitted(kids[3], Lower(keys, 3, lo), copy) && Fitted(kids[4], Lower(keys, 4, lo), copy);
      assert kids[3..][0] == kids[3] && kids[3..][1] == kids[4] && keys[2] <= keys[3];
      FirstPart(keys, kids, lo, copy);
      if copy.Repaired? {
        assert KidsFit(keys[3..], kids[3..], Some(keys[2]), copy);
      } else {
        Looser(kids[4], keys[3], Some(keys[2]));
        assert KidsFit([keys[2]], kids[3..], Some(keys[2]), copy);
      }
    }
  }

  lemma FirstPart(keys: seq<int>, kids: seq<Tree>, lo: Option<int>, copy: SplitCopy)
    requires KidsFit(keys, kids, lo, copy) && |keys| == 4
    ensures KidsFit(keys[..2], kids[..3], lo, copy)
  {
    forall j | 0 <= j < 3 ensures Fitted(kids[..3][j], Lower(keys[..2], j, lo), copy) {
      assert Lower(keys[..2], j, lo) == Lower(keys, j, lo) && kids[..3][j] == kids[j];
    }
  }

  lemma FittedKids(t: Tree, lo: Option<int>, copy: SplitCopy)
    requires t.Inner?
    ensures Fitted(t, lo, copy) <==> KidsFit(t.keys, t.kids, lo, copy)
  {
  }

  lemma KidFits(t: Tree, lo: Option<int>, copy: SplitCopy, i: nat)
    requires t.Inner? && Fitted(t, lo, copy) && i < |t.kids|
    ensures NonDecreasing(t.keys) && AllNotBelow(t.keys, lo)
    ensures |t.kids| == |t.keys| + 1 && Fitted(t.kids[i], Lower(t.keys, i, lo), copy)
  {
  }

  /** Every insert keeps the separators in order and below what is to their right. */
  lemma {:induction false} InsRises(t: Tree, h: nat, k: int, rid: RID, pages: nat, lo: Option<int>, copy: SplitCopy)
    requires RootShaped(t, h) && Fitted(t, lo, copy) && NotBelow(k, lo)
    ensures Rises(Ins(t, h, k, rid, pages, copy), lo, copy)
    decreases h
  {
    hide Ins, Absorb, Shaped, AllShaped, RootShaped, Fitted, Rises, KidsFit, Route, Cut, NotBelow, Lower;
    if t.Leaf? {
      LowestRises(t, h, k, rid, pages, lo, copy);
    } else {
      var i := Route(t.keys, k);
      InnerShaped(t, h);
      NodeBounds(t, h);
      KidShaped(t, h, i);
      KidFits(t, lo, copy, i);
      TakesAbove(t.keys, lo, k);
      InsRises(t.kids[i], h - 1, k, rid, pages, Lower(t.keys, i, lo), copy);
      NodeRises(t, h, k, rid, pages, lo, copy, i, Ins(t.kids[i], h - 1, k, rid, pages, copy));
    }
  }

  lemma LowestRises(t: Tree, h: nat, k: int, rid: RID, pages: nat, lo: Option<int>, copy: SplitCopy)
    requires RootShaped(t, h) && t.Leaf? && Fitted(t, lo, copy) && NotBelow(k, lo)
    ensures Rises(Ins(t, h, k, rid, pages, copy), lo, copy)
  {
    LeafRises(t, k, rid, pages, lo, copy);
    hide InsLeaf, Rises;
  }

  lemma NodeRises(t: Tree, h: nat, k: int, rid: RID, pages: nat, lo: Option<int>, copy: SplitCopy, i: nat,
                  c: InsertResult)
    requires t.Inner? && Shaped(t, h) && Fitted(t, lo, copy) && i == Route(t.keys, k) && RootShaped(t.kids[i], h - 1)
    requires c == Ins(t.kids[i], h - 1, k, rid, pages, copy) && Rises(c, Lower(t.keys, i, lo), copy)
    ensures Rises(Ins(t, h, k, rid, pages, copy), lo, copy)
  {
    FittedKids(t, lo, copy);
    NodeBounds(t, h);
    InsStep(t, h, k, rid, pages, copy, i, c, t.kids[i := c.left]);
    hide Ins, Absorb, Shaped, AllShaped, RootShaped, Fitted, KidsFit, Route, Cut, Lower;
    KidRises(t.keys, t.kids, i, lo, copy, c);
    if c.split.Some? {
      AbsorbCuts(t, h, i, c, c.pages, copy);
      SplitRises(t.keys, t.kids, i, lo, copy, c);
      CutRises(copy, t.pid, NewKeys(t.keys, c.split.value.key), NewKids(t.keys, t.kids, i, c.left, c.split.value),
               c.pages, lo);
    } else {
      FittedKids(Inner(t.pid, t.keys, t.kids[i := c.left]), lo, copy);
    }
  }

  // ---------- what an insert does to the scan of a key ----------

  /**
    The scan is turned to a child it did not come to before, which has the key or has it not; or it
    stays where it was; or it comes to the leaf that has just taken the key.
   */
  datatype Fate = Turned(found: bool) | Stays | Arrives

  /** Whether a scan finds the key afterwards. */
  predicate Finds(f: Fate, before: bool) {
    match f
    case Turned(found) => found
    case Stays => before
    case Arrives => true
  }

  /** As written, a full node that takes s has its scans for these keys go past their child. */
  predicate PassedOver(copy: SplitCopy, keys: seq<int>, s: int, x: int) {
    copy.AsWritten? && |keys| == MAX_KEYS && NewKeys(keys, s)[2] <= x < NewKeys(keys, s)[3]
  }

  ghost predicate HeldIn(t: Tree, h: nat, x: int) {
    RootShaped(t, h) && Lookup(t, h, x).Some?
  }

  /** The fate of x when k is inserted. */
  ghost function FateOf(t: Tree, h: nat, k: int, rid: RID, pages: nat, copy: SplitCopy, x: int): Fate
    requires RootShaped(t, h)
    decreases h
  {
    if t.Leaf? then if x == k then Arrives else Stays
    else
      var i, r := Route(t.keys, k), ScanRoute(t.keys, x);
      assert AllShaped(t.kids, h - 1);
      var c := Ins(t.kids[i], h - 1, k, rid, pages, copy);
      if c.split.Some? && PassedOver(copy, t.keys, c.split.value.key, x) then
        Turned(HeldIn(NewKids(t.keys, t.kids, i, c.left, c.split.value)[4], h - 1, x))
      else if r == i then FateOf(t.kids[i], h - 1, k, rid, pages, copy, x)
      else if c.split.Some? && c.split.value.key <= x && r == SlotFor(t.keys, c.split.value.key) then
        Turned(HeldIn(c.split.value.right, h - 1, x))
      else Stays
  }

  lemma FateStep(t: Tree, h: nat, k: int, rid: RID, pages: nat, copy: SplitCopy, x: int, i: nat, c: InsertResult)
    requires t.Inner? && Shaped(t, h) && i == Route(t.keys, k) && RootShaped(t.kids[i], h - 1)
    requires c == Ins(t.kids[i], h - 1, k, rid, pages, copy)
    ensures |t.kids| == |t.keys| + 1
    ensures
      var r := ScanRoute(t.keys, x);
      FateOf(t, h, k, rid, pages, copy, x) ==
        if c.split.Some? && PassedOver(copy, t.keys, c.split.value.key, x) then
          Turned(HeldIn(NewKids(t.keys, t.kids, i, c.left, c.split.value)[4], h - 1, x))
        else if r == i then FateOf(t.kids[i], h - 1, k, rid, pages, copy, x)
        else if c.split.Some? && c.split.value.key <= x && r == SlotFor(t.keys, c.split.value.key) then
          Turned(HeldIn(c.split.value.right, h - 1, x))
        else Stays
  {
    hide Ins, Route, ScanRoute, PassedOver, HeldIn, SlotFor;
  }

  /** What a scan for x finds in what an insert of k makes of a tree. */
  ghost function ScanAfter(t: Tree, h: nat, k: int, rid: RID, pages: nat, copy: SplitCopy, x: int): Option<RID>
    requires RootShaped(t, h)
  {
    ScanBoth(Ins(t, h, k, rid, pages, copy), h, x)
  }

  lemma CutScan(copy: SplitCopy, pid: int, h: nat, keys: seq<int>, kids: seq<Tree>, pages: nat, x: int)
    requires NonDecreasing(keys) && |kids| == |keys| + 1 && 1 <= |keys| <= 4 && h > 0 && AllShaped(kids, h - 1)
    ensures
      var r := Cut(copy, pid, keys, kids, pages);
      var q := if copy.AsWritten? && |keys| == 4 && keys[2] <= x < keys[3] then 4 else ScanRoute(keys, x);
      RootShaped(r.left, h) && (r.split.Some? ==> RootShaped(r.split.value.right, h)) &&
      RootShaped(kids[q], h - 1) && ScanBoth(r, h, x) == Lookup(kids[q], h - 1, x)
  {
    hide Lookup, ScanBoth, Halved, HalvedAsWritten, RootShaped, AllShaped;
    if copy.Repaired? {
      HalvedScan(pid, h, keys, kids, pages, x);
    } else {
      HalvedAsWrittenScan(pid, h, keys, kids, pages, x);
      if |keys| == 4 && keys[3] <= x {
        RouteIs(keys, x, 4);
      }
    }
  }

  /** A child splits: where the scan goes then. */
  lemma SplitGoes(t: Tree, h: nat, k: int, rid: RID, pages: nat, copy: SplitCopy, x: int, i: nat, c: InsertResult)
    requires t.Inner? && Shaped(t, h) && RootShaped(t, h) && i == Route(t.keys, k) && RootShaped(t.kids[i], h - 1)
    requires c == Ins(t.kids[i], h - 1, k, rid, pages, copy) && c.split.Some? && NonDecreasing(t.keys)
    ensures |t.kids| == |t.keys| + 1
    ensures
      var s := c.split.value;
      var kid := if PassedOver(copy, t.keys, s.key, x) then NewKids(t.keys, t.kids, i, c.left, s)[4]
                 else if s.key <= x && ScanRoute(t.keys, x) == SlotFor(t.keys, s.key) then s.right
                 else t.kids[i := c.left][ScanRoute(t.keys, x)];
      RootShaped(kid, h - 1) && ScanAfter(t, h, k, rid, pages, copy, x) == Lookup(kid, h - 1, x)
  {
    var s := c.split.value;
    NodeBounds(t, h);
    InsStep(t, h, k, rid, pages, copy, i, c, t.kids[i := c.left]);
    NewKeysOrder(t.keys, s.key);
    NewKidFor(t.keys, t.kids, i, c.left, s, x);
    AbsorbCuts(t, h, i, c, c.pages, copy);
    NewKidsShaped(t.keys, t.kids, h - 1, i, c);
    hide Ins, Absorb, Cut, Shaped, AllShaped, RootShaped, Lookup, ScanBoth, NonDecreasing, SlotFor, ScanRoute;
    CutScan(copy, t.pid, h, NewKeys(t.keys, s.key), NewKids(t.keys, t.kids, i, c.left, s), c.pages, x);
  }

  lemma KeptGoes(t: Tree, h: nat, k: int, rid: RID, pages: nat, copy: SplitCopy, x: int, i: nat, c: InsertResult)
    requires t.Inner? && Shaped(t, h) && RootShaped(t, h) && i == Route(t.keys, k) && RootShaped(t.kids[i], h - 1)
    requires c == Ins(t.kids[i], h - 1, k, rid, pages, copy) && c.split.None?
    ensures |t.kids| == |t.keys| + 1
    ensures
      var kid := t.kids[i := c.left][ScanRoute(t.keys, x)];
      RootShaped(kid, h - 1) && ScanAfter(t, h, k, rid, pages, copy, x) == Lookup(kid, h - 1, x)
  {
    InsStep(t, h, k, rid, pages, copy, i, c, t.kids[i := c.left]);
    var l := Inner(t.pid, t.keys, t.kids[i := c.left]);
    KidShaped(l, h, ScanRoute(t.keys, x));
  }

  lemma LeafFate(t: Tree, k: int, rid: RID, pages: nat, x: int)
    requires RootShaped(t, 0) && t.Leaf? && NonDecreasing(KeysOf(t.entries))
    ensures ScanBoth(InsLeaf(t, k, rid, pages), 0, x).Some? <==> x == k || Lookup(t, 0, x).Some?
  {
    var r := InsLeaf(t, k, rid, pages);
    InsKeys(t, 0, k, rid, pages, Repaired);
    hide InsLeaf;
    if x in KeySet(t) + {k} {
      LeafScan(t, k, rid, pages, x);
      if x in KeySet(t) {
        LeafFinds(t.entries, x);
      }
    } else {
      NotFound(t, 0, x);
      NotFound(r.left, 0, x);
      if r.split.Some? {
        NotFound(r.split.value.right, 0, x);
      }
    }
  }

  lemma LeafDecides(t: Tree, h: nat, k: int, rid: RID, pages: nat, copy: SplitCopy, x: int, lo: Option<int>)
    requires RootShaped(t, h) && t.Leaf? && Fitted(t, lo, copy)
    ensures ScanAfter(t, h, k, rid, pages, copy, x).Some?
        <==> Finds(FateOf(t, h, k, rid, pages, copy, x), Lookup(t, h, x).Some?)
  {
    LeafFate(t, k, rid, pages, x);
    hide InsLeaf, ScanBoth, Lookup;
  }

  /** A scan to the child that took k, where that did not pass it on behind equal separators. */
  lemma HomeScan(keys: seq<int>, i: nat, lo: Option<int>, h: nat, c: InsertResult, x: int)
    requires NonDecreasing(keys) && AllNotBelow(keys, lo) && i <= |keys| && ScanRoute(keys, x) == i
    requires c.split.Some? && NotBelow(c.split.value.key, Lower(keys, i, lo))
    ensures c.split.value.key <= x <==> c.split.value.key <= x && i == SlotFor(keys, c.split.value.key)
  {
    var s := c.split.value.key;
    SlotAfter(keys, i, lo, s);
    var p := SlotFor(keys, s);
    if s <= x && i < p {
      assert keys[i] <= keys[p - 1];
    }
  }

  /** One level: what the fate of the key in the followed child says of the node. */
  lemma NodeFate(t: Tree, h: nat, k: int, rid: RID, pages: nat, copy: SplitCopy, x: int, lo: Option<int>, i: nat,
                 c: InsertResult)
    requires t.Inner? && Shaped(t, h) && RootShaped(t, h) && Fitted(t, lo, copy) && i == Route(t.keys, k)
    requires RootShaped(t.kids[i], h - 1) && c == Ins(t.kids[i], h - 1, k, rid, pages, copy)
    requires Rises(c, Lower(t.keys, i, lo), copy)
    requires ScanBoth(c, h - 1, x).Some?
        <==> Finds(FateOf(t.kids[i], h - 1, k, rid, pages, copy, x), Lookup(t.kids[i], h - 1, x).Some?)
    ensures ScanAfter(t, h, k, rid, pages, copy, x).Some?
        <==> Finds(FateOf(t, h, k, rid, pages, copy, x), Lookup(t, h, x).Some?)
  {
    hide Ins, Shaped, RootShaped, Fitted, Route, ScanRoute, PassedOver, SlotFor, FateOf, Lookup, NewKids, NonDecreasing,
         AllNotBelow, ScanAfter, NotBelow, Lower;
    NodeBounds(t, h);
    KidFits(t, lo, copy, i);
    FateStep(t, h, k, rid, pages, copy, x, i, c);
    LookupStep(t, h, x);
    if c.split.Some? {
      SplitGoes(t, h, k, rid, pages, copy, x, i, c);
      if ScanRoute(t.keys, x) == i {
        HomeScan(t.keys, i, lo, h, c, x);
      }
    } else {
      KeptGoes(t, h, k, rid, pages, copy, x, i, c);
    }
  }

  /** The fate of a key decides whether it is found. */
  lemma {:induction false} ScanFate(t: Tree, h: nat, k: int, rid: RID, pages: nat, copy: SplitCopy, x: int,
                                    lo: Option<int>)
    requires RootShaped(t, h) && Fitted(t, lo, copy) && NotBelow(k, lo)
    ensures ScanAfter(t, h, k, rid, pages, copy, x).Some?
        <==> Finds(FateOf(t, h, k, rid, pages, copy, x), Lookup(t, h, x).Some?)
    decreases h
  {
    hide Ins, Shaped, AllShaped, RootShaped, Fitted, Rises, Route, NotBelow, Lower, FateOf, Lookup, ScanBoth;
    if t.Leaf? {
      LeafDecides(t, h, k, rid, pages, copy, x, lo);
    } else {
      var i := Route(t.keys, k);
      InnerShaped(t, h);
      KidShaped(t, h, i);
      KidFits(t, lo, copy, i);
      TakesAbove(t.keys, lo, k);
      InsRises(t.kids[i], h - 1, k, rid, pages, Lower(t.keys, i, lo), copy);
      ScanFate(t.kids[i], h - 1, k, rid, pages, copy, x, Lower(t.keys, i, lo));
      NodeFate(t, h, k, rid, pages, copy, x, lo, i, Ins(t.kids[i], h - 1, k, rid, pages, copy));
    }
  }

  // ---------- the inserted key ----------

  /** With the copy repaired, the separator below a subtree is found in it. */
  lemma {:induction false} LeastFinds(t: Tree, h: nat, m: int)
    requires RootShaped(t, h) && Fitted(t, Some(m), Repaired)
    ensures Lookup(t, h, m).Some?
    decreases h
  {
    hide ScanRoute;
    if t.Leaf? {
      LeafFinds(t.entries, m);
    } else {
      var r := ScanRoute(t.keys, m);
      KidFits(t, Some(m), Repaired, r);
      LookupStep(t, h, m);
      assert r > 0 ==> NotBelow(t.keys[r - 1], Some(m));
      LeastFinds(t.kids[r], h - 1, m);
    }
  }

  /** A separator equal to k stands below the child that a scan for k goes to, if k was not put there. */
  lemma EqualBelow(keys: seq<int>, k: int)
    requires NonDecreasing(keys) && ScanRoute(keys, k) != Route(keys, k)
    ensures ScanRoute(keys, k) > 0 && keys[ScanRoute(keys, k) - 1] == k
  {
    var i, r := Route(keys, k), ScanRoute(keys, k);
    hide Route, ScanRoute;
    RouteAtLeast(keys, k, i);
    assert keys[i] <= keys[r - 1];
  }

  /** The key of the entry itself is found, with the copy repaired. */
  lemma {:induction false} NewFate(t: Tree, h: nat, k: int, rid: RID, pages: nat, lo: Option<int>)
    requires RootShaped(t, h) && Fitted(t, lo, Repaired) && NotBelow(k, lo)
    ensures Finds(FateOf(t, h, k, rid, pages, Repaired, k), Lookup(t, h, k).Some?)
    decreases h
  {
    hide Ins, Shaped, AllShaped, RootShaped, Fitted, Rises, Route, ScanRoute, NotBelow, Lower, Lookup, SlotFor,
         NonDecreasing, AllNotBelow, PassedOver;
    if t.Inner? {
      hide FateOf;
      var i, r := Route(t.keys, k), ScanRoute(t.keys, k);
      InnerShaped(t, h);
      KidShaped(t, h, i);
      KidShaped(t, h, r);
      KidFits(t, lo, Repaired, i);
      KidFits(t, lo, Repaired, r);
      TakesAbove(t.keys, lo, k);
      LookupStep(t, h, k);
      var c := Ins(t.kids[i], h - 1, k, rid, pages, Repaired);
      FateStep(t, h, k, rid, pages, Repaired, k, i, c);
      NothingPassed(t.keys, if c.split.Some? then c.split.value.key else 0, k);
      if r == i {
        NewFate(t.kids[i], h - 1, k, rid, pages, Lower(t.keys, i, lo));
      } else {
        InsRises(t.kids[i], h - 1, k, rid, pages, Lower(t.keys, i, lo), Repaired);
        InsStep(t, h, k, rid, pages, Repaired, i, c, t.kids[i := c.left]);
        EqualBelow(t.keys, k);
        FoundBeside(t, h, k, lo, i, c);
      }
    }
  }

  lemma NothingPassed(keys: seq<int>, s: int, x: int)
    ensures !PassedOver(Repaired, keys, s, x)
  {
  }

  lemma FoundBeside(t: Tree, h: nat, k: int, lo: Option<int>, i: nat, c: InsertResult)
    requires t.Inner? && RootShaped(t, h) && Fitted(t, lo, Repaired) && |t.kids| == |t.keys| + 1 && h > 0
    requires var r := ScanRoute(t.keys, k); r > 0 && t.keys[r - 1] == k && RootShaped(t.kids[r], h - 1)
    requires i <= |t.keys| && Rises(c, Lower(t.keys, i, lo), Repaired)
    requires c.split.Some? ==> Shaped(c.split.value.right, h - 1)
    ensures Lookup(t.kids[ScanRoute(t.keys, k)], h - 1, k).Some?
    ensures
      c.split.Some? && c.split.value.key <= k && ScanRoute(t.keys, k) == SlotFor(t.keys, c.split.value.key) ==>
        HeldIn(c.split.value.right, h - 1, k)
  {
    hide Fitted, ScanRoute, Lookup, SlotFor;
    var r := ScanRoute(t.keys, k);
    KidFits(t, lo, Repaired, r);
    LeastFinds(t.kids[r], h - 1, k);
    if c.split.Some? && c.split.value.key == k {
      LeastFinds(c.split.value.right, h - 1, k);
    }
  }

  // ---------- whole trees ----------

  ghost predicate FittedIndex(x: Index, copy: SplitCopy) {
    RootShaped(x.root, x.height) && Fitted(x.root, None, copy)
  }

  /** The fate of q when e is inserted. */
  ghost function FateIn(x: Index, e: Entry, copy: SplitCopy, q: int): Fate
    requires RootShaped(x.root, x.height)
  {
    FateOf(x.root, x.height, e.key, e.rid, x.pages, copy, q)
  }

  lemma InsertFits(x: Index, e: Entry, copy: SplitCopy)
    requires FittedIndex(x, copy)
    ensures FittedIndex(Insert(x, e.key, e.rid, copy), copy)
  {
    hide Ins, RootShaped, Fitted;
    var c := Ins(x.root, x.height, e.key, e.rid, x.pages, copy);
    InsRises(x.root, x.height, e.key, e.rid, x.pages, None, copy);
    if c.split.Some? {
      TopFits(c, copy);
    }
  }

  lemma TopFits(c: InsertResult, copy: SplitCopy)
    requires Rises(c, None, copy) && c.split.Some?
    ensures Fitted(Inner(c.pages, [c.split.value.key], [c.left, c.split.value.right]), None, copy)
  {
  }

  /** One insert of any key into any tree a run leads to, in either form: what each scan finds afterwards. */
  lemma InsertDecides(x: Index, e: Entry, copy: SplitCopy, q: int)
    requires FittedIndex(x, copy)
    ensures Scan(Insert(x, e.key, e.rid, copy), q).Some? <==> Finds(FateIn(x, e, copy, q), Scan(x, q).Some?)
  {
    hide Ins, RootShaped, Fitted, ScanBoth, Lookup, FateOf, Insert;
    TopScan(x, e, copy, q);
    ScanFate(x.root, x.height, e.key, e.rid, x.pages, copy, q, None);
  }

  /** With the copy repaired a row is found right after its insert, whatever the tree. */
  lemma InsertFindsNew(x: Index, e: Entry)
    requires FittedIndex(x, Repaired)
    ensures Scan(Insert(x, e.key, e.rid, Repaired), e.key).Some?
  {
    hide RootShaped, Fitted, Lookup, FateOf, Insert;
    InsertDecides(x, e, Repaired, e.key);
    NewFate(x.root, x.height, e.key, e.rid, x.pages, None);
  }

  // ---------- runs ----------

  lemma {:induction false} BuildFits(run: seq<Entry>, copy: SplitCopy, pages: nat)
    ensures FittedIndex(Build(run, copy, pages), copy)
  {
    if run != [] {
      hide Insert, FittedIndex;
      BuildFits(run[..|run| - 1], copy, pages);
      BuildStep(run, copy, pages);
      InsertFits(Build(run[..|run| - 1], copy, pages), run[|run| - 1], copy);
    }
  }

  /** The fate of q at insert n of the run. */
  ghost function FateAt(run: seq<Entry>, copy: SplitCopy, pages: nat, n: nat, q: int): Fate
    requires n < |run|
  {
    FateIn(Build(run[..n], copy, pages), run[n], copy, q)
  }

  /** Insert n leaves q where its scan comes. */
  ghost predicate Gains(run: seq<Entry>, copy: SplitCopy, pages: nat, n: nat, q: int)
    requires n < |run|
  {
    FateAt(run, copy, pages, n, q) in {Arrives, Turned(true)}
  }

  /** Insert n turns the scan of q to a child without it. */
  ghost predicate Loses(run: seq<Entry>, copy: SplitCopy, pages: nat, n: nat, q: int)
    requires n < |run|
  {
    FateAt(run, copy, pages, n, q) == Turned(false)
  }

  /** Some insert gains q and none after it loses it. */
  ghost predicate Keeps(run: seq<Entry>, copy: SplitCopy, pages: nat, q: int) {
    exists n :: 0 <= n < |run| && GainedLast(run, copy, pages, n, q)
  }

  ghost predicate GainedLast(run: seq<Entry>, copy: SplitCopy, pages: nat, n: nat, q: int)
    requires n < |run|
  {
    Gains(run, copy, pages, n, q) && forall m :: n < m < |run| ==> !Loses(run, copy, pages, m, q)
  }

  lemma ShorterFate(run: seq<Entry>, copy: SplitCopy, pages: nat, l: nat, n: nat, q: int)
    requires n < l <= |run|
    ensures FateAt(run[..l], copy, pages, n, q) == FateAt(run, copy, pages, n, q)
  {
    assert run[..l][..n] == run[..n];
  }

  lemma KeepsNext(run: seq<Entry>, copy: SplitCopy, pages: nat, q: int)
    requires run != []
    ensures
      var l := |run| - 1;
      Keeps(run, copy, pages, q) <==> Finds(FateAt(run, copy, pages, l, q), Keeps(run[..l], copy, pages, q))
  {
    hide FateAt;
    var l := |run| - 1;
    var before := run[..l];
    forall n | 0 <= n < l ensures FateAt(before, copy, pages, n, q) == FateAt(run, copy, pages, n, q) {
      ShorterFate(run, copy, pages, l, n, q);
    }
    if Gains(run, copy, pages, l, q) {
      assert GainedLast(run, copy, pages, l, q);
    }
    if n :| 0 <= n < l && GainedLast(before, copy, pages, n, q) {
      if !Loses(run, copy, pages, l, q) {
        forall m | n < m < |run| ensures !Loses(run, copy, pages, m, q) {
          assert m < l ==> !Loses(before, copy, pages, m, q);
        }
        assert GainedLast(run, copy, pages, n, q);
      }
    }
    if n :| 0 <= n < |run| && GainedLast(run, copy, pages, n, q) {
      if n < l {
        assert !Loses(run, copy, pages, l, q);
        forall m | n < m < l ensures !Loses(before, copy, pages, m, q) {
          assert !Loses(run, copy, pages, m, q);
        }
        assert GainedLast(before, copy, pages, n, q);
      }
    }
  }

  /** After any run, in either form, exactly the kept keys are found. */
  lemma {:induction false} FoundIff(run: seq<Entry>, copy: SplitCopy, pages: nat, q: int)
    ensures Scan(Build(run, copy, pages), q).Some? <==> Keeps(run, copy, pages, q)
  {
    if run == [] {
      EmptyFinds(copy, pages, q);
    } else {
      hide Insert, FittedIndex, Keeps, Scan, FateIn;
      var l := |run| - 1;
      FoundIff(run[..l], copy, pages, q);
      BuildFits(run[..l], copy, pages);
      BuildStep(run, copy, pages);
      InsertDecides(Build(run[..l], copy, pages), run[l], copy, q);
      KeepsNext(run, copy, pages, q);
    }
  }

  lemma EmptyFinds(copy: SplitCopy, pages: nat, q: int)
    ensures Scan(Build([], copy, pages), q).None?
  {
  }

  /** A run is answered rightly at its end if and only if each of its keys is kept. */
  lemma RightIff(run: seq<Entry>, copy: SplitCopy, pages: nat)
    ensures Answers(Build(run, copy, pages), run) <==> forall q :: HasKey(run, q) ==> Keeps(run, copy, pages, q)
  {
    hide Build, Answers, Keeps, Scan;
    AnswersIff(run, copy, pages);
    forall q ensures Scan(Build(run, copy, pages), q).Some? <==> Keeps(run, copy, pages, q) {
      FoundIff(run, copy, pages, q);
    }
  }

  /** Insert n turns no scan of a key already there to a child without it, and its own key is or becomes reachable. */
  ghost predicate LosesNone(run: seq<Entry>, copy: SplitCopy, pages: nat, n: nat)
    requires n < |run|
  {
    && (forall q :: HasKey(run[..n], q) ==> !Loses(run, copy, pages, n, q))
    && (HasKey(run[..n], run[n].key) || Gains(run, copy, pages, n, run[n].key))
  }

  lemma NextRight(run: seq<Entry>, copy: SplitCopy, pages: nat, n: nat)
    requires n < |run| && Answers(Build(run[..n], copy, pages), run[..n])
    ensures Answers(Build(run[..n + 1], copy, pages), run[..n + 1]) <==> LosesNone(run, copy, pages, n)
  {
    hide Build, Scan, Insert, FateIn, FittedIndex;
    var before, after, e := run[..n], run[..n + 1], run[n];
    var x := Build(before, copy, pages);
    assert after[..n] == before && after[n] == e && after == before + [e];
    BuildStep(after, copy, pages);
    BuildFits(before, copy, pages);
    AnswersIff(after, copy, pages);
    forall q ensures HasKey(after, q) <==> HasKey(before, q) || q == e.key {
      KeysOfMany(after, before, e, q);
    }
    forall q ensures HasKey(before, q) <==> Scan(x, q).Some? {
      if Scan(x, q).Some? {
        assert Entry(q, Scan(x, q).value) in before;
      }
    }
    hide Answers, HasKey;
    forall q ensures Scan(Insert(x, e.key, e.rid, copy), q).Some?
        <==> Finds(FateAt(run, copy, pages, n, q), Scan(x, q).Some?)
    {
      InsertDecides(x, e, copy, q);
    }
  }

  /**
    A run of any keys is answered rightly at every moment, in either form, if and only if each insert
    loses none of the keys there and leaves its own where its scan comes.
   */
  lemma AlwaysRightIff(run: seq<Entry>, copy: SplitCopy, pages: nat)
    ensures AlwaysAnswers(run, copy, pages) <==> forall n :: 0 <= n < |run| ==> LosesNone(run, copy, pages, n)
  {
    hide Build, Answers, LosesNone;
    if AlwaysAnswers(run, copy, pages) {
      forall n | 0 <= n < |run| ensures LosesNone(run, copy, pages, n) {
        assert Answers(Build(run[..n + 1], copy, pages), run[..n + 1]);
        NextRight(run, copy, pages, n);
      }
    }
    if forall n :: 0 <= n < |run| ==> LosesNone(run, copy, pages, n) {
      forall n | 0 <= n <= |run| ensures Answers(Build(run[..n], copy, pages), run[..n]) {
        RightSoFar(run, copy, pages, n);
      }
    }
  }

  lemma {:induction false} RightSoFar(run: seq<Entry>, copy: SplitCopy, pages: nat, n: nat)
    requires n <= |run| && forall m :: 0 <= m < n ==> LosesNone(run, copy, pages, m)
    ensures Answers(Build(run[..n], copy, pages), run[..n])
  {
    if n == 0 {
      RightIff(run[..0], copy, pages);
    } else {
      hide Build, Answers, LosesNone;
      RightSoFar(run, copy, pages, n - 1);
      NextRight(run, copy, pages, n - 1);
    }
  }

  /** With the copy repaired only the keys already there can be lost. */
  lemma RepairedLosesNoneIff(run: seq<Entry>, pages: nat, n: nat)
    requires n < |run|
    ensures LosesNone(run, Repaired, pages, n)
       <==> forall q :: HasKey(run[..n], q) ==> !Loses(run, Repaired, pages, n, q)
  {
    hide Build, Scan, Insert, FateIn, FittedIndex;
    var x, e := Build(run[..n], Repaired, pages), run[n];
    BuildFits(run[..n], Repaired, pages);
    BuildHolds(run[..n], Repaired, pages);
    InsertFindsNew(x, e);
    InsertDecides(x, e, Repaired, e.key);
    if Scan(x, e.key).Some? {
      ScanMember(x, e.key);
      assert Entry(e.key, Scan(x, e.key).value) in run[..n];
    }
  }

  lemma ScanMember(x: Index, q: int)
    requires RootShaped(x.root, x.height) && Scan(x, q).Some?
    ensures Entry(q, Scan(x, q).value) in Entries(x)
  {
    LookupMember(x.root, x.height, q);
  }

  /** In a tree in weak order, the keys that lose their scan are the hidden ones. */
  lemma HiddenIffTurned(x: Index, e: Entry, q: int)
    requires WeakIndex(x) && FittedIndex(x, Repaired) && (HasKey(Entries(x), q) || q == e.key)
    ensures HiddenAt(x, e, q) <==> FateIn(x, e, Repaired, q) == Turned(false)
  {
    hide Scan, Insert, FateOf, Hidden, RootShaped, Fitted, Weak, Flat, KeySet;
    InsertFindsIff(x, e, q);
    InsertDecides(x, e, Repaired, q);
    InsertFindsNew(x, e);
    if HasKey(Entries(x), q) {
      KeySetIs(x.root, q);
      WeakScans(x, q);
    }
  }

  lemma WeakScans(x: Index, q: int)
    requires WeakIndex(x) && q in KeySet(x.root)
    ensures Scan(x, q).Some?
  {
    WeakFinds(x.root, x.height, q);
  }
}
