/**
  Equal keys and the internal split as the source has it. The separator it copies twice does no harm
  where the next one is equal to it; otherwise the key it promotes is never found again. So the form
  as written is as good as the repaired one exactly while every internal split is of the first kind.
 */
module EqualKeysAsWritten {
  import opened StorageTypes
  import opened BPlusTree
  import opened SortedEntries
  import opened IndexOrder
  import opened IndexInsertion
  import opened IndexSplitAsWritten
  import opened IndexRuns
  import opened EqualKeys
  import opened HiddenKeys

  /** A full node that takes s splits at a separator that differs from the one above it. */
  predicate SpoilsHere(keys: seq<int>, s: int) {
    |keys| == MAX_KEYS && NewKeys(keys, s)[2] != NewKeys(keys, s)[3]
  }

  /** Some internal split on the way of k does. */
  ghost predicate Spoils(t: Tree, h: nat, k: int, rid: RID, pages: nat)
    requires RootShaped(t, h)
    decreases h
  {
    t.Inner? &&
    var i := Route(t.keys, k);
    assert AllShaped(t.kids, h - 1);
    var c := Ins(t.kids[i], h - 1, k, rid, pages, Repaired);
    Spoils(t.kids[i], h - 1, k, rid, pages) || (c.split.Some? && SpoilsHere(t.keys, c.split.value.key))
  }

  lemma SpoilsStep(t: Tree, h: nat, k: int, rid: RID, pages: nat, i: nat, c: InsertResult)
    requires t.Inner? && Shaped(t, h) && i == Route(t.keys, k) && RootShaped(t.kids[i], h - 1)
    requires c == Ins(t.kids[i], h - 1, k, rid, pages, Repaired)
    ensures Spoils(t, h, k, rid, pages)
       <==> (Spoils(t.kids[i], h - 1, k, rid, pages) || (c.split.Some? && SpoilsHere(t.keys, c.split.value.key)))
  {
    hide Ins, SpoilsHere, Route;
  }

  // ---------- where the two forms agree ----------

  lemma AbsorbsAgree(pid: int, h: nat, keys: seq<int>, kids: seq<Tree>, s: Split, pages: nat)
    requires |kids| == |keys| + 1 && 1 <= |keys| <= MAX_KEYS && h > 0
    requires Shaped(s.right, h - 1) && AllShaped(kids, h - 1) && !SpoilsHere(keys, s.key)
    ensures Absorb(pid, h, keys, kids, s, pages, AsWritten) == Absorb(pid, h, keys, kids, s, pages, Repaired)
  {
    hide SlotFor;
    var keys' := NewKeys(keys, s.key);
    if |keys| == MAX_KEYS {
      assert keys'[2..3] == [keys'[2]] && keys'[3..] == [keys'[3]];
    }
  }

  /** An insert without such a split does the same in both forms, whatever the keys. */
  lemma {:induction false} CopiesAgree(t: Tree, h: nat, k: int, rid: RID, pages: nat)
    requires RootShaped(t, h) && !Spoils(t, h, k, rid, pages)
    ensures Ins(t, h, k, rid, pages, AsWritten) == Ins(t, h, k, rid, pages, Repaired)
    decreases h
  {
    hide Ins, Spoils, SpoilsHere, Shaped, RootShaped, AllShaped, Route, Absorb;
    if t.Leaf? {
      LeafAgrees(t, h, k, rid, pages);
    } else {
      var i := Route(t.keys, k);
      InnerShaped(t, h);
      KidShaped(t, h, i);
      NodeBounds(t, h);
      var c := Ins(t.kids[i], h - 1, k, rid, pages, Repaired);
      SpoilsStep(t, h, k, rid, pages, i, c);
      CopiesAgree(t.kids[i], h - 1, k, rid, pages);
      InsStep(t, h, k, rid, pages, AsWritten, i, c, t.kids[i := c.left]);
      InsStep(t, h, k, rid, pages, Repaired, i, c, t.kids[i := c.left]);
      if c.split.Some? {
        AbsorbsAgree(t.pid, h, t.keys, t.kids[i := c.left], c.split.value, c.pages);
      }
    }
  }

  lemma LeafAgrees(t: Tree, h: nat, k: int, rid: RID, pages: nat)
    requires RootShaped(t, h) && t.Leaf?
    ensures Ins(t, h, k, rid, pages, AsWritten) == Ins(t, h, k, rid, pages, Repaired)
  {
    hide InsLeaf;
  }

  lemma NodeBounds(t: Tree, h: nat)
    requires t.Inner? && Shaped(t, h)
    ensures 1 <= |t.keys| <= MAX_KEYS && |t.kids| == |t.keys| + 1 && h > 0
  {
  }

  // ---------- what both forms have in common ----------

  /** The same entries on both sides of the same separator. */
  ghost predicate Twins(a: InsertResult, b: InsertResult) {
    && Flat(a.left) == Flat(b.left) && (a.split.Some? <==> b.split.Some?) && a.pages == b.pages
    && (a.split.Some? ==>
          a.split.value.key == b.split.value.key && Flat(a.split.value.right) == Flat(b.split.value.right))
  }

  ghost predicate SameKids(a: seq<Tree>, b: seq<Tree>) {
    |a| == |b| && forall j :: 0 <= j < |a| ==> Flat(a[j]) == Flat(b[j])
  }

  lemma {:induction false} SameKidsFlat(a: seq<Tree>, b: seq<Tree>)
    requires SameKids(a, b)
    ensures FlatAll(a) == FlatAll(b)
  {
    if a != [] {
      assert SameKids(a[1..], b[1..]);
      SameKidsFlat(a[1..], b[1..]);
    }
  }

  /** A node cut as written: the promoted separator stands in the right half again. */
  function HalvedAsWritten(pid: int, keys: seq<int>, kids: seq<Tree>, pages: nat): InsertResult
    requires |kids| == |keys| + 1
  {
    if |keys| <= MAX_KEYS then InsertResult(Inner(pid, keys, kids), None, pages + 1)
    else
      var right := Inner(pages, [keys[2]], kids[3..]);
      InsertResult(Inner(pid, keys[..2], kids[..3]), Some(Split(keys[2], right)), pages + 1)
  }

  lemma AbsorbAsWritten(t: Tree, h: nat, i: nat, c: InsertResult, pages: nat)
    requires t.Inner? && Shaped(t, h) && i < |t.kids| && c.split.Some?
    requires AllShaped(t.kids[i := c.left], h - 1) && Shaped(c.split.value.right, h - 1)
    ensures
      var s := c.split.value;
      Absorb(t.pid, h, t.keys, t.kids[i := c.left], s, pages, AsWritten)
      == HalvedAsWritten(t.pid, NewKeys(t.keys, s.key), NewKids(t.keys, t.kids, i, c.left, s), pages)
  {
    hide SlotFor;
    var keys := NewKeys(t.keys, c.split.value.key);
    assert |keys| == 4 ==> keys[2..3] == [keys[2]];
  }

  lemma HalvesTwin(pid: int, keys: seq<int>, a: seq<Tree>, b: seq<Tree>, pages: nat)
    requires |a| == |keys| + 1 && |keys| <= 4 && SameKids(a, b)
    ensures Twins(HalvedAsWritten(pid, keys, a, pages), Halved(pid, keys, b, pages))
  {
    SameKidsFlat(a, b);
    if |keys| == 4 {
      assert SameKids(a[..3], b[..3]) && SameKids(a[3..], b[3..]);
      SameKidsFlat(a[..3], b[..3]);
      SameKidsFlat(a[3..], b[3..]);
    }
  }

  lemma TwinKids(keys: seq<int>, kids: seq<Tree>, i: nat, a: InsertResult, b: InsertResult)
    requires i < |kids| == |keys| + 1 && Twins(a, b)
    ensures SameKids(kids[i := a.left], kids[i := b.left])
    ensures a.split.Some? ==>
      SameKids(NewKids(keys, kids, i, a.left, a.split.value), NewKids(keys, kids, i, b.left, b.split.value))
  {
    hide Flat;
  }

  /** Inserting in either form puts the same entries into the same halves. */
  lemma {:induction false} CopiesTwin(t: Tree, h: nat, k: int, rid: RID, pages: nat)
    requires RootShaped(t, h)
    ensures Twins(Ins(t, h, k, rid, pages, AsWritten), Ins(t, h, k, rid, pages, Repaired))
    decreases h
  {
    if t.Inner? {
      hide Ins, Shaped, RootShaped, AllShaped, Route, Absorb, Twins, Flat, FlatAll, Halved, HalvedAsWritten, SameKids;
      var i := Route(t.keys, k);
      InnerShaped(t, h);
      KidShaped(t, h, i);
      CopiesTwin(t.kids[i], h - 1, k, rid, pages);
      NodeTwin(t, h, k, rid, pages, i);
    }
  }

  lemma NodeTwin(t: Tree, h: nat, k: int, rid: RID, pages: nat, i: nat)
    requires t.Inner? && Shaped(t, h) && RootShaped(t, h) && i == Route(t.keys, k) && RootShaped(t.kids[i], h - 1)
    requires Twins(Ins(t.kids[i], h - 1, k, rid, pages, AsWritten), Ins(t.kids[i], h - 1, k, rid, pages, Repaired))
    ensures Twins(Ins(t, h, k, rid, pages, AsWritten), Ins(t, h, k, rid, pages, Repaired))
  {
    hide Ins, Shaped, RootShaped, AllShaped, Route, Absorb, Flat, FlatAll, Halved, HalvedAsWritten, SameKids;
    NodeBounds(t, h);
    var a, b := Ins(t.kids[i], h - 1, k, rid, pages, AsWritten), Ins(t.kids[i], h - 1, k, rid, pages, Repaired);
    InsStep(t, h, k, rid, pages, AsWritten, i, a, t.kids[i := a.left]);
    InsStep(t, h, k, rid, pages, Repaired, i, b, t.kids[i := b.left]);
    TwinKids(t.keys, t.kids, i, a, b);
    if a.split.Some? {
      AbsorbAsWritten(t, h, i, a, a.pages);
      AbsorbHalves(t, h, i, b, b.pages);
      HalvesTwin(t.pid, NewKeys(t.keys, a.split.value.key), NewKids(t.keys, t.kids, i, a.left, a.split.value),
                 NewKids(t.keys, t.kids, i, b.left, b.split.value), a.pages);
    } else {
      KeptTwin(t, t.kids[i := a.left], t.kids[i := b.left], a.pages);
    }
  }

  lemma KeptTwin(t: Tree, a: seq<Tree>, b: seq<Tree>, pages: nat)
    requires t.Inner? && SameKids(a, b)
    ensures Twins(InsertResult(Inner(t.pid, t.keys, a), None, pages),
        InsertResult(Inner(t.pid, t.keys, b), None, pages))
  {
    SameKidsFlat(a, b);
  }

  lemma SameKeys(a: Tree, b: Tree)
    requires Flat(a) == Flat(b)
    ensures KeySet(a) == KeySet(b)
  {
    forall x ensures x in KeySet(a) <==> x in KeySet(b) {
      KeySetIs(a, x);
      KeySetIs(b, x);
    }
  }

  // ---------- what such a split loses ----------

  /** Cut as written, a node is scanned as before, but that the fourth child is passed over. */
  lemma HalvedAsWrittenScan(pid: int, h: nat, keys: seq<int>, kids: seq<Tree>, pages: nat, x: int)
    requires NonDecreasing(keys) && |kids| == |keys| + 1 && 1 <= |keys| <= 4 && h > 0 && AllShaped(kids, h - 1)
    ensures
      var r := HalvedAsWritten(pid, keys, kids, pages);
      var q := if |keys| == 4 && keys[2] <= x then 4 else ScanRoute(keys, x);
      RootShaped(r.left, h) && (r.split.Some? ==> RootShaped(r.split.value.right, h)) &&
      RootShaped(kids[q], h - 1) && ScanBoth(r, h, x) == Lookup(kids[q], h - 1, x)
  {
    var q := if |keys| == 4 && keys[2] <= x then 4 else ScanRoute(keys, x);
    assert Shaped(kids[q], h - 1);
    if |keys| == 4 {
      if keys[2] <= x {
        RouteIs([keys[2]], x, 1);
        assert kids[3..][1] == kids[4];
      } else {
        RouteIs(keys[..2], x, q);
      }
    }
  }

  /** A key that neither the child its scan goes to nor any child with larger keys holds is not found. */
  lemma LostInHalves(pid: int, h: nat, keys: seq<int>, kids: seq<Tree>, pages: nat, x: int)
    requires NonDecreasing(keys) && |kids| == |keys| + 1 && 1 <= |keys| <= 4 && h > 0 && AllShaped(kids, h - 1)
    requires RootShaped(kids[ScanRoute(keys, x)], h - 1)
    requires Lookup(kids[ScanRoute(keys, x)], h - 1, x).None? || (|keys| == 4 && keys[2] <= x < keys[3])
    requires |keys| == 4 ==> AtLeast(kids[4], keys[3])
    ensures
      var r := HalvedAsWritten(pid, keys, kids, pages);
      RootShaped(r.left, h) && (r.split.Some? ==> RootShaped(r.split.value.right, h)) && ScanBoth(r, h, x).None?
  {
    HalvedAsWrittenScan(pid, h, keys, kids, pages, x);
    if |keys| == 4 && keys[2] <= x {
      assert Shaped(kids[4], h - 1);
      if keys[3] <= x {
        RouteIs(keys, x, 4);
      } else {
        NotFound(kids[4], h - 1, x);
      }
    }
  }

  /** The new children as written hold what those of the repaired form hold. */
  lemma NewKidsAtLeast(t: Tree, h: nat, i: nat, k: int, a: InsertResult, b: InsertResult)
    requires t.Inner? && Shaped(t, h) && Taking(t.keys, t.kids, i, k) && Grew(t.kids[i], k, b) && Twins(a, b)
    requires a.split.Some? && (t.kids[i].Leaf? ==> t.kids[i].entries != [])
    ensures
      var s := a.split.value;
      var keys, kids := NewKeys(t.keys, s.key), NewKids(t.keys, t.kids, i, a.left, s);
      NonDecreasing(keys) && |kids| == |keys| + 1 && (|keys| == 4 ==> AtLeast(kids[4], keys[3]))
  {
    SplitFenced(t.keys, t.kids, i, k, b);
    TwinKids(t.keys, t.kids, i, a, b);
    hide Grew, Taking, Twins, Flat, KeySet, NonDecreasing, FirstKey;
    var kids, twins := NewKids(t.keys, t.kids, i, a.left, a.split.value),
        NewKids(t.keys, t.kids, i, b.left, b.split.value);
    if |t.keys| == 3 {
      SameKeys(kids[4], twins[4]);
      assert AtLeast(twins[3 + 1], NewKeys(t.keys, a.split.value.key)[3]);
    }
  }

  /** The pending separators are keys of the tree, or the new one. */
  lemma NewKeysIn(t: Tree, h: nat, i: nat, k: int, b: InsertResult, j: nat)
    requires t.Inner? && Shaped(t, h) && Taking(t.keys, t.kids, i, k) && Grew(t.kids[i], k, b) && b.split.Some?
    requires j < |NewKeys(t.keys, b.split.value.key)|
    ensures NewKeys(t.keys, b.split.value.key)[j] in KeySet(t) + {k}
  {
    PromotedKey(t.kids[i], k, b);
    hide SlotFor;
    var p := SlotFor(t.keys, b.split.value.key);
    if j != p {
      var l := if j < p then j else j - 1;
      assert t.keys[l] == FirstKey(t.kids[l + 1]) && FirstKey(t.kids[l + 1]) in KeySet(t);
    }
  }

  /** Its own split hides the key such a node promotes. */
  lemma SpoilsHereLoses(t: Tree, h: nat, k: int, rid: RID, pages: nat, hi: Option<int>, i: nat, a: InsertResult,
                        b: InsertResult) returns (x: int)
    requires t.Inner? && Shaped(t, h) && RootShaped(t, h) && Weak(t) && AtMost(t, hi) && (hi.Some? ==> k <= hi.value)
    requires i == Route(t.keys, k) && h > 0 && RootShaped(t.kids[i], h - 1) && Taking(t.keys, t.kids, i, k)
    requires a == Ins(t.kids[i], h - 1, k, rid, pages, AsWritten) && Twins(a, b) && Grew(t.kids[i], k, b)
    requires t.kids[i].Leaf? ==> t.kids[i].entries != []
    requires b.split.Some? && SpoilsHere(t.keys, b.split.value.key)
    ensures x in KeySet(t) + {k} && Below(x, hi) && ScanBoth(Ins(t, h, k, rid, pages, AsWritten), h, x).None?
  {
    hide Weak, Ins, Absorb, Shaped, RootShaped, AllShaped, Route, KeySet, Grew, Taking, Lookup, ScanBoth,
         HalvedAsWritten;
    hide NonDecreasing, FirstKey, SlotFor, Flat, AtLeast;
    NodeBounds(t, h);
    TwinKey(a, b);
    InsStep(t, h, k, rid, pages, AsWritten, i, a, t.kids[i := a.left]);
    AbsorbAsWritten(t, h, i, a, a.pages);
    NewKidsShaped(t.keys, t.kids, h - 1, i, a);
    NewKidsAtLeast(t, h, i, k, a, b);
    var keys, kids := NewKeys(t.keys, a.split.value.key), NewKids(t.keys, t.kids, i, a.left, a.split.value);
    OrderAt(keys, 2, 3);
    x := keys[2];
    NewKeysIn(t, h, i, k, b, 2);
    NewKeysIn(t, h, i, k, b, 3);
    AtMostHas(t, hi, k, keys[3]);
    KidRootShaped(kids, h - 1, ScanRoute(keys, x));
    LostInHalves(t.pid, h, keys, kids, a.pages, x);
  }

  lemma TwinKey(a: InsertResult, b: InsertResult)
    requires Twins(a, b) && b.split.Some?
    ensures a.split.Some? && a.split.value.key == b.split.value.key
  {
  }

  lemma OrderAt(keys: seq<int>, i: nat, j: nat)
    requires NonDecreasing(keys) && i < j < |keys|
    ensures keys[i] <= keys[j]
  {
  }

  lemma AtMostHas(t: Tree, hi: Option<int>, k: int, x: int)
    requires AtMost(t, hi) && (hi.Some? ==> k <= hi.value) && x in KeySet(t) + {k}
    ensures hi.Some? ==> x <= hi.value
  {
  }

  lemma KidRootShaped(kids: seq<Tree>, h: nat, i: nat)
    requires AllShaped(kids, h) && i < |kids|
    ensures RootShaped(kids[i], h)
  {
    assert Shaped(kids[i], h);
  }

  /** A key lost in the child its scan goes to is lost in the node, however that splits. */
  lemma LostAbove(t: Tree, h: nat, k: int, rid: RID, pages: nat, i: nat, a: InsertResult, b: InsertResult, x: int)
    requires t.Inner? && Shaped(t, h) && RootShaped(t, h) && i == Route(t.keys, k)
    requires h > 0 && RootShaped(t.kids[i], h - 1) && Taking(t.keys, t.kids, i, k)
    requires a == Ins(t.kids[i], h - 1, k, rid, pages, AsWritten) && Twins(a, b) && Grew(t.kids[i], k, b)
    requires t.kids[i].Leaf? ==> t.kids[i].entries != []
    requires ScanRoute(t.keys, x) == i && ScanBoth(a, h - 1, x).None?
    ensures ScanBoth(Ins(t, h, k, rid, pages, AsWritten), h, x).None?
  {
    hide Ins, Absorb, Shaped, RootShaped, AllShaped, Route, KeySet, Grew, Taking, Lookup, HalvedAsWritten;
    hide NonDecreasing, FirstKey, SlotFor, Flat, AtLeast, ScanRoute;
    NodeBounds(t, h);
    InsStep(t, h, k, rid, pages, AsWritten, i, a, t.kids[i := a.left]);
    if a.split.None? {
      LookupStep(Inner(t.pid, t.keys, t.kids[i := a.left]), h, x);
    } else {
      TwinKey(b, a);
      AbsorbAsWritten(t, h, i, a, a.pages);
      NewKidsShaped(t.keys, t.kids, h - 1, i, a);
      NewKidsAtLeast(t, h, i, k, a, b);
      PromotedKey(t.kids[i], k, b);
      SlotPast(t.keys, t.kids, i, k, a.split.value.key);
      TakingOrder(t.keys, t.kids, i, k);
      RouteInserted(t.keys, a.split.value.key, x);
      NewKidFor(t.keys, t.kids, i, a.left, a.split.value, x);
      var keys, kids := NewKeys(t.keys, a.split.value.key), NewKids(t.keys, t.kids, i, a.left, a.split.value);
      KidRootShaped(kids, h - 1, ScanRoute(keys, x));
      LostInHalves(t.pid, h, keys, kids, a.pages, x);
    }
  }

  lemma LookupStep(t: Tree, h: nat, x: int)
    requires t.Inner? && RootShaped(t, h)
    ensures h > 0 && |t.kids| == |t.keys| + 1 && RootShaped(t.kids[ScanRoute(t.keys, x)], h - 1)
    ensures Lookup(t, h, x) == Lookup(t.kids[ScanRoute(t.keys, x)], h - 1, x)
  {
    KidShaped(t, h, ScanRoute(t.keys, x));
  }

  /** A scan for a key of child i below its bound goes to child i. */
  lemma GoesHome(t: Tree, h: nat, hi: Option<int>, i: nat, k: int, x: int)
    requires t.Inner? && Shaped(t, h) && Weak(t) && AtMost(t, hi) && (hi.Some? ==> k <= hi.value)
    requires Taking(t.keys, t.kids, i, k) && x in KeySet(t.kids[i]) + {k} && Below(x, Upper(t.keys, i, hi))
    ensures ScanRoute(t.keys, x) == i && x in KeySet(t) + {k} && Below(x, hi)
  {
    KidRange(t.keys, t.kids, i, k, x);
    RouteIs(t.keys, x, i);
    KidsHeaded(t, h);
    if i < |t.keys| {
      assert t.keys[i] == FirstKey(t.kids[i + 1]) && FirstKey(t.kids[i + 1]) in KeySet(t);
    }
  }

  /** An insert with such a split, as written, leaves some key that no scan finds. */
  lemma {:induction false} SpoilLoses(t: Tree, h: nat, k: int, rid: RID, pages: nat, hi: Option<int>) returns (x: int)
    requires RootShaped(t, h) && Weak(t) && AtMost(t, hi) && (hi.Some? ==> k <= hi.value)
    requires Spoils(t, h, k, rid, pages)
    ensures x in KeySet(t) + {k} && Below(x, hi) && ScanBoth(Ins(t, h, k, rid, pages, AsWritten), h, x).None?
    decreases h
  {
    hide Ins, Weak, Shaped, AllShaped, RootShaped, Route, KeySet, Taking, Grew, AtMost, Below, Upper, ScanBoth, Twins,
         SpoilsHere, ScanRoute;
    assert t.Inner?;
    hide Spoils;
    var i := Route(t.keys, k);
    InnerShaped(t, h);
    WeakKid(t, h, i);
    TakingIs(t, h, k);
    InsFenced(t.kids[i], h - 1, k, rid, pages);
    CopiesTwin(t.kids[i], h - 1, k, rid, pages);
    var a, b := Ins(t.kids[i], h - 1, k, rid, pages, AsWritten), Ins(t.kids[i], h - 1, k, rid, pages, Repaired);
    SpoilsStep(t, h, k, rid, pages, i, b);
    if b.split.Some? && SpoilsHere(t.keys, b.split.value.key) {
      x := SpoilsHereLoses(t, h, k, rid, pages, hi, i, a, b);
    } else {
      KidAtMost(t, hi, i);
      KidBound(t, i, k, hi);
      x := SpoilLoses(t.kids[i], h - 1, k, rid, pages, Upper(t.keys, i, hi));
      GoesHome(t, h, hi, i, k, x);
      LostAbove(t, h, k, rid, pages, i, a, b, x);
    }
  }

  lemma KidBound(t: Tree, i: nat, k: int, hi: Option<int>)
    requires t.Inner? && Taking(t.keys, t.kids, i, k) && (hi.Some? ==> k <= hi.value)
    ensures Upper(t.keys, i, hi).Some? ==> k <= Upper(t.keys, i, hi).value
  {
  }

  // ---------- whole trees ----------

  /** The insert of e splits an internal node at a separator that differs from the one above it. */
  ghost predicate SpoilsAt(x: Index, e: Entry)
    requires RootShaped(x.root, x.height)
  {
    Spoils(x.root, x.height, e.key, e.rid, x.pages)
  }

  /** Every key that was there, and the new one, is found. */
  ghost predicate FindsAll(x: Index, e: Entry, y: Index)
    requires RootShaped(y.root, y.height)
  {
    forall q :: HasKey(Entries(x), q) || q == e.key ==> Scan(y, q).Some?
  }

  lemma InsertAgrees(x: Index, e: Entry)
    requires RootShaped(x.root, x.height) && !SpoilsAt(x, e)
    ensures Insert(x, e.key, e.rid, AsWritten) == Insert(x, e.key, e.rid, Repaired)
  {
    hide Ins, Spoils, RootShaped;
    CopiesAgree(x.root, x.height, e.key, e.rid, x.pages);
  }

  lemma SpoiledInsert(x: Index, e: Entry)
    requires WeakIndex(x) && SpoilsAt(x, e)
    ensures !FindsAll(x, e, Insert(x, e.key, e.rid, AsWritten))
  {
    hide Ins, Spoils, RootShaped, Weak, KeySet, ScanBoth, Insert, Flat, Scan;
    var q := SpoilLoses(x.root, x.height, e.key, e.rid, x.pages, None);
    TopScan(x, e, AsWritten, q);
    KeySetIs(x.root, q);
  }

  /**
    One insert of any key into a tree in weak order, as written: every key is found afterwards if and
    only if no internal node splits at a separator that differs from the one above it, and nothing is
    hidden behind equal keys.
   */
  lemma InsertAsWrittenFindsIff(x: Index, e: Entry)
    requires WeakIndex(x)
    ensures FindsAll(x, e, Insert(x, e.key, e.rid, AsWritten)) <==> !SpoilsAt(x, e) && !HidesAt(x, e)
  {
    hide Ins, Spoils, RootShaped, Weak, KeySet, Insert, Hidden, Scan, Flat;
    if SpoilsAt(x, e) {
      SpoiledInsert(x, e);
    } else {
      InsertAgrees(x, e);
      forall q ensures Scan(Insert(x, e.key, e.rid, Repaired), q).Some?
        <==> ((HasKey(Entries(x), q) || q == e.key) && !HiddenAt(x, e, q))
      {
        InsertFindsIff(x, e, q);
      }
      forall q | HiddenAt(x, e, q) ensures HasKey(Entries(x), q) {
        HiddenIn(x.root, x.height, e.key, e.rid, x.pages, None, q);
        KeySetIs(x.root, q);
      }
    }
  }

  // ---------- runs ----------

  /** No insert of the run spoils the tree. */
  ghost predicate NeverSpoils(run: seq<Entry>, pages: nat) {
    forall n {:trigger Build(run[..n], Repaired, pages)} :: 0 <= n < |run| ==>
      !SpoilsAt(Build(run[..n], Repaired, pages), run[n])
  }

  ghost predicate AlwaysAnswers(run: seq<Entry>, copy: SplitCopy, pages: nat) {
    forall n {:trigger Build(run[..n], copy, pages)} :: 0 <= n <= |run| ==>
      Answers(Build(run[..n], copy, pages), run[..n])
  }

  lemma BeforeNeverSpoils(run: seq<Entry>, n: nat, pages: nat)
    requires NeverSpoils(run, pages) && n <= |run|
    ensures NeverSpoils(run[..n], pages)
  {
    hide Build, SpoilsAt;
    forall m | 0 <= m < n ensures !SpoilsAt(Build(run[..n][..m], Repaired, pages), run[..n][m]) {
      assert run[..n][..m] == run[..m];
    }
  }

  lemma LastNeverSpoils(run: seq<Entry>, pages: nat)
    requires NeverSpoils(run, pages) && run != []
    ensures !SpoilsAt(Build(run[..|run| - 1], Repaired, pages), run[|run| - 1])
  {
    hide Build, SpoilsAt;
  }

  lemma {:induction false} BuildsAgree(run: seq<Entry>, pages: nat)
    requires NeverSpoils(run, pages)
    ensures Build(run, AsWritten, pages) == Build(run, Repaired, pages)
  {
    if run != [] {
      BeforeNeverSpoils(run, |run| - 1, pages);
      LastNeverSpoils(run, pages);
      hide NeverSpoils, SpoilsAt, Insert;
      BuildsAgree(run[..|run| - 1], pages);
      NextAgrees(run, pages);
    }
  }

  lemma NextAgrees(run: seq<Entry>, pages: nat)
    requires run != [] && Build(run[..|run| - 1], AsWritten, pages) == Build(run[..|run| - 1], Repaired, pages)
    requires !SpoilsAt(Build(run[..|run| - 1], Repaired, pages), run[|run| - 1])
    ensures Build(run, AsWritten, pages) == Build(run, Repaired, pages)
  {
    hide Build, SpoilsAt, Insert, RootShaped;
    BuildStep(run, AsWritten, pages);
    BuildStep(run, Repaired, pages);
    InsertAgrees(Build(run[..|run| - 1], Repaired, pages), run[|run| - 1]);
  }

  /** At the next insert of a run so far in order and unspoilt. */
  lemma RightAtNextIff(run: seq<Entry>, e: Entry, pages: nat)
    requires NeverStrays(run, pages) && NeverSpoils(run, pages)
    ensures
      var x := Build(run, Repaired, pages);
      Answers(Build(run + [e], AsWritten, pages), run + [e]) <==> !SpoilsAt(x, e) && !HidesAt(x, e)
  {
    hide Build, SpoilsAt, NeverSpoils, NeverStrays, Insert, HidesAt, Scan, Flat, Weak;
    var x, all := Build(run, Repaired, pages), run + [e];
    assert all[..|all| - 1] == run && all[|all| - 1] == e;
    BuildsAgree(run, pages);
    BuildStep(all, AsWritten, pages);
    BuildWeak(run, pages);
    BuildHolds(run, Repaired, pages);
    AnswersIff(all, AsWritten, pages);
    hide Answers;
    forall q ensures HasKey(all, q) <==> (HasKey(Entries(x), q) || q == e.key) {
      KeysOfMany(all, run, e, q);
    }
    InsertAsWrittenFindsIff(x, e);
  }

  lemma {:induction false} FirstSpoilt(run: seq<Entry>, pages: nat, m: nat) returns (n: nat)
    requires m <= |run| && NeverSpoils(run[..m], pages) && !NeverSpoils(run, pages)
    ensures n < |run| && NeverSpoils(run[..n], pages) && SpoilsAt(Build(run[..n], Repaired, pages), run[n])
    decreases |run| - m
  {
    hide NeverSpoils, Build, SpoilsAt;
    assert run[..|run|] == run;
    assert m < |run|;
    if SpoilsAt(Build(run[..m], Repaired, pages), run[m]) {
      n := m;
    } else {
      OneMoreUnspoilt(run, pages, m);
      n := FirstSpoilt(run, pages, m + 1);
    }
  }

  lemma OneMoreUnspoilt(run: seq<Entry>, pages: nat, m: nat)
    requires m < |run| && NeverSpoils(run[..m], pages) && !SpoilsAt(Build(run[..m], Repaired, pages), run[m])
    ensures NeverSpoils(run[..m + 1], pages)
  {
    hide Build, SpoilsAt;
    var longer := run[..m + 1];
    forall i | 0 <= i < |longer| ensures !SpoilsAt(Build(longer[..i], Repaired, pages), longer[i]) {
      assert longer[..i] == run[..i];
      if i < m {
        assert run[..m][..i] == run[..i] && run[..m][i] == run[i];
      }
    }
  }

  /**
    As long as no insert strays: a run as written is answered rightly at every moment if and only if
    every internal node it splits is split between equal separators.
   */
  lemma AsWrittenAnswersIff(run: seq<Entry>, pages: nat)
    requires NeverStrays(run, pages)
    ensures AlwaysAnswers(run, AsWritten, pages) <==> NeverSpoils(run, pages)
  {
    hide Build, SpoilsAt, NeverSpoils, NeverStrays, Answers, HidesAt;
    if NeverSpoils(run, pages) {
      forall n | 0 <= n <= |run| ensures Answers(Build(run[..n], AsWritten, pages), run[..n]) {
        BeforeNeverSpoils(run, n, pages);
        BeforeNeverStrays(run, n, pages);
        BuildsAgree(run[..n], pages);
        WeakAnswers(run[..n], pages);
      }
    } else {
      assert run[..0] == [];
      NothingSpoilt(pages);
      var n := FirstSpoilt(run, pages, 0);
      BeforeNeverStrays(run, n, pages);
      RightAtNextIff(run[..n], run[n], pages);
      assert run[..n] + [run[n]] == run[..n + 1];
    }
  }

  lemma NothingSpoilt(pages: nat)
    ensures NeverSpoils([], pages)
  {
  }

  // ---------- runs of one key ----------

  lemma {:induction false} OneKeyNeverSpoils(t: Tree, h: nat, k: int, rid: RID, pages: nat)
    requires RootShaped(t, h) && Weak(t) && KeySet(t) <= {k}
    ensures !Spoils(t, h, k, rid, pages)
    decreases h
  {
    hide Ins, Shaped, AllShaped, RootShaped, Route, KeySet, SpoilsHere, Weak, Taking, Grew;
    if t.Inner? {
      hide Spoils;
      var i := Route(t.keys, k);
      InnerShaped(t, h);
      WeakKid(t, h, i);
      KidsOneKey(t, k);
      TakingIs(t, h, k);
      InsFenced(t.kids[i], h - 1, k, rid, pages);
      OneKeyNeverSpoils(t.kids[i], h - 1, k, rid, pages);
      var b := Ins(t.kids[i], h - 1, k, rid, pages, Repaired);
      SpoilsStep(t, h, k, rid, pages, i, b);
      if b.split.Some? {
        OneKeyHere(t, h, i, k, b);
      }
    }
  }

  lemma OneKeyHere(t: Tree, h: nat, i: nat, k: int, b: InsertResult)
    requires t.Inner? && Shaped(t, h) && Taking(t.keys, t.kids, i, k) && Grew(t.kids[i], k, b) && b.split.Some?
    requires KeySet(t) <= {k}
    ensures !SpoilsHere(t.keys, b.split.value.key)
  {
    hide Shaped, Taking, Grew, KeySet, SlotFor;
    if |t.keys| == MAX_KEYS {
      NewKeysIn(t, h, i, k, b, 2);
      NewKeysIn(t, h, i, k, b, 3);
    }
  }

  /** A run of one key, however long, is answered rightly as written. */
  lemma OneKeyAnswers(run: seq<Entry>, pages: nat)
    requires forall i :: 0 <= i < |run| ==> run[i].key == run[0].key
    ensures AlwaysAnswers(run, AsWritten, pages)
  {
    EqualNeverStrays(run, pages);
    forall n | 0 <= n < |run| ensures !SpoilsAt(Build(run[..n], Repaired, pages), run[n]) {
      OneKeyUnspoilt(run, n, pages);
    }
    hide Build, SpoilsAt, AlwaysAnswers;
    AsWrittenAnswersIff(run, pages);
  }

  lemma OneKeyUnspoilt(run: seq<Entry>, n: nat, pages: nat)
    requires n < |run| && (forall i :: 0 <= i < |run| ==> run[i].key == run[0].key) && NeverStrays(run, pages)
    ensures !SpoilsAt(Build(run[..n], Repaired, pages), run[n])
  {
    hide Build, NeverStrays, Weak, RootShaped, Flat;
    var x := Build(run[..n], Repaired, pages);
    BeforeNeverStrays(run, n, pages);
    BuildWeak(run[..n], pages);
    BuildHolds(run[..n], Repaired, pages);
    forall q | q in KeySet(x.root) ensures q == run[n].key {
      KeySetIs(x.root, q);
      var f :| f in Entries(x) && f.key == q;
      assert f in run[..n];
    }
    OneKeyNeverSpoils(x.root, x.height, run[n].key, run[n].rid, x.pages);
  }
}
