/**
  Which keys an insert hides when the index holds equal keys. After any insert into a tree in
  weak order every scan is said key by key, and so is every run up to its first insert that
  breaks the order.
 */
module HiddenKeys {
  import opened StorageTypes
  import opened BPlusTree
  import opened SortedEntries
  import opened IndexOrder
  import opened IndexInsertion
  import opened IndexSplitAsWritten
  import opened IndexRuns
  import opened EqualKeys

  // ---------- what an insert hides ----------

  /**
    Key x is hidden by the insert of k: it is in the last child behind the separators equal to
    the one a child splits at, above that separator and below the next.
   */
  ghost predicate Hidden(t: Tree, h: nat, k: int, rid: RID, pages: nat, hi: Option<int>, x: int)
    requires RootShaped(t, h)
    decreases h
  {
    t.Inner? &&
    var i := Route(t.keys, k);
    assert AllShaped(t.kids, h - 1);
    var c := Ins(t.kids[i], h - 1, k, rid, pages, Repaired);
    || Hidden(t.kids[i], h - 1, k, rid, pages, Upper(t.keys, i, hi), x)
    || (c.split.Some? && Covers(t.keys, t.kids, i, c.split.value.key, hi, x))
  }

  ghost predicate Covers(keys: seq<int>, kids: seq<Tree>, i: nat, s: int, hi: Option<int>, x: int)
    requires |kids| == |keys| + 1
  {
    var p := SlotFor(keys, s);
    p > i && x in KeySet(kids[p]) && s < x && Below(x, Upper(keys, p, hi))
  }

  /** A scan of an insert's result, going right from the promoted key on. */
  ghost function ScanBoth(r: InsertResult, h: nat, x: int): Option<RID>
    requires RootShaped(r.left, h) && (r.split.Some? ==> RootShaped(r.split.value.right, h))
  {
    if r.split.Some? && r.split.value.key <= x then Lookup(r.split.value.right, h, x) else Lookup(r.left, h, x)
  }

  lemma HiddenStep(t: Tree, h: nat, k: int, rid: RID, pages: nat, hi: Option<int>, x: int, i: nat, c: InsertResult)
    requires t.Inner? && Shaped(t, h) && i == Route(t.keys, k) && RootShaped(t.kids[i], h - 1)
    requires c == Ins(t.kids[i], h - 1, k, rid, pages, Repaired)
    ensures Hidden(t, h, k, rid, pages, hi, x)
       <==> (Hidden(t.kids[i], h - 1, k, rid, pages, Upper(t.keys, i, hi), x)
             || (c.split.Some? && Covers(t.keys, t.kids, i, c.split.value.key, hi, x)))
  {
    hide Ins, Covers, Route, Upper;
  }

  /** What a scan for x finds in what an insert of k makes of a tree. */
  ghost function After(t: Tree, h: nat, k: int, rid: RID, pages: nat, x: int): Option<RID>
    requires RootShaped(t, h)
  {
    ScanBoth(Ins(t, h, k, rid, pages, Repaired), h, x)
  }

  /** A key below the bound of its node is hidden only if it is there. */
  lemma {:induction false} HiddenIn(t: Tree, h: nat, k: int, rid: RID, pages: nat, hi: Option<int>, x: int)
    requires RootShaped(t, h) && Weak(t) && AtMost(t, hi) && Hidden(t, h, k, rid, pages, hi, x)
    ensures t.Inner? && x in KeySet(t) && Below(x, hi)
    decreases h
  {
    hide Ins, Covers, KeySet, Weak, Upper, AtMost, Below;
    assert t.Inner?;
    hide Hidden;
    var i := Route(t.keys, k);
    WeakKid(t, h, i);
    KidsHeaded(t, h);
    KidAtMost(t, hi, i);
    hide Headed, Shaped, AllShaped, RootShaped, Route;
    var c := Ins(t.kids[i], h - 1, k, rid, pages, Repaired);
    HiddenStep(t, h, k, rid, pages, hi, x, i, c);
    if c.split.Some? && Covers(t.keys, t.kids, i, c.split.value.key, hi, x) {
      CoversIn(t, hi, i, c.split.value.key, x);
    } else {
      HiddenIn(t.kids[i], h - 1, k, rid, pages, Upper(t.keys, i, hi), x);
      UpperBelow(t, hi, i, x);
    }
  }

  lemma CoversIn(t: Tree, hi: Option<int>, i: nat, s: int, x: int)
    requires t.Inner? && Weak(t) && Headed(t.kids) && AtMost(t, hi) && |t.kids| == |t.keys| + 1
    requires Covers(t.keys, t.kids, i, s, hi, x)
    ensures x in KeySet(t) && Below(x, hi)
  {
    UpperBelow(t, hi, SlotFor(t.keys, s), x);
  }

  lemma KidAtMost(t: Tree, hi: Option<int>, i: nat)
    requires t.Inner? && Weak(t) && AtMost(t, hi) && i < |t.kids|
    ensures AtMost(t.kids[i], Upper(t.keys, i, hi))
  {
    forall x | x in KeySet(t.kids[i]) ensures x in KeySet(t) {
    }
  }

  lemma UpperBelow(t: Tree, hi: Option<int>, i: nat, x: int)
    requires t.Inner? && Weak(t) && Headed(t.kids) && AtMost(t, hi) && i < |t.kids|
    requires x in KeySet(t.kids[i]) && Below(x, Upper(t.keys, i, hi))
    ensures x in KeySet(t) && Below(x, hi)
  {
    if i < |t.keys| {
      assert t.keys[i] == FirstKey(t.kids[i + 1]) && FirstKey(t.kids[i + 1]) in KeySet(t);
    }
  }

  // ---------- which keys a scan finds after an insert ----------

  /** Cutting a node changes no scan. */
  lemma HalvedScan(pid: int, h: nat, keys: seq<int>, kids: seq<Tree>, pages: nat, x: int)
    requires NonDecreasing(keys) && |kids| == |keys| + 1 && 1 <= |keys| <= 4 && h > 0 && AllShaped(kids, h - 1)
    ensures
      var r := Halved(pid, keys, kids, pages);
      RootShaped(r.left, h) && (r.split.Some? ==> RootShaped(r.split.value.right, h)) &&
      RootShaped(kids[ScanRoute(keys, x)], h - 1) &&
      ScanBoth(r, h, x) == Lookup(kids[ScanRoute(keys, x)], h - 1, x)
  {
    var r := ScanRoute(keys, x);
    assert Shaped(kids[r], h - 1);
    if |keys| == 4 {
      if keys[2] <= x {
        RightRoute(keys, x);
        assert kids[3..][r - 3] == kids[r];
      } else {
        RouteIs(keys[..2], x, r);
      }
    }
  }

  lemma RightRoute(keys: seq<int>, x: int)
    requires NonDecreasing(keys) && |keys| == 4 && keys[2] <= x
    ensures 3 <= ScanRoute(keys, x) && ScanRoute(keys[3..], x) == ScanRoute(keys, x) - 3
  {
    assert keys[3..][0] == keys[3];
    RouteIs(keys[3..], x, ScanRoute(keys, x) - 3);
  }

  /** The child a scan goes to once child i has split. */
  lemma NewKidFor(keys: seq<int>, kids: seq<Tree>, i: nat, l: Tree, s: Split, x: int)
    requires NonDecreasing(keys) && i < |kids| == |keys| + 1
    ensures
      var r, keys', kids' := ScanRoute(keys, x), NewKeys(keys, s.key), NewKids(keys, kids, i, l, s);
      ScanRoute(keys', x) < |kids'| &&
      kids'[ScanRoute(keys', x)] == if s.key <= x && r == SlotFor(keys, s.key) then s.right else kids[i := l][r]
  {
    RouteInserted(keys, s.key, x);
    var r, p := ScanRoute(keys, x), SlotFor(keys, s.key);
    var kids' := NewKids(keys, kids, i, l, s);
    InsertedAt(kids[i := l], p + 1, s.right);
    assert ScanRoute(NewKeys(keys, s.key), x) == r + if s.key <= x then 1 else 0;
  }

  lemma InsertedAt<T>(s: seq<T>, p: nat, x: T)
    requires p <= |s|
    ensures forall j :: 0 <= j < |s| ==> InsertAt(s, p, x)[if j < p then j else j + 1] == s[j]
    ensures InsertAt(s, p, x)[p] == x
  {
  }

  lemma HomeOf(keys: seq<int>, kids: seq<Tree>, i: nat, k: int, x: int)
    requires Taking(keys, kids, i, k)
    requires x == k || exists j :: 0 <= j < |kids| && x in KeySet(kids[j])
    ensures
      var r := ScanRoute(keys, x);
      x in KeySet(kids[r]) || (r == i && x == k)
  {
    if j :| 0 <= j < |kids| && x in KeySet(kids[j]) {
      HomeKid(keys, kids, x, j);
    } else {
      assert i < |keys| ==> keys[i] == FirstKey(kids[i + 1]) && keys[i] in KeySet(kids[i + 1]);
      RouteIs(keys, k, i);
    }
  }

  /** A new child put behind equal separators holds that one key only. */
  lemma JumpedFinds(keys: seq<int>, kids: seq<Tree>, h: nat, i: nat, k: int, c: InsertResult, x: int)
    requires Taking(keys, kids, i, k) && Grew(kids[i], k, c) && c.split.Some?
    requires i < SlotFor(keys, c.split.value.key) && c.split.value.key <= x && Shaped(c.split.value.right, h)
    ensures Lookup(c.split.value.right, h, x).Some? <==> x == c.split.value.key
  {
    var s := c.split.value;
    SlotPast(keys, kids, i, k, s.key);
    forall y | y in KeySet(s.right) ensures y == s.key {
      KidRange(keys, kids, i, k, y);
    }
    if x == s.key {
      OneKeyFinds(s.right, h, x);
    } else {
      NotFound(s.right, h, x);
    }
  }

  lemma HiddenAtHome(t: Tree, h: nat, k: int, rid: RID, pages: nat, hi: Option<int>, x: int, i: nat)
    requires t.Inner? && Shaped(t, h) && Weak(t) && AtMost(t, hi) && i == Route(t.keys, k) && h > 0
    requires Taking(t.keys, t.kids, i, k) && RootShaped(t.kids[i], h - 1)
    requires Hidden(t.kids[i], h - 1, k, rid, pages, Upper(t.keys, i, hi), x)
    ensures ScanRoute(t.keys, x) == i
  {
    hide Taking, Shaped, RootShaped, Route, Hidden;
    KidAtMost(t, hi, i);
    HiddenIn(t.kids[i], h - 1, k, rid, pages, Upper(t.keys, i, hi), x);
    KidRange(t.keys, t.kids, i, k, x);
    RouteIs(t.keys, x, i);
  }

  /** A key whose scan goes to another child is there, is found there, and is not hidden in child i. */
  lemma AwayFinds(t: Tree, h: nat, k: int, rid: RID, pages: nat, hi: Option<int>, x: int, i: nat)
    requires t.Inner? && Shaped(t, h) && RootShaped(t, h) && Weak(t) && AtMost(t, hi) && i == Route(t.keys, k)
    requires h > 0 && Taking(t.keys, t.kids, i, k) && RootShaped(t.kids[i], h - 1)
    requires x in KeySet(t) + {k} && ScanRoute(t.keys, x) != i
    ensures
      var kid := t.kids[ScanRoute(t.keys, x)];
      x in KeySet(kid) && RootShaped(kid, h - 1) && Lookup(kid, h - 1, x).Some?
    ensures !Hidden(t.kids[i], h - 1, k, rid, pages, Upper(t.keys, i, hi), x)
  {
    hide Hidden, Weak, KeySet, AtMost, Taking, Shaped, Route, ScanRoute, RootShaped, Lookup, Upper;
    var r := ScanRoute(t.keys, x);
    InnerShaped(t, h);
    AwayHome(t, i, k, x);
    WeakKid(t, h, r);
    WeakFinds(t.kids[r], h - 1, x);
    if Hidden(t.kids[i], h - 1, k, rid, pages, Upper(t.keys, i, hi), x) {
      HiddenAtHome(t, h, k, rid, pages, hi, x, i);
    }
  }

  lemma AwayHome(t: Tree, i: nat, k: int, x: int)
    requires t.Inner? && Taking(t.keys, t.kids, i, k) && x in KeySet(t) + {k} && ScanRoute(t.keys, x) != i
    ensures x in KeySet(t.kids[ScanRoute(t.keys, x)])
  {
    HomeOf(t.keys, t.kids, i, k, x);
  }

  /** The covered keys are those scanned for in the child before the new one. */
  lemma CoversAtSlot(keys: seq<int>, kids: seq<Tree>, i: nat, s: int, hi: Option<int>, x: int)
    requires |kids| == |keys| + 1 && NonDecreasing(keys) && Below(x, hi)
    ensures Covers(keys, kids, i, s, hi, x)
       <==> (i < SlotFor(keys, s) == ScanRoute(keys, x) && s < x && x in KeySet(kids[ScanRoute(keys, x)]))
  {
    RouteInserted(keys, s, x);
  }

  /** A child splits: the scan goes to its half, to where it went, or to the new child behind equal separators. */
  lemma SplitFinds(t: Tree, h: nat, k: int, rid: RID, pages: nat, hi: Option<int>, x: int, i: nat, c: InsertResult)
    requires t.Inner? && Shaped(t, h) && Weak(t) && AtMost(t, hi) && i == Route(t.keys, k)
    requires h > 0 && Taking(t.keys, t.kids, i, k) && RootShaped(t.kids[i], h - 1)
    requires x in KeySet(t) + {k} && Below(x, hi)
    requires Grew(t.kids[i], k, c) && RootShaped(c.left, h - 1) && c.split.Some? && Shaped(c.split.value.right, h - 1)
    requires ScanRoute(t.keys, x) == i ==>
               (ScanBoth(c, h - 1, x).None? <==> Hidden(t.kids[i], h - 1, k, rid, pages, Upper(t.keys, i, hi), x))
    ensures
      var s := c.split.value;
      var kid := if s.key <= x && ScanRoute(t.keys, x) == SlotFor(t.keys, s.key) then s.right
                 else t.kids[i := c.left][ScanRoute(t.keys, x)];
      RootShaped(kid, h - 1) &&
      (Lookup(kid, h - 1, x).None?
       <==> (Hidden(t.kids[i], h - 1, k, rid, pages, Upper(t.keys, i, hi), x)
           || Covers(t.keys, t.kids, i, s.key, hi, x)))
  {
    hide Covers, Hidden, Weak, KeySet, AtMost, Taking, Grew, ScanRoute, SlotFor, Route, Below, NonDecreasing;
    var r, s := ScanRoute(t.keys, x), c.split.value;
    var p := SlotFor(t.keys, s.key);
    PromotedKey(t.kids[i], k, c);
    TakingOrder(t.keys, t.kids, i, k);
    SlotPast(t.keys, t.kids, i, k, s.key);
    CoversAtSlot(t.keys, t.kids, i, s.key, hi, x);
    RouteInserted(t.keys, s.key, x);
    if r != i {
      AwayFinds(t, h, k, rid, pages, hi, x, i);
      if s.key <= x && r == p {
        JumpedFinds(t.keys, t.kids, h - 1, i, k, c, x);
      }
    }
  }

  /** No child splits: the scan of a key goes where it went. */
  lemma KeptFinds(t: Tree, h: nat, k: int, rid: RID, pages: nat, hi: Option<int>, x: int, i: nat, c: InsertResult)
    requires t.Inner? && Shaped(t, h) && Weak(t) && AtMost(t, hi) && i == Route(t.keys, k)
    requires h > 0 && Taking(t.keys, t.kids, i, k) && RootShaped(t.kids[i], h - 1)
    requires x in KeySet(t) + {k} && RootShaped(c.left, h - 1)
    requires ScanRoute(t.keys, x) == i ==>
               (Lookup(c.left, h - 1, x).None? <==> Hidden(t.kids[i], h - 1, k, rid, pages, Upper(t.keys, i, hi), x))
    ensures
      var kid := t.kids[i := c.left][ScanRoute(t.keys, x)];
      RootShaped(kid, h - 1) &&
      (Lookup(kid, h - 1, x).None? <==> Hidden(t.kids[i], h - 1, k, rid, pages, Upper(t.keys, i, hi), x))
  {
    if ScanRoute(t.keys, x) != i {
      AwayFinds(t, h, k, rid, pages, hi, x, i);
    }
  }

  /** A key whose scan goes to child i is there, or is the new one. */
  lemma AtHome(t: Tree, i: nat, k: int, hi: Option<int>, x: int)
    requires t.Inner? && Taking(t.keys, t.kids, i, k) && ScanRoute(t.keys, x) == i
    requires x in KeySet(t) + {k} && Below(x, hi) && (hi.Some? ==> k <= hi.value)
    ensures x in KeySet(t.kids[i]) + {k} && Below(x, Upper(t.keys, i, hi))
    ensures Upper(t.keys, i, hi).Some? ==> k <= Upper(t.keys, i, hi).value
  {
    HomeOf(t.keys, t.kids, i, k, x);
  }

  lemma LeafScan(t: Tree, k: int, rid: RID, pages: nat, x: int)
    requires RootShaped(t, 0) && t.Leaf? && Weak(t) && x in KeySet(t) + {k}
    ensures ScanBoth(InsLeaf(t, k, rid, pages), 0, x).Some?
  {
    LeafOrder(t.entries, k, rid);
    InsKeys(t, 0, k, rid, pages, Repaired);
    hide SlotFor, NonDecreasing;
    var r := InsLeaf(t, k, rid, pages);
    assert x in SplitKeys(r);
    LeafWeak(t, k, rid, pages);
    LeafGrew(t, k, rid, pages);
    var home := if r.split.Some? && r.split.value.key <= x then r.split.value.right else r.left;
    LeafHome(t, k, r, x);
    LeafFinds(home.entries, x);
  }

  /** Of two halves in order, the key is in the one its scan goes to. */
  lemma LeafHome(t: Tree, k: int, r: InsertResult, x: int)
    requires Grew(t, k, r) && GrewWeak(r) && x in SplitKeys(r)
    ensures x in KeySet(if r.split.Some? && r.split.value.key <= x then r.split.value.right else r.left)
  {
  }

  lemma SplitScan(t: Tree, h: nat, k: int, rid: RID, pages: nat, x: int, i: nat, c: InsertResult)
    requires t.Inner? && Shaped(t, h) && RootShaped(t, h) && i == Route(t.keys, k) && RootShaped(t.kids[i], h - 1)
    requires c == Ins(t.kids[i], h - 1, k, rid, pages, Repaired) && c.split.Some?
    requires Taking(t.keys, t.kids, i, k)
    ensures
      var s := c.split.value;
      var kid := if s.key <= x && ScanRoute(t.keys, x) == SlotFor(t.keys, s.key) then s.right
                 else t.kids[i := c.left][ScanRoute(t.keys, x)];
      RootShaped(kid, h - 1) && After(t, h, k, rid, pages, x) == Lookup(kid, h - 1, x)
  {
    var s := c.split.value;
    InsStep(t, h, k, rid, pages, Repaired, i, c, t.kids[i := c.left]);
    NewKeysOrder(t.keys, s.key);
    NewKidFor(t.keys, t.kids, i, c.left, s, x);
    AbsorbHalves(t, h, i, c, c.pages);
    NewKidsShaped(t.keys, t.kids, h - 1, i, c);
    assert h > 0 && 1 <= |t.keys| <= MAX_KEYS;
    hide Ins, Absorb, Halved, Shaped, AllShaped, RootShaped, Lookup, ScanBoth, Taking;
    HalvedScan(t.pid, h, NewKeys(t.keys, s.key), NewKids(t.keys, t.kids, i, c.left, s), c.pages, x);
  }

  lemma NewKidsShaped(keys: seq<int>, kids: seq<Tree>, h: nat, i: nat, c: InsertResult)
    requires i < |kids| == |keys| + 1 && AllShaped(kids[i := c.left], h) && c.split.Some?
        && Shaped(c.split.value.right, h)
    ensures AllShaped(NewKids(keys, kids, i, c.left, c.split.value), h)
  {
  }

  lemma KeptScan(t: Tree, h: nat, k: int, rid: RID, pages: nat, x: int, i: nat, c: InsertResult)
    requires t.Inner? && Shaped(t, h) && RootShaped(t, h) && i == Route(t.keys, k) && RootShaped(t.kids[i], h - 1)
    requires c == Ins(t.kids[i], h - 1, k, rid, pages, Repaired) && c.split.None?
    ensures
      var kid := t.kids[i := c.left][ScanRoute(t.keys, x)];
      RootShaped(kid, h - 1) && After(t, h, k, rid, pages, x) == Lookup(kid, h - 1, x)
  {
    InsStep(t, h, k, rid, pages, Repaired, i, c, t.kids[i := c.left]);
    var l := Inner(t.pid, t.keys, t.kids[i := c.left]);
    KidShaped(l, h, ScanRoute(t.keys, x));
  }

  lemma AfterIs(t: Tree, h: nat, k: int, rid: RID, pages: nat, x: int)
    requires RootShaped(t, h)
    ensures
      var c := Ins(t, h, k, rid, pages, Repaired);
      && After(t, h, k, rid, pages, x) == ScanBoth(c, h, x)
      && (c.split.None? ==> After(t, h, k, rid, pages, x) == Lookup(c.left, h, x))
  {
    hide Ins, RootShaped;
  }

  /** One level: if the followed child hides the right keys, so does the node. */
  lemma NodeFinds(t: Tree, h: nat, k: int, rid: RID, pages: nat, hi: Option<int>, x: int, i: nat, c: InsertResult)
    requires t.Inner? && Shaped(t, h) && RootShaped(t, h) && i == Route(t.keys, k)
    requires h > 0 && RootShaped(t.kids[i], h - 1) && c == Ins(t.kids[i], h - 1, k, rid, pages, Repaired)
    requires ScanRoute(t.keys, x) == i ==>
               (After(t.kids[i], h - 1, k, rid, pages, x).None?
                <==> Hidden(t.kids[i], h - 1, k, rid, pages, Upper(t.keys, i, hi), x))
    requires Weak(t) && AtMost(t, hi) && Taking(t.keys, t.kids, i, k) && Grew(t.kids[i], k, c)
    requires x in KeySet(t) + {k} && Below(x, hi)
    ensures After(t, h, k, rid, pages, x).None? <==> Hidden(t, h, k, rid, pages, hi, x)
  {
    hide Weak, Taking, Grew, KeySet, Shaped, Hidden, Covers, AtMost, Below, Lookup, Route, ScanRoute, Upper, RootShaped;
    hide Ins, ScanBoth, After;
    InnerShaped(t, h);
    AfterIs(t, h, k, rid, pages, x);
    AfterIs(t.kids[i], h - 1, k, rid, pages, x);
    HiddenStep(t, h, k, rid, pages, hi, x, i, c);
    if c.split.Some? {
      SplitScan(t, h, k, rid, pages, x, i, c);
      SplitFinds(t, h, k, rid, pages, hi, x, i, c);
    } else {
      KeptScan(t, h, k, rid, pages, x, i, c);
      KeptFinds(t, h, k, rid, pages, hi, x, i, c);
    }
  }

  lemma LeafAfter(t: Tree, h: nat, k: int, rid: RID, pages: nat, hi: Option<int>, x: int)
    requires RootShaped(t, h) && t.Leaf? && Weak(t) && x in KeySet(t) + {k}
    ensures After(t, h, k, rid, pages, x).Some? && !Hidden(t, h, k, rid, pages, hi, x)
  {
    LeafScan(t, k, rid, pages, x);
  }

  /**
    Inserting k into a tree in order: every key of the result below the bound is found,
    except exactly the hidden ones.
   */
  lemma {:induction false} InsFinds(t: Tree, h: nat, k: int, rid: RID, pages: nat, hi: Option<int>, x: int)
    requires RootShaped(t, h) && Weak(t) && AtMost(t, hi) && (hi.Some? ==> k <= hi.value)
    requires x in KeySet(t) + {k} && Below(x, hi)
    ensures After(t, h, k, rid, pages, x).None? <==> Hidden(t, h, k, rid, pages, hi, x)
    decreases h
  {
    hide Weak, Taking, Grew, Ins, KeySet, Shaped, Hidden, AtMost, RootShaped, Below, After, Route, ScanRoute, Upper;
    if t.Leaf? {
      LeafAfter(t, h, k, rid, pages, hi, x);
    } else {
      var i := Route(t.keys, k);
      InnerShaped(t, h);
      WeakKid(t, h, i);
      TakingIs(t, h, k);
      KidAtMost(t, hi, i);
      InsFenced(t.kids[i], h - 1, k, rid, pages);
      if ScanRoute(t.keys, x) == i {
        AtHome(t, i, k, hi, x);
        InsFinds(t.kids[i], h - 1, k, rid, pages, Upper(t.keys, i, hi), x);
      }
      NodeFinds(t, h, k, rid, pages, hi, x, i, Ins(t.kids[i], h - 1, k, rid, pages, Repaired));
    }
  }

  /** A key is hidden only where the insert breaks the order. */
  lemma {:induction false} HiddenStrays(t: Tree, h: nat, k: int, rid: RID, pages: nat, hi: Option<int>, x: int)
    requires RootShaped(t, h) && Hidden(t, h, k, rid, pages, hi, x)
    ensures Strays(t, h, k, rid, pages)
    decreases h
  {
    hide Ins, RootShaped, Route, Upper;
    assert t.Inner?;
    hide Hidden, Strays, Jumps, Covers;
    InnerShaped(t, h);
    var i := Route(t.keys, k);
    KidShaped(t, h, i);
    var c := Ins(t.kids[i], h - 1, k, rid, pages, Repaired);
    HiddenStep(t, h, k, rid, pages, hi, x, i, c);
    StraysStep(t, h, k, rid, pages, i, c);
    if c.split.Some? && Covers(t.keys, t.kids, i, c.split.value.key, hi, x) {
      CoversJumps(t.keys, t.kids, i, c.split.value.key, hi, x);
    } else {
      HiddenStrays(t.kids[i], h - 1, k, rid, pages, Upper(t.keys, i, hi), x);
    }
  }

  lemma CoversJumps(keys: seq<int>, kids: seq<Tree>, i: nat, s: int, hi: Option<int>, x: int)
    requires |kids| == |keys| + 1 && Covers(keys, kids, i, s, hi, x)
    ensures Jumps(keys, kids, i, s)
  {
  }

  // ---------- whole trees ----------

  ghost predicate WeakIndex(x: Index) {
    RootShaped(x.root, x.height) && Weak(x.root)
  }

  /** The insert of e puts a child behind a larger one. */
  ghost predicate StraysAt(x: Index, e: Entry)
    requires RootShaped(x.root, x.height)
  {
    Strays(x.root, x.height, e.key, e.rid, x.pages)
  }

  ghost predicate HiddenAt(x: Index, e: Entry, q: int)
    requires RootShaped(x.root, x.height)
  {
    Hidden(x.root, x.height, e.key, e.rid, x.pages, None, q)
  }

  ghost predicate HidesAt(x: Index, e: Entry)
    requires RootShaped(x.root, x.height)
  {
    exists q :: HiddenAt(x, e, q)
  }

  /** An insert into a tree in weak order keeps it, unless it strays. */
  lemma InsertWeak(x: Index, e: Entry)
    requires WeakIndex(x) && !StraysAt(x, e)
    ensures WeakIndex(Insert(x, e.key, e.rid, Repaired))
  {
    hide Ins, Weak, Strays, KeySet, RootShaped;
    var c := Ins(x.root, x.height, e.key, e.rid, x.pages, Repaired);
    InsWeak(x.root, x.height, e.key, e.rid, x.pages);
    InsFenced(x.root, x.height, e.key, e.rid, x.pages);
    if c.split.Some? {
      TopWeak(x.root, e.key, c);
    }
  }

  lemma TopWeak(t: Tree, k: int, c: InsertResult)
    requires GrewWeak(c) && Grew(t, k, c) && c.split.Some?
    ensures Weak(Inner(c.pages, [c.split.value.key], [c.left, c.split.value.right]))
  {
  }

  lemma TopScan(x: Index, e: Entry, copy: SplitCopy, q: int)
    requires RootShaped(x.root, x.height)
    ensures
      Scan(Insert(x, e.key, e.rid, copy), q)
          == ScanBoth(Ins(x.root, x.height, e.key, e.rid, x.pages, copy), x.height, q)
  {
    hide Ins;
    var c := Ins(x.root, x.height, e.key, e.rid, x.pages, copy);
    if c.split.Some? {
      RouteIs([c.split.value.key], q, if c.split.value.key <= q then 1 else 0);
    }
  }

  /** An insert keeps every entry and adds its own, whatever the keys and whichever the form of the split. */
  lemma InsertConserves(x: Index, e: Entry, copy: SplitCopy)
    requires RootShaped(x.root, x.height)
    ensures multiset(Entries(Insert(x, e.key, e.rid, copy))) == multiset(Entries(x)) + multiset{e}
  {
    InsConserves(x.root, x.height, e.key, e.rid, x.pages, copy);
    hide Ins, Flat, FlatAll;
    var c := Ins(x.root, x.height, e.key, e.rid, x.pages, copy);
    if c.split.Some? {
      TopEntries(c);
    } else {
      assert Flat(c.left) + [] == Flat(c.left);
    }
  }

  lemma TopEntries(c: InsertResult)
    requires c.split.Some?
    ensures Flat(Inner(c.pages, [c.split.value.key], [c.left, c.split.value.right])) == AllEntries(c)
  {
    var l, r := c.left, c.split.value.right;
    assert [l, r][1..] == [r] && [r][1..] == [];
    assert FlatAll([r]) == Flat(r) + FlatAll([]);
  }

  /**
    One insert of any key into a tree in weak order: a scan finds a key exactly when it was in the
    tree or is the new one, and is not hidden.
   */
  lemma InsertFindsIff(x: Index, e: Entry, q: int)
    requires WeakIndex(x)
    ensures Scan(Insert(x, e.key, e.rid, Repaired), q).Some?
       <==> ((HasKey(Entries(x), q) || q == e.key) && !HiddenAt(x, e, q))
  {
    hide Ins, Weak, KeySet, RootShaped, Hidden, After, Flat, Insert;
    KeySetIs(x.root, q);
    TopScan(x, e, Repaired, q);
    AfterIs(x.root, x.height, e.key, e.rid, x.pages, q);
    if q in KeySet(x.root) + {e.key} {
      InsFinds(x.root, x.height, e.key, e.rid, x.pages, None, q);
    } else {
      var y := Insert(x, e.key, e.rid, Repaired);
      InsertConserves(x, e, Repaired);
      KeysOfMany(Entries(y), Entries(x), e, q);
      LookupFindsMembers(y.root, y.height, q);
    }
  }

  // ---------- runs ----------

  /** Every scan finds a row inserted under its key, and finds one whenever there is one. */
  ghost predicate Answers(x: Index, run: seq<Entry>)
    requires RootShaped(x.root, x.height)
  {
    forall q :: match Scan(x, q) case Some(rid) => Entry(q, rid) in run case None => !HasKey(run, q)
  }

  ghost predicate NeverStrays(run: seq<Entry>, pages: nat) {
    forall n {:trigger Build(run[..n], Repaired, pages)} :: 0 <= n < |run| ==>
      !StraysAt(Build(run[..n], Repaired, pages), run[n])
  }

  lemma {:induction false} LookupMember(t: Tree, h: nat, q: int)
    requires RootShaped(t, h) && Lookup(t, h, q).Some?
    ensures Entry(q, Lookup(t, h, q).value) in Flat(t)
    decreases h
  {
    if t.Leaf? {
      FindMember(t.entries, q);
    } else {
      var i := ScanRoute(t.keys, q);
      KidShaped(t, h, i);
      LookupMember(t.kids[i], h - 1, q);
      FlatMember(t.kids, i, Entry(q, Lookup(t.kids[i], h - 1, q).value));
    }
  }

  lemma {:induction false} FindMember(es: seq<Entry>, q: int)
    requires Find(es, q).Some?
    ensures Entry(q, Find(es, q).value) in es
  {
    if es[0].key != q {
      FindMember(es[1..], q);
    }
  }

  lemma BuildStep(run: seq<Entry>, copy: SplitCopy, pages: nat)
    requires run != []
    ensures
      var e := run[|run| - 1];
      Build(run, copy, pages) == Insert(Build(run[..|run| - 1], copy, pages), e.key, e.rid, copy)
  {
    hide Insert;
  }

  /** The tree after any run holds the run's entries. */
  lemma {:induction false} BuildConserves(run: seq<Entry>, copy: SplitCopy, pages: nat)
    ensures multiset(Entries(Build(run, copy, pages))) == multiset(run)
  {
    hide Insert;
    if run != [] {
      BuildConserves(run[..|run| - 1], copy, pages);
      NextConserves(run, copy, pages);
    }
  }

  lemma NextConserves(run: seq<Entry>, copy: SplitCopy, pages: nat)
    requires run != [] && multiset(Entries(Build(run[..|run| - 1], copy, pages))) == multiset(run[..|run| - 1])
    ensures multiset(Entries(Build(run, copy, pages))) == multiset(run)
  {
    hide Insert, Entries, Build, RootShaped;
    BuildStep(run, copy, pages);
    InsertConserves(Build(run[..|run| - 1], copy, pages), run[|run| - 1], copy);
    assert run == run[..|run| - 1] + [run[|run| - 1]];
  }

  lemma BuildHolds(run: seq<Entry>, copy: SplitCopy, pages: nat)
    ensures forall e :: e in Entries(Build(run, copy, pages)) <==> e in run
  {
    BuildConserves(run, copy, pages);
    var x := Build(run, copy, pages);
    forall e ensures e in Entries(x) <==> e in run {
      assert e in Entries(x) <==> e in multiset(Entries(x));
      assert e in run <==> e in multiset(run);
    }
  }

  lemma BeforeNeverStrays(run: seq<Entry>, n: nat, pages: nat)
    requires NeverStrays(run, pages) && n <= |run|
    ensures NeverStrays(run[..n], pages)
  {
    forall m | 0 <= m < n ensures !StraysAt(Build(run[..n][..m], Repaired, pages), run[..n][m]) {
      assert run[..n][..m] == run[..m];
    }
  }

  lemma LastNeverStrays(run: seq<Entry>, pages: nat)
    requires NeverStrays(run, pages) && run != []
    ensures !StraysAt(Build(run[..|run| - 1], Repaired, pages), run[|run| - 1])
  {
  }

  lemma {:induction false} BuildWeak(run: seq<Entry>, pages: nat)
    requires NeverStrays(run, pages)
    ensures WeakIndex(Build(run, Repaired, pages))
  {
    if run == [] {
      EmptyWeak(pages);
    } else {
      BeforeNeverStrays(run, |run| - 1, pages);
      LastNeverStrays(run, pages);
      hide NeverStrays, StraysAt, WeakIndex, Build;
      BuildWeak(run[..|run| - 1], pages);
      NextWeak(run, pages);
    }
  }

  lemma NextWeak(run: seq<Entry>, pages: nat)
    requires run != [] && WeakIndex(Build(run[..|run| - 1], Repaired, pages))
    requires !StraysAt(Build(run[..|run| - 1], Repaired, pages), run[|run| - 1])
    ensures WeakIndex(Build(run, Repaired, pages))
  {
    BuildStep(run, Repaired, pages);
    hide Insert, StraysAt, Build, WeakIndex;
    InsertWeak(Build(run[..|run| - 1], Repaired, pages), run[|run| - 1]);
  }

  lemma EmptyWeak(pages: nat)
    ensures WeakIndex(Build([], Repaired, pages))
  {
  }

  /** A scan is right exactly when it finds the keys that are there. */
  lemma AnswersIff(run: seq<Entry>, copy: SplitCopy, pages: nat)
    ensures
      var x := Build(run, copy, pages);
      Answers(x, run) <==> forall q :: HasKey(run, q) ==> Scan(x, q).Some?
  {
    var x := Build(run, copy, pages);
    BuildHolds(run, copy, pages);
    hide Build, Lookup, Flat;
    forall q | Scan(x, q).Some? ensures Entry(q, Scan(x, q).value) in run {
      LookupMember(x.root, x.height, q);
    }
  }

  /** As long as no insert strays, equal keys or not, every scan is right. */
  lemma RightUntilStray(run: seq<Entry>, pages: nat)
    requires NeverStrays(run, pages)
    ensures forall n :: 0 <= n <= |run| ==> Answers(Build(run[..n], Repaired, pages), run[..n])
  {
    forall n | 0 <= n <= |run| ensures Answers(Build(run[..n], Repaired, pages), run[..n]) {
      BeforeNeverStrays(run, n, pages);
      WeakAnswers(run[..n], pages);
    }
  }

  lemma WeakAnswers(run: seq<Entry>, pages: nat)
    requires NeverStrays(run, pages)
    ensures Answers(Build(run, Repaired, pages), run)
  {
    var x := Build(run, Repaired, pages);
    BuildWeak(run, pages);
    BuildHolds(run, Repaired, pages);
    AnswersIff(run, Repaired, pages);
    hide Build, Weak, Lookup, KeySet, Flat, Answers, NeverStrays;
    forall q | HasKey(run, q) ensures Scan(x, q).Some? {
      KeySetIs(x.root, q);
      WeakFinds(x.root, x.height, q);
    }
  }

  /** At the first insert that may stray, every scan is right exactly when no key is hidden. */
  lemma RightAtStrayIff(run: seq<Entry>, e: Entry, pages: nat)
    requires NeverStrays(run, pages)
    ensures Answers(Build(run + [e], Repaired, pages), run + [e]) <==> !HidesAt(Build(run, Repaired, pages), e)
  {
    var x, all := Build(run, Repaired, pages), run + [e];
    assert all[..|all| - 1] == run && all[|all| - 1] == e;
    assert Build(all, Repaired, pages) == Insert(x, e.key, e.rid, Repaired);
    BuildWeak(run, pages);
    BuildHolds(run, Repaired, pages);
    AnswersIff(all, Repaired, pages);
    hide Build, Weak, Flat, Insert, Hidden, Answers, NeverStrays, Lookup, Scan;
    forall q ensures HasKey(all, q) <==> (HasKey(Entries(x), q) || q == e.key) {
      KeysOfMany(all, run, e, q);
    }
    forall q ensures HasKey(all, q) ==> (Scan(Insert(x, e.key, e.rid, Repaired), q).Some? <==> !HiddenAt(x, e, q)) {
      InsertFindsIff(x, e, q);
    }
    forall q | HiddenAt(x, e, q) ensures HasKey(all, q) {
      HiddenIn(x.root, x.height, e.key, e.rid, x.pages, None, q);
      KeySetIs(x.root, q);
    }
  }

  // ---------- which runs never stray ----------

  lemma OrderedStaysPut(t: Tree, h: nat, k: int, rid: RID, pages: nat, i: nat)
    requires t.Inner? && Shaped(t, h) && Ordered(t) && !HasKey(Flat(t), k) && i == Route(t.keys, k)
    requires h > 0 && RootShaped(t.kids[i], h - 1) && Ordered(t.kids[i]) && !HasKey(Flat(t.kids[i]), k)
    ensures
      var c := Ins(t.kids[i], h - 1, k, rid, pages, Repaired);
      c.split.Some? ==> |t.kids| == |t.keys| + 1 && !Jumps(t.keys, t.kids, i, c.split.value.key)
  {
    hide Ins, Flat, Ordered, RootShaped, HasKey, Jumps, Inserted, InsertSorted, SlotFor;
    var c := Ins(t.kids[i], h - 1, k, rid, pages, Repaired);
    if c.split.Some? {
      InsInserted(t.kids[i], h - 1, k, rid, pages, Repaired);
      PromotedIn(c, InsertSorted(Flat(t.kids[i]), Entry(k, rid)));
      PromotedSlot(t, h, k, Entry(k, rid), c.split.value.key);
      StaysPut(t.keys, t.kids, i, c.split.value.key);
    }
  }

  /** An insert of a new key into a tree without repeated keys never strays. */
  lemma {:induction false} OrderedNeverStrays(t: Tree, h: nat, k: int, rid: RID, pages: nat)
    requires RootShaped(t, h) && Ordered(t) && !HasKey(Flat(t), k)
    ensures !Strays(t, h, k, rid, pages)
    decreases h
  {
    hide Ins, Flat, Ordered, Shaped, AllShaped, RootShaped, Route, HasKey, Jumps;
    if t.Inner? {
      hide Strays;
      var i := Route(t.keys, k);
      InnerShaped(t, h);
      KidShaped(t, h, i);
      OrderedKid(t, h, i);
      KidLacks(t, i, k);
      OrderedStaysPut(t, h, k, rid, pages, i);
      OrderedNeverStrays(t.kids[i], h - 1, k, rid, pages);
      StraysStep(t, h, k, rid, pages, i, Ins(t.kids[i], h - 1, k, rid, pages, Repaired));
    }
  }

  lemma StaysPut(keys: seq<int>, kids: seq<Tree>, i: nat, s: int)
    requires |kids| == |keys| + 1 && SlotFor(keys, s) == i
    ensures !Jumps(keys, kids, i, s)
  {
  }

  lemma PromotedIn(c: InsertResult, es: seq<Entry>)
    requires c.split.Some? && Inserted(c, es)
    ensures HasKey(es, c.split.value.key)
  {
    assert Flat(c.split.value.right)[0] in es;
  }

  /** A run without repeated keys never strays. */
  lemma DistinctNeverStrays(run: seq<Entry>, pages: nat)
    requires DistinctKeys(run)
    ensures NeverStrays(run, pages)
  {
    forall n | 0 <= n < |run| ensures !StraysAt(Build(run[..n], Repaired, pages), run[n]) {
      PrefixDistinct(run, n);
      PrefixDistinct(run, n + 1);
      BuildOrdered(run[..n], Repaired, pages);
      SortedRunKeys(run[..n]);
      assert run[..n + 1][..n] == run[..n] && run[..n + 1][n] == run[n];
      NewKey(run[..n + 1], run[..n]);
      var x := Build(run[..n], Repaired, pages);
      OrderedNeverStrays(x.root, x.height, run[n].key, run[n].rid, x.pages);
    }
  }

  /** Nor does a run of one key only, however long. */
  lemma {:induction false} OneKeyNeverStrays(t: Tree, h: nat, k: int, rid: RID, pages: nat)
    requires RootShaped(t, h) && Weak(t) && KeySet(t) <= {k}
    ensures !Strays(t, h, k, rid, pages)
    decreases h
  {
    hide Ins, Shaped, AllShaped, RootShaped, Route, KeySet, Jumps, Weak;
    if t.Inner? {
      hide Strays;
      var i := Route(t.keys, k);
      InnerShaped(t, h);
      WeakKid(t, h, i);
      KidsOneKey(t, k);
      OneKeyStaysPut(t, h, k, rid, pages, i);
      OneKeyNeverStrays(t.kids[i], h - 1, k, rid, pages);
      StraysStep(t, h, k, rid, pages, i, Ins(t.kids[i], h - 1, k, rid, pages, Repaired));
    }
  }

  lemma OneKeyStaysPut(t: Tree, h: nat, k: int, rid: RID, pages: nat, i: nat)
    requires t.Inner? && |t.kids| == |t.keys| + 1 && i < |t.kids|
    requires h > 0 && RootShaped(t.kids[i], h - 1) && Weak(t.kids[i])
    requires forall j :: 0 <= j < |t.kids| ==> KeySet(t.kids[j]) <= {k}
    ensures
      var c := Ins(t.kids[i], h - 1, k, rid, pages, Repaired);
      c.split.Some? ==> !Jumps(t.keys, t.kids, i, c.split.value.key)
  {
    hide Ins, RootShaped, KeySet, Jumps, Weak, Grew;
    var c := Ins(t.kids[i], h - 1, k, rid, pages, Repaired);
    InsFenced(t.kids[i], h - 1, k, rid, pages);
    if c.split.Some? {
      OneKeyJumpsNot(t, i, k, c);
    }
  }

  lemma KidsOneKey(t: Tree, k: int)
    requires t.Inner? && KeySet(t) <= {k}
    ensures forall j :: 0 <= j < |t.kids| ==> KeySet(t.kids[j]) <= {k}
  {
    forall j | 0 <= j < |t.kids| ensures KeySet(t.kids[j]) <= KeySet(t) {
    }
  }

  lemma OneKeyJumpsNot(t: Tree, i: nat, k: int, c: InsertResult)
    requires t.Inner? && |t.kids| == |t.keys| + 1 && i < |t.kids| && c.split.Some?
    requires (forall j :: 0 <= j < |t.kids| ==> KeySet(t.kids[j]) <= {k}) && Grew(t.kids[i], k, c)
    ensures !Jumps(t.keys, t.kids, i, c.split.value.key)
  {
    assert c.split.value.key in SplitKeys(c);
  }

  lemma {:induction false} EqualNeverStrays(run: seq<Entry>, pages: nat)
    requires forall i :: 0 <= i < |run| ==> run[i].key == run[0].key
    ensures NeverStrays(run, pages)
  {
    if run != [] {
      var before, e := run[..|run| - 1], run[|run| - 1];
      EqualNeverStrays(before, pages);
      BuildWeak(before, pages);
      var x := Build(before, Repaired, pages);
      BuildHolds(before, Repaired, pages);
      forall q | q in KeySet(x.root) ensures q == e.key {
        KeySetIs(x.root, q);
        var f :| f in Entries(x) && f.key == q;
        assert f in before;
      }
      OneKeyNeverStrays(x.root, x.height, e.key, e.rid, x.pages);
      NeverStraysNext(run, pages);
    }
  }

  lemma NeverStraysNext(run: seq<Entry>, pages: nat)
    requires run != [] && NeverStrays(run[..|run| - 1], pages)
    requires !StraysAt(Build(run[..|run| - 1], Repaired, pages), run[|run| - 1])
    ensures NeverStrays(run, pages)
  {
    hide Build, StraysAt;
    var before := run[..|run| - 1];
    forall n | 0 <= n < |run| ensures !StraysAt(Build(run[..n], Repaired, pages), run[n]) {
      if n < |before| {
        assert before[..n] == run[..n] && before[n] == run[n];
      }
    }
  }
}
