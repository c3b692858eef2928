/**
  The index with equal keys. A tree in weak order, where no key is followed by a smaller one,
  answers every scan, and an insert keeps that order unless a level hands up a key equal to
  separators on its right and the new child lands behind a child with larger keys.
 */
module EqualKeys {
  import opened StorageTypes
  import opened BPlusTree
  import opened SortedEntries
  import opened IndexOrder

  // ---------- keys, bounds and weak order ----------

  ghost function KeySet(t: Tree): set<int> {
    match t
    case Leaf(_, es, _) => set i | 0 <= i < |es| :: es[i].key
    case Inner(_, _, kids) => set i, x | 0 <= i < |kids| && x in KeySet(kids[i]) :: x
  }

  ghost function FirstKey(t: Tree): int {
    match t
    case Leaf(_, es, _) => if es == [] then 0 else es[0].key
    case Inner(_, _, kids) => if kids == [] then 0 else FirstKey(kids[0])
  }

  ghost predicate NonDecreasing(keys: seq<int>) {
    forall i, j :: 0 <= i < j < |keys| ==> keys[i] <= keys[j]
  }

  ghost predicate AtLeast(t: Tree, lo: int) {
    forall x :: x in KeySet(t) ==> lo <= x
  }

  ghost predicate AtMost(t: Tree, hi: Option<int>) {
    hi.Some? ==> forall x :: x in KeySet(t) ==> x <= hi.value
  }

  predicate Below(x: int, hi: Option<int>) {
    hi.Some? ==> x < hi.value
  }

  /** The separator above child i, which for the last child is the one above the node. */
  function Upper(keys: seq<int>, i: nat, hi: Option<int>): Option<int> {
    if i < |keys| then Some(keys[i]) else hi
  }

  /** Each separator is the first and least key of the subtree to its right. */
  ghost predicate Fences(keys: seq<int>, kids: seq<Tree>) {
    && |kids| == |keys| + 1 && NonDecreasing(keys)
    && forall j :: 0 <= j < |keys| ==> keys[j] == FirstKey(kids[j + 1]) && AtLeast(kids[j + 1], keys[j])
  }

  /** Every node's separators are fences, whatever lies to their left. */
  ghost predicate Fenced(t: Tree) {
    t.Inner? ==> Fences(t.keys, t.kids) && forall i :: 0 <= i < |t.kids| ==> Fenced(t.kids[i])
  }

  ghost predicate Caps(keys: seq<int>, kids: seq<Tree>)
    requires |kids| == |keys| + 1
  {
    forall j :: 0 <= j < |keys| ==> AtMost(kids[j], Some(keys[j]))
  }

  /** No key is followed by a smaller one. */
  ghost predicate Weak(t: Tree) {
    match t
    case Leaf(_, es, _) => NonDecreasing(KeysOf(es))
    case Inner(_, keys, kids) => Fences(keys, kids) && Caps(keys, kids) && forall i :: 0 <= i < |kids| ==> Weak(kids[i])
  }

  lemma {:induction false} WeakFenced(t: Tree)
    requires Weak(t)
    ensures Fenced(t)
  {
    if t.Inner? {
      forall i | 0 <= i < |t.kids| ensures Fenced(t.kids[i]) {
        WeakFenced(t.kids[i]);
      }
    }
  }

  lemma LeafIns(t: Tree, h: nat, k: int, rid: RID, pages: nat)
    requires RootShaped(t, h) && t.Leaf?
    ensures RootShaped(t, 0) && h == 0 && |t.entries| <= MAX_KEYS
    ensures Ins(t, h, k, rid, pages, Repaired) == InsLeaf(t, k, rid, pages)
  {
    hide InsLeaf;
  }

  lemma {:induction false} FirstIn(t: Tree, h: nat)
    requires Shaped(t, h)
    ensures FirstKey(t) in KeySet(t)
  {
    if t.Inner? {
      KidShaped(t, h, 0);
      FirstIn(t.kids[0], h - 1);
    } else {
      assert t.entries[0].key in KeySet(t);
    }
  }

  // ---------- what a scan finds ----------

  /** The number of separators not above x, wherever a new separator is put. */
  lemma {:induction false} RouteInserted(keys: seq<int>, s: int, x: int)
    requires NonDecreasing(keys)
    ensures
      var p := SlotFor(keys, s);
      ScanRoute(InsertAt(keys, p, s), x) == ScanRoute(keys, x) + if s <= x then 1 else 0
    ensures x < s ==> ScanRoute(keys, x) <= SlotFor(keys, s)
    ensures s <= x ==> SlotFor(keys, s) <= ScanRoute(keys, x)
  {
    hide SlotFor, ScanRoute;
    SlotBeside(keys, s, x);
    var p := SlotFor(keys, s);
    var keys', r := InsertAt(keys, p, s), ScanRoute(keys, x);
    if s <= x {
      forall j | 0 <= j <= r ensures keys'[j] <= x {
        assert j > p ==> keys'[j] == keys[j - 1];
      }
      RouteIs(keys', x, r + 1);
    } else {
      RouteIs(keys', x, r);
    }
  }

  lemma {:induction false} SlotBeside(keys: seq<int>, s: int, x: int)
    requires NonDecreasing(keys)
    ensures x < s ==> ScanRoute(keys, x) <= SlotFor(keys, s)
    ensures s <= x ==> SlotFor(keys, s) <= ScanRoute(keys, x)
  {
    hide SlotFor, ScanRoute;
    var p, r := SlotFor(keys, s), ScanRoute(keys, x);
    if x < s {
      SlotAtLeast(keys, s, r);
    } else {
      forall j | 0 <= j < p ensures keys[j] <= x {
        assert keys[j] <= keys[p - 1];
      }
      RouteAtLeast(keys, x, p);
    }
  }

  lemma {:induction false} RouteAtLeast(keys: seq<int>, x: int, n: nat)
    requires n <= |keys| && forall j :: 0 <= j < n ==> keys[j] <= x
    ensures n <= ScanRoute(keys, x)
  {
    if n > 0 {
      RouteAtLeast(keys[1..], x, n - 1);
    }
  }

  lemma {:induction false} RouteIs(keys: seq<int>, x: int, r: nat)
    requires r <= |keys| && (forall j :: 0 <= j < r ==> keys[j] <= x) && (r < |keys| ==> x < keys[r])
    ensures ScanRoute(keys, x) == r
  {
  }

  /** The first key of every child is one of its keys. */
  ghost predicate Headed(kids: seq<Tree>) {
    forall j :: 0 <= j < |kids| ==> FirstKey(kids[j]) in KeySet(kids[j])
  }

  lemma KidsHeaded(t: Tree, h: nat)
    requires t.Inner? && Shaped(t, h)
    ensures Headed(t.kids)
  {
    forall j | 0 <= j < |t.kids| ensures FirstKey(t.kids[j]) in KeySet(t.kids[j]) {
      KidShaped(t, h, j);
      FirstIn(t.kids[j], h - 1);
    }
  }

  /** A key of a weakly ordered node is in the child a scan for it goes to. */
  lemma HomeKid(keys: seq<int>, kids: seq<Tree>, x: int, j: nat)
    requires Fences(keys, kids) && Caps(keys, kids) && Headed(kids) && j < |kids| && x in KeySet(kids[j])
    ensures x in KeySet(kids[ScanRoute(keys, x)])
  {
    var r := ScanRoute(keys, x);
    if j < r {
      AtOrBefore(keys, kids, x, r - 1, j);
      assert keys[r - 1] == FirstKey(kids[r]);
    } else if j > r {
      NotBefore(keys, kids, x, r, j);
    }
  }

  lemma NotBefore(keys: seq<int>, kids: seq<Tree>, x: int, r: nat, j: nat)
    requires Fences(keys, kids) && r < j < |kids| && x in KeySet(kids[j])
    ensures keys[r] <= x
  {
    assert AtLeast(kids[j], keys[j - 1]) && keys[r] <= keys[j - 1];
  }

  lemma AtOrBefore(keys: seq<int>, kids: seq<Tree>, x: int, r: nat, j: nat)
    requires Fences(keys, kids) && Caps(keys, kids) && j <= r < |keys| && x in KeySet(kids[j])
    ensures x <= keys[r]
  {
    assert AtMost(kids[j], Some(keys[j])) && keys[j] <= keys[r];
  }

  lemma WeakHome(t: Tree, h: nat, x: int)
    requires t.Inner? && Shaped(t, h) && Weak(t) && x in KeySet(t)
    ensures
      var r := ScanRoute(t.keys, x);
      h > 0 && x in KeySet(t.kids[r]) && Weak(t.kids[r]) && RootShaped(t.kids[r], h - 1)
  {
    var r := ScanRoute(t.keys, x);
    KidShaped(t, h, r);
    KidsHeaded(t, h);
    var j :| 0 <= j < |t.kids| && x in KeySet(t.kids[j]);
    assert Weak(t.kids[r]);
    hide KeySet, FirstKey, Fences, Caps, Headed, Weak, ScanRoute;
    HomeKid(t.keys, t.kids, x, j);
  }

  lemma LeafFinds(es: seq<Entry>, x: int)
    requires exists i :: 0 <= i < |es| && es[i].key == x
    ensures Find(es, x).Some?
  {
    var i :| 0 <= i < |es| && es[i].key == x;
    assert es[i] in es;
    FindNone(es, x);
  }

  /** In a weakly ordered tree every key is found. */
  lemma {:induction false} WeakFinds(t: Tree, h: nat, x: int)
    requires RootShaped(t, h) && Weak(t) && x in KeySet(t)
    ensures Lookup(t, h, x).Some?
    decreases h
  {
    if t.Leaf? {
      LeafFinds(t.entries, x);
    } else {
      var r := ScanRoute(t.keys, x);
      WeakHome(t, h, x);
      hide Weak, KeySet;
      WeakFinds(t.kids[r], h - 1, x);
    }
  }

  /** A tree of one key only finds it, as the scan always goes right. */
  lemma {:induction false} OneKeyFinds(t: Tree, h: nat, x: int)
    requires Shaped(t, h) && Fenced(t) && KeySet(t) <= {x}
    ensures Lookup(t, h, x).Some?
    decreases h
  {
    if t.Leaf? {
      assert t.entries[0].key in KeySet(t);
      LeafFinds(t.entries, x);
    } else {
      var n := |t.keys|;
      forall j | 0 <= j < n ensures t.keys[j] == x {
        KidShaped(t, h, j + 1);
        FirstIn(t.kids[j + 1], h - 1);
        assert FirstKey(t.kids[j + 1]) in KeySet(t);
      }
      KidShaped(t, h, n);
      RouteIs(t.keys, x, n);
      assert KeySet(t.kids[n]) <= KeySet(t);
      OneKeyFinds(t.kids[n], h - 1, x);
    }
  }

  lemma {:induction false} NotFound(t: Tree, h: nat, x: int)
    requires RootShaped(t, h) && x !in KeySet(t)
    ensures Lookup(t, h, x).None?
    decreases h
  {
    if t.Leaf? {
      assert forall i :: 0 <= i < |t.entries| ==> t.entries[i].key in KeySet(t);
      FindNone(t.entries, x);
    } else {
      var r := ScanRoute(t.keys, x);
      KidShaped(t, h, r);
      NotFound(t.kids[r], h - 1, x);
    }
  }

  // ---------- nothing is dropped ----------

  ghost function AllEntries(c: InsertResult): seq<Entry> {
    Flat(c.left) + if c.split.Some? then Flat(c.split.value.right) else []
  }

  lemma InsertAtMany<T>(s: seq<T>, p: nat, x: T)
    requires p <= |s|
    ensures multiset(InsertAt(s, p, x)) == multiset(s) + multiset{x}
  {
    assert s == s[..p] + s[p..];
  }

  lemma LeafConserves(t: Tree, k: int, rid: RID, pages: nat)
    requires t.Leaf? && |t.entries| <= MAX_KEYS
    ensures multiset(AllEntries(InsLeaf(t, k, rid, pages))) == multiset(Flat(t)) + multiset{Entry(k, rid)}
  {
    LeafEntries(t, k, rid, pages);
    hide InsLeaf, SlotFor, InsertAt, AllEntries;
    InsertAtMany(t.entries, SlotFor(KeysOf(t.entries), k), Entry(k, rid));
  }

  /** A leaf insert's entries, whichever leaf they end up in. */
  lemma LeafEntries(t: Tree, k: int, rid: RID, pages: nat)
    requires t.Leaf? && |t.entries| <= MAX_KEYS
    ensures AllEntries(InsLeaf(t, k, rid, pages)) == InsertAt(t.entries, SlotFor(KeysOf(t.entries), k), Entry(k, rid))
  {
    hide SlotFor, InsertAt;
    var es := InsertAt(t.entries, SlotFor(KeysOf(t.entries), k), Entry(k, rid));
    assert |es| >= 2 ==> es == es[..2] + es[2..];
    assert es + [] == es;
  }

  lemma KidReplacedMany(kids: seq<Tree>, i: nat, l: Tree)
    requires i < |kids|
    ensures multiset(FlatAll(kids[i := l])) + multiset(Flat(kids[i])) == multiset(FlatAll(kids)) + multiset(Flat(l))
  {
    FlatAround(kids, i);
    var kids' := kids[i := l];
    FlatAround(kids', i);
    assert kids'[..i] == kids[..i] && kids'[i + 1..] == kids[i + 1..];
  }

  lemma KidInsertedMany(kids: seq<Tree>, p: nat, r: Tree)
    requires p <= |kids|
    ensures multiset(FlatAll(InsertAt(kids, p, r))) == multiset(FlatAll(kids)) + multiset(Flat(r))
  {
    var kids' := InsertAt(kids, p, r);
    FlatAround(kids', p);
    assert kids == kids[..p] + kids[p..];
    FlatConcat(kids[..p], kids[p..]);
    assert kids'[..p] == kids[..p] && kids'[p + 1..] == kids[p..];
  }

  lemma AbsorbConserves(pid: int, h: nat, keys: seq<int>, kids: seq<Tree>, s: Split, pages: nat, copy: SplitCopy)
    requires |kids| == |keys| + 1 && 1 <= |keys| <= MAX_KEYS && h > 0
    requires Shaped(s.right, h - 1) && AllShaped(kids, h - 1)
    ensures multiset(AllEntries(Absorb(pid, h, keys, kids, s, pages, copy)))
        == multiset(FlatAll(kids)) + multiset(Flat(s.right))
  {
    var p := SlotFor(keys, s.key);
    var kids' := InsertAt(kids, p + 1, s.right);
    KidInsertedMany(kids, p + 1, s.right);
    if |keys| == MAX_KEYS {
      assert kids' == kids'[..3] + kids'[3..];
      FlatConcat(kids'[..3], kids'[3..]);
    } else {
      assert FlatAll(kids') + [] == FlatAll(kids');
    }
  }

  lemma Cancels<T>(a: multiset<T>, b: multiset<T>, c: multiset<T>, d: multiset<T>, e: multiset<T>, f: multiset<T>)
    requires a + b == c + d && d + f == b + e
    ensures a + f == c + e
  {
    forall x ensures (a + f)[x] == (c + e)[x] {
      assert (a + b)[x] == (c + d)[x] && (d + f)[x] == (b + e)[x];
    }
  }

  ghost function RightEntries(c: InsertResult): seq<Entry> {
    if c.split.Some? then Flat(c.split.value.right) else []
  }

  lemma AllEntriesMany(c: InsertResult)
    ensures multiset(AllEntries(c)) == multiset(Flat(c.left)) + multiset(RightEntries(c))
  {
  }

  lemma NodeConserves(t: Tree, h: nat, k: int, rid: RID, pages: nat, copy: SplitCopy, i: nat, c: InsertResult)
    requires t.Inner? && Shaped(t, h) && i == Route(t.keys, k) && RootShaped(t.kids[i], h - 1)
    requires c == Ins(t.kids[i], h - 1, k, rid, pages, copy)
    ensures multiset(AllEntries(Ins(t, h, k, rid, pages, copy)))
        == multiset(FlatAll(t.kids[i := c.left])) + multiset(RightEntries(c))
  {
    var kids := t.kids[i := c.left];
    InsStep(t, h, k, rid, pages, copy, i, c, kids);
    hide Ins, FlatAll, Absorb;
    if c.split.Some? {
      AbsorbConserves(t.pid, h, t.keys, kids, c.split.value, c.pages, copy);
    } else {
      assert FlatAll(kids) + [] == FlatAll(kids);
    }
  }

  /** An insert adds its entry and drops none, in whatever order the tree is and in either form of the split. */
  lemma {:induction false} InsConserves(t: Tree, h: nat, k: int, rid: RID, pages: nat, copy: SplitCopy)
    requires RootShaped(t, h)
    ensures multiset(AllEntries(Ins(t, h, k, rid, pages, copy))) == multiset(Flat(t)) + multiset{Entry(k, rid)}
    decreases h
  {
    if t.Leaf? {
      LeafConserves(t, k, rid, pages);
    } else {
      var i := Route(t.keys, k);
      KidShaped(t, h, i);
      var c := Ins(t.kids[i], h - 1, k, rid, pages, copy);
      assert Flat(t) == FlatAll(t.kids);
      hide Ins, FlatAll, Flat, AllEntries, RightEntries, Route;
      InsConserves(t.kids[i], h - 1, k, rid, pages, copy);
      AllEntriesMany(c);
      KidReplacedMany(t.kids, i, c.left);
      NodeConserves(t, h, k, rid, pages, copy, i, c);
      Cancels(multiset(FlatAll(t.kids[i := c.left])), multiset(Flat(t.kids[i])), multiset(FlatAll(t.kids)),
              multiset(Flat(c.left)), multiset{Entry(k, rid)}, multiset(RightEntries(c)));
    }
  }

  lemma {:induction false} InFlatAll(ts: seq<Tree>, e: Entry) returns (i: nat)
    requires e in FlatAll(ts)
    ensures i < |ts| && e in Flat(ts[i])
  {
    if e in Flat(ts[0]) {
      i := 0;
    } else {
      var j := InFlatAll(ts[1..], e);
      i := j + 1;
    }
  }

  /** The keys of a tree are those of its entries. */
  lemma {:induction false} KeySetIs(t: Tree, x: int)
    ensures x in KeySet(t) <==> HasKey(Flat(t), x)
    decreases t
  {
    match t
    case Leaf(_, es, _) =>
      if x in KeySet(t) {
        var i :| 0 <= i < |es| && es[i].key == x;
        assert es[i] in es;
      }
    case Inner(_, _, kids) =>
      if x in KeySet(t) {
        var i :| 0 <= i < |kids| && x in KeySet(kids[i]);
        KeySetIs(kids[i], x);
        var e :| e in Flat(kids[i]) && e.key == x;
        FlatMember(kids, i, e);
      }
      if e :| e in FlatAll(kids) && e.key == x {
        var i := InFlatAll(kids, e);
        KeySetIs(kids[i], x);
      }
  }

  ghost function SplitKeys(c: InsertResult): set<int> {
    KeySet(c.left) + if c.split.Some? then KeySet(c.split.value.right) else {}
  }

  lemma InsKeys(t: Tree, h: nat, k: int, rid: RID, pages: nat, copy: SplitCopy)
    requires RootShaped(t, h)
    ensures SplitKeys(Ins(t, h, k, rid, pages, copy)) == KeySet(t) + {k}
  {
    var c := Ins(t, h, k, rid, pages, copy);
    InsConserves(t, h, k, rid, pages, copy);
    hide Ins, Flat, KeySet;
    forall x ensures x in SplitKeys(c) <==> x in KeySet(t) + {k} {
      KeySetIs(t, x);
      KeySetIs(c.left, x);
      if c.split.Some? {
        KeySetIs(c.split.value.right, x);
      }
      KeysOfMany(AllEntries(c), Flat(t), Entry(k, rid), x);
      KeysOfParts(Flat(c.left), if c.split.Some? then Flat(c.split.value.right) else [], x);
    }
  }

  lemma KeysOfMany(a: seq<Entry>, b: seq<Entry>, e: Entry, x: int)
    requires multiset(a) == multiset(b) + multiset{e}
    ensures HasKey(a, x) <==> HasKey(b, x) || x == e.key
  {
    assert forall y :: y in a <==> y in multiset(a);
    assert forall y :: y in b <==> y in multiset(b);
    if HasKey(b, x) {
      var y :| y in b && y.key == x;
      assert y in a;
    }
    assert e in a;
  }

  lemma KeysOfParts(a: seq<Entry>, b: seq<Entry>, x: int)
    ensures HasKey(a + b, x) <==> HasKey(a, x) || HasKey(b, x)
  {
    assert forall y :: y in a + b <==> y in a || y in b;
  }

  // ---------- the separators after an insert ----------

  ghost function NewFirst(t: Tree, k: int): int {
    if t.Leaf? && t.entries == [] then k else if k < FirstKey(t) then k else FirstKey(t)
  }

  /** What an insert always keeps: fences, the first key, and every key. */
  ghost predicate Grew(t: Tree, k: int, r: InsertResult) {
    && Fenced(r.left) && FirstKey(r.left) == NewFirst(t, k)
    && SplitKeys(r) == KeySet(t) + {k}
    && (r.split.Some? ==>
         var s := r.split.value;
         Fenced(s.right) && s.key == FirstKey(s.right) && s.key in KeySet(s.right) && AtLeast(s.right, s.key))
  }

  /** The separators and children of a node once a child has split. */
  function NewKeys(keys: seq<int>, s: int): seq<int> {
    InsertAt(keys, SlotFor(keys, s), s)
  }

  function NewKids(keys: seq<int>, kids: seq<Tree>, i: nat, l: Tree, s: Split): seq<Tree>
    requires i < |kids| == |keys| + 1
  {
    InsertAt(kids[i := l], SlotFor(keys, s.key) + 1, s.right)
  }

  /** A weakly ordered node about to take k into child i. */
  ghost predicate Taking(keys: seq<int>, kids: seq<Tree>, i: nat, k: int) {
    && Fences(keys, kids) && Caps(keys, kids) && Headed(kids) && i < |kids|
    && (forall j :: 0 <= j < i ==> keys[j] < k) && (i < |keys| ==> k <= keys[i])
  }

  lemma TakingIs(t: Tree, h: nat, k: int)
    requires t.Inner? && Shaped(t, h) && Weak(t)
    ensures Taking(t.keys, t.kids, Route(t.keys, k), k)
  {
    KidsHeaded(t, h);
  }

  lemma KidRange(keys: seq<int>, kids: seq<Tree>, i: nat, k: int, x: int)
    requires Taking(keys, kids, i, k) && x in KeySet(kids[i]) + {k}
    ensures forall j :: 0 <= j < i ==> keys[j] <= x
    ensures forall j :: i <= j < |keys| ==> x <= keys[j]
  {
    if i > 0 {
      assert AtLeast(kids[i], keys[i - 1]);
    }
    if i < |keys| {
      assert AtMost(kids[i], Some(keys[i]));
    }
  }

  lemma {:induction false} SlotAtLeast(keys: seq<int>, s: int, i: nat)
    requires i <= |keys| && forall j :: 0 <= j < i ==> keys[j] <= s
    ensures i <= SlotFor(keys, s)
  {
    if i < |keys| && s < keys[|keys| - 1] {
      SlotAtLeast(keys[..|keys| - 1], s, i);
    }
  }

  lemma SlotPast(keys: seq<int>, kids: seq<Tree>, i: nat, k: int, s: int)
    requires Taking(keys, kids, i, k) && s in KeySet(kids[i]) + {k}
    ensures i <= SlotFor(keys, s)
    ensures i < SlotFor(keys, s) ==> s == keys[i]
  {
    KidRange(keys, kids, i, k, s);
    assert NonDecreasing(keys) && i <= |keys|;
    hide Taking, KeySet;
    SlotAtLeast(keys, s, i);
    hide SlotFor;
    var p := SlotFor(keys, s);
    if i < p {
      assert keys[i] <= keys[p - 1] <= s <= keys[i];
    }
  }

  lemma NewKeysOrder(keys: seq<int>, s: int)
    requires NonDecreasing(keys)
    ensures NonDecreasing(NewKeys(keys, s))
  {
    var p := SlotFor(keys, s);
    assert forall j :: 0 <= j < p ==> keys[j] <= keys[p - 1];
  }

  lemma FirstKept(keys: seq<int>, kids: seq<Tree>, i: nat, k: int)
    requires Taking(keys, kids, i, k) && i > 0
    ensures FirstKey(kids[0]) < k && keys[i - 1] == FirstKey(kids[i]) < k
  {
    assert AtMost(kids[0], Some(keys[0]));
    assert keys[0] <= keys[i - 1];
  }

  lemma KidFenced(keys: seq<int>, kids: seq<Tree>, i: nat, k: int, c: InsertResult)
    requires Taking(keys, kids, i, k) && Grew(kids[i], k, c)
    requires kids[i].Leaf? ==> kids[i].entries != []
    ensures Fences(keys, kids[i := c.left])
  {
    if i > 0 {
      FirstKept(keys, kids, i, k);
      assert AtLeast(kids[i], keys[i - 1]);
      assert AtLeast(c.left, keys[i - 1]);
    }
  }

  lemma SplitFenced(keys: seq<int>, kids: seq<Tree>, i: nat, k: int, c: InsertResult)
    requires Taking(keys, kids, i, k) && Grew(kids[i], k, c) && c.split.Some?
    requires kids[i].Leaf? ==> kids[i].entries != []
    ensures Fences(NewKeys(keys, c.split.value.key), NewKids(keys, kids, i, c.left, c.split.value))
  {
    var s := c.split.value;
    KidFenced(keys, kids, i, k, c);
    NewKeysOrder(keys, s.key);
    FencesInserted(keys, kids[i := c.left], s);
  }

  lemma FencesInserted(keys: seq<int>, kids: seq<Tree>, s: Split)
    requires Fences(keys, kids) && NonDecreasing(NewKeys(keys, s.key))
    requires s.key == FirstKey(s.right) && AtLeast(s.right, s.key)
    ensures Fences(NewKeys(keys, s.key), InsertAt(kids, SlotFor(keys, s.key) + 1, s.right))
  {
    hide FirstKey, AtLeast, NonDecreasing, SlotFor;
    var p := SlotFor(keys, s.key);
    var keys', kids' := NewKeys(keys, s.key), InsertAt(kids, p + 1, s.right);
    forall j | 0 <= j < |keys'| ensures keys'[j] == FirstKey(kids'[j + 1]) && AtLeast(kids'[j + 1], keys'[j]) {
      if j > p {
        assert keys'[j] == keys[j - 1] && kids'[j + 1] == kids[j];
      }
    }
  }

  /** Both halves of a split node are fenced, and the promoted key heads the right one. */
  lemma HalvesFenced(keys: seq<int>, kids: seq<Tree>, x: int)
    requires Fences(keys, kids) && |keys| == 4
    ensures Fences(keys[..2], kids[..3]) && Fences(keys[3..], kids[3..])
    ensures keys[2] == FirstKey(kids[3..][0])
    ensures (exists j :: 3 <= j < 5 && x in KeySet(kids[j])) ==> keys[2] <= x
  {
    assert keys[2] == FirstKey(kids[2 + 1]) && AtLeast(kids[2 + 1], keys[2]);
    assert keys[3] == FirstKey(kids[3 + 1]) && AtLeast(kids[3 + 1], keys[3]);
    assert kids[3..][1] == kids[4];
  }

  lemma LeafOrder(es: seq<Entry>, k: int, rid: RID)
    requires NonDecreasing(KeysOf(es))
    ensures NonDecreasing(KeysOf(InsertAt(es, SlotFor(KeysOf(es), k), Entry(k, rid))))
  {
    var keys := KeysOf(es);
    NewKeysOrder(keys, k);
    LeafKeys(es, k, rid, SlotFor(keys, k));
  }

  lemma LeafKeys(es: seq<Entry>, k: int, rid: RID, p: nat)
    requires p <= |es|
    ensures KeysOf(InsertAt(es, p, Entry(k, rid))) == InsertAt(KeysOf(es), p, k)
  {
  }

  lemma PartOrder(es: seq<Entry>, a: nat, b: nat)
    requires NonDecreasing(KeysOf(es)) && a <= b <= |es|
    ensures NonDecreasing(KeysOf(es[a..b]))
    ensures a < b ==> AtLeast(Leaf(0, es[a..b], 0), es[a].key)
  {
    var keys, part := KeysOf(es), KeysOf(es[a..b]);
    forall i, j | 0 <= i < j < |part| ensures part[i] <= part[j] {
      assert part[i] == keys[a + i] && part[j] == keys[a + j];
    }
    forall x | a < b && x in KeySet(Leaf(0, es[a..b], 0)) ensures es[a].key <= x {
      var i :| 0 <= i < b - a && es[a..b][i].key == x;
      assert keys[a] == es[a].key && keys[a + i] == x;
    }
  }

  lemma LeafGrew(t: Tree, k: int, rid: RID, pages: nat)
    requires RootShaped(t, 0) && Weak(t)
    ensures Grew(t, k, InsLeaf(t, k, rid, pages))
  {
    LeafIns(t, 0, k, rid, pages);
    InsKeys(t, 0, k, rid, pages, Repaired);
    LeafOrder(t.entries, k, rid);
    LeafFirst(t, k, rid);
    hide SplitKeys, KeySet, SlotFor, NonDecreasing, Ins, FirstKey, NewFirst;
    var es := InsertAt(t.entries, SlotFor(KeysOf(t.entries), k), Entry(k, rid));
    if |es| == 4 {
      LeafHalvesGrew(t, k, es, pages);
    } else {
      assert InsLeaf(t, k, rid, pages) == InsertResult(Leaf(t.pid, es, t.next), None, pages);
      FirstOf(es, t.pid, t.next);
    }
  }

  lemma FirstOf(es: seq<Entry>, pid: int, next: int)
    requires es != []
    ensures FirstKey(Leaf(pid, es, next)) == es[0].key && es[0].key in KeySet(Leaf(pid, es, next))
  {
  }

  lemma LeafFirst(t: Tree, k: int, rid: RID)
    requires t.Leaf? && Weak(t)
    ensures InsertAt(t.entries, SlotFor(KeysOf(t.entries), k), Entry(k, rid))[0].key == NewFirst(t, k)
  {
    var keys := KeysOf(t.entries);
    var p := SlotFor(keys, k);
    if keys != [] {
      assert keys[0] == t.entries[0].key;
      assert p > 0 ==> keys[0] <= keys[p - 1];
    }
  }

  lemma LeafHalvesGrew(t: Tree, k: int, es: seq<Entry>, pages: nat)
    requires t.Leaf? && |es| == 4 && NonDecreasing(KeysOf(es)) && es[0].key == NewFirst(t, k)
    requires
      var r := InsertResult(Leaf(t.pid, es[..2], pages), Some(Split(es[2].key, Leaf(pages, es[2..], t.next))),
          pages + 1);
      SplitKeys(r) == KeySet(t) + {k}
    ensures
      Grew(t, k, InsertResult(Leaf(t.pid, es[..2], pages), Some(Split(es[2].key, Leaf(pages, es[2..], t.next))),
          pages + 1))
  {
    PartOrder(es, 2, 4);
    FirstOf(es[..2], t.pid, pages);
    FirstOf(es[2..], pages, t.next);
    hide SplitKeys, NonDecreasing, FirstKey, NewFirst;
    assert es[2..4] == es[2..];
    assert KeySet(Leaf(pages, es[2..], t.next)) == KeySet(Leaf(0, es[2..4], 0));
  }

  lemma NodeFirst(keys: seq<int>, kids: seq<Tree>, i: nat, k: int, c: InsertResult)
    requires Taking(keys, kids, i, k) && Grew(kids[i], k, c)
    requires kids[i].Leaf? ==> kids[i].entries != []
    ensures FirstKey(kids[i := c.left][0]) == if k < FirstKey(kids[0]) then k else FirstKey(kids[0])
  {
    if i > 0 {
      FirstKept(keys, kids, i, k);
    }
  }

  ghost predicate AllFenced(kids: seq<Tree>) {
    forall j :: 0 <= j < |kids| ==> Fenced(kids[j])
  }

  /** A node with room for its keys, or cut after the third child with the key between promoted. */
  function Halved(pid: int, keys: seq<int>, kids: seq<Tree>, pages: nat): InsertResult
    requires |kids| == |keys| + 1
  {
    if |keys| <= MAX_KEYS then InsertResult(Inner(pid, keys, kids), None, pages + 1)
    else InsertResult(Inner(pid, keys[..2], kids[..3]), Some(Split(keys[2], Inner(pages, keys[3..], kids[3..]))),
        pages + 1)
  }

  lemma AbsorbHalves(t: Tree, h: nat, i: nat, c: InsertResult, pages: nat)
    requires t.Inner? && Shaped(t, h) && i < |t.kids| && c.split.Some?
    requires AllShaped(t.kids[i := c.left], h - 1) && Shaped(c.split.value.right, h - 1)
    ensures
      var s := c.split.value;
      Absorb(t.pid, h, t.keys, t.kids[i := c.left], s, pages, Repaired)
      == Halved(t.pid, NewKeys(t.keys, s.key), NewKids(t.keys, t.kids, i, c.left, s), pages)
  {
  }

  lemma RightHalf(keys: seq<int>, kids: seq<Tree>, pid: int)
    requires Fences(keys, kids) && |keys| == 4 && AllFenced(kids)
    ensures
      var r := Inner(pid, keys[3..], kids[3..]);
      Fenced(r) && keys[2] == FirstKey(r) && AtLeast(r, keys[2])
  {
    var r := Inner(pid, keys[3..], kids[3..]);
    HalvesFenced(keys, kids, 0);
    forall x | x in KeySet(r) ensures keys[2] <= x {
      var j :| 0 <= j < 2 && x in KeySet(r.kids[j]);
      assert r.kids[j] == kids[3 + j];
      HalvesFenced(keys, kids, x);
    }
  }

  lemma HalvedGrew(t: Tree, k: int, pid: int, keys: seq<int>, kids: seq<Tree>, pages: nat)
    requires Fences(keys, kids) && AllFenced(kids) && 2 <= |keys| <= 4 && Headed(kids)
    requires t.Inner? && FirstKey(kids[0]) == NewFirst(t, k)
    requires SplitKeys(Halved(pid, keys, kids, pages)) == KeySet(t) + {k}
    ensures Grew(t, k, Halved(pid, keys, kids, pages))
  {
    var r := Halved(pid, keys, kids, pages);
    if |keys| == 4 {
      RightHalf(keys, kids, pages);
      HalvesFenced(keys, kids, 0);
      assert kids[3..][0] == kids[3];
      assert AllFenced(kids[..3]);
    }
  }

  lemma NewKidsHeaded(t: Tree, h: nat, i: nat, c: InsertResult)
    requires t.Inner? && Shaped(t, h) && i < |t.kids| && c.split.Some?
    requires AllShaped(t.kids[i := c.left], h - 1) && Shaped(c.split.value.right, h - 1)
    ensures Headed(NewKids(t.keys, t.kids, i, c.left, c.split.value))
  {
    var kids := NewKids(t.keys, t.kids, i, c.left, c.split.value);
    forall j | 0 <= j < |kids| ensures FirstKey(kids[j]) in KeySet(kids[j]) {
      assert kids[j] == c.split.value.right || kids[j] in t.kids[i := c.left];
      assert Shaped(kids[j], h - 1);
      FirstIn(kids[j], h - 1);
    }
  }

  lemma NewKidsFenced(keys: seq<int>, kids: seq<Tree>, i: nat, c: InsertResult)
    requires i < |kids| == |keys| + 1 && AllFenced(kids) && Fenced(c.left)
    requires c.split.Some? && Fenced(c.split.value.right)
    ensures AllFenced(NewKids(keys, kids, i, c.left, c.split.value))
  {
  }

  lemma NodeGrew(t: Tree, h: nat, k: int, c: InsertResult, pages: nat)
    requires t.Inner? && Shaped(t, h) && Taking(t.keys, t.kids, Route(t.keys, k), k) && AllFenced(t.kids)
    requires
      var i := Route(t.keys, k);
      Grew(t.kids[i], k, c) && (t.kids[i].Leaf? ==> t.kids[i].entries != []) &&
      c.split.Some? && AllShaped(t.kids[i := c.left], h - 1) && Shaped(c.split.value.right, h - 1)
    requires
      var i := Route(t.keys, k);
      SplitKeys(Absorb(t.pid, h, t.keys, t.kids[i := c.left], c.split.value, pages, Repaired)) == KeySet(t) + {k}
    ensures
      var i := Route(t.keys, k);
      Grew(t, k, Absorb(t.pid, h, t.keys, t.kids[i := c.left], c.split.value, pages, Repaired))
  {
    var i, s := Route(t.keys, k), c.split.value;
    var keys', kids' := NewKeys(t.keys, s.key), NewKids(t.keys, t.kids, i, c.left, s);
    assert 1 <= |t.keys| <= MAX_KEYS && Fenced(c.left) && Fenced(s.right);
    assert FirstKey(t) == FirstKey(t.kids[0]);
    AbsorbHalves(t, h, i, c, pages);
    NewKidsHeaded(t, h, i, c);
    SplitFenced(t.keys, t.kids, i, k, c);
    NodeFirst(t.keys, t.kids, i, k, c);
    assert kids'[0] == t.kids[i := c.left][0];
    NewKidsFenced(t.keys, t.kids, i, c);
    hide Fences, AllFenced, Headed, Absorb, Grew, Taking, Shaped, FirstKey, KeySet, SplitKeys, Halved;
    HalvedGrew(t, k, t.pid, keys', kids', pages);
  }

  lemma NodeKept(t: Tree, h: nat, k: int, c: InsertResult)
    requires t.Inner? && Taking(t.keys, t.kids, Route(t.keys, k), k) && AllFenced(t.kids)
    requires
      var i := Route(t.keys, k);
      Grew(t.kids[i], k, c) && (t.kids[i].Leaf? ==> t.kids[i].entries != []) && c.split.None?
    requires
      var r := InsertResult(Inner(t.pid, t.keys, t.kids[Route(t.keys, k) := c.left]), None, c.pages);
      SplitKeys(r) == KeySet(t) + {k}
    ensures Grew(t, k, InsertResult(Inner(t.pid, t.keys, t.kids[Route(t.keys, k) := c.left]), None, c.pages))
  {
    KidFenced(t.keys, t.kids, Route(t.keys, k), k, c);
    NodeFirst(t.keys, t.kids, Route(t.keys, k), k, c);
  }

  lemma KidsFenced(t: Tree)
    requires t.Inner? && Weak(t)
    ensures AllFenced(t.kids)
  {
    forall j | 0 <= j < |t.kids| ensures Fenced(t.kids[j]) {
      WeakFenced(t.kids[j]);
    }
  }

  lemma WeakKid(t: Tree, h: nat, i: nat)
    requires t.Inner? && Weak(t) && Shaped(t, h) && i < |t.kids|
    ensures h > 0 && Weak(t.kids[i]) && RootShaped(t.kids[i], h - 1) && Shaped(t.kids[i], h - 1)
    ensures t.kids[i].Leaf? ==> t.kids[i].entries != []
  {
    KidShaped(t, h, i);
  }

  /** Whatever the key, separators stay fences and no key is lost. */
  lemma {:induction false} InsFenced(t: Tree, h: nat, k: int, rid: RID, pages: nat)
    requires RootShaped(t, h) && Weak(t)
    ensures Grew(t, k, Ins(t, h, k, rid, pages, Repaired))
    decreases h
  {
    hide Weak, Taking, AllFenced, Grew, Ins, Absorb, SplitKeys, KeySet, Shaped, AllShaped, RootShaped;
    if t.Leaf? {
      LeafIns(t, h, k, rid, pages);
      LeafGrew(t, k, rid, pages);
    } else {
      var i := Route(t.keys, k);
      InnerShaped(t, h);
      WeakKid(t, h, i);
      TakingIs(t, h, k);
      KidsFenced(t);
      InsFenced(t.kids[i], h - 1, k, rid, pages);
      var c := Ins(t.kids[i], h - 1, k, rid, pages, Repaired);
      InsKeys(t, h, k, rid, pages, Repaired);
      InsStep(t, h, k, rid, pages, Repaired, i, c, t.kids[i := c.left]);
      if c.split.Some? {
        NodeGrew(t, h, k, c, c.pages);
      } else {
        NodeKept(t, h, k, c);
      }
    }
  }

  // ---------- when order is kept ----------

  /**
    On the way of k some child splits at a key equal to separators above it, and the new child
    lands behind a child with a larger key.
   */
  ghost predicate Strays(t: Tree, h: nat, k: int, rid: RID, pages: nat)
    requires RootShaped(t, h)
    decreases h
  {
    t.Inner? &&
    var i := Route(t.keys, k);
    assert AllShaped(t.kids, h - 1);
    var c := Ins(t.kids[i], h - 1, k, rid, pages, Repaired);
    Strays(t.kids[i], h - 1, k, rid, pages) || (c.split.Some? && Jumps(t.keys, t.kids, i, c.split.value.key))
  }

  /** A separator s made by child i goes behind a later child with a larger key. */
  ghost predicate Jumps(keys: seq<int>, kids: seq<Tree>, i: nat, s: int)
    requires |kids| == |keys| + 1
  {
    var p := SlotFor(keys, s);
    p > i && !AtMost(kids[p], Some(s))
  }

  /** Order inside both halves and between them. */
  ghost predicate GrewWeak(r: InsertResult) {
    Weak(r.left) && (r.split.Some? ==> Weak(r.split.value.right) && AtMost(r.left, Some(r.split.value.key)))
  }

  ghost predicate AllWeak(kids: seq<Tree>) {
    forall j :: 0 <= j < |kids| ==> Weak(kids[j])
  }

  lemma LeafWeak(t: Tree, k: int, rid: RID, pages: nat)
    requires RootShaped(t, 0) && Weak(t)
    ensures GrewWeak(InsLeaf(t, k, rid, pages))
  {
    LeafOrder(t.entries, k, rid);
    hide SlotFor, NonDecreasing;
    var es := InsertAt(t.entries, SlotFor(KeysOf(t.entries), k), Entry(k, rid));
    if |es| == 4 {
      LeafHalvesWeak(es, t.pid, pages, t.next, pages + 1);
    } else {
      assert InsLeaf(t, k, rid, pages).left.entries == es;
    }
  }

  lemma LeafHalvesWeak(es: seq<Entry>, pid: int, right: int, next: int, pages: nat)
    requires |es| == 4 && NonDecreasing(KeysOf(es))
    ensures GrewWeak(InsertResult(Leaf(pid, es[..2], right), Some(Split(es[2].key, Leaf(right, es[2..], next))), pages))
  {
    PartOrder(es, 0, 2);
    PartOrder(es, 2, 4);
    assert es[2..4] == es[2..] && es[0..2] == es[..2];
    forall x | x in KeySet(Leaf(pid, es[..2], right)) ensures x <= es[2].key {
      var j :| 0 <= j < 2 && es[..2][j].key == x;
      assert KeysOf(es)[j] <= KeysOf(es)[2];
    }
  }

  lemma KidCapped(keys: seq<int>, kids: seq<Tree>, i: nat, k: int, c: InsertResult)
    requires Taking(keys, kids, i, k) && Grew(kids[i], k, c)
    ensures Caps(keys, kids[i := c.left])
    ensures c.split.Some? && i < |keys| ==> AtMost(c.split.value.right, Some(keys[i]))
  {
    if i < |keys| {
      forall x | x in SplitKeys(c) ensures x <= keys[i] {
        KidRange(keys, kids, i, k, x);
      }
    }
  }

  lemma SplitCapped(keys: seq<int>, kids: seq<Tree>, i: nat, k: int, c: InsertResult)
    requires Taking(keys, kids, i, k) && Grew(kids[i], k, c) && c.split.Some? && GrewWeak(c)
    requires !Jumps(keys, kids, i, c.split.value.key)
    ensures Caps(NewKeys(keys, c.split.value.key), NewKids(keys, kids, i, c.left, c.split.value))
  {
    hide Grew, GrewWeak, Jumps, Caps, SlotFor, NonDecreasing, AtMost, Taking;
    TakingOrder(keys, kids, i, k);
    var s := c.split.value;
    var p := SlotFor(keys, s.key);
    PromotedKey(kids[i], k, c);
    KidCapped(keys, kids, i, k, c);
    SlotPast(keys, kids, i, k, s.key);
    LeftCapped(keys, kids, i, c);
    if p < |keys| {
      RightCapped(keys, s, i, p);
    }
    CapsInserted(keys, kids[i := c.left], s);
  }

  lemma TakingOrder(keys: seq<int>, kids: seq<Tree>, i: nat, k: int)
    requires Taking(keys, kids, i, k)
    ensures i < |kids| == |keys| + 1 && NonDecreasing(keys)
  {
  }

  lemma PromotedKey(t: Tree, k: int, c: InsertResult)
    requires Grew(t, k, c) && c.split.Some?
    ensures c.split.value.key in KeySet(t) + {k}
  {
    assert c.split.value.key in SplitKeys(c);
  }

  lemma LeftCapped(keys: seq<int>, kids: seq<Tree>, i: nat, c: InsertResult)
    requires |kids| == |keys| + 1 && c.split.Some? && GrewWeak(c)
    requires !Jumps(keys, kids, i, c.split.value.key) && i <= SlotFor(keys, c.split.value.key)
    ensures
      var s := c.split.value.key;
      AtMost(kids[i := c.left][SlotFor(keys, s)], Some(s))
  {
  }

  lemma RightCapped(keys: seq<int>, s: Split, i: nat, p: nat)
    requires NonDecreasing(keys) && i <= p < |keys| && AtMost(s.right, Some(keys[i]))
    ensures AtMost(s.right, Some(keys[p]))
  {
    assert keys[i] <= keys[p];
  }

  lemma CapsInserted(keys: seq<int>, kids: seq<Tree>, s: Split)
    requires |kids| == |keys| + 1 && Caps(keys, kids)
    requires
      var p := SlotFor(keys, s.key);
      AtMost(kids[p], Some(s.key)) && (p < |keys| ==> AtMost(s.right, Some(keys[p])))
    ensures Caps(NewKeys(keys, s.key), InsertAt(kids, SlotFor(keys, s.key) + 1, s.right))
  {
    hide AtMost, SlotFor;
    var p := SlotFor(keys, s.key);
    var keys', kids' := NewKeys(keys, s.key), InsertAt(kids, p + 1, s.right);
    forall j | 0 <= j < |keys'| ensures AtMost(kids'[j], Some(keys'[j])) {
      if j > p + 1 {
        assert keys'[j] == keys[j - 1] && kids'[j] == kids[j - 1];
      } else if j == p + 1 {
        assert keys'[j] == keys[p] && kids'[j] == s.right;
      } else if j < p {
        assert keys'[j] == keys[j] && kids'[j] == kids[j];
      }
    }
  }

  lemma HalvedWeak(pid: int, keys: seq<int>, kids: seq<Tree>, pages: nat)
    requires Fences(keys, kids) && Caps(keys, kids) && AllWeak(kids) && |keys| <= 4
    ensures GrewWeak(Halved(pid, keys, kids, pages))
  {
    if |keys| == 4 {
      HalvesFenced(keys, kids, 0);
      HalvesCapped(keys, kids, pid);
      assert kids[3..][0] == kids[3] && kids[3..][1] == kids[4];
      assert AllWeak(kids[..3]) && AllWeak(kids[3..]);
    }
  }

  lemma HalvesCapped(keys: seq<int>, kids: seq<Tree>, pid: int)
    requires |kids| == |keys| + 1 && |keys| == 4 && NonDecreasing(keys) && Caps(keys, kids)
    ensures Caps(keys[..2], kids[..3]) && Caps(keys[3..], kids[3..])
    ensures AtMost(Inner(pid, keys[..2], kids[..3]), Some(keys[2]))
  {
    assert kids[3..][0] == kids[3] && keys[3..][0] == keys[3];
    var l := Inner(pid, keys[..2], kids[..3]);
    forall x | x in KeySet(l) ensures x <= keys[2] {
      var j :| 0 <= j < 3 && x in KeySet(l.kids[j]);
      assert l.kids[j] == kids[j] && AtMost(kids[j], Some(keys[j])) && keys[j] <= keys[2];
    }
  }

  lemma NewKidsWeak(keys: seq<int>, kids: seq<Tree>, i: nat, c: InsertResult)
    requires i < |kids| == |keys| + 1 && AllWeak(kids) && GrewWeak(c) && c.split.Some?
    ensures AllWeak(NewKids(keys, kids, i, c.left, c.split.value))
  {
  }

  lemma NodeWeak(t: Tree, h: nat, k: int, c: InsertResult, pages: nat)
    requires t.Inner? && Shaped(t, h) && Taking(t.keys, t.kids, Route(t.keys, k), k) && AllWeak(t.kids)
    requires
      var i := Route(t.keys, k);
      Grew(t.kids[i], k, c) && (t.kids[i].Leaf? ==> t.kids[i].entries != []) && GrewWeak(c) &&
      c.split.Some? && AllShaped(t.kids[i := c.left], h - 1) && Shaped(c.split.value.right, h - 1) &&
      !Jumps(t.keys, t.kids, i, c.split.value.key)
    ensures
      GrewWeak(Absorb(t.pid, h, t.keys, t.kids[Route(t.keys, k) := c.left], c.split.value, pages, Repaired))
  {
    var i, s := Route(t.keys, k), c.split.value;
    var keys', kids' := NewKeys(t.keys, s.key), NewKids(t.keys, t.kids, i, c.left, s);
    assert 1 <= |t.keys| <= MAX_KEYS;
    AbsorbHalves(t, h, i, c, pages);
    SplitFenced(t.keys, t.kids, i, k, c);
    SplitCapped(t.keys, t.kids, i, k, c);
    NewKidsWeak(t.keys, t.kids, i, c);
    hide Fences, Caps, AllWeak, Absorb, Grew, Taking, Shaped, Halved, GrewWeak, Jumps;
    HalvedWeak(t.pid, keys', kids', pages);
  }

  lemma KidWeak(t: Tree, h: nat, k: int, c: InsertResult)
    requires t.Inner? && Taking(t.keys, t.kids, Route(t.keys, k), k) && AllWeak(t.kids)
    requires
      var i := Route(t.keys, k);
      Grew(t.kids[i], k, c) && (t.kids[i].Leaf? ==> t.kids[i].entries != []) && c.split.None? && GrewWeak(c)
    ensures GrewWeak(InsertResult(Inner(t.pid, t.keys, t.kids[Route(t.keys, k) := c.left]), None, c.pages))
  {
    KidFenced(t.keys, t.kids, Route(t.keys, k), k, c);
    KidCapped(t.keys, t.kids, Route(t.keys, k), k, c);
  }

  lemma StraysStep(t: Tree, h: nat, k: int, rid: RID, pages: nat, i: nat, c: InsertResult)
    requires t.Inner? && Shaped(t, h) && i == Route(t.keys, k) && RootShaped(t.kids[i], h - 1)
    requires c == Ins(t.kids[i], h - 1, k, rid, pages, Repaired)
    ensures Strays(t, h, k, rid, pages)
       <==> (Strays(t.kids[i], h - 1, k, rid, pages) || (c.split.Some? && Jumps(t.keys, t.kids, i, c.split.value.key)))
  {
    hide Ins, Jumps, Route;
  }

  lemma KidsWeak(t: Tree)
    requires t.Inner? && Weak(t)
    ensures AllWeak(t.kids)
  {
  }

  /** An insert that does not stray keeps the tree in order. */
  lemma {:induction false} InsWeak(t: Tree, h: nat, k: int, rid: RID, pages: nat)
    requires RootShaped(t, h) && Weak(t) && !Strays(t, h, k, rid, pages)
    ensures GrewWeak(Ins(t, h, k, rid, pages, Repaired))
    decreases h
  {
    hide Weak, Taking, AllWeak, Grew, Ins, Absorb, KeySet, Shaped, AllShaped, Strays, Jumps, GrewWeak, RootShaped;
    if t.Leaf? {
      LeafIns(t, h, k, rid, pages);
      LeafWeak(t, k, rid, pages);
    } else {
      var i := Route(t.keys, k);
      InnerShaped(t, h);
      WeakKid(t, h, i);
      TakingIs(t, h, k);
      KidsWeak(t);
      var c := Ins(t.kids[i], h - 1, k, rid, pages, Repaired);
      InsFenced(t.kids[i], h - 1, k, rid, pages);
      StraysStep(t, h, k, rid, pages, i, c);
      InsStep(t, h, k, rid, pages, Repaired, i, c, t.kids[i := c.left]);
      InsWeak(t.kids[i], h - 1, k, rid, pages);
      if c.split.Some? {
        NodeWeak(t, h, k, c, c.pages);
      } else {
        KidWeak(t, h, k, c);
      }
    }
  }
}
