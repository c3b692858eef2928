/**
  The index agrees with a map: an insert into an ordered tree is an insert into the sorted
  list of its entries, and a point scan is a lookup in that list.
 */
module IndexOrder {
  import opened BPlusTree
  import opened SortedEntries

  /** The entries of a tree, left to right. */
  ghost function Flat(t: Tree): seq<Entry>
    decreases t, 1
  {
    match t
    case Leaf(_, es, _) => es
    case Inner(_, _, kids) => FlatAll(kids)
  }

  ghost function FlatAll(ts: seq<Tree>): seq<Entry>
    decreases ts, 0
  {
    if ts == [] then [] else Flat(ts[0]) + FlatAll(ts[1..])
  }

  /** Each separator is the least key of the subtree to its right. */
  ghost predicate Separated(t: Tree) {
    t.Inner? ==>
      && |t.kids| == |t.keys| + 1
      && (forall i :: 0 <= i < |t.kids| ==> Separated(t.kids[i]))
      && SeparatesKids(t.keys, t.kids)
  }

  ghost predicate SeparatesKids(keys: seq<int>, kids: seq<Tree>)
    requires |kids| == |keys| + 1
  {
    forall i :: 0 < i < |kids| ==> Flat(kids[i]) != [] && keys[i - 1] == Flat(kids[i])[0].key
  }

  ghost predicate Ordered(t: Tree) {
    Sorted(Flat(t)) && Separated(t)
  }

  // ---------- concatenations ----------

  lemma {:induction false} FlatConcat(a: seq<Tree>, b: seq<Tree>)
    ensures FlatAll(a + b) == FlatAll(a) + FlatAll(b)
  {
    if a == [] {
      assert a + b == b;
    } else {
      assert (a + b)[1..] == a[1..] + b;
      FlatConcat(a[1..], b);
    }
  }

  lemma FlatAround(ts: seq<Tree>, i: nat)
    requires i < |ts|
    ensures FlatAll(ts) == FlatAll(ts[..i]) + Flat(ts[i]) + FlatAll(ts[i + 1..])
  {
    assert ts == ts[..i] + ts[i..];
    FlatConcat(ts[..i], ts[i..]);
  }

  lemma FlatMember(ts: seq<Tree>, i: nat, e: Entry)
    requires i < |ts| && e in Flat(ts[i])
    ensures e in FlatAll(ts)
  {
    FlatAround(ts, i);
  }

  /** A tree h levels high holds at least 2^(h+1) entries. */
  function Pow2(n: nat): (p: nat)
    ensures p > 0
  {
    if n == 0 then 1 else 2 * Pow2(n - 1)
  }

  lemma {:induction false} HeightBound(t: Tree, h: nat)
    requires Shaped(t, h)
    ensures |Flat(t)| >= Pow2(h + 1)
    decreases h
  {
    if t.Inner? {
      assert AllShaped(t.kids, h - 1);
      HeightBound(t.kids[0], h - 1);
      HeightBound(t.kids[1], h - 1);
      FlatAround(t.kids, 1);
      FlatAround(t.kids[..1], 0);
    }
  }

  lemma ShapedNonempty(t: Tree, h: nat)
    requires Shaped(t, h)
    ensures Flat(t) != []
  {
    HeightBound(t, h);
  }

  lemma SortedParts(a: seq<Entry>, b: seq<Entry>, c: seq<Entry>)
    requires Sorted(a + b + c)
    ensures Sorted(a) && Sorted(b) && Sorted(c)
    ensures forall x, y :: x in a && y in b ==> x.key < y.key
    ensures forall x, y :: x in b && y in c ==> x.key < y.key
    ensures forall x, y :: x in a && y in c ==> x.key < y.key
  {
    var s := a + b + c;
    assert forall i :: 0 <= i < |a| ==> a[i] == s[i];
    assert forall i :: 0 <= i < |b| ==> b[i] == s[|a| + i];
    assert forall i :: 0 <= i < |c| ==> c[i] == s[|a| + |b| + i];
  }

  lemma OrderedKid(t: Tree, h: nat, i: nat)
    requires t.Inner? && Shaped(t, h) && Ordered(t) && i < |t.kids|
    ensures Shaped(t.kids[i], h - 1) && Ordered(t.kids[i])
    ensures Sorted(FlatAll(t.kids[..i]) + Flat(t.kids[i]) + FlatAll(t.kids[i + 1..]))
    ensures Flat(t) == FlatAll(t.kids[..i]) + Flat(t.kids[i]) + FlatAll(t.kids[i + 1..])
  {
    assert AllShaped(t.kids, h - 1);
    FlatAround(t.kids, i);
    SortedParts(FlatAll(t.kids[..i]), Flat(t.kids[i]), FlatAll(t.kids[i + 1..]));
  }

  /** The key under a separator belongs to the tree. */
  lemma SeparatorEntry(t: Tree, h: nat, j: nat)
    requires t.Inner? && Shaped(t, h) && Ordered(t) && j < |t.keys|
    ensures HasKey(Flat(t), t.keys[j])
  {
    FlatMember(t.kids, j + 1, Flat(t.kids[j + 1])[0]);
  }

  /** Child i is the only place for a key between its two separators. */
  lemma Neighbours(t: Tree, h: nat, i: nat, k: int)
    requires t.Inner? && Shaped(t, h) && Ordered(t) && i < |t.kids|
    requires i > 0 ==> t.keys[i - 1] <= k
    requires i < |t.keys| ==> k < t.keys[i]
    ensures AllBelow(FlatAll(t.kids[..i]), k)
    ensures AllAbove(FlatAll(t.kids[i + 1..]), k)
  {
    OrderedKid(t, h, i);
    var a, b, c := FlatAll(t.kids[..i]), Flat(t.kids[i]), FlatAll(t.kids[i + 1..]);
    SortedParts(a, b, c);
    if i > 0 {
      assert b[0] in b;
    }
    if i < |t.keys| {
      OrderedKid(t, h, i + 1);
      FlatAround(t.kids[i + 1..], 0);
      var first := Flat(t.kids[i + 1])[0];
      assert c[0] == first;
      assert forall y :: y in c ==> first.key <= y.key;
    }
  }

  // ---------- the point scan ----------

  /** A scan of an ordered tree returns what the sorted list associates with the key. */
  lemma {:induction false} LookupIsFind(t: Tree, h: nat, k: int)
    requires RootShaped(t, h) && Ordered(t)
    ensures Lookup(t, h, k) == Find(Flat(t), k)
    decreases h
  {
    if t.Inner? {
      var i := ScanRoute(t.keys, k);
      OrderedKid(t, h, i);
      LookupIsFind(t.kids[i], h - 1, k);
      Neighbours(t, h, i, k);
      FindSkips(FlatAll(t.kids[..i]), Flat(t.kids[i]), FlatAll(t.kids[i + 1..]), k);
    }
  }
}
