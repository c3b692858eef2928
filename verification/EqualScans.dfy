/**
  Which of several rows under one key a scan returns: the first in the leaf it comes to. While the root
  is a leaf that is the row inserted first; for a run of one key of any length it is said which insert's.
 */
module EqualScans {
  import opened StorageTypes
  import opened BPlusTree
  import opened IndexOrder
  import opened IndexSplitAsWritten
  import opened IndexRuns
  import opened EqualKeys
  import opened HiddenKeys
  import opened EqualKeysAsWritten
  import opened StrayedRuns

  // ---------- the leaf a scan comes to ----------

  /** The descent for k, going past every separator not above it, ends in this leaf. */
  ghost predicate DescentEnds(t: Tree, k: int, leaf: Tree) {
    match t
    case Leaf(_, _, _) => leaf == t
    case Inner(_, keys, kids) =>
      exists i: nat ::
        && i < |kids| && i <= |keys| && DescentEnds(kids[i], k, leaf)
        && (forall j :: 0 <= j < i ==> keys[j] <= k) && (i < |keys| ==> k < keys[i])
  }

  /** The first entry under k has this row. */
  ghost predicate FirstUnder(es: seq<Entry>, k: int, rid: RID) {
    exists i :: 0 <= i < |es| && es[i] == Entry(k, rid) && forall j :: 0 <= j < i ==> es[j].key != k
  }

  lemma {:induction false} FindFirst(es: seq<Entry>, k: int)
    ensures match Find(es, k)
      case None => forall i :: 0 <= i < |es| ==> es[i].key != k
      case Some(rid) => FirstUnder(es, k, rid)
  {
    if es != [] {
      FindFirst(es[1..], k);
      if es[0].key != k {
        match Find(es[1..], k)
        case None =>
          forall i | 0 <= i < |es| ensures es[i].key != k {
            assert i > 0 ==> es[1..][i - 1] == es[i];
          }
        case Some(rid) =>
          var i :| 0 <= i < |es[1..]| && es[1..][i] == Entry(k, rid) && forall j :: 0 <= j < i ==> es[1..][j].key != k;
          assert es[i + 1] == Entry(k, rid);
          forall j | 0 <= j < i + 1 ensures es[j].key != k {
            assert j > 0 ==> es[1..][j - 1] == es[j];
          }
      }
    }
  }

  /** A scan returns the first entry under its key in the leaf it comes to, and fails if there is none. */
  lemma {:induction false} ScanFirst(t: Tree, h: nat, k: int) returns (leaf: Tree)
    requires RootShaped(t, h)
    ensures leaf.Leaf? && DescentEnds(t, k, leaf)
    ensures match Lookup(t, h, k)
      case None => forall i :: 0 <= i < |leaf.entries| ==> leaf.entries[i].key != k
      case Some(rid) => FirstUnder(leaf.entries, k, rid)
    decreases h
  {
    hide FirstUnder, ScanRoute;
    if t.Leaf? {
      leaf := t;
      FindFirst(t.entries, k);
    } else {
      var i := ScanRoute(t.keys, k);
      LookupStep(t, h, k);
      leaf := ScanFirst(t.kids[i], h - 1, k);
    }
  }

  // ---------- while the root is a leaf ----------

  lemma {:induction false} FindJoined(a: seq<Entry>, b: seq<Entry>, k: int)
    ensures Find(a + b, k) == if Find(a, k).Some? then Find(a, k) else Find(b, k)
  {
    if a == [] {
      assert a + b == b;
    } else {
      assert (a + b)[1..] == a[1..] + b;
      FindJoined(a[1..], b, k);
    }
  }

  lemma FindOne(e: Entry, k: int)
    ensures Find([e], k) == if e.key == k then Some(e.rid) else None
  {
    assert [e][1..] == [];
  }

  /** A leaf in order takes a new entry behind those under its key. */
  lemma TakenBehind(es: seq<Entry>, e: Entry, k: int)
    requires NonDecreasing(KeysOf(es))
    ensures Find(InsertAt(es, SlotFor(KeysOf(es), e.key), e), k) == Find(es + [e], k)
  {
    var p := SlotFor(KeysOf(es), e.key);
    hide SlotFor, NonDecreasing, Find;
    FindOne(e, k);
    FindJoined(es[..p], [e] + es[p..], k);
    FindJoined([e], es[p..], k);
    FindJoined(es[..p], es[p..], k);
    FindJoined(es, [e], k);
    assert InsertAt(es, p, e) == es[..p] + ([e] + es[p..]) && es == es[..p] + es[p..];
    BehindAbove(es, e.key, p);
  }

  lemma BehindAbove(es: seq<Entry>, k: int, p: nat)
    requires p == SlotFor(KeysOf(es), k)
    ensures Find(es[p..], k).None?
  {
    FindFirst(es[p..], k);
    assert forall j :: p <= j < |es| ==> k < KeysOf(es)[j] == es[j].key;
  }

  lemma InnerStays(x: Index, e: Entry, copy: SplitCopy)
    requires RootShaped(x.root, x.height) && Insert(x, e.key, e.rid, copy).root.Leaf?
    ensures x.root.Leaf? && x.height == 0 && |x.root.entries| <= MAX_KEYS
    ensures
      var es := x.root.entries;
      Insert(x, e.key, e.rid, copy).root.entries == InsertAt(es, SlotFor(KeysOf(es), e.key), e)
  {
    hide SlotFor, Absorb, Route;
  }

  /** While the root is a leaf, a scan returns the row inserted first under its key. */
  lemma {:induction false} LeafScan(run: seq<Entry>, copy: SplitCopy, pages: nat, k: int)
    requires Build(run, copy, pages).root.Leaf?
    ensures Scan(Build(run, copy, pages), k) == Find(run, k)
    ensures match Scan(Build(run, copy, pages), k)
      case None => forall i :: 0 <= i < |run| ==> run[i].key != k
      case Some(rid) => FirstUnder(run, k, rid)
  {
    FindFirst(run, k);
    if run != [] {
      var before, e := run[..|run| - 1], run[|run| - 1];
      var x := Build(before, copy, pages);
      BuildStep(run, copy, pages);
      BuildFits(before, copy, pages);
      hide Build, Insert, FirstUnder, Find, SlotFor;
      InnerStays(x, e, copy);
      LeafScan(before, copy, pages, k);
      TakenBehind(x.root.entries, e, k);
      FindJoined(x.root.entries, [e], k);
      FindJoined(before, [e], k);
      assert before + [e] == run;
    }
  }

  // ---------- runs of one key ----------

  ghost predicate OneKey(run: seq<Entry>, k: int) {
    forall i :: 0 <= i < |run| ==> run[i].key == k
  }

  /** How often a node that takes x children, or entries, from the start on has split. */
  function Halves(x: nat): nat {
    if x < 4 then 0 else (x - 2) / 2
  }

  /** How many children have come to the leftmost node h levels above the leaves after n inserts of one key. */
  function Arrivals(h: nat, n: nat): nat {
    if h == 0 then n else Halves(Arrivals(h - 1, n))
  }

  /** The insert whose row a scan finds in arrival y at level h. */
  function Newest(h: nat, y: nat): nat
    requires h > 0
  {
    if h == 1 then 2 * y else Newest(h - 1, 2 * y + 2)
  }

  /** A scan for the run's key that comes to t returns the row of insert i. */
  ghost predicate Answering(t: Tree, h: nat, run: seq<Entry>, i: nat) {
    RootShaped(t, h) && i < |run| && Lookup(t, h, run[0].key) == Some(run[i].rid)
  }

  /** What the leftmost leaf holds. */
  function LeftEntries(run: seq<Entry>): seq<Entry> {
    if |run| <= 3 then run else run[..2] + if |run| % 2 == 1 then [run[|run| - 1]] else []
  }

  /** How many separators a node has after a arrivals: it splits at the fourth, and at every second after it. */
  function Separators(a: nat): nat {
    if a <= 3 then a else 2 + a % 2
  }

  ghost predicate AllAre(keys: seq<int>, k: int) {
    forall j :: 0 <= j < |keys| ==> keys[j] == k
  }

  /** The leftmost node at level h after this run: how many children it has, and which row the last of them gives. */
  ghost predicate Level(keys: seq<int>, kids: seq<Tree>, h: nat, run: seq<Entry>)
    requires h > 0
  {
    var a := Arrivals(h, |run|);
    && a > 0 && run != [] && |keys| == Separators(a) && |kids| == |keys| + 1 && AllAre(keys, run[0].key)
    && (a <= 3 ==> Answering(kids[a], h - 1, run, Newest(h, a)))
  }

  /** The leftmost subtree of height h after this run. */
  ghost predicate Spine(t: Tree, h: nat, run: seq<Entry>)
    decreases h
  {
    if h == 0 then t.Leaf? && t.entries == LeftEntries(run)
    else t.Inner? && Level(t.keys, t.kids, h, run) && Spine(t.kids[0], h - 1, run)
  }

  lemma SpineIs(pid: int, keys: seq<int>, kids: seq<Tree>, h: nat, run: seq<Entry>)
    requires h > 0 && Level(keys, kids, h, run) && Spine(kids[0], h - 1, run)
    ensures Spine(Inner(pid, keys, kids), h, run)
  {
    hide Level;
  }

  /** One more insert made this of the leftmost subtree. */
  ghost predicate SpineGrew(c: InsertResult, h: nat, run: seq<Entry>)
    requires run != []
  {
    var y := Arrivals(h + 1, |run|);
    && Spine(c.left, h, run) && (c.split.Some? <==> y > Arrivals(h + 1, |run| - 1))
    && (c.split.Some? ==> c.split.value.key == run[0].key && Answering(c.split.value.right, h, run, Newest(h + 1, y)))
  }

  lemma HalvesStep(x: nat)
    ensures Halves(x + 1) == Halves(x) + if x >= 3 && x % 2 == 1 then 1 else 0
  {
  }

  lemma {:induction false} ArrivalsStep(h: nat, n: nat)
    ensures Arrivals(h, n) <= Arrivals(h, n + 1) <= Arrivals(h, n) + 1
  {
    if h > 0 {
      ArrivalsStep(h - 1, n);
      HalvesStep(Arrivals(h - 1, n));
    }
  }

  lemma SlotBehind(keys: seq<int>, k: int)
    requires forall j :: 0 <= j < |keys| ==> keys[j] == k
    ensures SlotFor(keys, k) == |keys| && Route(keys, k) == 0 && ScanRoute(keys, k) == |keys|
  {
    SlotIs(keys, k, |keys|);
    RouteIs(keys, k, |keys|);
  }

  lemma LeafGrows(t: Tree, run: seq<Entry>, e: Entry, pages: nat)
    requires Spine(t, 0, run) && OneKey(run + [e], e.key)
    ensures |t.entries| <= MAX_KEYS && SpineGrew(InsLeaf(t, e.key, e.rid, pages), 0, run + [e])
  {
    var es, all := t.entries, run + [e];
    LeafAppends(t, run, e, pages);
    hide SlotFor, InsLeaf;
    HalvesStep(|run|);
    assert Arrivals(0, |all|) == |all| && Arrivals(0, |run|) == |run|;
    assert Arrivals(1, |all|) == Halves(|all|) && Arrivals(1, |run|) == Halves(|run|);
    assert all[0].key == e.key;
    if |es| == MAX_KEYS {
      LeafSplits(run, e, es);
      assert run[|run| - 1] == all[|run| - 1];
      FirstOfTwo(run[|run| - 1], e, e.key);
      assert Newest(1, Halves(|all|)) == |run| - 1;
    } else {
      LeafTakesOne(run, e, es);
    }
  }

  lemma FirstOfTwo(a: Entry, b: Entry, k: int)
    requires a.key == k
    ensures Find([a, b], k) == Some(a.rid)
  {
  }

  /** Its one key makes a leaf append. */
  lemma LeafAppends(t: Tree, run: seq<Entry>, e: Entry, pages: nat)
    requires t.Leaf? && t.entries == LeftEntries(run) && OneKey(run + [e], e.key)
    ensures |t.entries| <= MAX_KEYS
    ensures
      var es := t.entries + [e];
      InsLeaf(t, e.key, e.rid, pages)
      == if |t.entries| < MAX_KEYS then InsertResult(Leaf(t.pid, es, t.next), None, pages)
         else InsertResult(Leaf(t.pid, es[..2], pages), Some(Split(es[2].key, Leaf(pages, es[2..], t.next))), pages + 1)
  {
    forall j | 0 <= j < |run| ensures run[j].key == e.key {
      assert (run + [e])[j] == run[j];
    }
    SlotBehind(KeysOf(t.entries), e.key);
    assert InsertAt(t.entries, |t.entries|, e) == t.entries + [e];
  }

  lemma LeafTakesOne(run: seq<Entry>, e: Entry, es: seq<Entry>)
    requires es == LeftEntries(run) && |es| < 3
    ensures es + [e] == LeftEntries(run + [e]) && !(|run| >= 3 && |run| % 2 == 1)
  {
    if |run| > 3 {
      assert (run + [e])[..2] == run[..2];
    }
  }

  lemma LeafSplits(run: seq<Entry>, e: Entry, es: seq<Entry>)
    requires es == LeftEntries(run) && |es| == 3
    ensures |run| >= 3 && |run| % 2 == 1
    ensures (es + [e])[..2] == LeftEntries(run + [e]) && (es + [e])[2..] == [run[|run| - 1], e]
  {
    assert (run + [e])[..2] == run[..2];
  }

  lemma AnsweringOn(t: Tree, h: nat, run: seq<Entry>, i: nat, e: Entry)
    requires Answering(t, h, run, i)
    ensures Answering(t, h, run + [e], i)
  {
    hide RootShaped, Lookup;
  }

  /** A node of one key, with its last arrival, kept whole or cut. */
  lemma CutSpine(copy: SplitCopy, pid: int, keys: seq<int>, kids: seq<Tree>, pages: nat, h: nat, run: seq<Entry>)
    requires h > 0 && run != [] && |kids| == |keys| + 1 && AllShaped(kids, h - 1)
    requires
      var a := Arrivals(h, |run|);
      && a >= 2 && |keys| == Separators(a - 1) + 1 && AllAre(keys, run[0].key)
      && Spine(kids[0], h - 1, run) && Answering(kids[|keys|], h - 1, run, Newest(h, a))
    requires Arrivals(h, |run| - 1) == Arrivals(h, |run|) - 1
    ensures SpineGrew(Cut(copy, pid, keys, kids, pages), h, run)
  {
    hide RootShaped, Shaped, AllShaped, Lookup, Newest, Spine, Answering, Cut, Halves, SpineGrew;
    var a := Arrivals(h, |run|);
    NextArrival(h, |run|);
    if |keys| == 4 {
      assert kids[..3][0] == kids[0];
      var right := if copy.Repaired? then keys[3..] else [keys[2]];
      RightAnswers(right, kids, h, run, Newest(h, a), pages);
      NewestNext(h, Halves(a));
      CutEqual(keys, kids, copy, pid, pages);
      SpineIs(pid, keys[..2], kids[..3], h, run);
      GrewSplit(Inner(pid, keys[..2], kids[..3]), keys[2], Inner(pages, right, kids[3..]), pages + 1, h, run);
    } else {
      CutWhole(keys, kids, copy, pid, pages);
      SpineIs(pid, keys, kids, h, run);
      GrewWhole(Inner(pid, keys, kids), pages + 1, h, run);
    }
  }

  /** The next level gets an arrival when this one's node splits. */
  lemma NextArrival(h: nat, n: nat)
    requires n > 0 && Arrivals(h, n - 1) == Arrivals(h, n) - 1
    ensures
      var a := Arrivals(h, n);
      && Arrivals(h + 1, n) == Halves(a)
      && (Separators(a - 1) + 1 == 4 ==>
            Arrivals(h + 1, n - 1) < Halves(a) && Separators(a) == 2 && a > 3 && a == 2 * Halves(a) + 2)
      && (Separators(a - 1) + 1 < 4 ==> Arrivals(h + 1, n - 1) == Halves(a) && Separators(a) == Separators(a - 1) + 1)
      && (a <= 3 ==> Separators(a) == a) && Separators(a - 1) + 1 <= 4
  {
    HalvesStep(Arrivals(h, n) - 1);
    assert Arrivals(h + 1, n) == Halves(Arrivals(h, n)) && Arrivals(h + 1, n - 1) == Halves(Arrivals(h, n - 1));
  }

  lemma GrewSplit(l: Tree, s: int, r: Tree, pages: nat, h: nat, run: seq<Entry>)
    requires run != [] && Spine(l, h, run) && s == run[0].key && Arrivals(h + 1, |run|) > Arrivals(h + 1, |run| - 1)
    requires Answering(r, h, run, Newest(h + 1, Arrivals(h + 1, |run|)))
    ensures SpineGrew(InsertResult(l, Some(Split(s, r)), pages), h, run)
  {
    hide Spine, Answering, Arrivals, Newest;
  }

  lemma GrewWhole(l: Tree, pages: nat, h: nat, run: seq<Entry>)
    requires run != [] && Spine(l, h, run) && Arrivals(h + 1, |run|) == Arrivals(h + 1, |run| - 1)
    ensures SpineGrew(InsertResult(l, None, pages), h, run)
  {
    hide Spine, Answering, Arrivals, Newest;
  }

  lemma NewestNext(h: nat, y: nat)
    requires h > 0
    ensures Newest(h + 1, y) == Newest(h, 2 * y + 2)
  {
  }

  lemma CutEqual(keys: seq<int>, kids: seq<Tree>, copy: SplitCopy, pid: int, pages: nat)
    requires |keys| == 4 && |kids| == 5
    ensures
      var right := Inner(pages, if copy.Repaired? then keys[3..] else [keys[2]], kids[3..]);
      Cut(copy, pid, keys, kids, pages)
      == InsertResult(Inner(pid, keys[..2], kids[..3]), Some(Split(keys[2], right)), pages + 1)
  {
  }

  lemma CutWhole(keys: seq<int>, kids: seq<Tree>, copy: SplitCopy, pid: int, pages: nat)
    requires |keys| <= 3 && |kids| == |keys| + 1
    ensures Cut(copy, pid, keys, kids, pages) == InsertResult(Inner(pid, keys, kids), None, pages + 1)
  {
  }

  /** The right half answers as its last child does. */
  lemma RightAnswers(keys: seq<int>, kids: seq<Tree>, h: nat, run: seq<Entry>, i: nat, pid: int)
    requires h > 0 && run != [] && |kids| == 5 && AllShaped(kids, h - 1) && |keys| == 1 && keys[0] == run[0].key
    requires Answering(kids[4], h - 1, run, i)
    ensures Answering(Inner(pid, keys, kids[3..]), h, run, i)
  {
    var t := Inner(pid, keys, kids[3..]);
    assert Shaped(kids[3], h - 1) && Shaped(kids[4], h - 1);
    assert t.kids[0] == kids[3] && t.kids[1] == kids[4];
    SlotBehind(keys, run[0].key);
    assert Shaped(t, h);
    LookupStep(t, h, run[0].key);
  }

  /** The same level, when its first child has not split. */
  lemma KeptSpine(t: Tree, h: nat, run: seq<Entry>, e: Entry, l: Tree, pages: nat)
    requires h > 0 && Spine(t, h, run) && Spine(l, h - 1, run + [e])
    requires Arrivals(h, |run| + 1) == Arrivals(h, |run|)
    ensures SpineGrew(InsertResult(Inner(t.pid, t.keys, t.kids[0 := l]), None, pages), h, run + [e])
  {
    hide Answering, Separators, Newest, Arrivals, Halves, SpineGrew, Spine;
    SpineLevel(t, h, run);
    var a := Arrivals(h, |run|);
    assert (run + [e])[0] == run[0];
    SeparatorsFew(a);
    if a <= 3 {
      AnsweringOn(t.kids[a], h - 1, run, Newest(h, a), e);
    }
    SameNext(h, |run|);
    SpineIs(t.pid, t.keys, t.kids[0 := l], h, run + [e]);
    GrewWhole(Inner(t.pid, t.keys, t.kids[0 := l]), pages, h, run + [e]);
  }

  lemma SpineLevel(t: Tree, h: nat, run: seq<Entry>)
    requires h > 0 && Spine(t, h, run)
    ensures t.Inner? && Level(t.keys, t.kids, h, run) && Spine(t.kids[0], h - 1, run)
  {
    hide Level;
  }

  lemma SameNext(h: nat, n: nat)
    requires Arrivals(h, n + 1) == Arrivals(h, n)
    ensures Arrivals(h + 1, n + 1) == Arrivals(h + 1, n)
  {
  }

  lemma SeparatorsFew(a: nat)
    ensures a <= 3 ==> Separators(a) == a
    ensures Separators(a) <= 3
  {
  }

  /** And when it has. */
  lemma SplitSpine(t: Tree, h: nat, run: seq<Entry>, e: Entry, c: InsertResult, copy: SplitCopy, pages: nat)
    requires h > 0 && Spine(t, h, run) && SpineGrew(c, h - 1, run + [e]) && c.split.Some?
    requires AllShaped(t.kids[0 := c.left], h - 1) && Shaped(c.split.value.right, h - 1)
    ensures |t.kids| == |t.keys| + 1
    ensures
      var s := c.split.value;
      SpineGrew(Cut(copy, t.pid, NewKeys(t.keys, s.key), NewKids(t.keys, t.kids, 0, c.left, s), pages), h, run + [e])
  {
    hide Answering, Newest, Cut, Lookup, Shaped, AllShaped, Spine, SpineGrew, Halves, Separators;
    SpineLevel(t, h, run);
    GrewMeans(c, h - 1, run + [e]);
    var all, s, a := run + [e], c.split.value, Arrivals(h, |run|);
    assert all[0] == run[0];
    ArrivalsStep(h, |run|);
    assert Arrivals(h, |all|) == a + 1;
    SlotBehind(t.keys, s.key);
    var keys, kids := NewKeys(t.keys, s.key), NewKids(t.keys, t.kids, 0, c.left, s);
    hide SlotFor;
    assert keys == t.keys + [s.key] && kids == t.kids[0 := c.left] + [s.right];
    KidsAppended(t.kids[0 := c.left], s.right, h - 1);
    CutSpine(copy, t.pid, keys, kids, pages, h, all);
  }

  lemma KidsAppended(kids: seq<Tree>, r: Tree, h: nat)
    requires AllShaped(kids, h) && Shaped(r, h)
    ensures AllShaped(kids + [r], h)
  {
  }

  /** An insert of the one key grows the leftmost subtree. */
  lemma {:induction false} SpineIns(t: Tree, h: nat, run: seq<Entry>, e: Entry, pages: nat, copy: SplitCopy)
    requires RootShaped(t, h) && Spine(t, h, run) && OneKey(run + [e], e.key)
    ensures SpineGrew(Ins(t, h, e.key, e.rid, pages, copy), h, run + [e])
    decreases h
  {
    hide Ins, RootShaped, Shaped, AllShaped, Spine, SpineGrew, OneKey, Absorb, Cut;
    if h == 0 {
      LowestGrows(t, run, e, pages, copy);
    } else {
      SpineNode(t, h, run, e);
      InnerShaped(t, h);
      KidShaped(t, h, 0);
      SpineIns(t.kids[0], h - 1, run, e, pages, copy);
      var c := Ins(t.kids[0], h - 1, e.key, e.rid, pages, copy);
      InsStep(t, h, e.key, e.rid, pages, copy, 0, c, t.kids[0 := c.left]);
      GrewMeans(c, h - 1, run + [e]);
      if c.split.Some? {
        SplitSpine(t, h, run, e, c, copy, c.pages);
        AbsorbCuts(t, h, 0, c, c.pages, copy);
      } else {
        ArrivalsStep(h, |run|);
        KeptSpine(t, h, run, e, c.left, c.pages);
      }
    }
  }

  lemma GrewMeans(c: InsertResult, h: nat, run: seq<Entry>)
    requires run != [] && SpineGrew(c, h, run)
    ensures Spine(c.left, h, run) && (c.split.Some? <==> Arrivals(h + 1, |run|) > Arrivals(h + 1, |run| - 1))
    ensures c.split.Some? ==>
      && c.split.value.key == run[0].key
      && Answering(c.split.value.right, h, run, Newest(h + 1, Arrivals(h + 1, |run|)))
  {
    hide Spine, Answering, Arrivals, Newest;
  }

  lemma SpineNode(t: Tree, h: nat, run: seq<Entry>, e: Entry)
    requires h > 0 && Spine(t, h, run) && OneKey(run + [e], e.key)
    ensures t.Inner? && t.kids != [] && Spine(t.kids[0], h - 1, run) && Route(t.keys, e.key) == 0
  {
    assert (run + [e])[0] == run[0];
    SlotBehind(t.keys, e.key);
  }

  lemma LowestGrows(t: Tree, run: seq<Entry>, e: Entry, pages: nat, copy: SplitCopy)
    requires Spine(t, 0, run) && OneKey(run + [e], e.key) && RootShaped(t, 0)
    ensures SpineGrew(Ins(t, 0, e.key, e.rid, pages, copy), 0, run + [e])
  {
    LeafGrows(t, run, e, pages);
    hide InsLeaf, SpineGrew;
  }

  // ---------- whole trees ----------

  /** The tree after a run of one key: its root has not split yet. */
  ghost predicate Grown(x: Index, run: seq<Entry>) {
    RootShaped(x.root, x.height) && Spine(x.root, x.height, run) && Arrivals(x.height, |run|) <= 3
  }

  lemma GrownNext(x: Index, run: seq<Entry>, e: Entry, copy: SplitCopy)
    requires Grown(x, run) && OneKey(run + [e], e.key)
    ensures Grown(Insert(x, e.key, e.rid, copy), run + [e])
  {
    hide Ins, RootShaped, Spine, SpineGrew, OneKey, Arrivals;
    var all, c := run + [e], Ins(x.root, x.height, e.key, e.rid, x.pages, copy);
    SpineIns(x.root, x.height, run, e, x.pages, copy);
    GrewMeans(c, x.height, all);
    FirstSplit(x.height, |run|);
    if c.split.Some? {
      TopSpine(c, x.height, all);
    }
  }

  lemma FirstSplit(h: nat, n: nat)
    requires Arrivals(h, n) <= 3
    ensures Arrivals(h + 1, n) == 0 && Arrivals(h + 1, n + 1) <= 1
    ensures Arrivals(h + 1, n + 1) == 0 ==> Arrivals(h, n + 1) <= 3
  {
    ArrivalsStep(h + 1, n);
  }

  /** A root above the halves of one that has split. */
  lemma TopSpine(c: InsertResult, h: nat, run: seq<Entry>)
    requires run != [] && SpineGrew(c, h, run) && c.split.Some? && Arrivals(h + 1, |run|) == 1
    ensures Spine(Inner(c.pages, [c.split.value.key], [c.left, c.split.value.right]), h + 1, run)
  {
    hide Answering, Arrivals;
  }

  lemma {:induction false} BuildGrown(run: seq<Entry>, copy: SplitCopy, pages: nat, k: int)
    requires OneKey(run, k)
    ensures Grown(Build(run, copy, pages), run)
  {
    if run == [] {
      EmptyGrown(copy, pages);
    } else {
      var before, e := run[..|run| - 1], run[|run| - 1];
      assert before + [e] == run && OneKey(before, k) && OneKey(run, e.key);
      hide Insert, Grown, Build, OneKey;
      BuildGrown(before, copy, pages, k);
      BuildStep(run, copy, pages);
      GrownNext(Build(before, copy, pages), before, e, copy);
    }
  }

  lemma EmptyGrown(copy: SplitCopy, pages: nat)
    ensures Grown(Build([], copy, pages), [])
  {
  }

  /** Arrivals halve from level to level. */
  lemma {:induction false} ArrivalsAre(h: nat, n: nat)
    requires Arrivals(h, n) > 0
    ensures
      var q := Arrivals(h, n) + 2;
      q * Pow2(h) <= n + 2 < (q + 1) * Pow2(h)
  {
    if h > 0 {
      var q, b := Arrivals(h, n) + 2, Arrivals(h - 1, n) + 2;
      ArrivalsAre(h - 1, n);
      assert q == b / 2 && Pow2(h) == 2 * Pow2(h - 1);
      Halved2(q, b, Pow2(h - 1));
    }
  }

  lemma Halved2(q: nat, b: nat, p: nat)
    requires q == b / 2
    ensures q * (2 * p) <= b * p && (b + 1) * p <= (q + 1) * (2 * p)
  {
    assert 2 * q <= b <= 2 * q + 1;
    assert (2 * q) * p <= b * p && (b + 1) * p <= (2 * q + 2) * p;
  }

  lemma {:induction false} NewestIs(h: nat, y: nat)
    requires h > 0
    ensures Newest(h, y) + 4 == (y + 2) * Pow2(h)
    decreases h
  {
    assert Pow2(1) == 2 * Pow2(0);
    if h > 1 {
      NewestIs(h - 1, 2 * y + 2);
      assert (2 * y + 4) * Pow2(h - 1) == (y + 2) * (2 * Pow2(h - 1));
    }
  }

  lemma GrownAnswers(x: Index, run: seq<Entry>)
    requires Grown(x, run) && run != []
    ensures x.height > 0 ==>
      Arrivals(x.height, |run|) > 0
      && Answering(x.root, x.height, run, Newest(x.height, Arrivals(x.height, |run|)))
    ensures x.height == 0 ==> |run| <= 3 && Answering(x.root, 0, run, 0)
  {
    hide Newest;
    if x.height > 0 {
      var a := Arrivals(x.height, |run|);
      SlotBehind(x.root.keys, run[0].key);
      LookupStep(x.root, x.height, run[0].key);
    }
  }

  /**
    A run of one key, of any length and in either form of the split, scanned for that key. The answer is
    the first row while there are at most three; then, in a tree with h levels above its leaves, it is
    that of insert q * 2^h - 4, counted from 0, where q * 2^h is n + 2 without its low h binary digits.
   */
  lemma OneKeyAnswer(run: seq<Entry>, copy: SplitCopy, pages: nat) returns (h: nat, q: nat)
    requires run != [] && forall i :: 0 <= i < |run| ==> run[i].key == run[0].key
    ensures h == Build(run, copy, pages).height
    ensures |run| <= 3 ==> h == 0 && Scan(Build(run, copy, pages), run[0].key) == Some(run[0].rid)
    ensures |run| > 3 ==>
      && 3 <= q <= 5 && h > 0 && q * Pow2(h) <= |run| + 2 < (q + 1) * Pow2(h) && 4 <= q * Pow2(h)
      && Scan(Build(run, copy, pages), run[0].key) == Some(run[q * Pow2(h) - 4].rid)
  {
    var x := Build(run, copy, pages);
    BuildGrown(run, copy, pages, run[0].key);
    hide Build, Spine, RootShaped, Lookup, Newest, Arrivals, Pow2;
    GrownAnswers(x, run);
    h := x.height;
    q := Arrivals(h, |run|) + 2;
    if h > 0 {
      ArrivalsAre(h, |run|);
      NewestIs(h, Arrivals(h, |run|));
      TallMany(h, |run|);
    }
  }

  lemma {:induction false} TallMany(h: nat, n: nat)
    requires h > 0 && Arrivals(h, n) > 0
    ensures n > 3
  {
    if h > 1 {
      TallMany(h - 1, n);
    } else {
      assert Arrivals(0, n) == n;
    }
  }
}
