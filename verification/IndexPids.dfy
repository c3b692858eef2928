/** Every node of the tree lives on a page of its own, and an insert only adds fetched pages. */
module IndexPids {
  import opened StorageTypes
  import opened BPlusTree

  ghost function Pids(t: Tree): set<int>
    decreases t, 1
  {
    match t
    case Leaf(pid, _, _) => {pid}
    case Inner(pid, _, kids) => {pid} + PidsAll(kids)
  }

  ghost function PidsAll(ts: seq<Tree>): set<int>
    decreases ts, 0
  {
    set i, p | 0 <= i < |ts| && p in Pids(ts[i]) :: p
  }

  /** No page is used twice. */
  ghost predicate Distinct(t: Tree)
    decreases t, 1
  {
    t.Inner? ==> t.pid !in PidsAll(t.kids) && DistinctAll(t.kids)
  }

  ghost predicate DistinctAll(ts: seq<Tree>)
    decreases ts, 0
  {
    && (forall i :: 0 <= i < |ts| ==> Distinct(ts[i]))
    && (forall i, j :: 0 <= i < j < |ts| ==> Pids(ts[i]) !! Pids(ts[j]))
  }

  ghost predicate Within(ps: set<int>, lo: int, hi: int) {
    forall p :: p in ps ==> lo <= p < hi
  }

  /** The pages after an insert: the old ones, or fetched ones. */
  ghost predicate Fetched(r: InsertResult, was: set<int>, pages: nat) {
    && Distinct(r.left)
    && (forall p :: p in Pids(r.left) ==> p in was || pages <= p < r.pages)
    && (r.split.Some? ==>
          && Distinct(r.split.value.right)
          && Pids(r.left) !! Pids(r.split.value.right)
          && forall p :: p in Pids(r.split.value.right) ==> p in was || pages <= p < r.pages)
  }

  lemma DistinctParts(ts: seq<Tree>, lo: nat, hi: nat)
    requires DistinctAll(ts) && lo <= hi <= |ts|
    ensures DistinctAll(ts[lo..hi]) && PidsAll(ts[lo..hi]) <= PidsAll(ts)
    ensures PidsAll(ts[..lo]) !! PidsAll(ts[lo..hi])
  {
  }

  lemma AbsorbFetched(pid: int, h: nat, keys: seq<int>, kids: seq<Tree>, s: Split, pages: nat, copy: SplitCopy,
                      was: set<int>, base: nat)
    requires |kids| == |keys| + 1 && 1 <= |keys| <= MAX_KEYS && h > 0
    requires Shaped(s.right, h - 1) && AllShaped(kids, h - 1)
    requires DistinctAll(kids) && Distinct(s.right) && Pids(s.right) !! PidsAll(kids)
    requires pid in was && pid !in PidsAll(kids) && pid !in Pids(s.right) && pid < base <= pages
    requires forall p :: p in PidsAll(kids) || p in Pids(s.right) ==> p in was || base <= p < pages
    requires Within(was, 0, base)
    ensures Fetched(Absorb(pid, h, keys, kids, s, pages, copy), was, base)
  {
    hide Shaped, AllShaped, SlotFor, DistinctAll, PidsAll, InsertAt;
    var p := SlotFor(keys, s.key);
    var keys', kids' := InsertAt(keys, p, s.key), InsertAt(kids, p + 1, s.right);
    KidsFetched(kids, p + 1, s.right);
    assert pid !in PidsAll(kids') && forall x :: x in PidsAll(kids') ==> x in was || base <= x < pages;
    if |keys| == MAX_KEYS {
      DistinctHalves(kids');
      InnerPids(pid, keys'[..2], kids'[..3]);
      InnerPids(pages, if copy.Repaired? then keys'[3..] else keys'[2..3], kids'[3..]);
    } else {
      InnerPids(pid, keys', kids');
    }
  }

  lemma InnerPids(pid: int, keys: seq<int>, kids: seq<Tree>)
    ensures Pids(Inner(pid, keys, kids)) == {pid} + PidsAll(kids)
    ensures Distinct(Inner(pid, keys, kids)) <==> pid !in PidsAll(kids) && DistinctAll(kids)
  {
  }

  lemma DistinctHalves(kids: seq<Tree>)
    requires |kids| == 5 && DistinctAll(kids)
    ensures DistinctAll(kids[..3]) && DistinctAll(kids[3..]) && PidsAll(kids[..3]) !! PidsAll(kids[3..])
    ensures PidsAll(kids[..3]) <= PidsAll(kids) && PidsAll(kids[3..]) <= PidsAll(kids)
  {
    DistinctParts(kids, 0, 3);
    DistinctParts(kids, 3, 5);
    assert kids[3..5] == kids[3..] && kids[0..3] == kids[..3];
  }

  lemma KidsFetched(kids: seq<Tree>, p: nat, r: Tree)
    requires p <= |kids| && DistinctAll(kids) && Distinct(r) && Pids(r) !! PidsAll(kids)
    ensures DistinctAll(InsertAt(kids, p, r))
    ensures PidsAll(InsertAt(kids, p, r)) == PidsAll(kids) + Pids(r)
  {
    var kids' := InsertAt(kids, p, r);
    forall i, j | 0 <= i < j < |kids'| ensures Pids(kids'[i]) !! Pids(kids'[j]) {
    }
    forall i | 0 <= i < |kids'| ensures Distinct(kids'[i]) {
    }
    forall x | x in PidsAll(kids) + Pids(r) ensures x in PidsAll(kids') {
      if x in Pids(r) {
        assert x in Pids(kids'[p]);
      } else {
        var i :| 0 <= i < |kids| && x in Pids(kids[i]);
        assert x in Pids(kids'[if i < p then i else i + 1]);
      }
    }
  }

  lemma KidFetched(kids: seq<Tree>, i: nat, l: Tree, was: set<int>, base: nat, pages: nat)
    requires i < |kids| && DistinctAll(kids) && Distinct(l) && PidsAll(kids) <= was && Within(was, 0, base)
        && base <= pages
    requires forall p :: p in Pids(l) ==> p in Pids(kids[i]) || base <= p < pages
    ensures DistinctAll(kids[i := l])
    ensures forall p :: p in PidsAll(kids[i := l]) ==> p in PidsAll(kids) || base <= p < pages
  {
    var kids' := kids[i := l];
    forall a, b | 0 <= a < b < |kids'| ensures Pids(kids'[a]) !! Pids(kids'[b]) {
      assert Pids(kids[a]) !! Pids(kids[b]);
      assert a != i ==> Pids(kids[a]) <= was;
      assert b != i ==> Pids(kids[b]) <= was;
    }
    forall p | p in PidsAll(kids') ensures p in PidsAll(kids) || base <= p < pages {
      var a :| 0 <= a < |kids'| && p in Pids(kids'[a]);
    }
  }

  /** Insert keeps pages distinct; it only uses pages fetched during this insert. */
  lemma {:induction false} InsFetched(t: Tree, h: nat, k: int, rid: RID, pages: nat, copy: SplitCopy)
    requires RootShaped(t, h) && Distinct(t) && Within(Pids(t), 0, pages)
    ensures Fetched(Ins(t, h, k, rid, pages, copy), Pids(t), pages)
    decreases h
  {
    if t.Inner? {
      var i := Route(t.keys, k);
      assert AllShaped(t.kids, h - 1);
      assert Pids(t.kids[i]) <= PidsAll(t.kids);
      hide Absorb, Route;
      InsFetched(t.kids[i], h - 1, k, rid, pages, copy);
      var c := Ins(t.kids[i], h - 1, k, rid, pages, copy);
      var kids := t.kids[i := c.left];
      KidFetched(t.kids, i, c.left, Pids(t), pages, c.pages);
      if c.split.Some? {
        var s := c.split.value;
        assert Pids(s.right) !! PidsAll(kids) by {
          forall a, p | 0 <= a < |kids| && p in Pids(kids[a]) ensures p !in Pids(s.right) {
            if a != i {
              assert Pids(t.kids[a]) !! Pids(t.kids[i]);
              assert p in Pids(t);
            }
          }
        }
        AbsorbFetched(t.pid, h, t.keys, kids, s, c.pages, copy, Pids(t), pages);
      }
    }
  }

  /** The same for a whole insert. */
  lemma InsertKeepsPages(x: Index, k: int, rid: RID, copy: SplitCopy)
    requires RootShaped(x.root, x.height) && Distinct(x.root) && Within(Pids(x.root), 0, x.pages)
    ensures var y := Insert(x, k, rid, copy); Distinct(y.root) && Within(Pids(y.root), 0, y.pages)
  {
    InsFetched(x.root, x.height, k, rid, x.pages, copy);
    var c := Ins(x.root, x.height, k, rid, x.pages, copy);
    if c.split.Some? {
      GrownDistinct(c, Pids(x.root), x.pages);
    }
  }

  /** A root grown over the two halves takes a page of its own. */
  lemma GrownDistinct(c: InsertResult, before: set<int>, pages: nat)
    requires c.split.Some? && Fetched(c, before, pages) && Within(before, 0, pages) && 0 <= pages <= c.pages
    ensures
      var root := Inner(c.pages, [c.split.value.key], [c.left, c.split.value.right]);
      Distinct(root) && Within(Pids(root), 0, c.pages + 1)
  {
    PairDistinct(c.left, c.split.value.right);
    hide DistinctAll, PidsAll;
    InnerPids(c.pages, [c.split.value.key], [c.left, c.split.value.right]);
  }

  lemma PairDistinct(l: Tree, r: Tree)
    requires Distinct(l) && Distinct(r) && Pids(l) !! Pids(r)
    ensures DistinctAll([l, r]) && PidsAll([l, r]) == Pids(l) + Pids(r)
  {
    var ts := [l, r];
    assert ts[0] == l && ts[1] == r;
    assert forall i :: 0 <= i < |ts| ==> ts[i] == l || ts[i] == r;
  }
}
