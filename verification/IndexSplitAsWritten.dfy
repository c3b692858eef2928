/**
  The internal split as the source has it. It copies the promoted separator into the right
  node, in place of the one above it, so the first child of the right node is never scanned
  again. An insert keeps the index right exactly when it does not split an internal node.
 */
module IndexSplitAsWritten {
  import opened StorageTypes
  import opened BPlusTree
  import opened SortedEntries
  import opened IndexOrder
  import opened IndexInsertion

  /** A scan only returns what is in the tree, however its separators are arranged. */
  lemma {:induction false} LookupFindsMembers(t: Tree, h: nat, k: int)
    requires RootShaped(t, h) && !HasKey(Flat(t), k)
    ensures Lookup(t, h, k).None?
    decreases h
  {
    if t.Leaf? {
      FindNone(t.entries, k);
    } else {
      var i := ScanRoute(t.keys, k);
      assert AllShaped(t.kids, h - 1);
      forall e | e in Flat(t.kids[i]) ensures e.key != k {
        FlatMember(t.kids, i, e);
      }
      LookupFindsMembers(t.kids[i], h - 1, k);
    }
  }

  /** No scan of either half of an insert's result finds k. */
  ghost predicate Misses(r: InsertResult, h: nat, k: int)
    requires RootShaped(r.left, h) && (r.split.Some? ==> RootShaped(r.split.value.right, h))
  {
    Lookup(r.left, h, k).None? && (r.split.Some? ==> Lookup(r.split.value.right, h, k).None?)
  }

  lemma NodeMisses(t: Tree, h: nat, k: int)
    requires t.Inner? && Shaped(t, h)
    requires forall i :: 0 <= i < |t.kids| ==> Shaped(t.kids[i], h - 1) && Lookup(t.kids[i], h - 1, k).None?
    ensures Lookup(t, h, k).None?
  {
  }

  /** A key hidden below one level stays hidden above it: it is in no other child. */
  lemma {:induction false} StaysLost(t: Tree, h: nat, k: int, rid: RID, pages: nat, copy: SplitCopy, lost: int)
    requires t.Inner? && Shaped(t, h) && Ordered(t)
    requires
      var i := Route(t.keys, k);
      RootShaped(t.kids[i], h - 1) &&
      var c := Ins(t.kids[i], h - 1, k, rid, pages, copy);
      Misses(c, h - 1, lost)
    requires lost == k || HasKey(Flat(t.kids[Route(t.keys, k)]), lost)
    requires !HasKey(Flat(t), k)
    ensures Misses(Ins(t, h, k, rid, pages, copy), h, lost)
  {
    hide Sorted, HasKey, Separated, Flat;
    var i := Route(t.keys, k);
    var c := Ins(t.kids[i], h - 1, k, rid, pages, copy);
    OthersMiss(t, h, i, k, lost);
    var kids := t.kids[i := c.left];
    assert AllShaped(kids, h - 1);
    var r := Ins(t, h, k, rid, pages, copy);
    if c.split.None? {
      NodeMisses(r.left, h, lost);
    } else {
      AbsorbMisses(t.pid, h, t.keys, kids, c.split.value, c.pages, copy, lost);
    }
  }

  lemma OthersMiss(t: Tree, h: nat, i: nat, k: int, lost: int)
    requires t.Inner? && Shaped(t, h) && Ordered(t) && i < |t.kids|
    requires !HasKey(Flat(t), k) && (lost == k || HasKey(Flat(t.kids[i]), lost))
    ensures forall j :: 0 <= j < |t.kids| && j != i ==> Shaped(t.kids[j], h - 1) && Lookup(t.kids[j], h - 1, lost).None?
  {
    assert AllShaped(t.kids, h - 1);
    forall j | 0 <= j < |t.kids| && j != i
      ensures Shaped(t.kids[j], h - 1) && Lookup(t.kids[j], h - 1, lost).None?
    {
      KidShaped(t, h, j);
      OtherLacks(t, h, i, k, lost, j);
      hide Shaped, RootShaped, Ordered, HasKey, Flat, Lookup;
      LookupFindsMembers(t.kids[j], h - 1, lost);
    }
  }

  /** A key of child i, or a new one, is in no other child. */
  lemma OtherLacks(t: Tree, h: nat, i: nat, k: int, lost: int, j: nat)
    requires t.Inner? && Shaped(t, h) && Ordered(t) && i < |t.kids| && j < |t.kids| && j != i
    requires !HasKey(Flat(t), k) && (lost == k || HasKey(Flat(t.kids[i]), lost))
    ensures !HasKey(Flat(t.kids[j]), lost)
  {
    if lost == k {
      KidLacks(t, j, k);
    } else {
      var f :| f in Flat(t.kids[i]) && f.key == lost;
      OrderedKid(t, h, i);
      SortedParts(FlatAll(t.kids[..i]), Flat(t.kids[i]), FlatAll(t.kids[i + 1..]));
      hide Shaped, Ordered, FlatAll, Flat, Sorted, HasKey;
      forall e | e in Flat(t.kids[j]) ensures e.key != lost {
        BesideKid(t.kids, i, j, e);
      }
      NoKey(Flat(t.kids[j]), lost);
    }
  }

  lemma NoKey(es: seq<Entry>, k: int)
    requires forall e :: e in es ==> e.key != k
    ensures !HasKey(es, k)
  {
  }

  /** An entry of another child is on its side of child i. */
  lemma BesideKid(kids: seq<Tree>, i: nat, j: nat, e: Entry)
    requires i < |kids| && j < |kids| && i != j && e in Flat(kids[j])
    ensures e in (if j < i then FlatAll(kids[..i]) else FlatAll(kids[i + 1..]))
  {
    hide Flat, FlatAll;
    if j < i {
      assert kids[..i][j] == kids[j];
      FlatMember(kids[..i], j, e);
    } else {
      assert kids[i + 1..][j - i - 1] == kids[j];
      FlatMember(kids[i + 1..], j - i - 1, e);
    }
  }

  lemma AbsorbMisses(pid: int, h: nat, keys: seq<int>, kids: seq<Tree>, s: Split, pages: nat, copy: SplitCopy, k: int)
    requires |kids| == |keys| + 1 && 1 <= |keys| <= MAX_KEYS && h > 0
    requires Shaped(s.right, h - 1) && AllShaped(kids, h - 1)
    requires Lookup(s.right, h - 1, k).None?
    requires forall j :: 0 <= j < |kids| ==> Shaped(kids[j], h - 1) && Lookup(kids[j], h - 1, k).None?
    ensures Misses(Absorb(pid, h, keys, kids, s, pages, copy), h, k)
  {
    var r := Absorb(pid, h, keys, kids, s, pages, copy);
    var kids' := InsertAt(kids, SlotFor(keys, s.key) + 1, s.right);
    assert forall j :: 0 <= j < |kids'| ==> kids'[j] in kids || kids'[j] == s.right;
    NodeMisses(r.left, h, k);
    if r.split.Some? {
      NodeMisses(r.split.value.right, h, k);
    }
  }

  /** The split itself hides the least key of its fourth child, which is the promoted key. */
  lemma SplitLoses(pid: int, h: nat, keys: seq<int>, kids: seq<Tree>, s: Split, pages: nat) returns (lost: int)
    requires |keys| == MAX_KEYS && |kids| == 4 && h > 0 && Shaped(s.right, h - 1) && AllShaped(kids, h - 1)
    requires
      var p := SlotFor(keys, s.key);
      var keys', kids' := InsertAt(keys, p, s.key), InsertAt(kids, p + 1, s.right);
      SeparatesKids(keys', kids') && Sorted(FlatAll(kids'))
    ensures HasKey(FlatAll(InsertAt(kids, SlotFor(keys, s.key) + 1, s.right)), lost)
    ensures Misses(Absorb(pid, h, keys, kids, s, pages, AsWritten), h, lost)
  {
    var p := SlotFor(keys, s.key);
    var keys', kids' := InsertAt(keys, p, s.key), InsertAt(kids, p + 1, s.right);
    assert AllShaped(kids', h - 1);
    lost := keys'[2];
    assert Flat(kids'[3]) != [] && keys'[3 - 1] == Flat(kids'[3])[0].key;
    FlatMember(kids', 3, Flat(kids'[3])[0]);
    FifthMisses(keys', kids', h, lost);
    var r := Absorb(pid, h, keys, kids, s, pages, AsWritten);
    NodeMisses(r.left, h, lost);
    assert r.split.value.right == Inner(pages, keys'[2..3], kids'[3..]);
    assert ScanRoute(keys'[2..3], lost) == 1;
  }

  lemma FifthMisses(keys: seq<int>, kids: seq<Tree>, h: nat, lost: int)
    requires |keys| == 4 && |kids| == 5 && h > 0 && AllShaped(kids, h - 1)
    requires Sorted(FlatAll(kids)) && HasKey(Flat(kids[3]), lost)
    ensures forall j :: 0 <= j < 5 && j != 3 ==> Shaped(kids[j], h - 1) && Lookup(kids[j], h - 1, lost).None?
  {
    forall j | 0 <= j < 5 && j != 3 ensures Shaped(kids[j], h - 1) && Lookup(kids[j], h - 1, lost).None? {
      FlatAround(kids, 3);
      SortedParts(FlatAll(kids[..3]), Flat(kids[3]), FlatAll(kids[3 + 1..]));
      forall e | e in Flat(kids[j]) ensures e.key != lost {
        if j < 3 {
          assert kids[..3][j] == kids[j];
          FlatMember(kids[..3], j, e);
        } else {
          assert kids[3 + 1..][j - 4] == kids[j];
          FlatMember(kids[3 + 1..], j - 4, e);
        }
      }
      LookupFindsMembers(kids[j], h - 1, lost);
    }
  }

  lemma {:induction false} OverflowLoses(t: Tree, h: nat, k: int, rid: RID, pages: nat) returns (lost: int)
    requires Shaped(t, h) && Ordered(t) && !HasKey(Flat(t), k) && Overflows(t, h, k)
    ensures HasKey(InsertSorted(Flat(t), Entry(k, rid)), lost)
    ensures Misses(Ins(t, h, k, rid, pages, AsWritten), h, lost)
    decreases h
  {
    var i := Route(t.keys, k);
    assert AllShaped(t.kids, h - 1);
    OrderedKid(t, h, i);
    forall e | e in Flat(t.kids[i]) ensures e in Flat(t) {
      FlatMember(t.kids, i, e);
    }
    if t.kids[i].Leaf? {
      LeafInserted(t.kids[i], k, rid, pages);
      var c := Ins(t.kids[i], h - 1, k, rid, pages, AsWritten);
      KidSplit(t, h, k, rid, c.left, c.split.value);
      InsertSortedSorted(Flat(t), Entry(k, rid));
      var kids := t.kids[i := c.left];
      assert AllShaped(kids, h - 1);
      lost := SplitLoses(t.pid, h, t.keys, kids, c.split.value, c.pages);
    } else {
      lost := OverflowLoses(t.kids[i], h - 1, k, rid, pages);
      KidHasKey(t.kids[i], Entry(k, rid), lost);
      StaysLost(t, h, k, rid, pages, AsWritten, lost);
      WholeHasKey(Flat(t), Entry(k, rid), lost);
    }
  }

  lemma KidHasKey(t: Tree, e: Entry, lost: int)
    requires HasKey(InsertSorted(Flat(t), e), lost)
    ensures lost == e.key || HasKey(Flat(t), lost)
  {
    InsertSortedContents(Flat(t), e);
  }

  lemma WholeHasKey(es: seq<Entry>, e: Entry, lost: int)
    requires lost == e.key || HasKey(es, lost)
    ensures HasKey(InsertSorted(es, e), lost)
  {
    InsertSortedContents(es, e);
    if lost == e.key {
      assert e in InsertSorted(es, e);
    } else {
      var x :| x in es && x.key == lost;
      assert x in InsertSorted(es, e);
    }
  }

  // ---------- when the code as written meets the property ----------

  ghost function Scan(x: Index, k: int): Option<RID>
    requires RootShaped(x.root, x.height)
  {
    Lookup(x.root, x.height, k)
  }

  /** Every scan gives what the sorted list gives. */
  ghost predicate Agrees(x: Index, es: seq<Entry>) {
    RootShaped(x.root, x.height) && forall k :: Scan(x, k) == Find(es, k)
  }

  lemma OrderedAgrees(x: Index)
    requires OrderedIndex(x)
    ensures Agrees(x, Entries(x))
  {
    forall k ensures Scan(x, k) == Find(Entries(x), k) {
      LookupIsFind(x.root, x.height, k);
    }
  }

  lemma OverflowDisagrees(x: Index, k: int, rid: RID)
    requires OrderedIndex(x) && !HasKey(Entries(x), k) && Overflows(x.root, x.height, k)
    ensures !Agrees(Insert(x, k, rid, AsWritten), InsertSorted(Entries(x), Entry(k, rid)))
  {
    hide Sorted, HasKey, Separated, Flat, InsertSorted;
    var lost := OverflowLoses(x.root, x.height, k, rid, x.pages);
    FindNone(InsertSorted(Entries(x), Entry(k, rid)), lost);
    var y := Insert(x, k, rid, AsWritten);
    if Ins(x.root, x.height, k, rid, x.pages, AsWritten).split.Some? {
      NodeMisses(y.root, y.height, lost);
    }
    assert Scan(y, lost).None?;
  }

  /** One insert of a new key, as written: right exactly when no internal node splits. */
  lemma InsertAsWrittenIff(x: Index, k: int, rid: RID)
    requires OrderedIndex(x) && !HasKey(Entries(x), k)
    ensures Agrees(Insert(x, k, rid, AsWritten), InsertSorted(Entries(x), Entry(k, rid)))
       <==> !Overflows(x.root, x.height, k)
  {
    if Overflows(x.root, x.height, k) {
      OverflowDisagrees(x, k, rid);
    } else {
      InsertAddsOneEntry(x, k, rid, AsWritten);
      OrderedAgrees(Insert(x, k, rid, AsWritten));
    }
  }
}
