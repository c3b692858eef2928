/** Sorted lists of index entries: the plain map the B+ tree has to agree with. */
module SortedEntries {
  import opened StorageTypes
  import opened BPlusTree

  ghost predicate Sorted(es: seq<Entry>) {
    forall i, j :: 0 <= i < j < |es| ==> es[i].key < es[j].key
  }

  ghost predicate AllBelow(es: seq<Entry>, k: int) {
    forall e :: e in es ==> e.key < k
  }

  ghost predicate AllAbove(es: seq<Entry>, k: int) {
    forall e :: e in es ==> k < e.key
  }

  ghost predicate HasKey(es: seq<Entry>, k: int) {
    exists e :: e in es && e.key == k
  }

  function InsertSorted(es: seq<Entry>, e: Entry): seq<Entry> {
    if es == [] || e.key < es[0].key then [e] + es
    else [es[0]] + InsertSorted(es[1..], e)
  }

  lemma {:induction false} InsertSortedContents(es: seq<Entry>, e: Entry)
    ensures |InsertSorted(es, e)| == |es| + 1
    ensures forall x :: x in InsertSorted(es, e) <==> x == e || x in es
  {
    if es != [] && es[0].key <= e.key {
      InsertSortedContents(es[1..], e);
      assert es == [es[0]] + es[1..];
    }
  }

  lemma {:induction false} InsertSortedSorted(es: seq<Entry>, e: Entry)
    requires Sorted(es) && !HasKey(es, e.key)
    ensures Sorted(InsertSorted(es, e))
  {
    if es != [] && es[0].key <= e.key {
      assert es[0] in es;
      InsertSortedSorted(es[1..], e);
      InsertSortedContents(es[1..], e);
      var r := InsertSorted(es[1..], e);
      assert forall x :: x in r ==> es[0].key < x.key;
    }
  }

  /** Everything below e stays in front of it. */
  lemma {:induction false} InsertAfter(a: seq<Entry>, b: seq<Entry>, e: Entry)
    requires AllBelow(a, e.key)
    ensures InsertSorted(a + b, e) == a + InsertSorted(b, e)
  {
    if a == [] {
      assert a + b == b;
    } else {
      assert a[0] in a;
      assert (a + b)[1..] == a[1..] + b;
      InsertAfter(a[1..], b, e);
    }
  }

  /** Everything above e stays behind it. */
  lemma {:induction false} InsertBefore(a: seq<Entry>, b: seq<Entry>, e: Entry)
    requires AllAbove(b, e.key)
    ensures InsertSorted(a + b, e) == InsertSorted(a, e) + b
  {
    if a == [] {
      assert a + b == b;
      assert b != [] ==> b[0] in b;
    } else {
      assert (a + b)[1..] == a[1..] + b;
      InsertBefore(a[1..], b, e);
    }
  }

  lemma InsertBetween(a: seq<Entry>, b: seq<Entry>, c: seq<Entry>, e: Entry)
    requires AllBelow(a, e.key) && AllAbove(c, e.key)
    ensures InsertSorted(a + b + c, e) == a + InsertSorted(b, e) + c
  {
    InsertBefore(a + b, c, e);
    InsertAfter(a, b, e);
  }

  // ---------- lookups ----------

  lemma {:induction false} FindNone(es: seq<Entry>, k: int)
    ensures Find(es, k).None? <==> !HasKey(es, k)
  {
    if es != [] {
      FindNone(es[1..], k);
      assert es == [es[0]] + es[1..];
      assert HasKey(es, k) <==> es[0].key == k || HasKey(es[1..], k);
    }
  }

  lemma {:induction false} FindSkips(a: seq<Entry>, b: seq<Entry>, c: seq<Entry>, k: int)
    requires !HasKey(a, k) && !HasKey(c, k)
    ensures Find(a + b + c, k) == Find(b, k)
  {
    if a != [] {
      assert a[0] in a;
      assert (a + b + c)[1..] == a[1..] + b + c;
      FindSkips(a[1..], b, c, k);
    } else if b != [] {
      assert a + b + c == b + c;
      assert (b + c)[1..] == [] + b[1..] + c;
      FindSkips([], b[1..], c, k);
    } else {
      assert a + b + c == c;
      FindNone(c, k);
    }
  }

  /** In a list without repeated keys, every entry is the one found under its key. */
  lemma {:induction false} FindEntry(es: seq<Entry>, e: Entry)
    requires Sorted(es) && e in es
    ensures Find(es, e.key) == Some(e.rid)
  {
    if es[0] != e {
      var i :| 0 <= i < |es| && es[i] == e;
      assert es[1..][i - 1] == e;
      FindEntry(es[1..], e);
    }
  }
}
