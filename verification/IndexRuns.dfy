/** Whole runs of inserts: the index as a map, when the code as written keeps it, and its height. */
module IndexRuns {
  import opened StorageTypes
  import opened BPlusTree
  import opened SortedEntries
  import opened IndexOrder
  import opened IndexInsertion
  import opened IndexSplitAsWritten
  import opened IndexPids
  import PoolSpec

  ghost predicate DistinctKeys(run: seq<Entry>) {
    forall i, j :: 0 <= i < j < |run| ==> run[i].key != run[j].key
  }

  /** An empty index whose root is the next page of a file of `pages` pages. */
  function Empty(pages: nat): Index {
    Index(Leaf(pages, [], INVALID_PAGE_ID), 0, pages + 1)
  }

  /** The index after a run of inserts. */
  function Build(run: seq<Entry>, copy: SplitCopy, pages: nat): (x: Index)
    ensures RootShaped(x.root, x.height)
  {
    if run == [] then Empty(pages)
    else
      var e := run[|run| - 1];
      Insert(Build(run[..|run| - 1], copy, pages), e.key, e.rid, copy)
  }

  ghost function SortedRun(run: seq<Entry>): seq<Entry> {
    if run == [] then [] else InsertSorted(SortedRun(run[..|run| - 1]), run[|run| - 1])
  }

  lemma {:induction false} SortedRunKeys(run: seq<Entry>)
    requires DistinctKeys(run)
    ensures Sorted(SortedRun(run)) && |SortedRun(run)| == |run|
    ensures forall e :: e in SortedRun(run) <==> e in run
  {
    if run != [] {
      var before, e := run[..|run| - 1], run[|run| - 1];
      SortedRunKeys(before);
      NewKey(run, before);
      InsertSortedContents(SortedRun(before), e);
      InsertSortedSorted(SortedRun(before), e);
      assert run == before + [e];
    }
  }

  lemma NewKey(run: seq<Entry>, before: seq<Entry>)
    requires DistinctKeys(run) && run != [] && before == run[..|run| - 1]
    requires forall e :: e in SortedRun(before) ==> e in before
    ensures !HasKey(SortedRun(before), run[|run| - 1].key)
  {
    forall e | e in SortedRun(before) ensures e.key != run[|run| - 1].key {
      var i :| 0 <= i < |run| - 1 && run[i] == e;
    }
  }

  /** The association list of a run: what each key was inserted with. */
  lemma {:induction false} RunAssociates(run: seq<Entry>, k: int)
    requires DistinctKeys(run)
    ensures Find(SortedRun(run), k) == Find(run, k)
  {
    SortedRunKeys(run);
    FindNone(run, k);
    FindNone(SortedRun(run), k);
    if HasKey(run, k) {
      var e :| e in run && e.key == k;
      FindEntry(SortedRun(run), e);
      FindDistinct(run, e);
    } else {
      assert !HasKey(SortedRun(run), k);
    }
  }

  lemma {:induction false} FindDistinct(es: seq<Entry>, e: Entry)
    requires DistinctKeys(es) && e in es
    ensures Find(es, e.key) == Some(e.rid)
  {
    var i :| 0 <= i < |es| && es[i] == e;
    if i > 0 {
      assert es[1..][i - 1] == e;
      FindDistinct(es[1..], e);
    }
  }

  /** No insert of the run split an internal node. */
  ghost predicate NeverOverflows(run: seq<Entry>, pages: nat) {
    forall n {:trigger Build(run[..n], AsWritten, pages)} :: 0 <= n < |run| ==>
      var x := Build(run[..n], AsWritten, pages);
      !Overflows(x.root, x.height, run[n].key)
  }

  /** The index answers every scan as the run says, at every moment of the run. */
  ghost predicate AlwaysRight(run: seq<Entry>, copy: SplitCopy, pages: nat) {
    forall n {:trigger Build(run[..n], copy, pages)} :: 0 <= n <= |run| ==>
      forall k :: Scan(Build(run[..n], copy, pages), k) == Find(run[..n], k)
  }

  /** The tree after a run: ordered, and holding exactly the run's entries. */
  lemma {:induction false} BuildOrdered(run: seq<Entry>, copy: SplitCopy, pages: nat)
    requires DistinctKeys(run) && (copy.Repaired? || NeverOverflows(run, pages))
    ensures OrderedIndex(Build(run, copy, pages)) && Entries(Build(run, copy, pages)) == SortedRun(run)
  {
    if run != [] {
      var before, e := run[..|run| - 1], run[|run| - 1];
      if copy.AsWritten? {
        BeforeNeverOverflows(run, pages);
        assert run[..|run| - 1] == before;
      }
      BuildOrdered(before, copy, pages);
      SortedRunKeys(before);
      NewKey(run, before);
      InsertAddsOneEntry(Build(before, copy, pages), e.key, e.rid, copy);
    }
  }

  lemma BeforeNeverOverflows(run: seq<Entry>, pages: nat)
    requires NeverOverflows(run, pages) && run != []
    ensures NeverOverflows(run[..|run| - 1], pages)
  {
    var before := run[..|run| - 1];
    forall n | 0 <= n < |before|
      ensures var x := Build(before[..n], AsWritten, pages); !Overflows(x.root, x.height, before[n].key)
    {
      assert before[..n] == run[..n];
    }
  }

  /** The index is the map of the run: every key gives its own row, and nothing else is found. */
  lemma IndexIsMap(run: seq<Entry>, pages: nat, k: int)
    requires DistinctKeys(run)
    ensures Scan(Build(run, Repaired, pages), k) == Find(run, k)
  {
    BuildOrdered(run, Repaired, pages);
    var x := Build(run, Repaired, pages);
    LookupIsFind(x.root, x.height, k);
    RunAssociates(run, k);
  }

  lemma PrefixDistinct(run: seq<Entry>, n: nat)
    requires DistinctKeys(run) && n <= |run|
    ensures DistinctKeys(run[..n])
  {
  }

  lemma PrefixNeverOverflows(run: seq<Entry>, n: nat, pages: nat)
    requires NeverOverflows(run, pages) && n <= |run|
    ensures NeverOverflows(run[..n], pages)
  {
    forall m | 0 <= m < n
      ensures var x := Build(run[..n][..m], AsWritten, pages); !Overflows(x.root, x.height, run[..n][m].key)
    {
      assert run[..n][..m] == run[..m];
    }
  }

  lemma NeverOverflowsIsRight(run: seq<Entry>, pages: nat)
    requires DistinctKeys(run) && NeverOverflows(run, pages)
    ensures AlwaysRight(run, AsWritten, pages)
  {
    forall n, k | 0 <= n <= |run| ensures Scan(Build(run[..n], AsWritten, pages), k) == Find(run[..n], k) {
      PrefixDistinct(run, n);
      PrefixNeverOverflows(run, n, pages);
      BuildOrdered(run[..n], AsWritten, pages);
      var x := Build(run[..n], AsWritten, pages);
      LookupIsFind(x.root, x.height, k);
      RunAssociates(run[..n], k);
    }
  }

  /** The first insert that splits an internal node loses a key. */
  lemma OverflowIsWrong(run: seq<Entry>, pages: nat, n: nat) returns (k: int)
    requires DistinctKeys(run) && n < |run| && NeverOverflows(run[..n], pages)
    requires var x := Build(run[..n], AsWritten, pages); Overflows(x.root, x.height, run[n].key)
    ensures Scan(Build(run[..n + 1], AsWritten, pages), k) != Find(run[..n + 1], k)
  {
    var x, e := Build(run[..n], AsWritten, pages), run[n];
    PrefixDistinct(run, n);
    PrefixDistinct(run, n + 1);
    BuildOrdered(run[..n], AsWritten, pages);
    SortedRunKeys(run[..n]);
    assert run[..n + 1][..n] == run[..n] && run[..n + 1][n] == e;
    NewKey(run[..n + 1], run[..n]);
    OverflowDisagrees(x, e.key, e.rid);
    var y := Insert(x, e.key, e.rid, AsWritten);
    assert y == Build(run[..n + 1], AsWritten, pages);
    k :| Scan(y, k) != Find(InsertSorted(Entries(x), e), k);
    assert SortedRun(run[..n + 1]) == InsertSorted(Entries(x), e);
    RunAssociates(run[..n + 1], k);
  }

  lemma {:induction false} FirstOverflow(run: seq<Entry>, pages: nat, m: nat) returns (n: nat)
    requires m <= |run| && NeverOverflows(run[..m], pages) && !NeverOverflows(run, pages)
    ensures n < |run| && NeverOverflows(run[..n], pages)
    ensures var x := Build(run[..n], AsWritten, pages); Overflows(x.root, x.height, run[n].key)
    decreases |run| - m
  {
    assert run[..|run|] == run;
    assert m < |run|;
    hide NeverOverflows, Build, Overflows;
    var x := Build(run[..m], AsWritten, pages);
    if Overflows(x.root, x.height, run[m].key) {
      n := m;
    } else {
      OneMoreWithout(run, pages, m);
      n := FirstOverflow(run, pages, m + 1);
    }
  }

  lemma OneMoreWithout(run: seq<Entry>, pages: nat, m: nat)
    requires m < |run| && NeverOverflows(run[..m], pages)
    requires var x := Build(run[..m], AsWritten, pages); !Overflows(x.root, x.height, run[m].key)
    ensures NeverOverflows(run[..m + 1], pages)
  {
    hide Build, Overflows;
    var longer := run[..m + 1];
    forall i | 0 <= i < |longer|
      ensures var y := Build(longer[..i], AsWritten, pages); !Overflows(y.root, y.height, longer[i].key)
    {
      assert longer[..i] == run[..i];
      if i < m {
        assert run[..m][..i] == run[..i] && run[..m][i] == run[i];
      }
    }
  }

  /** A run as written is right at every moment exactly when none of its inserts splits an internal node. */
  lemma AsWrittenRightIff(run: seq<Entry>, pages: nat)
    requires DistinctKeys(run)
    ensures AlwaysRight(run, AsWritten, pages) <==> NeverOverflows(run, pages)
  {
    if NeverOverflows(run, pages) {
      NeverOverflowsIsRight(run, pages);
    } else {
      var n := FirstOverflow(run, pages, 0);
      var k := OverflowIsWrong(run, pages, n);
      assert 0 <= n + 1 <= |run|;
    }
  }

  // ---------- the tree is shallow enough for the pool ----------

  lemma {:induction false} SortedSpread(es: seq<Entry>, i: nat)
    requires Sorted(es) && i < |es|
    ensures es[0].key + i <= es[i].key
  {
    if i > 0 {
      SortedSpread(es, i - 1);
    }
  }

  lemma {:induction false} Pow2Grows(m: nat, n: nat)
    requires m <= n
    ensures Pow2(m) <= Pow2(n)
  {
    if m < n {
      Pow2Grows(m, n - 1);
    }
  }

  lemma Pow2Eight(n: nat)
    ensures Pow2(n + 8) == 256 * Pow2(n)
  {
    assert Pow2(n + 2) == 2 * Pow2(n + 1) == 4 * Pow2(n);
    assert Pow2(n + 4) == 2 * Pow2(n + 3) == 4 * Pow2(n + 2);
    assert Pow2(n + 6) == 2 * Pow2(n + 5) == 4 * Pow2(n + 4);
    assert Pow2(n + 8) == 2 * Pow2(n + 7) == 4 * Pow2(n + 6);
  }

  ghost predicate Keys32(es: seq<Entry>) {
    forall e :: e in es ==> -0x8000_0000 <= e.key < 0x8000_0000
  }

  /** A tree of 32-bit keys has at most 31 internal levels, so an insert never pins all 50 frames by itself. */
  lemma HeightFitsPool(x: Index)
    requires OrderedIndex(x) && Keys32(Entries(x))
    ensures x.height <= 31 && x.height + 2 <= PoolSpec.BUFFER_SIZE
  {
    if x.height >= 32 {
      HeightBound(x.root, x.height);
      var es := Entries(x);
      SortedSpread(es, |es| - 1);
      assert es[0] in es && es[|es| - 1] in es;
      Pow2Eight(0);
      Pow2Eight(8);
      Pow2Eight(16);
      Pow2Eight(24);
      Pow2Grows(33, x.height + 1);
    }
  }

  /** Every insert of a run of new 32-bit keys finds the room it needs, in frames and in page ids. */
  lemma {:induction false} RunFits(run: seq<Entry>, copy: SplitCopy, pages: nat)
    requires DistinctKeys(run) && Keys32(run) && (copy.Repaired? || NeverOverflows(run, pages))
    ensures
      var x := Build(run, copy, pages);
      x.height + 2 <= PoolSpec.BUFFER_SIZE && x.pages <= pages + 1 + 33 * |run|
  {
    BuildOrdered(run, copy, pages);
    SortedRunKeys(run);
    HeightFitsPool(Build(run, copy, pages));
    if run != [] {
      var before := run[..|run| - 1];
      PrefixDistinct(run, |run| - 1);
      if copy.AsWritten? {
        PrefixNeverOverflows(run, |run| - 1, pages);
      }
      assert Keys32(before) by {
        forall e | e in before ensures e in run {
          var i :| 0 <= i < |before| && before[i] == e;
          assert run[i] == e;
        }
      }
      BuildOrdered(before, copy, pages);
      SortedRunKeys(before);
      HeightFitsPool(Build(before, copy, pages));
      RunFits(before, copy, pages);
    }
  }

  // ---------- pages stay distinct over whole runs, in either form ----------

  lemma {:induction false} BuildDistinct(run: seq<Entry>, copy: SplitCopy, pages: nat)
    ensures var x := Build(run, copy, pages); Distinct(x.root) && Within(Pids(x.root), 0, x.pages)
  {
    if run != [] {
      var before, e := run[..|run| - 1], run[|run| - 1];
      BuildDistinct(before, copy, pages);
      InsertKeepsPages(Build(before, copy, pages), e.key, e.rid, copy);
    }
  }
}
