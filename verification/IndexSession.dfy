/** A whole run on the index as it works: through the buffer pool, page by page. */
module IndexSessions {
  import opened StorageTypes
  import opened PoolSpec
  import opened BPlusTree
  import opened IndexOrder
  import opened IndexPids
  import opened IndexStore
  import opened IndexWriters
  import opened IndexRuns

  /** A run the index can take in this form of the split. */
  ghost predicate Runnable(run: seq<Entry>, copy: SplitCopy, pages: nat) {
    && DistinctKeys(run) && Keys32(run) && (copy.Repaired? || NeverOverflows(run, pages))
    && pages + 51 + 33 * |run| <= PAGE_ID_LIMIT
  }

  lemma RunnablePrefix(run: seq<Entry>, copy: SplitCopy, pages: nat, n: nat)
    requires Runnable(run, copy, pages) && n <= |run|
    ensures Runnable(run[..n], copy, pages)
    ensures var x := Build(run[..n], copy, pages);
      && x.height + 2 <= BUFFER_SIZE && x.pages + x.height + 2 <= PAGE_ID_LIMIT
      && Distinct(x.root) && Within(Pids(x.root), 0, x.pages)
  {
    PrefixDistinct(run, n);
    assert Keys32(run[..n]) by {
      forall e | e in run[..n] ensures e in run {
        var i :| 0 <= i < n && run[..n][i] == e;
        assert run[i] == e;
      }
    }
    if copy.AsWritten? {
      PrefixNeverOverflows(run, n, pages);
    }
    RunFits(run[..n], copy, pages);
    BuildDistinct(run[..n], copy, pages);
  }

  lemma BuildMore(run: seq<Entry>, n: nat, copy: SplitCopy, pages: nat)
    requires n < |run|
    ensures Build(run[..n + 1], copy, pages)
        == BPlusTree.Insert(Build(run[..n], copy, pages), run[n].key, run[n].rid, copy)
  {
    assert run[..n + 1][..n] == run[..n] && run[..n + 1][n] == run[n];
  }

  /** The pages hold the index this run builds. */
  ghost predicate HoldsIndex(v: View, root: int, x: Index) {
    root == x.root.pid && Stored(v.flat, x.root) && v.pages == x.pages
  }

  /**
    Builds an index from nothing, with no page pinned to begin with: no insert ever finds all
    frames pinned, none leaves a pin behind, and the pages hold the tree of the whole run.
   */
  method InsertRun(w: IndexWriter, run: seq<Entry>) returns (r: Result<(), IndexError>)
    requires w.Ready() && w.Now().pins == map[] && Runnable(run, w.copy, w.Now().pages)
    modifies w, w.pool, w.pool.frames, w.pool.disk
    ensures w.Ready() && r.Success? && w.Now().pins == map[]
    ensures HoldsIndex(w.Now(), w.root, Build(run, w.copy, old(w.Now()).pages))
  {
    ghost var pages := w.Now().pages;
    r := w.CreateRoot();
    assert run[..0] == [];
    for i := 0 to |run|
      invariant w.Ready() && r.Success? && w.Now().pins == map[]
      invariant HoldsIndex(w.Now(), w.root, Build(run[..i], w.copy, pages))
    {
      hide Stored, Build, Distinct, Pids;
      ghost var x := Build(run[..i], w.copy, pages);
      RunnablePrefix(run, w.copy, pages, i);
      BuildMore(run, i, w.copy, pages);
      var s := w.Insert(w.root, run[i].key, run[i].rid, x.root, x.height);
    }
    assert run[..|run|] == run;
  }

  /** The index is a map, all the way down: after the run, a scan finds each key's own row and no other. */
  method InsertRunAndScan(w: IndexWriter, run: seq<Entry>, key: int) returns (found: Option<RID>)
    requires w.Ready() && w.Now().pins == map[] && Runnable(run, w.copy, w.Now().pages)
    modifies w, w.pool, w.pool.frames, w.pool.disk
    ensures w.Ready() && found == Find(run, key)
  {
    ghost var pages := w.Now().pages;
    var r := InsertRun(w, run);
    ghost var x := Build(run, w.copy, pages);
    assert run[..|run|] == run;
    RunnablePrefix(run, w.copy, pages, |run|);
    BuildOrdered(run, w.copy, pages);
    LookupIsFind(x.root, x.height, key);
    RunAssociates(run, key);
    var s := w.Scan(key, x.root, x.height);
    found := if s.Success? then Some(s.value) else None;
  }
}
