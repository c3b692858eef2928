/** The recursive insert and the point scan over pages fetched from the buffer pool. */
module IndexWriters {
  import opened StorageTypes
  import opened PoolSpec
  import opened BufferPools
  import opened BPlusTree
  import opened IndexPids
  import opened NodePages
  import opened IndexStore

  datatype IndexError = PoolFailed(e: PoolError) | NoSuchEntry

  /** An index page after `init`: an empty leaf, with whatever else was in its bytes. */
  function Emptied(n: NodeImage): NodeImage {
    n.(keyCount := 0, isLeaf := true, nextLeaf := INVALID_PAGE_ID)
  }

  ghost predicate EmptyLeaf(n: NodeImage) {
    NodeSized(n) && n.isLeaf && n.keyCount == 0 && n.nextLeaf == INVALID_PAGE_ID
  }

  /** What the index sees of the pool: page values, pins, where pages are, and its file's length. */
  datatype View = View(flat: imap<Key, Page>, pins: map<Key, int>, table: map<Key, nat>, pages: nat)

  /** Frame f holds the pinned page pid. */
  ghost predicate Holds(v: View, f: nat, pid: int) {
    PageKey(pid) in v.table && v.table[PageKey(pid)] == f && PageKey(pid) in v.pins
  }

  /** Pages pinned before are still in their frames. */
  ghost predicate StayPut(v: View, w: View) {
    forall k :: k in v.pins ==> k in v.table && k in w.table && w.table[k] == v.table[k]
  }

  ghost predicate Counted(pins: map<Key, int>) {
    forall k :: k in pins ==> pins[k] > 0
  }

  lemma StayPutTwice(u: View, v: View, w: View)
    requires StayPut(u, v) && StayPut(v, w) && u.pins.Keys <= v.pins.Keys
    ensures StayPut(u, w)
  {
  }

  lemma HoldsStill(v: View, w: View, f: nat, pid: int)
    requires Holds(v, f, pid) && StayPut(v, w) && v.pins.Keys <= w.pins.Keys
    ensures Holds(w, f, pid)
  {
  }

  /** What a level of the insert hands up, as the tree function says it. */
  ghost predicate Handed(v: View, r: Option<SplitResult>, c: InsertResult) {
    && Stored(v.flat, c.left)
    && v.pages == c.pages
    && match c.split
       case None => r.None?
       case Some(s) => r == Some(SplitResult(s.key, s.right.pid)) && Stored(v.flat, s.right)
  }

  /** What any part of an insert leaves alone: pins, where pinned pages are, and pages other than ps. */
  ghost predicate Untouched(v: View, w: View, ps: set<int>) {
    w.pins == v.pins && StayPut(v, w) && AgreeOff(v.flat, w.flat, ps, v.pages, w.pages)
  }

  /** A node of the tree on its page, pinned in frame f, as each level of an insert finds it. */
  ghost predicate AtNode(v: View, f: nat, t: Tree) {
    Holds(v, f, t.pid) && 0 <= t.pid < v.pages && NodeHolds(NodeOf(v.flat, t.pid), t)
  }

  class IndexWriter {
    const pool: BufferPool
    const copy: SplitCopy
    var root: int

    constructor (pool: BufferPool, copy: SplitCopy, root: int)
      ensures this.pool == pool && this.copy == copy && this.root == root
    {
      this.pool, this.copy, this.root := pool, copy, root;
    }

    ghost predicate Ready()
      reads pool, pool.frames, pool.disk
    {
      pool.Valid() && DirtyInside(pool.State())
    }

    ghost function Now(): View
      reads pool, pool.frames, pool.disk
      requires Ready()
    {
      View(Flat(pool.State()), Pins(pool.State()), pool.table, pool.LastPid(IndexFile))
    }

    method Pin(pid: int) returns (r: Result<nat, IndexError>)
      requires Ready()
      modifies pool, pool.frames, pool.disk
      ensures Ready() && Now().pages == old(Now()).pages && Now().flat == old(Now()).flat
      ensures Counted(old(Now()).pins)
      ensures r.Failure? ==> Now() == old(Now()) && r.error.PoolFailed?
      ensures r.Success? ==>
        pid >= 0 && Now().pins == PinUp(old(Now()).pins, PageKey(pid)) && Holds(Now(), r.value, pid)
            && StayPut(old(Now()), Now())
      ensures pid >= 0 && |old(Now()).pins| < BUFFER_SIZE ==> r.Success?
    {
      var f := pool.PageAccess(PageKey(pid));
      match f
      case Failure(e) => return Failure(PoolFailed(e));
      case Success(i) => return Success(i);
    }

    method Release(pid: int)
      requires Ready() && PageKey(pid) in Now().pins
      modifies pool.frames
      ensures Ready() && Now() == old(Now()).(pins := PinDown(old(Now()).pins, PageKey(pid)))
    {
      var r := pool.Unpin(PageKey(pid));
    }

    /** The bytes of a pinned page. */
    method Read(f: nat, pid: int) returns (n: NodeImage)
      requires Ready() && Holds(Now(), f, pid)
      ensures n == NodeOf(Now().flat, pid) && NodeSized(n)
    {
      assert FrameSound(pool.State().frames[f], pool.disk.now);
      assert Value(pool.State(), PageKey(pid)) == pool.frames[f].data;
      n := pool.frames[f].data.node;
    }

    /** Changes the bytes of a pinned page, marking it dirty. */
    method Put(f: nat, pid: int, n: NodeImage)
      requires Ready() && Holds(Now(), f, pid) && 0 <= pid < Now().pages && NodeSized(n)
      modifies pool.frames
      ensures Ready() && Now() == old(Now()).(flat := old(Now()).flat[PageKey(pid) := IndexPage(n)])
      ensures StayPut(old(Now()), Now())
    {
      pool.WriteFrame(f, IndexPage(n));
    }

    method MarkDirty(f: nat, pid: int)
      requires Ready() && Holds(Now(), f, pid) && 0 <= pid < Now().pages
      modifies pool.frames
      ensures Ready() && Now() == old(Now())
    {
      assert Value(pool.State(), PageKey(pid)) == pool.frames[f].data;
      pool.WriteFrame(f, pool.frames[f].data);
    }

    /** Changes the bytes of a pinned page and writes it out at once. */
    method PutThrough(f: nat, pid: int, n: NodeImage)
      requires Ready() && Holds(Now(), f, pid) && 0 <= pid && NodeSized(n)
      modifies pool.frames, pool.disk
      ensures Ready()
      ensures Now() == old(Now()).(flat := old(Now()).flat[PageKey(pid) := IndexPage(n)],
                                   pages := if pid < old(Now()).pages then old(Now()).pages else pid + 1)
    {
      assert KeyOf(pool.State().frames[f]) == PageKey(pid);
      pool.WriteThrough(f, IndexPage(n), pool.frames[f].dirty);
    }

    /** The next page of the file. */
    method NextPid() returns (pid: int)
      requires Ready()
      ensures pid == ToPageId(Now().pages)
    {
      pid := ToPageId(pool.LastPid(IndexFile));
    }

    /** Fetches the next page of the file, pinned, as an empty leaf that is also on disk. */
    method FetchPage() returns (r: Result<(nat, int), IndexError>)
      requires Ready() && Now().pages < PAGE_ID_LIMIT
      modifies pool, pool.frames, pool.disk
      ensures Ready() && Counted(old(Now()).pins)
      ensures r.Success? ==>
        var pid := old(Now()).pages;
        && r.value.1 == pid && Holds(Now(), r.value.0, pid) && StayPut(old(Now()), Now())
        && Now().pages == pid + 1
        && Now().pins == PinUp(old(Now()).pins, PageKey(pid))
        && Now().flat == old(Now()).flat[PageKey(pid) := IndexPage(NodeOf(Now().flat, pid))]
        && EmptyLeaf(NodeOf(Now().flat, pid))
      ensures |old(Now()).pins| < BUFFER_SIZE ==> r.Success?
    {
      hide Ready, Now, ToPageId, NodeSized, Emptied, EmptyLeaf;
      var pid := NextPid();
      var f := Pin(pid);
      if f.Failure? {
        return Failure(f.error);
      }
      var n := Read(f.value, pid);
      EmptiedSized(n);
      PutThrough(f.value, pid, Emptied(n));
      return Success((f.value, pid));
    }

    /** Changes a node's page and the page fetched for its split, and releases the latter. */
    method PutBoth(f: nat, pid: int, l: NodeImage, g: nat, newPid: int, r: NodeImage)
      requires Ready() && Holds(Now(), f, pid) && Holds(Now(), g, newPid)
      requires 0 <= pid < Now().pages && 0 <= newPid < Now().pages && NodeSized(l) && NodeSized(r)
      modifies pool.frames
      ensures Ready()
      ensures Now() == old(Now()).(
        flat := old(Now()).flat[PageKey(pid) := IndexPage(l)][PageKey(newPid) := IndexPage(r)],
        pins := PinDown(old(Now()).pins, PageKey(newPid)))
    {
      hide Ready, Now;
      Put(f, pid, l);
      Put(g, newPid, r);
      Release(newPid);
    }

    /** The leaf's part of an insert. */
    method LeafStep(f: nat, pid: int, key: int, rid: RID, ghost t: Tree)
      returns (r: Result<Option<SplitResult>, IndexError>)
      requires Ready() && AtNode(Now(), f, t) && t.Leaf? && RootShaped(t, 0) && t.pid == pid
          && Now().pages < PAGE_ID_LIMIT
      modifies pool, pool.frames, pool.disk
      ensures Ready()
      ensures r.Success? ==>
        Untouched(old(Now()), Now(), {pid}) && Handed(Now(), r.value, InsLeaf(t, key, rid, old(Now()).pages))
      ensures |old(Now()).pins| < BUFFER_SIZE ==> r.Success?
    {
      hide Ready, Now, Stored, AgreeOff, EntriesOf, NodeSized, StayPut, PinUp, PinDown;
      ghost var v := Now();
      var n := Read(f, pid);
      if n.keyCount < MAX_KEYS {
        var l := InsertIntoLeaf(n, key, rid);
        LeafPut(v.flat, t, l, key, rid, v.pages);
        SizedIfReadable(l);
        Put(f, pid, l);
        return Success(None);
      }
      var q := FetchPage();
      if q.Failure? {
        return Failure(q.error);
      }
      var (g, newPid) := q.value;
      ghost var w := Now();
      var e := Read(g, newPid);
      var l, right, s := SplitLeaf(n, e, newPid, key, rid);
      LeafPutSplit(v.flat, t, e, l, right, key, rid, v.pages);
      SizedIfReadable(l);
      SizedIfReadable(right);
      PinsGrow(v.pins, PageKey(newPid));
      HoldsStill(v, w, f, pid);
      PutBoth(f, pid, l, g, newPid, right);
      StayPutThen(v, w, Now());
      PinUpDown(v.pins, PageKey(newPid));
      return Success(Some(s));
    }

    /** The internal node's part of an insert, once the child it followed has split. */
    method InnerStep(f: nat, pid: int, s: SplitResult,
                     ghost h: nat, ghost keys: seq<int>, ghost kids: seq<Tree>, ghost split: Split)
      returns (r: Result<Option<SplitResult>, IndexError>)
      requires Ready() && Now().pages < PAGE_ID_LIMIT
      requires |kids| == |keys| + 1 && 1 <= |keys| <= MAX_KEYS && h > 0 && AllShaped(kids, h - 1)
          && Shaped(split.right, h - 1)
      requires AtNode(Now(), f, Inner(pid, keys, kids))
      requires AllStored(Now().flat, kids) && Stored(Now().flat, split.right)
          && s == SplitResult(split.key, split.right.pid)
      requires Within(PidsAll(kids), 0, Now().pages) && Within(Pids(split.right), 0, Now().pages)
      requires pid !in PidsAll(kids) && pid !in Pids(split.right)
      modifies pool, pool.frames, pool.disk
      ensures Ready()
      ensures r.Success? ==>
        Untouched(old(Now()), Now(), {pid})
            && Handed(Now(), r.value, Absorb(pid, h, keys, kids, split, old(Now()).pages, copy))
      ensures |old(Now()).pins| < BUFFER_SIZE ==> r.Success?
    {
      hide Ready, Now, Stored, AgreeOff, NodeSized, StayPut, PinUp, PinDown, AllStored, AllShaped, Shaped, SlotFor,
           InsertAt, Absorb;
      ghost var v := Now();
      var q := FetchPage();
      if q.Failure? {
        return Failure(q.error);
      }
      var (g, newPid) := q.value;
      ghost var w := Now();
      PinsGrow(v.pins, PageKey(newPid));
      HoldsStill(v, w, f, pid);
      var n := Read(f, pid);
      var e := Read(g, newPid);
      var l, right, res := InsertIntoInternal(n, e, newPid, s.pid, s.key, copy);
      SizedIfReadable(l);
      PutBoth(f, pid, l, g, newPid, right);
      StayPutThen(v, w, Now());
      PinUpDown(v.pins, PageKey(newPid));
      AbsorbPut(v.flat, pid, h, keys, kids, split, e, l, right, v.pages, copy);
      return Success(res);
    }

    /** Grows a new root over the two halves of the old one. */
    method GrowRoot(s: SplitResult, pid: int, ghost l: Tree, ghost split: Split) returns (r: Result<(), IndexError>)
      requires Ready() && Now().pages < PAGE_ID_LIMIT
      requires Stored(Now().flat, l) && Stored(Now().flat, split.right)
          && Within(Pids(l) + Pids(split.right), 0, Now().pages)
      requires s == SplitResult(split.key, split.right.pid) && pid == l.pid
      modifies this, pool, pool.frames, pool.disk
      ensures Ready() && (r.Failure? ==> root == old(root))
      ensures r.Success? ==>
        && root == old(Now()).pages && Now().pages == root + 1
        && Stored(Now().flat, Inner(root, [split.key], [l, split.right]))
        && Untouched(old(Now()), Now(), {})
      ensures |old(Now()).pins| < BUFFER_SIZE ==> r.Success?
    {
      hide Ready, Now, Stored, AgreeOff, StayPut, PinUp, PinDown, Pids;
      ghost var v := Now();
      var q := FetchPage();
      if q.Failure? {
        return Failure(q.error);
      }
      var (g, newPid) := q.value;
      ghost var w := Now();
      var e := Read(g, newPid);
      var n := e.(isLeaf := false, keyCount := 1, keys := e.keys[0 := s.key],
          children := e.children[0 := pid][1 := s.pid]);
      assert SeparatorsOf(n) == [s.key] && ChildrenOf(n) == [pid, s.pid] == RootPids([l, split.right]);
      root := newPid;
      Put(g, newPid, n);
      Release(newPid);
      StayPutThen(v, w, Now());
      PinUpDown(v.pins, PageKey(newPid));
      RootPut(v.flat, e, n, l, split, newPid, {});
      return Success(());
    }

    /** Follows the separators below the key. */
    method RouteIn(n: NodeImage, key: int) returns (i: nat)
      requires NodeReadable(n)
      ensures i == Route(SeparatorsOf(n), key)
    {
      i := 0;
      while i < n.keyCount && key > n.keys[i]
        invariant i <= n.keyCount && forall j :: 0 <= j < i ==> SeparatorsOf(n)[j] < key
      {
        i := i + 1;
      }
      RouteIs(SeparatorsOf(n), key, i);
    }

    /** The internal node's part of an insert: the child it follows, then its own if the child has split. */
    method InsertBelow(f: nat, pid: int, key: int, rid: RID, n: NodeImage, ghost t: Tree, ghost h: nat)
      returns (r: Result<Option<SplitResult>, IndexError>)
      requires Ready() && Holds(Now(), f, pid) && n == NodeOf(Now().flat, pid)
      requires t.pid == pid && t.Inner? && Shaped(t, h) && Distinct(t) && Within(Pids(t), 0, Now().pages)
          && Stored(Now().flat, t)
      requires root !in PidsAll(t.kids) && Now().pages + h + 1 <= PAGE_ID_LIMIT
      modifies this, pool, pool.frames, pool.disk
      ensures Ready() && root == old(root)
      ensures r.Success? ==>
        Untouched(old(Now()), Now(), Pids(t)) && Handed(Now(), r.value, Ins(t, h, key, rid, old(Now()).pages, copy))
      ensures |old(Now()).pins| + h + 1 <= BUFFER_SIZE ==> r.Success?
      decreases h, 0
    {
      hide Ready, Now, Stored, AgreeOff, StayPut, Pids, Shaped, DistinctAll, Absorb, Within, NodeSized;
      ghost var v := Now();
      NodeOfInner(v.flat, t, h, 0);
      var i := RouteIn(n, key);
      NodeOfInner(v.flat, t, h, i);
      ghost var kid := t.kids[i];
      KidShaped(t, h, i);
      KidInTree(t, i, v.pages);
      var child := Insert(n.children[i], key, rid, kid, h - 1);
      if child.Failure? {
        return child;
      }
      ghost var w := Now();
      ghost var c := Ins(kid, h - 1, key, rid, v.pages, copy);
      ghost var kids := t.kids[i := c.left];
      InsStep(t, h, key, rid, v.pages, copy, i, c, kids);
      BelowPids(t, h, key, rid, v.pages, copy);
      BelowDone(v.flat, w.flat, t, h, i, c, v.pages);
      if child.value.None? {
        AgreeWider(v.flat, w.flat, Pids(kid), Pids(t), v.pages, w.pages);
        return Success(None);
      }
      HoldsStill(v, w, f, pid);
      r := InnerStep(f, pid, child.value.value, h, t.keys, kids, c.split.value);
      if r.Success? {
        StayPutTwice(v, w, Now());
        AgreeTwice(v.flat, w.flat, Now().flat, Pids(kid), {pid}, Pids(t), v.pages, w.pages, Now().pages);
      }
    }

    /** Ends a level: grows the root if this was it, and releases the page. */
    method Finish(pid: int, f: nat, res: Option<SplitResult>, ghost c: InsertResult, ghost v: View, ghost u: View,
                  ghost ps: set<int>)
      returns (r: Result<Option<SplitResult>, IndexError>)
      requires Ready() && Now().pages < PAGE_ID_LIMIT
      requires Holds(u, f, pid) && u.pins == PinUp(v.pins, PageKey(pid)) && StayPut(v, u) && u.flat == v.flat
          && u.pages == v.pages
      requires Counted(v.pins) && u.pages <= Now().pages && Untouched(u, Now(), ps) && Handed(Now(), res, c)
          && c.left.pid == pid
      requires Within(Pids(c.left), 0, Now().pages)
          && (c.split.Some? ==> Within(Pids(c.split.value.right), 0, Now().pages))
      modifies this, pool, pool.frames, pool.disk
      ensures Ready() && (r.Failure? ==> root == old(root))
      ensures r.Success? ==> Untouched(v, Now(), ps)
      ensures r.Success? && pid != old(root) ==> root == old(root) && Handed(Now(), r.value, c)
      ensures r.Success? && pid == old(root) ==> r.value.None?
      ensures r.Success? && pid == old(root) && c.split.None? ==>
        root == old(root) && Stored(Now().flat, c.left) && Now().pages == c.pages
      ensures r.Success? && pid == old(root) && c.split.Some? ==>
        && root == c.pages && Now().pages == c.pages + 1
        && Stored(Now().flat, Inner(root, [c.split.value.key], [c.left, c.split.value.right]))
      ensures |old(Now()).pins| < BUFFER_SIZE ==> r.Success?
    {
      hide Ready, Now, Stored, AgreeOff, StayPut, Pids, NodeSized, PinUp, PinDown;
      ghost var w := Now();
      PinsGrow(v.pins, PageKey(pid));
      HoldsStill(u, w, f, pid);
      PidOwn(c.left);
      MarkDirty(f, pid);
      var grow := res.Some? && pid == root;
      if grow {
        var g := GrowRoot(res.value, pid, c.left, c.split.value);
        if g.Failure? {
          return Failure(g.error);
        }
        StayPutTwice(u, w, Now());
        AgreeTwice(u.flat, w.flat, Now().flat, ps, {}, ps, u.pages, w.pages, Now().pages);
      }
      ghost var z := Now();
      Release(pid);
      PinUpDown(v.pins, PageKey(pid));
      StayPutTwice(v, u, z);
      StayPutThen(v, z, Now());
      return Success(if grow then None else res);
    }

    /** The recursive insert: the subtree under page pid, and a new root if pid is the root and splits. */
    method Insert(pid: int, key: int, rid: RID, ghost t: Tree, ghost h: nat)
      returns (r: Result<Option<SplitResult>, IndexError>)
      requires Ready()
      requires t.pid == pid && RootShaped(t, h) && Distinct(t) && Within(Pids(t), 0, Now().pages)
          && Stored(Now().flat, t)
      requires (root == pid || root !in Pids(t)) && Now().pages + h + 2 <= PAGE_ID_LIMIT
      modifies this, pool, pool.frames, pool.disk
      ensures Ready() && (r.Failure? ==> root == old(root))
      ensures r.Success? ==> Untouched(old(Now()), Now(), Pids(t))
      ensures r.Success? && pid != old(root) ==>
        root == old(root) && Handed(Now(), r.value, Ins(t, h, key, rid, old(Now()).pages, copy))
      ensures r.Success? && pid == old(root) ==>
        var x := BPlusTree.Insert(Index(t, h, old(Now()).pages), key, rid, copy);
        r.value.None? && root == x.root.pid && Stored(Now().flat, x.root) && Now().pages == x.pages
      ensures |old(Now()).pins| + h + 2 <= BUFFER_SIZE ==> r.Success?
      decreases h, 1
    {
      hide Ready, Now, Stored, AgreeOff, StayPut, Pids, Shaped, Distinct, Ins, Within, NodeSized, PinUp, PinDown;
      ghost var v := Now();
      StoredHere(v.flat, t, h, v.pages);
      var p := Pin(pid);
      if p.Failure? {
        return Failure(p.error);
      }
      var f := p.value;
      ghost var u := Now();
      PinsGrow(v.pins, PageKey(pid));
      PinsGrowByOne(v.pins, PageKey(pid));
      var n := Read(f, pid);
      var res;
      if n.isLeaf {
        res := LeafStep(f, pid, key, rid, t);
        LeafPids(t);
      } else {
        RootAbove(t, root);
        res := InsertBelow(f, pid, key, rid, n, t, h);
      }
      if res.Failure? {
        return res;
      }
      InsLeafIs(t, h, key, rid, v.pages, copy);
      InsPids(t, h, key, rid, v.pages, copy);
      r := Finish(pid, f, res.value, Ins(t, h, key, rid, v.pages, copy), v, u, Pids(t));
    }

    /** Creates an empty index: one fetched page, which is its root. */
    method CreateRoot() returns (r: Result<(), IndexError>)
      requires Ready() && Now().pages < PAGE_ID_LIMIT
      modifies this, pool, pool.frames, pool.disk
      ensures Ready()
      ensures r.Success? ==>
        && root == old(Now()).pages && Now().pages == root + 1 && Now().pins == old(Now()).pins
        && Stored(Now().flat, Leaf(root, [], INVALID_PAGE_ID))
      ensures |old(Now()).pins| < BUFFER_SIZE ==> r.Success?
    {
      hide Ready, Now, PinUp, PinDown, StayPut;
      ghost var v := Now();
      var q := FetchPage();
      if q.Failure? {
        return Failure(q.error);
      }
      root := q.value.1;
      Release(root);
      PinUpDown(v.pins, PageKey(root));
      EmptyStored(Now().flat, root);
      return Success(());
    }

    /** Follows the separators not above the key. */
    method ScanRouteIn(n: NodeImage, key: int) returns (i: nat)
      requires NodeReadable(n)
      ensures i == ScanRoute(SeparatorsOf(n), key)
    {
      i := 0;
      while i < n.keyCount && key >= n.keys[i]
        invariant i <= n.keyCount && forall j :: 0 <= j < i ==> SeparatorsOf(n)[j] <= key
      {
        i := i + 1;
      }
      ScanRouteIs(SeparatorsOf(n), key, i);
    }

    /** The first entry of a leaf under the key. */
    method FindIn(n: NodeImage, key: int) returns (r: Option<RID>)
      requires NodeReadable(n)
      ensures r == Find(EntriesOf(n), key)
    {
      ghost var es := EntriesOf(n);
      for entry := 0 to n.keyCount
        invariant Find(es, key) == Find(es[entry..], key)
      {
        if n.keys[entry] == key {
          return Some(n.values[entry]);
        }
        assert es[entry..][1..] == es[entry + 1..];
      }
      return None;
    }

    /** Fetches, reads and at once unpins the child a scan follows. */
    method ScanStep(n: NodeImage, key: int, ghost t: Tree, ghost h: nat) returns (r: Result<NodeImage, IndexError>)
      requires Ready() && t.Inner? && Shaped(t, h) && Stored(Now().flat, t) && Within(Pids(t), 0, Now().pages)
      requires n == NodeOf(Now().flat, t.pid)
      modifies pool, pool.frames, pool.disk
      ensures Ready() && Now().flat == old(Now()).flat && Now().pages == old(Now()).pages
      ensures r.Success? ==>
        var kid := t.kids[ScanRoute(t.keys, key)];
        && Now().pins == old(Now()).pins && r.value == NodeOf(Now().flat, kid.pid)
        && h > 0 && RootShaped(kid, h - 1) && Stored(Now().flat, kid) && Within(Pids(kid), 0, Now().pages)
      ensures r.Failure? ==> r.error.PoolFailed?
      ensures |old(Now()).pins| < BUFFER_SIZE ==> r.Success?
    {
      hide Ready, Now, Stored, StayPut, Pids, Shaped, Within, NodeSized, PinUp, PinDown;
      ghost var v := Now();
      NodeOfInner(v.flat, t, h, 0);
      var i := ScanRouteIn(n, key);
      NodeOfInner(v.flat, t, h, i);
      KidShaped(t, h, i);
      KidWithin(t, i, v.pages);
      StoredHere(v.flat, t.kids[i], h - 1, v.pages);
      var child := n.children[i];
      var f := Pin(child);
      if f.Failure? {
        return Failure(f.error);
      }
      var c := Read(f.value, child);
      Release(child);
      PinUpDown(v.pins, PageKey(child));
      return Success(c);
    }

    /**
      The point scan. It finds what the tree function finds, changes no page, and leaves the
      root with one pin more than before: the source unpins every page it follows but that one.
     */
    method Scan(key: int, ghost t: Tree, ghost h: nat) returns (r: Result<RID, IndexError>)
      requires Ready() && t.pid == root && RootShaped(t, h) && Stored(Now().flat, t) && Within(Pids(t), 0, Now().pages)
      modifies pool, pool.frames, pool.disk
      ensures Ready() && Now().flat == old(Now()).flat && Now().pages == old(Now()).pages
      ensures r.Success? ==> Lookup(t, h, key) == Some(r.value)
      ensures r == Failure(NoSuchEntry) ==> Lookup(t, h, key).None?
      ensures r.Success? || r.error.NoSuchEntry? ==> Now().pins == PinUp(old(Now()).pins, PageKey(root))
      ensures |old(Now()).pins| + 2 <= BUFFER_SIZE ==> r.Success? || r.error.NoSuchEntry?
    {
      hide Ready, Now, Stored, StayPut, Pids, Shaped, Within, NodeSized, PinUp, PinDown, Lookup;
      ghost var v := Now();
      StoredHere(v.flat, t, h, v.pages);
      var f := Pin(root);
      if f.Failure? {
        return Failure(f.error);
      }
      PinsGrowByOne(v.pins, PageKey(root));
      var n := Read(f.value, root);
      ghost var cur, ch := t, h;
      while !n.isLeaf
        invariant Ready() && Now().flat == v.flat && Now().pages == v.pages
            && Now().pins == PinUp(v.pins, PageKey(root))
        invariant RootShaped(cur, ch) && Stored(v.flat, cur) && Within(Pids(cur), 0, v.pages)
            && n == NodeOf(v.flat, cur.pid)
        invariant Lookup(t, h, key) == Lookup(cur, ch, key)
        decreases ch
      {
        StoredHere(v.flat, cur, ch, v.pages);
        var child := ScanStep(n, key, cur, ch);
        if child.Failure? {
          return Failure(child.error);
        }
        n := child.value;
        LookupStep(cur, ch, key);
        cur, ch := cur.kids[ScanRoute(cur.keys, key)], ch - 1;
      }
      StoredHere(v.flat, cur, ch, v.pages);
      LookupInLeaf(cur, ch, key);
      var found := FindIn(n, key);
      match found
      case Some(rid) => return Success(rid);
      case None => return Failure(NoSuchEntry);
    }
  }

  lemma RouteIs(keys: seq<int>, k: int, i: nat)
    requires i <= |keys| && (forall j :: 0 <= j < i ==> keys[j] < k) && (i < |keys| ==> k <= keys[i])
    ensures Route(keys, k) == i
  {
  }

  lemma PinsGrowByOne(pins: map<Key, int>, k: Key)
    ensures |PinUp(pins, k)| <= |pins| + 1
  {
    assert PinUp(pins, k).Keys == pins.Keys + {k};
    assert |PinUp(pins, k)| == |PinUp(pins, k).Keys| && |pins| == |pins.Keys|;
  }

  lemma EmptyStored(flat: imap<Key, Page>, pid: int)
    requires EmptyLeaf(NodeOf(flat, pid))
    ensures Stored(flat, Leaf(pid, [], INVALID_PAGE_ID))
  {
    assert EntriesOf(NodeOf(flat, pid)) == [];
  }

  lemma EmptiedSized(n: NodeImage)
    requires NodeSized(n)
    ensures NodeSized(Emptied(n)) && EmptyLeaf(Emptied(n))
  {
  }

  lemma SizedIfReadable(n: NodeImage)
    requires NodeReadable(n)
    ensures NodeSized(n)
  {
  }

  lemma StayPutThen(u: View, v: View, w: View)
    requires StayPut(u, v) && w.table == v.table
    ensures StayPut(u, w)
  {
  }

  lemma PinsGrow(pins: map<Key, int>, k: Key)
    ensures pins.Keys <= PinUp(pins, k).Keys
  {
  }

  // ---------- facts the levels of an insert use ----------

  lemma NodeOfInner(flat: imap<Key, Page>, t: Tree, h: nat, i: nat)
    requires t.Inner? && Shaped(t, h) && Stored(flat, t)
    ensures var n := NodeOf(flat, t.pid);
      && NodeReadable(n) && SeparatorsOf(n) == t.keys && |t.kids| == n.keyCount + 1 && |n.children| == MAX_KEYS + 1
      && 1 <= |t.keys| <= MAX_KEYS
      && h > 0 && AllShaped(t.kids, h - 1)
      && (i < |t.kids| ==> n.children[i] == t.kids[i].pid && Stored(flat, t.kids[i]))
  {
    var n := NodeOf(flat, t.pid);
    assert i < |t.kids| ==> ChildrenOf(n)[i] == n.children[i];
    assert AllShaped(t.kids, h - 1);
  }

  lemma KidInTree(t: Tree, i: nat, pages: nat)
    requires t.Inner? && i < |t.kids| && Distinct(t) && Within(Pids(t), 0, pages)
    ensures Pids(t.kids[i]) <= PidsAll(t.kids) <= Pids(t) && t.pid in Pids(t)
    ensures Distinct(t.kids[i]) && t.pid !in PidsAll(t.kids) && t.kids[i].pid in Pids(t.kids[i])
    ensures Within(Pids(t.kids[i]), 0, pages) && 0 <= t.pid < pages
  {
    assert DistinctAll(t.kids);
    assert t.pid in Pids(t);
  }

  lemma KidWithin(t: Tree, i: nat, pages: nat)
    requires t.Inner? && i < |t.kids| && Within(Pids(t), 0, pages)
    ensures Within(Pids(t.kids[i]), 0, pages)
  {
    assert Pids(t.kids[i]) <= PidsAll(t.kids) <= Pids(t);
  }

  lemma LookupInLeaf(t: Tree, h: nat, k: int)
    requires t.Leaf? && RootShaped(t, h)
    ensures Lookup(t, h, k) == Find(t.entries, k)
  {
  }

  lemma LookupStep(t: Tree, h: nat, k: int)
    requires t.Inner? && Shaped(t, h)
    ensures
      var kid := t.kids[ScanRoute(t.keys, k)];
      h > 0 && RootShaped(kid, h - 1) && Lookup(t, h, k) == Lookup(kid, h - 1, k)
  {
    KidShaped(t, h, ScanRoute(t.keys, k));
  }

  lemma ScanRouteIs(keys: seq<int>, k: int, i: nat)
    requires i <= |keys| && (forall j :: 0 <= j < i ==> keys[j] <= k) && (i < |keys| ==> k < keys[i])
    ensures ScanRoute(keys, k) == i
  {
  }

  lemma RootAbove(t: Tree, root: int)
    requires t.Inner? && Distinct(t) && (root == t.pid || root !in Pids(t))
    ensures root !in PidsAll(t.kids)
  {
  }

  lemma PidOwn(t: Tree)
    ensures t.pid in Pids(t)
  {
  }

  lemma AgreeWider(a: imap<Key, Page>, b: imap<Key, Page>, ps: set<int>, qs: set<int>, lo: nat, hi: nat)
    requires AgreeOff(a, b, ps, lo, hi) && ps <= qs
    ensures AgreeOff(a, b, qs, lo, hi)
  {
  }

  lemma InsLeafIs(t: Tree, h: nat, k: int, rid: RID, pages: nat, copy: SplitCopy)
    requires RootShaped(t, h)
    ensures t.Leaf? ==> Ins(t, h, k, rid, pages, copy) == InsLeaf(t, k, rid, pages)
    ensures Ins(t, h, k, rid, pages, copy).left.pid == t.pid
    ensures Ins(t, h, k, rid, pages, copy).pages <= pages + h + 1
  {
  }

  lemma LeafPids(t: Tree)
    requires t.Leaf?
    ensures Pids(t) == {t.pid}
  {
  }

  lemma InsPids(t: Tree, h: nat, k: int, rid: RID, pages: nat, copy: SplitCopy)
    requires RootShaped(t, h) && Distinct(t) && Within(Pids(t), 0, pages)
    ensures
      var c := Ins(t, h, k, rid, pages, copy);
      Within(Pids(c.left), 0, c.pages) && (c.split.Some? ==> Within(Pids(c.split.value.right), 0, c.pages))
  {
    InsFetched(t, h, k, rid, pages, copy);
  }

  lemma StoredHere(flat: imap<Key, Page>, t: Tree, h: nat, pages: nat)
    requires RootShaped(t, h) && Stored(flat, t) && Within(Pids(t), 0, pages)
    ensures NodeHolds(NodeOf(flat, t.pid), t) && 0 <= t.pid < pages
    ensures NodeOf(flat, t.pid).isLeaf <==> t.Leaf?
    ensures t.Leaf? ==> h == 0
    ensures t.Inner? ==> Shaped(t, h)
  {
    assert t.pid in Pids(t);
  }
}
