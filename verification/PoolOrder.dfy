/**
  In which order pages leave the pool. Pages fetched and let go one after the other take the frames in
  turn, and the last fifty stay; and of any frames that may go, the one goes that has waited longest since
  it was loaded or last passed over.
 */
module PoolOrder {
  import opened StorageTypes
  import opened Disks
  import opened PoolSpec

  // ---------- one page after another ----------

  /** Nothing has been fetched yet. */
  ghost predicate Untouched(p: Pool) {
    Sound(p) && p.table == map[] && p.queue == []
  }

  /** Page k is fetched and let go again. */
  ghost predicate Visited(p: Pool, k: Key, q: Pool) {
    Sound(p) && Access(p, k).Success? && InTable(Access(p, k).value.0) && UnPin(Access(p, k).value.0, k) == Success(q)
  }

  ghost predicate DistinctPages(ks: seq<Key>) {
    && (forall i :: 0 <= i < |ks| ==> ks[i].pid >= 0)
    && forall i, j :: 0 <= i < j < |ks| ==> ks[i] != ks[j]
  }

  /** The pages of the list, one after the other. */
  ghost predicate Visits(ps: seq<Pool>, ks: seq<Key>) {
    |ps| == |ks| + 1 && forall i :: 0 <= i < |ks| ==> Visited(ps[i], ks[i], ps[i + 1])
  }

  function Oldest(n: nat): nat {
    if n <= 50 then 0 else n - 50
  }

  /** After n pages: the last fifty are there, page i in frame i modulo 50, and the queue has them in order. */
  ghost predicate InTurn(p: Pool, ks: seq<Key>, n: nat)
    requires n <= |ks|
  {
    && Sound(p) && |p.queue| == n - Oldest(n)
    && (forall i :: 0 <= i < |p.queue| ==> p.queue[i] == (Oldest(n) + i) % 50)
    && (forall i :: Oldest(n) <= i < n ==> HoldsPage(p.frames[i % 50], ks[i]))
    && (forall f :: n <= f < 50 ==> !Used(p.frames[f]))
  }

  ghost predicate HoldsPage(fr: Frame, k: Key) {
    Used(fr) && KeyOf(fr) == k && fr.pin == 0
  }

  lemma UntouchedInTurn(p: Pool, ks: seq<Key>)
    requires Untouched(p)
    ensures InTurn(p, ks, 0)
  {
  }

  lemma FirstFreeAt(frames: seq<Frame>, f: nat)
    requires f <= |frames| && (forall j :: 0 <= j < f ==> Used(frames[j])) && (f < |frames| ==> !Used(frames[f]))
    ensures FirstFree(frames) == f
  {
  }

  lemma InTurnTable(p: Pool, ks: seq<Key>, n: nat)
    requires n <= |ks| && InTurn(p, ks, n)
    ensures forall k :: k in p.table <==> exists i :: 0 <= i < n <= i + 50 && ks[i] == k
    ensures forall i :: 0 <= i < n <= i + 50 ==> ks[i] in p.table && p.table[ks[i]] == i % 50
  {
    forall i | 0 <= i < n <= i + 50 ensures ks[i] in p.table && p.table[ks[i]] == i % 50 {
      assert HoldsPage(p.frames[i % 50], ks[i]);
    }
    forall k | k in p.table ensures exists i :: 0 <= i < n <= i + 50 && ks[i] == k {
      var f := p.table[k];
      assert Used(p.frames[f]) && KeyOf(p.frames[f]) == k && f in p.queue;
      var j :| 0 <= j < |p.queue| && p.queue[j] == f;
      assert HoldsPage(p.frames[(Oldest(n) + j) % 50], ks[Oldest(n) + j]);
    }
  }

  /** The page that comes next is not there. */
  lemma NewPage(p: Pool, ks: seq<Key>, n: nat)
    requires n < |ks| && InTurn(p, ks, n) && DistinctPages(ks)
    ensures ks[n] !in p.table && ks[n].pid >= 0
  {
    InTurnTable(p, ks, n);
    hide InTurn;
  }

  /** The page has come into this frame, at the back of what is left of the queue. */
  ghost predicate CameTo(p: Pool, k: Key, left: seq<nat>, f: nat, q: Pool)
    requires |p.frames| == 50 && f < 50
  {
    && |q.frames| == 50 && q.queue == left + [f] && k in q.table && q.table[k] == f
    && KeyOf(q.frames[f]) == k && q.frames[f].pin == 1 && Used(q.frames[f])
    && forall g :: 0 <= g < 50 && g != f ==> q.frames[g] == p.frames[g]
  }

  lemma ComesToFree(p: Pool, k: Key, f: nat)
    requires Sound(p) && k.pid >= 0 && k !in p.table && f < 50 && FirstFree(p.frames) == f
    ensures Access(p, k).Success? && Access(p, k).value.1 == f && CameTo(p, k, p.queue, f, Access(p, k).value.0)
  {
  }

  lemma ComesToFront(p: Pool, k: Key)
    requires Sound(p) && k.pid >= 0 && k !in p.table && FirstFree(p.frames) == 50 && p.queue != []
    requires p.frames[p.queue[0]].pin == 0
    ensures
      var f := p.queue[0];
      && Access(p, k).Success? && Access(p, k).value.1 == f
      && CameTo(p, k, p.queue[1..], f, Access(p, k).value.0)
  {
    assert PinnedPrefix(p.frames, p.queue) == 0;
    assert p.queue[1..] + p.queue[..0] == p.queue[1..];
  }

  /** The frame it takes: the next free one, or that of the page fifty before it. */
  lemma TakesNext(p: Pool, ks: seq<Key>, n: nat)
    requires n < |ks| && InTurn(p, ks, n) && DistinctPages(ks)
    ensures Access(p, ks[n]).Success? && Access(p, ks[n]).value.1 == n % 50
    ensures |p.frames| == 50
    ensures CameTo(p, ks[n], if n < 50 then p.queue else p.queue[1..], n % 50, Access(p, ks[n]).value.0)
  {
    hide InTurn, CameTo, Access, Sound, FirstFree, DistinctPages;
    NewPage(p, ks, n);
    FreeAt(p, ks, n);
    if n < 50 {
      ComesToFree(p, ks[n], n);
    } else {
      FrontAt(p, ks, n);
      ComesToFront(p, ks[n]);
    }
  }

  lemma FreeAt(p: Pool, ks: seq<Key>, n: nat)
    requires n <= |ks| && InTurn(p, ks, n)
    ensures Sound(p) && |p.frames| == 50 && FirstFree(p.frames) == if n < 50 then n else 50
  {
    hide FrameSound, DiskSound, TableExact, QueueExact;
    forall f | 0 <= f < 50 && f < n ensures Used(p.frames[f]) {
      var i := f;
      if n >= 50 {
        i := FrameOf(n, f);
      }
      assert HoldsPage(p.frames[i % 50], ks[i]);
    }
    FirstFreeAt(p.frames, if n < 50 then n else 50);
  }

  lemma FrontAt(p: Pool, ks: seq<Key>, n: nat)
    requires 50 <= n <= |ks| && InTurn(p, ks, n)
    ensures p.queue != [] && p.queue[0] == n % 50 < |p.frames| && p.frames[n % 50].pin == 0
  {
    hide FrameSound, DiskSound, TableExact, QueueExact;
    assert HoldsPage(p.frames[Oldest(n) % 50], ks[Oldest(n)]);
  }

  /** Fifty pages in a row come to every frame. */
  lemma FrameOf(n: nat, f: nat) returns (i: nat)
    requires n >= 50 && f < 50
    ensures Oldest(n) <= i < n && i % 50 == f
  {
    i := n - 1 - (n - 1 - f) % 50;
  }

  /** Page by page. */
  lemma VisitedNext(p: Pool, ks: seq<Key>, n: nat, q: Pool)
    requires n < |ks| && InTurn(p, ks, n) && DistinctPages(ks) && Visited(p, ks[n], q)
    ensures InTurn(q, ks, n + 1)
  {
    TakesNext(p, ks, n);
    AccessKeeps(p, ks[n]);
    var m := Access(p, ks[n]).value.0;
    UnPinKeeps(m, ks[n]);
    assert Sound(q) && q == Repin(m, ks[n], 0);
    LetGo(p, ks, n, m, q);
  }

  lemma LetGo(p: Pool, ks: seq<Key>, n: nat, m: Pool, q: Pool)
    requires n < |ks| && InTurn(p, ks, n) && Sound(q) && |p.frames| == 50
    requires CameTo(p, ks[n], if n < 50 then p.queue else p.queue[1..], n % 50, m) && q == Repin(m, ks[n], 0)
    ensures InTurn(q, ks, n + 1)
  {
    hide Sound;
    var left := if n < 50 then p.queue else p.queue[1..];
    assert |left| == n - Oldest(n + 1);
    forall i | 0 <= i < |q.queue| ensures q.queue[i] == (Oldest(n + 1) + i) % 50 {
      if i < |left| {
        assert q.queue[i] == left[i] == p.queue[if n < 50 then i else i + 1];
      }
    }
    forall i | Oldest(n + 1) <= i < n + 1 ensures HoldsPage(q.frames[i % 50], ks[i]) {
      if i < n {
        OtherFrame(i, n);
        assert HoldsPage(p.frames[i % 50], ks[i]);
      }
    }
  }

  lemma OtherFrame(i: nat, n: nat)
    requires Oldest(n + 1) <= i < n
    ensures i % 50 != n % 50
  {
  }

  /**
    Any number of different pages, fetched and let go one after the other: every fetch succeeds, and the
    pages in the pool are exactly the last fifty, page i in frame i modulo 50.
   */
  lemma {:induction false} LastFifty(ps: seq<Pool>, ks: seq<Key>, n: nat)
    requires Visits(ps, ks) && Untouched(ps[0]) && DistinctPages(ks) && n <= |ks|
    ensures InTurn(ps[n], ks, n)
    ensures forall k :: k in ps[n].table <==> exists i :: 0 <= i < n <= i + 50 && ks[i] == k
    ensures forall i :: 0 <= i < n <= i + 50 ==> ks[i] in ps[n].table && ps[n].table[ks[i]] == i % 50
    ensures n < |ks| ==> Access(ps[n], ks[n]).Success? && Access(ps[n], ks[n]).value.1 == n % 50
  {
    hide InTurn, Visited;
    if n == 0 {
      UntouchedInTurn(ps[0], ks);
    } else {
      LastFifty(ps, ks, n - 1);
      VisitedNext(ps[n - 1], ks, n - 1, ps[n]);
    }
    InTurnTable(ps[n], ks, n);
    if n < |ks| {
      TakesNext(ps[n], ks, n);
    }
  }

  // ---------- with pins ----------

  /** The pool, and for every frame the moment it was loaded or last passed over. */
  datatype Clock = Clock(pool: Pool, stamp: seq<nat>, now: nat)

  /** The queue has the frames in the order of their moments. */
  ghost predicate Timed(c: Clock) {
    && Sound(c.pool) && |c.stamp| == |c.pool.frames|
    && (forall i :: 0 <= i < |c.pool.queue| ==> c.stamp[c.pool.queue[i]] <= c.now)
    && forall i, j :: 0 <= i < j < |c.pool.queue| ==> c.stamp[c.pool.queue[i]] < c.stamp[c.pool.queue[j]]
  }

  /** A frame the replacement passes over on its way to frame f: it is pinned, and older. */
  ghost predicate PassedOver(c: Clock, f: nat, g: nat)
    requires f < |c.stamp| && g < |c.stamp| == |c.pool.frames|
  {
    Used(c.pool.frames[g]) && c.pool.frames[g].pin > 0 && c.stamp[g] < c.stamp[f]
  }

  /** The moments once f is loaded anew and those passed over on the way have gone to the back before it. */
  ghost function Restamped(c: Clock, f: nat): (stamp: seq<nat>)
    requires f < |c.stamp| == |c.pool.frames|
    ensures |stamp| == |c.stamp|
  {
    seq(|c.stamp|, g requires 0 <= g < |c.stamp| =>
      if g == f then 2 * c.now + 2 else if PassedOver(c, f, g) then c.now + 1 + c.stamp[g] else c.stamp[g])
  }

  ghost predicate AllUsed(p: Pool) {
    forall f :: 0 <= f < |p.frames| ==> Used(p.frames[f])
  }

  /** A fetch of page k, and what it does to the moments. */
  ghost predicate Fetches(c: Clock, k: Key, d: Clock)
    requires Sound(c.pool) && |c.stamp| == |c.pool.frames|
  {
    match Access(c.pool, k)
    case Failure(_) => d == c
    case Success((q, f)) =>
      && d.pool == q && f < |c.stamp|
      && if k in c.pool.table then d.stamp == c.stamp && d.now == c.now
         else if AllUsed(c.pool) then d.stamp == Restamped(c, f) && d.now == 2 * c.now + 2
         else d.stamp == c.stamp[f := c.now + 1] && d.now == c.now + 1
  }

  /** What leaves the queue and the moments alone: pins given back, and pages changed. */
  ghost predicate Quiet(c: Clock, d: Clock) {
    && d == c.(pool := d.pool) && Sound(d.pool) && d.pool.queue == c.pool.queue
    && (forall f :: 0 <= f < |c.pool.frames| && f < |d.pool.frames| ==>
          (Used(d.pool.frames[f]) <==> Used(c.pool.frames[f])))
  }

  /** The page in frame f makes room for page k. */
  ghost predicate Evicts(p: Pool, k: Key, f: nat)
    requires Sound(p)
  {
    && AllUsed(p) && k !in p.table && Access(p, k).Success? && Access(p, k).value.1 == f
  }

  /** Of the frames that are not pinned, f is the oldest. */
  ghost predicate OldestFree(c: Clock, f: nat)
    requires |c.stamp| == |c.pool.frames|
  {
    && f < |c.stamp| && c.pool.frames[f].pin == 0
    && forall g :: 0 <= g < |c.stamp| && g != f && Used(c.pool.frames[g]) && c.pool.frames[g].pin == 0 ==>
         c.stamp[f] < c.stamp[g]
  }

  lemma NoneFree(p: Pool)
    ensures AllUsed(p) <==> FirstFree(p.frames) == |p.frames|
  {
  }

  lemma VictimIs(c: Clock, k: Key, f: nat)
    requires Timed(c) && Evicts(c.pool, k, f)
    ensures
      var i := PinnedPrefix(c.pool.frames, c.pool.queue);
      && i < |c.pool.queue| && c.pool.queue[i] == f && c.pool.frames[f].pin == 0 && f < |c.stamp|
      && Access(c.pool, k).value.0.queue == c.pool.queue[i + 1..] + c.pool.queue[..i] + [f]
      && Access(c.pool, k).value.0.table == (c.pool.table - {KeyOf(c.pool.frames[f])})[k := f]
  {
    NoneFree(c.pool);
    var i := PinnedPrefix(c.pool.frames, c.pool.queue);
    if i < |c.pool.queue| {
      assert FrameSound(c.pool.frames[c.pool.queue[i]], c.pool.disk);
    }
  }

  /** The frame whose page makes room is the oldest that is not pinned, and no other page leaves. */
  lemma OldestLeaves(c: Clock, k: Key, f: nat)
    requires Timed(c) && Evicts(c.pool, k, f)
    ensures OldestFree(c, f)
    ensures Access(c.pool, k).value.0.table == (c.pool.table - {KeyOf(c.pool.frames[f])})[k := f]
  {
    VictimIs(c, k, f);
    var queue, i := c.pool.queue, PinnedPrefix(c.pool.frames, c.pool.queue);
    forall g | 0 <= g < |c.stamp| && g != f && Used(c.pool.frames[g]) && c.pool.frames[g].pin == 0
      ensures c.stamp[f] < c.stamp[g]
    {
      assert g in queue;
      var j :| 0 <= j < |queue| && queue[j] == g;
    }
  }

  /** A page that makes room is written out if it is marked; otherwise nothing is written. */
  lemma MarkedIsWritten(p: Pool, k: Key, f: nat)
    requires Sound(p) && Evicts(p, k, f)
    ensures f < |p.frames| && p.frames[f].pid >= 0
    ensures Access(p, k).value.0.disk
        == if p.frames[f].dirty then WritePage(p.disk, KeyOf(p.frames[f]), p.frames[f].data) else p.disk
  {
    NoneFree(p);
    hide FrameSound, DiskSound;
    var i := PinnedPrefix(p.frames, p.queue);
    if i < |p.queue| {
      assert Used(p.frames[p.queue[i]]);
    }
  }

  lemma FetchTimed(c: Clock, k: Key, d: Clock)
    requires Timed(c) && Fetches(c, k, d)
    ensures Timed(d)
  {
    AccessKeeps(c.pool, k);
    if Access(c.pool, k).Success? && k !in c.pool.table {
      NoneFree(c.pool);
      var f := Access(c.pool, k).value.1;
      if AllUsed(c.pool) {
        VictimIs(c, k, f);
        EvictTimed(c, k, d, f);
      } else {
        LoadTimed(c, k, d, f);
      }
    }
  }

  lemma LoadTimed(c: Clock, k: Key, d: Clock, f: nat)
    requires Timed(c) && Fetches(c, k, d) && Sound(d.pool) && Access(c.pool, k).Success? && k !in c.pool.table
    requires !AllUsed(c.pool) && f == Access(c.pool, k).value.1
    ensures Timed(d)
  {
    NoneFree(c.pool);
    assert f !in c.pool.queue && d.pool.queue == c.pool.queue + [f];
  }

  lemma EvictTimed(c: Clock, k: Key, d: Clock, f: nat)
    requires Timed(c) && Sound(d.pool) && |d.pool.frames| == |c.stamp| == |c.pool.frames|
    requires
      var i := PinnedPrefix(c.pool.frames, c.pool.queue);
      && i < |c.pool.queue| && c.pool.queue[i] == f && c.pool.frames[f].pin == 0 && f < |c.stamp|
      && d.pool.queue == c.pool.queue[i + 1..] + c.pool.queue[..i] + [f]
    requires d.stamp == Restamped(c, f) && d.now == 2 * c.now + 2
    ensures Timed(d)
  {
    hide Sound, Restamped, PinnedPrefix;
    QueueInside(c.pool);
    var queue, i := c.pool.queue, PinnedPrefix(c.pool.frames, c.pool.queue);
    RestampedAt(c, f);
    Rotated(queue, i, c.stamp, c.now, d.pool.queue, d.stamp);
  }

  lemma QueueInside(p: Pool)
    requires Sound(p)
    ensures forall i :: 0 <= i < |p.queue| ==> p.queue[i] < |p.frames|
  {
  }

  /** In queue order: those before the victim get later moments, it gets the latest, the others keep theirs. */
  lemma RestampedAt(c: Clock, f: nat)
    requires Timed(c) && f < |c.stamp|
    requires
      var i := PinnedPrefix(c.pool.frames, c.pool.queue);
      i < |c.pool.queue| && c.pool.queue[i] == f && c.pool.frames[f].pin == 0
    ensures
      var queue, i, stamp := c.pool.queue, PinnedPrefix(c.pool.frames, c.pool.queue), Restamped(c, f);
      forall j :: 0 <= j < |queue| ==>
        queue[j] < |c.stamp|
        && stamp[queue[j]]
           == (if j < i then c.now + 1 + c.stamp[queue[j]] else if j == i then 2 * c.now + 2 else c.stamp[queue[j]])
  {
    hide FrameSound, DiskSound, TableExact;
  }

  /** The front of the queue gone to the back, with later moments in the same order: the queue is in order again. */
  lemma Rotated(queue: seq<nat>, i: nat, was: seq<nat>, now: nat, queue': seq<nat>, stamp: seq<nat>)
    requires i < |queue| && queue' == queue[i + 1..] + queue[..i] + [queue[i]] && |stamp| == |was|
    requires forall j :: 0 <= j < |queue| ==> queue[j] < |was| && was[queue[j]] <= now
    requires forall j, l :: 0 <= j < l < |queue| ==> was[queue[j]] < was[queue[l]]
    requires forall j :: 0 <= j < |queue| ==>
      stamp[queue[j]] == (if j < i then now + 1 + was[queue[j]] else if j == i then 2 * now + 2 else was[queue[j]])
    ensures forall j :: 0 <= j < |queue'| ==> queue'[j] < |stamp| && stamp[queue'[j]] <= 2 * now + 2
    ensures forall j, l :: 0 <= j < l < |queue'| ==> stamp[queue'[j]] < stamp[queue'[l]]
  {
    var n := |queue| - i - 1;
    forall j | 0 <= j < |queue'| ensures queue'[j] == queue[if j < n then i + 1 + j else j - n] {
    }
  }

  lemma QuietTimed(c: Clock, d: Clock)
    requires Timed(c) && Quiet(c, d)
    ensures Timed(d)
  {
  }

  /** A state of a run. */
  ghost predicate Stamped(c: Clock) {
    Sound(c.pool) && |c.stamp| == |c.pool.frames|
  }

  /** One step: a fetch by anyone, or something quiet. */
  ghost predicate Moves(c: Clock, d: Clock)
    requires Stamped(c)
  {
    Quiet(c, d) || exists k :: Fetches(c, k, d)
  }

  ghost predicate MovesAt(cs: seq<Clock>, n: nat)
    requires n + 1 < |cs|
  {
    Stamped(cs[n]) && Moves(cs[n], cs[n + 1])
  }

  ghost predicate Run(cs: seq<Clock>) {
    cs != [] && Stamped(cs[0]) && forall n :: 0 <= n < |cs| - 1 ==> MovesAt(cs, n)
  }

  lemma MoveTimed(c: Clock, d: Clock)
    requires Stamped(c) && Timed(c) && Moves(c, d)
    ensures Timed(d)
  {
    hide Sound, Fetches, Quiet, Timed;
    if Quiet(c, d) {
      QuietTimed(c, d);
    } else {
      var k :| Fetches(c, k, d);
      FetchTimed(c, k, d);
    }
  }

  lemma {:induction false} RunTimed(cs: seq<Clock>, n: nat)
    requires Run(cs) && n < |cs| && cs[0].pool.queue == []
    ensures Timed(cs[n])
  {
    hide Sound, Moves;
    if n > 0 {
      RunTimed(cs, n - 1);
      assert MovesAt(cs, n - 1);
      MoveTimed(cs[n - 1], cs[n]);
    }
  }

  /**
    In any run from an empty pool, whatever is pinned, let go and changed on the way: the page that makes
    room for another is the one, of those that are not pinned, whose frame has waited longest since it was
    loaded or last passed over.
   */
  lemma RunEvictsOldest(cs: seq<Clock>, n: nat, k: Key, f: nat)
    requires Run(cs) && n < |cs| && cs[0].pool.queue == [] && Sound(cs[n].pool) && Evicts(cs[n].pool, k, f)
    ensures |cs[n].stamp| == |cs[n].pool.frames| && OldestFree(cs[n], f)
    ensures Access(cs[n].pool, k).value.0.table == (cs[n].pool.table - {KeyOf(cs[n].pool.frames[f])})[k := f]
  {
    RunTimed(cs, n);
    OldestLeaves(cs[n], k, f);
  }
}
