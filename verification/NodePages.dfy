/**
  One index page in memory: its fixed-size key, row and child arrays, and the in-place
  insert and split of the access methods.
 */
module NodePages {
  import opened StorageTypes
  import opened BPlusTree

  /** What a split passes up: the promoted key and the page of the new right node. */
  datatype SplitResult = SplitResult(key: int, pid: int)

  datatype NodeError = RightPageMissing

  // ---------- what a page image says ----------

  ghost predicate NodeReadable(n: NodeImage) {
    NodeSized(n) && 0 <= n.keyCount <= MAX_KEYS
  }

  ghost function EntriesOf(n: NodeImage): (es: seq<Entry>)
    requires NodeReadable(n)
    ensures |es| == n.keyCount
  {
    seq(n.keyCount, i requires 0 <= i < n.keyCount => Entry(n.keys[i], n.values[i]))
  }

  ghost function SeparatorsOf(n: NodeImage): (keys: seq<int>)
    requires NodeReadable(n)
    ensures |keys| == n.keyCount
  {
    n.keys[..n.keyCount]
  }

  ghost function ChildrenOf(n: NodeImage): (pids: seq<int>)
    requires NodeReadable(n)
    ensures |pids| == n.keyCount + 1
  {
    n.children[..n.keyCount + 1]
  }

  /** A shift under way: places up to i are as they were, the later ones have moved one place right. */
  ghost predicate Shifted<T>(s: seq<T>, a: seq<T>, i: int) {
    -1 <= i < |s| < |a| && a[..i + 1] == s[..i + 1] && a[i + 2..|s| + 1] == s[i + 1..]
  }

  lemma ShiftStart<T>(a: seq<T>, n: nat)
    requires n < |a|
    ensures Shifted(a[..n], a, n - 1)
  {
  }

  lemma ShiftKept<T>(s: seq<T>, a: seq<T>, i: nat)
    requires Shifted(s, a, i)
    ensures i < |s| < |a| && a[i] == s[i]
  {
    assert a[i] == a[..i + 1][i] == s[..i + 1][i];
  }

  /** One step of a shift: place i goes to place i + 1. */
  lemma Pushed<T>(s: seq<T>, a: seq<T>, i: nat)
    requires Shifted(s, a, i)
    ensures a[i] == s[i] && Shifted(s, a[i + 1 := a[i]], i - 1)
  {
    ShiftKept(s, a, i);
    var b := a[i + 1 := a[i]];
    assert b[i + 1..|s| + 1] == [s[i]] + a[i + 2..|s| + 1];
    assert s[i..] == [s[i]] + s[i + 1..];
    assert b[..i] == a[..i + 1][..i];
  }

  /** Filling the gap of a shift completes an insertion. */
  lemma Filled<T>(s: seq<T>, a: seq<T>, i: int, x: T)
    requires Shifted(s, a, i)
    ensures a[i + 1 := x][..|s| + 1] == InsertAt(s, i + 1, x)
  {
    var b := a[i + 1 := x];
    assert b[..|s| + 1] == b[..i + 1] + [x] + b[i + 2..|s| + 1];
    assert b[..i + 1] == a[..i + 1] && b[i + 2..|s| + 1] == a[i + 2..|s| + 1];
  }

  /** Shifts the keys above `key` and their rows one place right, and fills the gap. */
  method ShiftLeaf(keys: array<int>, others: array<RID>, n: nat, key: int, other: RID)
    requires n < keys.Length && n < others.Length
    modifies keys, others
    ensures keys[..n + 1] == InsertAt(old(keys[..n]), SlotFor(old(keys[..n]), key), key)
    ensures others[..n + 1] == InsertAt(old(others[..n]), SlotFor(old(keys[..n]), key), other)
  {
    hide SlotFor, InsertAt, Shifted;
    ghost var ks, os := keys[..n], others[..n];
    ShiftStart(keys[..], n);
    ShiftStart(others[..], n);
    var i := n - 1;
    while i >= 0 && keys[i] > key
      invariant -1 <= i < n
      invariant Shifted(ks, keys[..], i)
      invariant Shifted(os, others[..], i)
      invariant forall j :: i < j < n ==> ks[j] > key
    {
      Pushed(ks, keys[..], i);
      Pushed(os, others[..], i);
      keys[i + 1] := keys[i];
      others[i + 1] := others[i];
      i := i - 1;
    }
    if i >= 0 {
      ShiftKept(ks, keys[..], i);
    }
    SlotIs(ks, key, i + 1);
    Filled(ks, keys[..], i, key);
    Filled(os, others[..], i, other);
    keys[i + 1] := key;
    others[i + 1] := other;
  }

  /** Shifts the separators above `key` and the children to their right, and fills the gap. */
  method ShiftInternal(keys: array<int>, others: array<int>, n: nat, key: int, other: int)
    requires n < keys.Length && n + 1 < others.Length && keys != others
    modifies keys, others
    ensures keys[..n + 1] == InsertAt(old(keys[..n]), SlotFor(old(keys[..n]), key), key)
    ensures others[..n + 2] == InsertAt(old(others[..n + 1]), SlotFor(old(keys[..n]), key) + 1, other)
  {
    hide SlotFor, InsertAt, Shifted;
    ghost var ks, os := keys[..n], others[..n + 1];
    ShiftStart(keys[..], n);
    ShiftStart(others[..], n + 1);
    var i := n - 1;
    while i >= 0 && keys[i] > key
      invariant -1 <= i < n
      invariant Shifted(ks, keys[..], i)
      invariant Shifted(os, others[..], i + 1)
      invariant forall j :: i < j < n ==> ks[j] > key
    {
      Pushed(ks, keys[..], i);
      Pushed(os, others[..], i + 1);
      keys[i + 1] := keys[i];
      others[i + 2] := others[i + 1];
      i := i - 1;
    }
    if i >= 0 {
      ShiftKept(ks, keys[..], i);
    }
    SlotIs(ks, key, i + 1);
    Filled(ks, keys[..], i, key);
    Filled(os, others[..], i + 1, other);
    keys[i + 1] := key;
    others[i + 2] := other;
  }

  /** memcpy: the first n elements of dst become those of src from `from` on. */
  method CopyInto<T>(dst: array<T>, src: array<T>, from: nat, n: nat)
    requires dst != src && n <= dst.Length && from + n <= src.Length
    modifies dst
    ensures dst[..n] == src[from..from + n] && dst[n..] == old(dst[n..])
  {
    forall i | 0 <= i < n { dst[i] := src[from + i]; }
  }

  /** Copies a full array into one with room for one more element. */
  method CopyWithRoom<T>(a: array<T>, zero: T) returns (t: array<T>)
    ensures fresh(t) && t.Length == a.Length + 1 && t[..a.Length] == a[..]
  {
    t := new T[a.Length + 1](_ => zero);
    CopyInto(t, a, 0, a.Length);
  }

  lemma LeafHalf(n: NodeImage, ks: seq<int>, vs: seq<RID>, from: nat)
    requires NodeReadable(n) && n.keyCount == 2 && |ks| == 4 == |vs| && from <= 2
    requires n.keys[..2] == ks[from..from + 2] && n.values[..2] == vs[from..from + 2]
    ensures EntriesOf(n) == [Entry(ks[from], vs[from]), Entry(ks[from + 1], vs[from + 1])]
  {
    assert n.keys[..2][0] == n.keys[0] && n.keys[..2][1] == n.keys[1];
    assert n.values[..2][0] == n.values[0] && n.values[..2][1] == n.values[1];
  }

  lemma PairedAt(es: seq<Entry>, ks: seq<int>, vs: seq<RID>, p: nat, key: int, rid: RID)
    requires |es| == |ks| == |vs| && p <= |es|
    requires forall i :: 0 <= i < |es| ==> es[i] == Entry(ks[i], vs[i])
    ensures
      var all, ks', vs' := InsertAt(es, p, Entry(key, rid)), InsertAt(ks, p, key), InsertAt(vs, p, rid);
      forall i :: 0 <= i < |all| ==> all[i] == Entry(ks'[i], vs'[i])
  {
  }

  lemma PairedInsert(n: NodeImage, es: seq<Entry>, ks: seq<int>, vs: seq<RID>, p: nat, key: int, rid: RID)
    requires NodeReadable(n) && |es| == |ks| == |vs| == n.keyCount - 1 && p <= |es|
    requires forall i :: 0 <= i < |es| ==> es[i] == Entry(ks[i], vs[i])
    requires n.keys[..n.keyCount] == InsertAt(ks, p, key) && n.values[..n.keyCount] == InsertAt(vs, p, rid)
    ensures EntriesOf(n) == InsertAt(es, p, Entry(key, rid))
  {
    forall i | 0 <= i < n.keyCount ensures EntriesOf(n)[i] == InsertAt(es, p, Entry(key, rid))[i] {
      assert n.keys[i] == n.keys[..n.keyCount][i] && n.values[i] == n.values[..n.keyCount][i];
    }
  }

  class NodePage {
    var isLeaf: bool
    var keyCount: int
    const keys: array<int>
    const values: array<RID>
    const children: array<int>
    var nextLeaf: int

    ghost function Image(): NodeImage
      reads this, keys, values, children
    {
      NodeImage(isLeaf, keyCount, keys[..], values[..], nextLeaf, children[..])
    }

    ghost predicate Valid()
      reads this, keys, values, children
    {
      NodeReadable(Image()) && keys != children
    }

    /** The typed view of a page's bytes. */
    constructor (n: NodeImage)
      requires NodeSized(n)
      ensures Image() == n && keys != children && fresh(keys) && fresh(values) && fresh(children)
    {
      isLeaf, keyCount, nextLeaf := n.isLeaf, n.keyCount, n.nextLeaf;
      keys := new int[MAX_KEYS](i requires 0 <= i < MAX_KEYS => n.keys[i]);
      values := new RID[MAX_KEYS](i requires 0 <= i < MAX_KEYS => n.values[i]);
      children := new int[MAX_KEYS + 1](i requires 0 <= i <= MAX_KEYS => n.children[i]);
    }

    /** Makes the page an empty leaf; whatever else is in its bytes stays there. */
    method Init()
      modifies this
      ensures Image() == old(Image()).(keyCount := 0, isLeaf := true, nextLeaf := INVALID_PAGE_ID)
    {
      keyCount := 0;
      isLeaf := true;
      nextLeaf := INVALID_PAGE_ID;
    }

    /** Reads the page back into bytes. */
    method Bytes() returns (n: NodeImage)
      ensures n == Image()
    {
      n := NodeImage(isLeaf, keyCount, keys[..], values[..], nextLeaf, children[..]);
    }

    /**
      Adds an entry to a leaf: in its sorted place while there is room, and otherwise by
      dividing the four entries between this page and `right`.
     */
    method LeafInsert(right: NodePage?, rightPid: int, key: int, rid: RID)
      returns (r: Result<Option<SplitResult>, NodeError>)
      requires Valid() && isLeaf
      requires right != null ==> right != this && right.Image().isLeaf && NodeSized(right.Image())
      requires right != null ==> right.keys !in {keys, children} && right.values != values && keys != right.children
      modifies this, keys, values, right, if right == null then {} else {right.keys, right.values}
      ensures r.Failure? <==> old(keyCount) == MAX_KEYS && right == null
      ensures r.Failure? ==> Image() == old(Image())
      ensures r.Success? ==>
        && Valid() && isLeaf
        && var es := InsertAt(old(EntriesOf(Image())), SlotFor(KeysOf(old(EntriesOf(Image()))), key), Entry(key, rid));
        if old(keyCount) < MAX_KEYS then
          && r.value.None? && EntriesOf(Image()) == es && nextLeaf == old(nextLeaf)
          && (right != null ==> right.Image() == old(right.Image()))
        else
          && r.value == Some(SplitResult(es[2].key, rightPid))
          && EntriesOf(Image()) == es[..2] && nextLeaf == rightPid
          && NodeReadable(right.Image()) && right.isLeaf
          && EntriesOf(right.Image()) == es[2..] && right.nextLeaf == old(nextLeaf)
    {
      if keyCount < MAX_KEYS {
        LeafShift(key, rid);
        return Success(None);
      }
      if right == null {
        return Failure(RightPageMissing);
      }
      var s := LeafOverflow(right, rightPid, key, rid);
      return Success(Some(s));
    }

    /** The leaf insert with room: keys and rows are shifted in place. */
    method LeafShift(key: int, rid: RID)
      requires Valid() && isLeaf && keyCount < MAX_KEYS
      modifies this`keyCount, keys, values
      ensures Valid()
      ensures EntriesOf(Image())
          == InsertAt(old(EntriesOf(Image())), SlotFor(KeysOf(old(EntriesOf(Image()))), key), Entry(key, rid))
    {
      ghost var es := EntriesOf(Image());
      ghost var ks, vs := keys[..keyCount], values[..keyCount];
      assert KeysOf(es) == ks;
      var n := keyCount;
      keyCount := keyCount + 1;
      ShiftLeaf(keys, values, n, key, rid);
      assert keys[..keyCount] == InsertAt(ks, SlotFor(ks, key), key);
      assert values[..keyCount] == InsertAt(vs, SlotFor(ks, key), rid);
      PairedInsert(Image(), es, ks, vs, SlotFor(ks, key), key, rid);
    }

    /** The leaf insert without room: the four entries are put in order aside, then divided. */
    method LeafOverflow(right: NodePage, rightPid: int, key: int, rid: RID) returns (s: SplitResult)
      requires Valid() && isLeaf && keyCount == MAX_KEYS && right != this && NodeSized(right.Image())
      requires right.keys !in {keys, children} && right.values != values && keys != right.children
      modifies this, keys, values, right, right.keys, right.values
      ensures Valid() && isLeaf && NodeReadable(right.Image()) && right.isLeaf
      ensures right.nextLeaf == old(nextLeaf) && nextLeaf == rightPid
      ensures
        var es := InsertAt(old(EntriesOf(Image())), SlotFor(KeysOf(old(EntriesOf(Image()))), key), Entry(key, rid));
        && s == SplitResult(es[2].key, rightPid)
        && EntriesOf(Image()) == es[..2] && EntriesOf(right.Image()) == es[2..]
    {
      ghost var es := EntriesOf(Image());
      ghost var p := SlotFor(KeysOf(es), key);
      var tempKeys, tempRids := LeafPending(key, rid);
      s := LeafSplit(right, rightPid, tempKeys, tempRids);
      ghost var all := InsertAt(es, p, Entry(key, rid));
      assert all == [all[0], all[1], all[2], all[3]];
    }

    /** The four entries of an overflowing leaf, in order. */
    method LeafPending(key: int, rid: RID) returns (tempKeys: array<int>, tempRids: array<RID>)
      requires Valid() && keyCount == MAX_KEYS
      ensures fresh(tempKeys) && fresh(tempRids) && tempKeys.Length == MAX_KEYS + 1 == tempRids.Length
      ensures var es := InsertAt(EntriesOf(Image()), SlotFor(KeysOf(EntriesOf(Image())), key), Entry(key, rid));
        forall i :: 0 <= i <= MAX_KEYS ==> es[i] == Entry(tempKeys[i], tempRids[i])
    {
      hide SlotFor, InsertAt;
      ghost var es := EntriesOf(Image());
      ghost var ks, vs := keys[..], values[..];
      assert KeysOf(es) == ks;
      tempKeys := CopyWithRoom(keys, 0);
      tempRids := CopyWithRoom(values, ZERO_RID);
      ShiftLeaf(tempKeys, tempRids, MAX_KEYS, key, rid);
      assert tempKeys[..] == tempKeys[..MAX_KEYS + 1] && tempRids[..] == tempRids[..MAX_KEYS + 1];
      PairedAt(es, ks, vs, SlotFor(ks, key), key, rid);
    }

    method LeafSplit(right: NodePage, rightPid: int, tempKeys: array<int>, tempRids: array<RID>)
      returns (s: SplitResult)
      requires Valid() && isLeaf && keyCount == MAX_KEYS && right != this
      requires tempKeys.Length == MAX_KEYS + 1 == tempRids.Length
      requires NodeSized(right.Image()) && right.keys != keys && right.values != values
      requires tempKeys !in {keys, right.keys, children, right.children} && tempRids !in {values, right.values}
      requires right.keys != children && keys != right.children && keys != children
      modifies this, keys, values, right, right.keys, right.values
      ensures NodeReadable(Image()) && NodeReadable(right.Image())
      ensures EntriesOf(Image()) == [Entry(tempKeys[0], tempRids[0]), Entry(tempKeys[1], tempRids[1])]
      ensures EntriesOf(right.Image()) == [Entry(tempKeys[2], tempRids[2]), Entry(tempKeys[3], tempRids[3])]
      ensures isLeaf && right.isLeaf && right.nextLeaf == old(nextLeaf) && nextLeaf == rightPid
      ensures s == SplitResult(tempKeys[2], rightPid)
    {
      right.isLeaf := true;
      forall i | 0 <= i < MAX_KEYS { keys[i] := 0; }
      forall i | 0 <= i < MAX_KEYS { values[i] := ZERO_RID; }
      var total := keyCount + 1;
      var leftSize := (total + 1) / 2;
      var rightSize := total - leftSize;
      CopyInto(keys, tempKeys, 0, leftSize);
      CopyInto(right.keys, tempKeys, leftSize, rightSize);
      CopyInto(values, tempRids, 0, leftSize);
      CopyInto(right.values, tempRids, leftSize, rightSize);
      right.nextLeaf := nextLeaf;
      nextLeaf := rightPid;
      keyCount := leftSize;
      right.keyCount := rightSize;
      s := SplitResult(right.keys[0], rightPid);
      LeafHalf(Image(), tempKeys[..], tempRids[..], 0);
      LeafHalf(right.Image(), tempKeys[..], tempRids[..], 2);
    }

    /**
      Adds a separator and the child to its right: in place while there is room, and
      otherwise by dividing the four separators and five children.
     */
    method InternalInsert(right: NodePage, rightPid: int, childPid: int, key: int, copy: SplitCopy)
      returns (r: Option<SplitResult>)
      requires Valid() && !isLeaf && right != this && NodeSized(right.Image())
      requires right.keys !in {keys, children} && right.children !in {keys, children, right.keys}
      modifies this, keys, children, right, right.keys, right.children
      ensures Valid() && !isLeaf
      ensures old(keyCount) == 0 ==> r.None? && SeparatorsOf(Image()) == [key] && children[..] == old(children[..])
      ensures old(keyCount) > 0 ==>
        var p := SlotFor(old(SeparatorsOf(Image())), key);
        var ks, cs := InsertAt(old(SeparatorsOf(Image())), p, key), InsertAt(old(ChildrenOf(Image())), p + 1, childPid);
        if old(keyCount) < MAX_KEYS then
          r.None? && SeparatorsOf(Image()) == ks && ChildrenOf(Image()) == cs
        else
          && r == Some(SplitResult(ks[2], rightPid))
          && SeparatorsOf(Image()) == ks[..2] && ChildrenOf(Image()) == cs[..3]
          && NodeReadable(right.Image()) && !right.isLeaf
          && SeparatorsOf(right.Image()) == (if copy.Repaired? then ks[3..] else ks[2..3])
          && ChildrenOf(right.Image()) == cs[3..]
    {
      if keyCount < MAX_KEYS {
        if keyCount == 0 {
          keyCount := 1;
          keys[0] := key;
        } else {
          InternalShift(childPid, key);
        }
        return None;
      }
      var s := InternalOverflow(right, rightPid, childPid, key, copy);
      return Some(s);
    }

    /** The internal insert with room. */
    method InternalShift(childPid: int, key: int)
      requires Valid() && 0 < keyCount < MAX_KEYS
      modifies this`keyCount, keys, children
      ensures Valid()
      ensures
        var p := SlotFor(old(SeparatorsOf(Image())), key);
        && SeparatorsOf(Image()) == InsertAt(old(SeparatorsOf(Image())), p, key)
        && ChildrenOf(Image()) == InsertAt(old(ChildrenOf(Image())), p + 1, childPid)
    {
      var n := keyCount;
      keyCount := keyCount + 1;
      ShiftInternal(keys, children, n, key, childPid);
    }

    /** The internal insert without room. */
    method InternalOverflow(right: NodePage, rightPid: int, childPid: int, key: int, copy: SplitCopy)
      returns (s: SplitResult)
      requires Valid() && !isLeaf && keyCount == MAX_KEYS && right != this && NodeSized(right.Image())
      requires right.keys !in {keys, children} && right.children !in {keys, children, right.keys}
      modifies this, keys, children, right, right.keys, right.children
      ensures Valid() && !isLeaf && NodeReadable(right.Image()) && !right.isLeaf
      ensures
        var p := SlotFor(old(SeparatorsOf(Image())), key);
        var ks, cs := InsertAt(old(SeparatorsOf(Image())), p, key), InsertAt(old(ChildrenOf(Image())), p + 1, childPid);
        && s == SplitResult(ks[2], rightPid)
        && SeparatorsOf(Image()) == ks[..2] && ChildrenOf(Image()) == cs[..3]
        && SeparatorsOf(right.Image()) == (if copy.Repaired? then ks[3..] else ks[2..3])
        && ChildrenOf(right.Image()) == cs[3..]
    {
      var tempKeys, tempChild := InternalPending(childPid, key);
      s := InternalSplit(right, rightPid, tempKeys, tempChild, copy);
    }

    /** The four separators and five children of an overflowing internal node, in order. */
    method InternalPending(childPid: int, key: int) returns (tempKeys: array<int>, tempChild: array<int>)
      requires Valid() && keyCount == MAX_KEYS
      ensures fresh(tempKeys) && fresh(tempChild) && tempKeys != tempChild
      ensures tempKeys.Length == MAX_KEYS + 1 && tempChild.Length == MAX_KEYS + 2
      ensures var p := SlotFor(SeparatorsOf(Image()), key);
        tempKeys[..] == InsertAt(SeparatorsOf(Image()), p, key)
            && tempChild[..] == InsertAt(ChildrenOf(Image()), p + 1, childPid)
    {
      hide SlotFor, InsertAt;
      ghost var ks, cs := keys[..], children[..];
      assert SeparatorsOf(Image()) == ks && ChildrenOf(Image()) == cs;
      tempKeys := CopyWithRoom(keys, 0);
      tempChild := CopyWithRoom(children, 0);
      assert tempChild[..MAX_KEYS + 1] == cs && tempKeys[..MAX_KEYS] == ks;
      ShiftInternal(tempKeys, tempChild, MAX_KEYS, key, childPid);
      assert tempKeys[..MAX_KEYS + 1] == tempKeys[..] && tempChild[..MAX_KEYS + 2] == tempChild[..];
    }

    method InternalSplit(right: NodePage, rightPid: int, tempKeys: array<int>, tempChild: array<int>, copy: SplitCopy)
      returns (s: SplitResult)
      requires Valid() && !isLeaf && keyCount == MAX_KEYS && right != this && NodeSized(right.Image())
      requires tempKeys.Length == MAX_KEYS + 1 && tempChild.Length == MAX_KEYS + 2
      requires right.keys !in {keys, children} && right.children !in {keys, children, right.keys} && keys != children
      requires tempKeys !in {keys, children, right.keys, right.children}
      requires tempChild !in {keys, children, right.keys, right.children}
      modifies this, keys, children, right, right.keys, right.children
      ensures NodeReadable(Image()) && NodeReadable(right.Image()) && !isLeaf && !right.isLeaf
      ensures SeparatorsOf(Image()) == tempKeys[..2] && ChildrenOf(Image()) == tempChild[..3]
      ensures SeparatorsOf(right.Image()) == if copy.Repaired? then tempKeys[3..] else tempKeys[2..3]
      ensures ChildrenOf(right.Image()) == tempChild[3..]
      ensures s == SplitResult(tempKeys[2], rightPid)
    {
      right.isLeaf := false;
      forall i | 0 <= i < MAX_KEYS { keys[i] := 0; }
      forall i | 0 <= i < MAX_KEYS + 1 { children[i] := 0; }
      var total := keyCount + 1;
      var splitIdx := total / 2;
      var leftSize := splitIdx;
      var rightSize := total - leftSize - 1;
      var from := if copy.Repaired? then leftSize + 1 else leftSize;
      CopyInto(keys, tempKeys, 0, leftSize);
      CopyInto(right.keys, tempKeys, from, rightSize);
      CopyInto(children, tempChild, 0, leftSize + 1);
      CopyInto(right.children, tempChild, leftSize + 1, rightSize + 1);
      keyCount := leftSize;
      right.keyCount := rightSize;
      s := SplitResult(tempKeys[splitIdx], rightPid);
    }
  }

  // ---------- the same, from page bytes to page bytes ----------

  /** Leaf insert on the bytes of a leaf with room. */
  method InsertIntoLeaf(left: NodeImage, key: int, rid: RID) returns (l: NodeImage)
    requires NodeReadable(left) && left.isLeaf && left.keyCount < MAX_KEYS
    ensures NodeReadable(l) && l.isLeaf && l.nextLeaf == left.nextLeaf
    ensures EntriesOf(l) == InsertAt(EntriesOf(left), SlotFor(KeysOf(EntriesOf(left)), key), Entry(key, rid))
  {
    var page := new NodePage(left);
    var r := page.LeafInsert(null, INVALID_PAGE_ID, key, rid);
    l := page.Bytes();
  }

  /** Leaf insert on the bytes of a full leaf and of the page fetched for its right half. */
  method SplitLeaf(left: NodeImage, right: NodeImage, rightPid: int, key: int, rid: RID)
    returns (l: NodeImage, r: NodeImage, s: SplitResult)
    requires NodeReadable(left) && left.isLeaf && left.keyCount == MAX_KEYS && NodeSized(right)
    ensures NodeReadable(l) && l.isLeaf && l.nextLeaf == rightPid
    ensures NodeReadable(r) && r.isLeaf && r.nextLeaf == left.nextLeaf
    ensures
      var es := InsertAt(EntriesOf(left), SlotFor(KeysOf(EntriesOf(left)), key), Entry(key, rid));
      EntriesOf(l) == es[..2] && EntriesOf(r) == es[2..] && s == SplitResult(es[2].key, rightPid)
  {
    var page := new NodePage(left);
    var rightPage := new NodePage(right);
    rightPage.Init();
    var res := page.LeafInsert(rightPage, rightPid, key, rid);
    s := res.value.value;
    l := page.Bytes();
    r := rightPage.Bytes();
  }

  /** Internal insert on the bytes of a node and of the page fetched in case it splits. */
  method InsertIntoInternal(left: NodeImage, right: NodeImage, rightPid: int, childPid: int, key: int, copy: SplitCopy)
    returns (l: NodeImage, r: NodeImage, s: Option<SplitResult>)
    requires NodeReadable(left) && !left.isLeaf && left.keyCount > 0 && NodeSized(right)
    ensures NodeReadable(l) && !l.isLeaf && NodeSized(r)
    ensures
      var p := SlotFor(SeparatorsOf(left), key);
      var ks, cs := InsertAt(SeparatorsOf(left), p, key), InsertAt(ChildrenOf(left), p + 1, childPid);
      if left.keyCount < MAX_KEYS then
        s.None? && SeparatorsOf(l) == ks && ChildrenOf(l) == cs
      else
        && s == Some(SplitResult(ks[2], rightPid))
        && SeparatorsOf(l) == ks[..2] && ChildrenOf(l) == cs[..3]
        && NodeReadable(r) && !r.isLeaf
        && SeparatorsOf(r) == (if copy.Repaired? then ks[3..] else ks[2..3])
        && ChildrenOf(r) == cs[3..]
  {
    var page := new NodePage(left);
    var rightPage := new NodePage(right);
    rightPage.Init();
    s := page.InternalInsert(rightPage, rightPid, childPid, key, copy);
    l := page.Bytes();
    r := rightPage.Bytes();
  }
}
