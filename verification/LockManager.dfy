/** The row-lock tables. */
module LockTables {
  import opened StorageTypes

  /** What the tables tell row identifiers apart by: the page and the place in it, not the slot's size. */
  datatype RowName = RowName(pid: int, offset: nat)

  function NameOf(rid: RID): RowName {
    RowName(rid.pid, rid.slot.offset)
  }

  type Owners = map<RowName, nat>
  type Owned = map<nat, set<RowName>>

  const TIDS := 256

  /** The two tables say the same: who owns a row, and which rows an owner has. */
  ghost predicate Inverse(owners: Owners, owned: Owned) {
    && (forall r :: r in owners ==> owners[r] in owned && r in owned[owners[r]])
    && (forall t, r :: t in owned && r in owned[t] ==> r in owners && owners[r] == t)
    && (forall t :: t in owned ==> owned[t] != {})
  }

  /** A row can be taken when nobody else has it. */
  predicate Free(owners: Owners, t: nat, r: RowName) {
    r in owners ==> owners[r] == t
  }

  function Taken(owners: Owners, t: nat, r: RowName): Owners {
    owners[r := t]
  }

  /** The owners once t has let go of all of its rows. */
  function Without(owners: Owners, t: nat): Owners {
    map r | r in owners && owners[r] != t :: owners[r]
  }

  /** The owners without these rows. */
  function Less(owners: Owners, gone: set<RowName>): Owners {
    map r | r in owners && r !in gone :: owners[r]
  }

  lemma OneLess(owners: Owners, mine: set<RowName>, left: set<RowName>, r: RowName)
    requires r in left && left <= mine
    ensures Less(owners, mine - left) - {r} == Less(owners, mine - (left - {r}))
  {
    assert mine - (left - {r}) == mine - left + {r};
  }

  lemma AllLess(owners: Owners, mine: set<RowName>, t: nat)
    requires forall r :: r in mine <==> r in owners && owners[r] == t
    ensures Less(owners, {}) == owners && Less(owners, mine) == Without(owners, t)
  {
  }

  lemma OwnedRows(owners: Owners, owned: Owned, t: nat)
    requires Inverse(owners, owned) && t in owned
    ensures forall r :: r in owned[t] <==> r in owners && owners[r] == t
  {
  }

  lemma StillOwned(owners: Owners, mine: set<RowName>, left: set<RowName>, r: RowName, t: nat)
    requires (forall q :: q in mine <==> q in owners && owners[q] == t) && r in left && left <= mine
    ensures r in Less(owners, mine - left) && Less(owners, mine - left)[r] == t
  {
  }

  lemma ReleasedInverse(owners: Owners, owned: Owned, t: nat)
    requires Inverse(owners, owned)
    ensures Inverse(Without(owners, t), owned - {t})
  {
    var owned' := owned - {t};
    forall u, r | u in owned' && r in owned'[u] ensures r in Without(owners, t) && owners[r] == u {
      assert u in owned && r in owned[u];
    }
  }

  /** Cutting to 16 bits first makes no difference to the lowest 8, nor to counting on. */
  lemma CutTwice(n: nat)
    ensures (n % 0x1_0000) % 256 == n % 256 && (n % 0x1_0000 + 1) % 0x1_0000 == (n + 1) % 0x1_0000
  {
    var q := n / 0x1_0000;
    assert n == q * 0x1_0000 + n % 0x1_0000;
    assert n % 0x1_0000 == n - (q * 256) * 256;
    var m := n % 0x1_0000;
    assert m == (m / 256) * 256 + m % 256;
    assert n == (q * 256 + m / 256) * 256 + m % 256;
  }

  class LockManager {
    var seed: nat
    /** How many numbers have been drawn. */
    ghost var drawn: nat
    var owners: Owners
    var owned: Owned

    ghost predicate Valid()
      reads this
    {
      Inverse(owners, owned) && seed == drawn % 0x1_0000
    }

    constructor ()
      ensures Valid() && owners == map[] && drawn == 0
    {
      seed, owners, owned, drawn := 0, map[], map[], 0;
    }

    /** Draws a transaction number: a 16-bit counter cut to 8 bits, so that the 256 numbers go round. */
    method GetTransactionId() returns (t: nat)
      requires Valid()
      modifies this`seed, this`drawn
      ensures Valid() && drawn == old(drawn) + 1
      ensures t < 256 && t == old(drawn) % 256
    {
      hide Inverse;
      CutTwice(drawn);
      t := seed % TIDS;
      seed := (seed + 1) % 0x1_0000;
      drawn := drawn + 1;
    }

    /** One look at the tables; a caller that is turned away waits for a release and looks again. */
    method TryAcquire(t: nat, rid: Option<RID>) returns (taken: bool)
      requires Valid()
      modifies this`owners, this`owned
      ensures Valid()
      ensures taken <==> rid.None? || Free(old(owners), t, NameOf(rid.value))
      ensures owners == if taken && rid.Some? then Taken(old(owners), t, NameOf(rid.value)) else old(owners)
    {
      if rid.None? {
        return true;
      }
      var r := NameOf(rid.value);
      if r in owners && owners[r] != t {
        return false;
      }
      if r !in owners {
        owners := owners[r := t];
        owned := owned[t := (if t in owned then owned[t] else {}) + {r}];
      }
      return true;
    }

    /** Gives back every row of a transaction. */
    method Release(t: nat)
      requires Valid()
      modifies this`owners, this`owned
      ensures Valid() && owners == Without(old(owners), t)
    {
      if t !in owned {
        return;
      }
      var mine := owned[t];
      ghost var all := owners;
      OwnedRows(owners, owned, t);
      AllLess(owners, mine, t);
      ReleasedInverse(owners, owned, t);
      hide Inverse, Less, Without;
      var left := mine;
      assert mine - left == {};
      while left != {}
        invariant left <= mine && owned == old(owned)
        invariant owners == Less(all, mine - left)
        decreases |left|
      {
        var r :| r in left;
        StillOwned(all, mine, left, r, t);
        OneLess(all, mine, left, r);
        if r in owners && owners[r] == t {
          owners := owners - {r};
        }
        left := left - {r};
      }
      assert mine - left == mine;
      owned := owned - {t};
    }
  }
}
