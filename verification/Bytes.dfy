/** Fixed-width integers as they lie in memory: little-endian, signed ones in two's complement. */
module Bytes {
  import opened StorageTypes

  function Pow256(n: nat): (p: nat)
    ensures p > 0
  {
    if n == 0 then 1 else 256 * Pow256(n - 1)
  }

  /** The low `width` bytes of n. */
  function ToLE(n: nat, width: nat): (s: seq<Byte>)
    ensures |s| == width
  {
    if width == 0 then [] else [n % 256] + ToLE(n / 256, width - 1)
  }

  function FromLE(s: seq<Byte>): nat {
    if s == [] then 0 else s[0] + 256 * FromLE(s[1..])
  }

  lemma {:induction false} FromToLE(n: nat, width: nat)
    requires n < Pow256(width)
    ensures FromLE(ToLE(n, width)) == n
  {
    if width > 0 {
      assert n / 256 < Pow256(width - 1);
      FromToLE(n / 256, width - 1);
      assert ToLE(n, width)[1..] == ToLE(n / 256, width - 1);
    }
  }

  lemma {:induction false} FromLEBound(s: seq<Byte>)
    ensures FromLE(s) < Pow256(|s|)
  {
    if s != [] {
      FromLEBound(s[1..]);
    }
  }

  const INT32_LIMIT := 0x8000_0000
  const UINT32_LIMIT := 0x1_0000_0000

  lemma Widths()
    ensures Pow256(2) == 0x1_0000 && Pow256(4) == UINT32_LIMIT && Pow256(8) == UINT32_LIMIT * UINT32_LIMIT
  {
    assert Pow256(1) == 256;
    assert Pow256(2) == 0x1_0000;
    assert Pow256(3) == 0x100_0000;
    assert Pow256(4) == UINT32_LIMIT;
    assert Pow256(6) == 0x1_0000 * Pow256(4);
    assert Pow256(8) == 0x1_0000 * Pow256(6);
  }

  ghost predicate Int32(n: int) {
    -INT32_LIMIT <= n < INT32_LIMIT
  }

  function Int32ToBytes(n: int): (s: seq<Byte>)
    requires Int32(n)
    ensures |s| == 4
  {
    ToLE(if n < 0 then n + UINT32_LIMIT else n, 4)
  }

  function BytesToInt32(s: seq<Byte>): int
    requires |s| == 4
  {
    var u := FromLE(s);
    if u < INT32_LIMIT then u else u - UINT32_LIMIT
  }

  lemma Int32RoundTrip(n: int)
    requires Int32(n)
    ensures BytesToInt32(Int32ToBytes(n)) == n
  {
    Widths();
    FromToLE(if n < 0 then n + UINT32_LIMIT else n, 4);
  }

  lemma BytesToInt32Range(s: seq<Byte>)
    requires |s| == 4
    ensures Int32(BytesToInt32(s))
  {
    Widths();
    FromLEBound(s);
  }
}
