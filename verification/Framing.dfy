/**
 * The hand-framed byte stream a cache key hashes.
 *
 * Every encoder takes the bytes that follow it, so a stream is one nested
 * expression and unique readability is a chain of one-step cancellations.
 */
module Framing {
  type byte = x: int | 0 <= x < 256
  type Bytes = seq<byte>

  const TWO64: int := 0x1_0000_0000_0000_0000
  const U64_MAX: int := TWO64 - 1

  /** `u64::try_from(len).unwrap_or(u64::MAX)`. */
  function Saturate(n: nat): nat {
    if n <= U64_MAX then n else U64_MAX
  }

  function Pow256(k: nat): nat {
    if k == 0 then 1 else 256 * Pow256(k - 1)
  }

  /** The low `k` bytes of `n`, least significant first. */
  function LittleEndian(n: nat, k: nat): (r: Bytes)
    ensures |r| == k
  {
    if k == 0 then [] else [n % 256] + LittleEndian(n / 256, k - 1)
  }

  function Le64(n: nat): Bytes {
    LittleEndian(n, 8)
  }

  lemma {:induction false} LittleEndianInjective(n: nat, m: nat, k: nat)
    requires n < Pow256(k) && m < Pow256(k)
    requires LittleEndian(n, k) == LittleEndian(m, k)
    ensures n == m
  {
    if k != 0 {
      var ns, ms := LittleEndian(n, k), LittleEndian(m, k);
      assert ns[0] == n % 256 && ms[0] == m % 256;
      assert ns[1..] == LittleEndian(n / 256, k - 1) && ms[1..] == LittleEndian(m / 256, k - 1);
      LittleEndianInjective(n / 256, m / 256, k - 1);
    }
  }

  lemma {:induction false} Pow256Of8()
    ensures Pow256(8) == TWO64
  {
    assert Pow256(2) == 0x1_0000;
    assert Pow256(4) == 0x1_0000_0000;
    assert Pow256(6) == 0x1_0000_0000_0000;
  }

  /** Fixed-width fields cancel off the front of two equal streams. */
  lemma {:induction false} FixedCancel(a: Bytes, b: Bytes, r: Bytes, s: Bytes)
    requires |a| == |b| && a + r == b + s
    ensures a == b && r == s
  {
    assert a == (a + r)[..|a|] == (b + s)[..|b|] == b;
    assert r == (a + r)[|a|..] == (b + s)[|b|..] == s;
  }

  lemma {:induction false} Le64Cancel(n: nat, m: nat, r: Bytes, s: Bytes)
    requires n <= U64_MAX && m <= U64_MAX
    requires Le64(n) + r == Le64(m) + s
    ensures n == m && r == s
  {
    FixedCancel(Le64(n), Le64(m), r, s);
    Pow256Of8();
    LittleEndianInjective(n, m, 8);
  }

  /** `update_len_prefixed` followed by `rest`. */
  function FrameThen(bytes: Bytes, rest: Bytes): Bytes {
    Le64(Saturate(|bytes|)) + (bytes + rest)
  }

  ghost predicate Addressable<T>(s: seq<T>) {
    |s| <= U64_MAX
  }

  lemma {:induction false} FrameCancel(a: Bytes, b: Bytes, r: Bytes, s: Bytes)
    requires Addressable(a) && Addressable(b)
    requires FrameThen(a, r) == FrameThen(b, s)
    ensures a == b && r == s
  {
    Le64Cancel(|a|, |b|, a + r, b + s);
    FixedCancel(a, b, r, s);
  }

  /** The framed items of a list, without its count. */
  function ItemsThen(items: seq<Bytes>, rest: Bytes): Bytes {
    if items == [] then rest else FrameThen(items[0], ItemsThen(items[1..], rest))
  }

  /** A counted list of framed items, as module paths and name lists are hashed. */
  function ListThen(items: seq<Bytes>, rest: Bytes): Bytes {
    Le64(Saturate(|items|)) + ItemsThen(items, rest)
  }

  ghost predicate AddressableList(items: seq<Bytes>) {
    Addressable(items) && forall i :: 0 <= i < |items| ==> Addressable(items[i])
  }

  lemma {:induction false} ItemsCancel(a: seq<Bytes>, b: seq<Bytes>, r: Bytes, s: Bytes)
    requires |a| == |b| && AddressableList(a) && AddressableList(b)
    requires ItemsThen(a, r) == ItemsThen(b, s)
    ensures a == b && r == s
  {
    if a != [] {
      FrameCancel(a[0], b[0], ItemsThen(a[1..], r), ItemsThen(b[1..], s));
      ItemsCancel(a[1..], b[1..], r, s);
      assert a == [a[0]] + a[1..] && b == [b[0]] + b[1..];
    }
  }

  lemma {:induction false} ListCancel(a: seq<Bytes>, b: seq<Bytes>, r: Bytes, s: Bytes)
    requires AddressableList(a) && AddressableList(b)
    requires ListThen(a, r) == ListThen(b, s)
    ensures a == b && r == s
  {
    Le64Cancel(|a|, |b|, ItemsThen(a, r), ItemsThen(b, s));
    ItemsCancel(a, b, r, s);
  }

  /**
   * The running hash state: the bytes fed to it so far.
   *
   * Each update also names the bytes the caller is still going to feed, so a
   * whole stream is tracked as what has been fed plus what is left.
   */
  class Hasher {
    var stream: Bytes

    constructor ()
      ensures stream == []
    {
      stream := [];
    }

    method Update(bytes: Bytes, ghost left: Bytes)
      modifies this
      ensures stream == old(stream) + bytes
      ensures stream + left == old(stream) + (bytes + left)
    {
      assert (stream + bytes) + left == stream + (bytes + left);
      stream := stream + bytes;
    }

    /** `update_len_prefixed`: a 64-bit little-endian length, then the bytes. */
    method UpdateLenPrefixed(bytes: Bytes, ghost left: Bytes)
      modifies this
      ensures stream + left == old(stream) + FrameThen(bytes, left)
    {
      Update(Le64(Saturate(|bytes|)), bytes + left);
      Update(bytes, left);
    }

    /** A counted list: its length, then each item length-prefixed. */
    method UpdateList(items: seq<Bytes>, ghost left: Bytes)
      modifies this
      ensures stream + left == old(stream) + ListThen(items, left)
    {
      assert items[0..] == items;
      Update(Le64(Saturate(|items|)), ItemsThen(items, left));
      for i := 0 to |items|
        invariant stream + ItemsThen(items[i..], left) == old(stream) + ListThen(items, left)
      {
        assert items[i..][1..] == items[i + 1..];
        UpdateLenPrefixed(items[i], ItemsThen(items[i + 1..], left));
      }
    }
  }
}
