/**
 Bytes, fixed-width big-endian integers and hash functions.

 A hash function is always a parameter, so every statement holds for SHA3-256, for Keccak-256 and for
 any other function into 32 bytes. Such a function cannot be injective, so no statement assumes that it
 is: results read "the property holds, or two distinct members of this explicit finite set collide".
 */
module Encoding {

  type Byte = x: int | 0 <= x < 256
  type Bytes = seq<Byte>

  /** The 32-byte arrays that serve as account ids, roots and digests. */
  type Hash = b: Bytes | |b| == 32 witness seq(32, _ => 0)

  /** `Hash::default()`. */
  const ZERO_HASH: Hash :=
    [0, 0, 0, 0, 0, 0, 0, 0, 0, 0, 0, 0, 0, 0, 0, 0, 0, 0, 0, 0, 0, 0, 0, 0, 0, 0, 0, 0, 0, 0, 0, 0]

  type Hasher = Bytes -> Hash

  const U64_SIZE: nat := 0x1_0000_0000_0000_0000
  const U32_SIZE: nat := 0x1_0000_0000

  type U64 = x: int | 0 <= x < U64_SIZE

  /** Calldata; its length is a machine word. */
  type Calldata = b: Bytes | |b| < U64_SIZE witness []

  /** Two different members of `s` have the same digest. */
  ghost predicate CollisionIn(h: Hasher, s: set<Bytes>) {
    exists x, y :: x in s && y in s && x != y && h(x) == h(y)
  }

  lemma CollisionMonotone(h: Hasher, s: set<Bytes>, t: set<Bytes>)
    requires CollisionIn(h, s)
    requires s <= t
    ensures CollisionIn(h, t)
  {
    var x, y :| x in s && y in s && x != y && h(x) == h(y);
    assert x in t && y in t;
  }

  /** Some member of `s` has the all-zero digest, which the program takes for the root of an empty tree. */
  ghost predicate ZeroDigestIn(h: Hasher, s: set<Bytes>) {
    exists x :: x in s && h(x) == ZERO_HASH
  }

  function Pow256(n: nat): (r: nat)
    ensures r >= 1
  {
    if n == 0 then 1 else 256 * Pow256(n - 1)
  }

  /** The low `n` bytes of `v`, most significant first (`to_be_bytes`). */
  function BigEndian(v: nat, n: nat): (r: Bytes)
    ensures |r| == n
  {
    if n == 0 then [] else BigEndian(v / 256, n - 1) + [v % 256]
  }

  /** The number a big-endian byte string stands for (`from_be_bytes`). */
  function FromBigEndian(s: Bytes): (r: nat) {
    if s == [] then 0 else 256 * FromBigEndian(s[..|s| - 1]) + s[|s| - 1]
  }

  lemma {:induction false} BigEndianRoundTrip(v: nat, n: nat)
    requires v < Pow256(n)
    ensures FromBigEndian(BigEndian(v, n)) == v
  {
    if n > 0 {
      BigEndianRoundTrip(v / 256, n - 1);
      var s := BigEndian(v, n);
      assert s[..|s| - 1] == BigEndian(v / 256, n - 1);
    }
  }

  lemma {:induction false} FromBigEndianBound(s: Bytes)
    ensures FromBigEndian(s) < Pow256(|s|)
  {
    if s != [] { FromBigEndianBound(s[..|s| - 1]); }
  }

  lemma BigEndianInjective(v: nat, w: nat, n: nat)
    requires v < Pow256(n) && w < Pow256(n)
    requires BigEndian(v, n) == BigEndian(w, n)
    ensures v == w
  {
    BigEndianRoundTrip(v, n);
    BigEndianRoundTrip(w, n);
  }

  lemma Pow256Widths()
    ensures Pow256(4) == U32_SIZE && Pow256(8) == U64_SIZE
  {
    assert Pow256(1) == 256;
    assert Pow256(2) == 0x1_0000;
    assert Pow256(3) == 0x100_0000;
    assert Pow256(4) == U32_SIZE;
    assert Pow256(5) == 0x100_0000_0000;
    assert Pow256(6) == 0x1_0000_0000_0000;
    assert Pow256(7) == 0x100_0000_0000_0000;
  }

  lemma {:induction false} Pow256Monotone(m: nat, n: nat)
    requires m <= n
    ensures Pow256(m) <= Pow256(n)
    decreases n - m
  {
    if m < n { Pow256Monotone(m + 1, n); }
  }

  /** Bytewise dictionary order, the order in which RocksDB iterates over keys. */
  predicate BytesBelow(a: Bytes, b: Bytes)
    decreases |a|
  {
    if b == [] then false
    else if a == [] then true
    else a[0] < b[0] || (a[0] == b[0] && BytesBelow(a[1..], b[1..]))
  }

  lemma {:induction false} BytesBelowSnoc(a: Bytes, b: Bytes, x: Byte, y: Byte)
    requires |a| == |b|
    ensures BytesBelow(a + [x], b + [y]) <==> BytesBelow(a, b) || (a == b && x < y)
    decreases |a|
  {
    var a', b' := a + [x], b + [y];
    if |a| > 0 {
      assert a'[1..] == a[1..] + [x] && b'[1..] == b[1..] + [y];
      assert a == [a[0]] + a[1..] && b == [b[0]] + b[1..];
      BytesBelowSnoc(a[1..], b[1..], x, y);
    }
  }

  /** Fixed-width big-endian keys are ordered exactly as the numbers they encode. */
  lemma {:induction false} BigEndianOrder(v: nat, w: nat, n: nat)
    requires v < Pow256(n) && w < Pow256(n)
    ensures BytesBelow(BigEndian(v, n), BigEndian(w, n)) <==> v < w
  {
    if n > 0 {
      BigEndianOrder(v / 256, w / 256, n - 1);
      BytesBelowSnoc(BigEndian(v / 256, n - 1), BigEndian(w / 256, n - 1), v % 256, w % 256);
      if BigEndian(v / 256, n - 1) == BigEndian(w / 256, n - 1) {
        BigEndianInjective(v / 256, w / 256, n - 1);
      }
    }
  }
}
