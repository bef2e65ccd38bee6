/**
 The commitment to a batch of L1 items, computed by the guest (`crates/stf`) and recomputed by the
 contract: Keccak of the concatenated Keccak digests of the ABI-encoded items, cut to 28 bytes,
 followed by the item count in 4 bytes.
 */
module Commitment {
  import opened Encoding
  import opened Stf

  type Address = b: Bytes | |b| == 20 witness seq(20, _ => 0)
  type U256 = x: int | 0 <= x < Pow256(32)
  type U32 = x: int | 0 <= x < U32_SIZE

  /** A deposit as L1 stores it, and as the guest rebuilds it. */
  datatype L1Deposit = L1Deposit(user: Address, amount: U256, timestamp: U256)

  datatype L1Forced = L1Forced(data: Calldata, timestamp: U256)

  lemma U64FitsU256(x: U64)
    ensures x < Pow256(32)
  {
    Pow256Widths();
    Pow256Monotone(8, 32);
  }

  function Widen(x: U64): U256 {
    U64FitsU256(x);
    x
  }

  function ToL1Deposit(d: Deposit): L1Deposit {
    L1Deposit(d.to[12..], Widen(d.amount), Widen(d.timestamp))
  }

  function ToL1Forced(f: ForcedTx): L1Forced {
    L1Forced(f.l2Calldata, Widen(f.timestamp))
  }

  // ---- ABI encoding (Solidity ABI Specification, "Formal Specification of the Encoding") ----

  function Word(v: nat): (r: Bytes)
    ensures |r| == 32
  {
    BigEndian(v, 32)
  }

  function Zeros(n: nat): (r: Bytes)
    ensures |r| == n
  {
    seq(n, _ => 0)
  }

  /** A static struct: three words. */
  function AbiDeposit(d: L1Deposit): (r: Bytes)
    ensures |r| == 96
  {
    Zeros(12) + d.user + Word(d.amount) + Word(d.timestamp)
  }

  /** A dynamic struct: offset, then (offset of `data`, timestamp), then `data` with its length and padding. */
  function AbiForced(f: L1Forced): Bytes {
    Word(32) + Word(64) + Word(f.timestamp) + Word(|f.data|) + f.data + Zeros((32 - |f.data| % 32) % 32)
  }

  /** The three words of an encoded deposit, as a reader of the bytes finds them. */
  lemma AbiDepositLayout(d: L1Deposit)
    ensures var x := AbiDeposit(d);
      && x[..12] == Zeros(12) && x[12..32] == d.user
      && FromBigEndian(x[32..64]) == d.amount && FromBigEndian(x[64..]) == d.timestamp
  {
    hide BigEndian, FromBigEndian, Pow256;
    var x := AbiDeposit(d);
    assert x[32..64] == Word(d.amount) && x[64..] == Word(d.timestamp);
    BigEndianRoundTrip(d.amount, 32);
    BigEndianRoundTrip(d.timestamp, 32);
  }

  /**
   An encoded forced transaction: whole words; the struct starts at byte 32 and holds the offset 64 of the data,
   the timestamp, and at that offset length, data and zero padding to the next word.
   */
  lemma AbiForcedLayout(f: L1Forced)
    ensures var x, n := AbiForced(f), |f.data|;
      && |x| % 32 == 0 && 128 + n <= |x| < 128 + n + 32
      && FromBigEndian(x[..32]) == 32 && FromBigEndian(x[32..64]) == 64
      && FromBigEndian(x[64..96]) == f.timestamp && FromBigEndian(x[96..128]) == n
      && x[128..128 + n] == f.data && x[128 + n..] == Zeros(|x| - 128 - n)
  {
    hide BigEndian, FromBigEndian, Pow256;
    var x, n := AbiForced(f), |f.data|;
    assert x[..32] == Word(32) && x[32..64] == Word(64);
    assert x[64..96] == Word(f.timestamp) && x[96..128] == Word(n);
    U64FitsU256(32);
    U64FitsU256(64);
    U64FitsU256(n);
    BigEndianRoundTrip(32, 32);
    BigEndianRoundTrip(64, 32);
    BigEndianRoundTrip(f.timestamp, 32);
    BigEndianRoundTrip(n, 32);
  }

  lemma AbiDepositInjective(d: L1Deposit, e: L1Deposit)
    requires AbiDeposit(d) == AbiDeposit(e)
    ensures d == e
  {
    var x, y := AbiDeposit(d), AbiDeposit(e);
    assert x[12..32] == d.user && y[12..32] == e.user;
    assert x[32..64] == Word(d.amount) && y[32..64] == Word(e.amount);
    assert x[64..] == Word(d.timestamp) && y[64..] == Word(e.timestamp);
    BigEndianInjective(d.amount, e.amount, 32);
    BigEndianInjective(d.timestamp, e.timestamp, 32);
  }

  lemma AbiForcedInjective(f: L1Forced, g: L1Forced)
    requires AbiForced(f) == AbiForced(g)
    ensures f == g
  {
    hide BigEndian, Pow256;
    var x, y := AbiForced(f), AbiForced(g);
    assert x[64..96] == Word(f.timestamp) && y[64..96] == Word(g.timestamp);
    assert x[96..128] == Word(|f.data|) && y[96..128] == Word(|g.data|);
    BigEndianInjective(f.timestamp, g.timestamp, 32);
    U64FitsU256(|f.data|);
    U64FitsU256(|g.data|);
    BigEndianInjective(|f.data|, |g.data|, 32);
    assert x[128..128 + |f.data|] == f.data && y[128..128 + |g.data|] == g.data;
  }

  // ---- List hashes ----

  function ConcatDigests(k: Hasher, items: seq<Bytes>): (r: Bytes)
    ensures |r| == 32 * |items|
  {
    if items == [] then [] else ConcatDigests(k, items[..|items| - 1]) + k(items[|items| - 1])
  }

  /** The digest of item `i` stands at its place. */
  lemma {:induction false} ConcatDigestsAt(k: Hasher, items: seq<Bytes>, i: nat)
    requires i < |items|
    ensures ConcatDigests(k, items)[32 * i..32 * i + 32] == k(items[i])
  {
    var n := |items| - 1;
    if i < n {
      ConcatDigestsAt(k, items[..n], i);
      assert ConcatDigests(k, items)[32 * i..32 * i + 32] == ConcatDigests(k, items[..n])[32 * i..32 * i + 32];
    }
  }

  /** Digest of a list; the empty list gives the digest of the empty string. */
  function ListHash(k: Hasher, items: seq<Bytes>): Hash { k(ConcatDigests(k, items)) }

  function ListPreimages(k: Hasher, items: seq<Bytes>): set<Bytes> {
    {ConcatDigests(k, items)} + (set x | x in items)
  }

  function DepositItems(ds: seq<L1Deposit>): (r: seq<Bytes>)
    ensures |r| == |ds|
  {
    seq(|ds|, i requires 0 <= i < |ds| => AbiDeposit(ds[i]))
  }

  function ForcedItems(fs: seq<L1Forced>): (r: seq<Bytes>)
    ensures |r| == |fs|
  {
    seq(|fs|, i requires 0 <= i < |fs| => AbiForced(fs[i]))
  }

  function ToL1Deposits(ds: seq<Deposit>): (r: seq<L1Deposit>)
    ensures |r| == |ds|
  {
    seq(|ds|, i requires 0 <= i < |ds| => ToL1Deposit(ds[i]))
  }

  function ToL1ForcedTxs(fs: seq<ForcedTx>): (r: seq<L1Forced>)
    ensures |r| == |fs|
  {
    seq(|fs|, i requires 0 <= i < |fs| => ToL1Forced(fs[i]))
  }

  method HashDeposits(k: Hasher, items: seq<Deposit>) returns (r: Hash)
    ensures r == ListHash(k, DepositItems(ToL1Deposits(items)))
  {
    if items == [] { return k([]); }
    ghost var encoded := DepositItems(ToL1Deposits(items));
    var itemHashes: Bytes := [];
    for i := 0 to |items|
      invariant itemHashes == ConcatDigests(k, encoded[..i])
    {
      assert encoded[..i + 1][..i] == encoded[..i];
      itemHashes := itemHashes + k(AbiDeposit(ToL1Deposit(items[i])));
    }
    assert encoded[..|items|] == encoded;
    r := k(itemHashes);
  }

  method HashForcedTxs(k: Hasher, items: seq<ForcedTx>) returns (r: Hash)
    ensures r == ListHash(k, ForcedItems(ToL1ForcedTxs(items)))
  {
    if items == [] { return k([]); }
    ghost var encoded := ForcedItems(ToL1ForcedTxs(items));
    var itemHashes: Bytes := [];
    for i := 0 to |items|
      invariant itemHashes == ConcatDigests(k, encoded[..i])
    {
      assert encoded[..i + 1][..i] == encoded[..i];
      itemHashes := itemHashes + k(AbiForced(ToL1Forced(items[i])));
    }
    assert encoded[..|items|] == encoded;
    r := k(itemHashes);
  }

  /** The guest's hash of a list of deposits: one digest of the whole, over the digests of the items in order. */
  lemma DepositHashLayout(k: Hasher, ds: seq<Deposit>)
    ensures exists all: Bytes ::
      && ListHash(k, DepositItems(ToL1Deposits(ds))) == k(all) && |all| == 32 * |ds|
      && forall i :: 0 <= i < |ds| ==> all[32 * i..32 * i + 32] == k(AbiDeposit(ToL1Deposit(ds[i])))
  {
    var items := DepositItems(ToL1Deposits(ds));
    forall i | 0 <= i < |ds|
      ensures ConcatDigests(k, items)[32 * i..32 * i + 32] == k(AbiDeposit(ToL1Deposit(ds[i])))
    {
      ConcatDigestsAt(k, items, i);
    }
  }

  lemma ForcedHashLayout(k: Hasher, fs: seq<ForcedTx>)
    ensures exists all: Bytes ::
      && ListHash(k, ForcedItems(ToL1ForcedTxs(fs))) == k(all) && |all| == 32 * |fs|
      && forall i :: 0 <= i < |fs| ==> all[32 * i..32 * i + 32] == k(AbiForced(ToL1Forced(fs[i])))
  {
    var items := ForcedItems(ToL1ForcedTxs(fs));
    forall i | 0 <= i < |fs|
      ensures ConcatDigests(k, items)[32 * i..32 * i + 32] == k(AbiForced(ToL1Forced(fs[i])))
    {
      ConcatDigestsAt(k, items, i);
    }
  }

  /** Only the first 28 bytes of a digest survive in a commitment. */
  function Truncated(k: Hasher): Hasher { x => k(x)[..28] + Zeros(4) }

  lemma {:induction false} ConcatBinding(k: Hasher, xs: seq<Bytes>, ys: seq<Bytes>)
    requires ConcatDigests(k, xs) == ConcatDigests(k, ys)
    ensures |xs| == |ys|
    ensures forall i :: 0 <= i < |xs| ==> k(xs[i]) == k(ys[i])
  {
    if xs != [] {
      var n := |xs| - 1;
      assert |ys| == n + 1;
      var cx, cy := ConcatDigests(k, xs), ConcatDigests(k, ys);
      assert cx[..32 * n] == ConcatDigests(k, xs[..n]) && cy[..32 * n] == ConcatDigests(k, ys[..n]);
      assert cx[32 * n..] == k(xs[n]) && cy[32 * n..] == k(ys[n]);
      ConcatBinding(k, xs[..n], ys[..n]);
      forall i | 0 <= i < |xs| ensures k(xs[i]) == k(ys[i]) {
        if i < n { assert xs[i] == xs[..n][i] && ys[i] == ys[..n][i]; }
      }
    }
  }

  /**
   Lists of any lengths whose truncated list hashes agree are equal item by item, or the strings hashed
   for them contain a collision of the truncated digest.
   */
  lemma ListBinding(k: Hasher, xs: seq<Bytes>, ys: seq<Bytes>)
    requires ListHash(k, xs)[..28] == ListHash(k, ys)[..28]
    ensures xs == ys || CollisionIn(Truncated(k), ListPreimages(k, xs) + ListPreimages(k, ys))
  {
    var t, all := Truncated(k), ListPreimages(k, xs) + ListPreimages(k, ys);
    var cx, cy := ConcatDigests(k, xs), ConcatDigests(k, ys);
    assert t(cx) == t(cy);
    if cx != cy {
      assert cx in all && cy in all;
    } else {
      ConcatBinding(k, xs, ys);
      if xs != ys {
        var i :| 0 <= i < |xs| && xs[i] != ys[i];
        assert xs[i] in all && ys[i] in all && t(xs[i]) == t(ys[i]);
      }
    }
  }

  lemma DepositItemsInjective(ds: seq<L1Deposit>, es: seq<L1Deposit>)
    requires DepositItems(ds) == DepositItems(es)
    ensures ds == es
  {
    assert |ds| == |DepositItems(ds)| == |es|;
    forall i | 0 <= i < |ds| ensures ds[i] == es[i] {
      assert DepositItems(ds)[i] == AbiDeposit(ds[i]) && DepositItems(es)[i] == AbiDeposit(es[i]);
      AbiDepositInjective(ds[i], es[i]);
    }
  }

  lemma ForcedItemsInjective(fs: seq<L1Forced>, gs: seq<L1Forced>)
    requires ForcedItems(fs) == ForcedItems(gs)
    ensures fs == gs
  {
    assert |fs| == |ForcedItems(fs)| == |gs|;
    forall i | 0 <= i < |fs| ensures fs[i] == gs[i] {
      assert ForcedItems(fs)[i] == AbiForced(fs[i]) && ForcedItems(gs)[i] == AbiForced(gs[i]);
      AbiForcedInjective(fs[i], gs[i]);
    }
  }

  // ---- The 32-byte commitment ----

  /** Guest side: copies 28 bytes of the digest and 4 bytes of the count. */
  function BuildCommitment(hash: Hash, count: U32): Hash {
    hash[..28] + BigEndian(count, 4)
  }

  /** L1 side: the word masked to its high 28 bytes, as a number. */
  function Truncate(fullHash: Hash): nat {
    var v := FromBigEndian(fullHash);
    v - v % U32_SIZE
  }

  /** L1 side: the low 4 bytes and the word masked to its high 28 bytes. */
  function DecodeCommitment(c: Hash): (U32, nat) {
    (FromBigEndian(c) % U32_SIZE, Truncate(c))
  }

  lemma FromBigEndianSplit(a: Bytes, b: Bytes)
    requires |b| == 4
    ensures FromBigEndian(a + b) == U32_SIZE * FromBigEndian(a) + FromBigEndian(b)
    ensures FromBigEndian(b) < U32_SIZE
  {
    var s := a + b;
    assert s[..|s| - 1] == a + b[..3];
    assert (a + b[..3])[..|a| + 2] == a + b[..2];
    assert (a + b[..2])[..|a| + 1] == a + b[..1];
    assert (a + b[..1])[..|a|] == a;
    assert b[..3][..2] == b[..2] && b[..2][..1] == b[..1] && b[..1][..0] == [];
    assert FromBigEndian(a + b[..1]) == 256 * FromBigEndian(a) + b[0];
    assert FromBigEndian(a + b[..2]) == 256 * FromBigEndian(a + b[..1]) + b[1];
    assert FromBigEndian(a + b[..3]) == 256 * FromBigEndian(a + b[..2]) + b[2];
    assert FromBigEndian(b[..1]) == b[0];
    assert FromBigEndian(b[..2]) == 256 * FromBigEndian(b[..1]) + b[1];
    assert FromBigEndian(b[..3]) == 256 * FromBigEndian(b[..2]) + b[2];
  }

  lemma {:induction false} FromBigEndianInverse(s: Bytes)
    ensures BigEndian(FromBigEndian(s), |s|) == s
  {
    if s != [] {
      FromBigEndianInverse(s[..|s| - 1]);
      assert s == s[..|s| - 1] + [s[|s| - 1]];
    }
  }

  /** The mask clears the four low bytes and nothing else. */
  lemma TruncateValue(x: Hash)
    ensures Truncate(x) == U32_SIZE * FromBigEndian(x[..28])
  {
    hide FromBigEndian;
    assert x == x[..28] + x[28..];
    FromBigEndianSplit(x[..28], x[28..]);
  }

  /** Masking keeps exactly the first 28 bytes. */
  lemma TruncateKeepsPrefix(x: Hash, y: Hash)
    ensures Truncate(x) == Truncate(y) <==> x[..28] == y[..28]
  {
    hide FromBigEndian, BigEndian, Pow256;
    TruncateValue(x);
    TruncateValue(y);
    FromBigEndianInverse(x[..28]);
    FromBigEndianInverse(y[..28]);
  }

  /** 28 bytes of the digest, then the count; L1 reads the count from the last four bytes of any word. */
  lemma CommitmentLayout(hash: Hash, count: U32, c: Hash)
    ensures BuildCommitment(hash, count)[..28] == hash[..28]
    ensures FromBigEndian(BuildCommitment(hash, count)[28..]) == count
    ensures DecodeCommitment(c).0 == FromBigEndian(c[28..])
    ensures DecodeCommitment(c).1 == U32_SIZE * FromBigEndian(c[..28])
  {
    hide FromBigEndian, BigEndian, Pow256;
    Pow256Widths();
    BigEndianRoundTrip(count, 4);
    assert BuildCommitment(hash, count)[28..] == BigEndian(count, 4);
    assert c == c[..28] + c[28..];
    FromBigEndianSplit(c[..28], c[28..]);
    TruncateValue(c);
  }

  /** What L1 decodes from a guest commitment is the count and the truncation of the guest's digest. */
  lemma CommitmentRoundTrip(hash: Hash, count: U32)
    ensures DecodeCommitment(BuildCommitment(hash, count)) == (count, Truncate(hash))
  {
    hide FromBigEndian, BigEndian, Pow256;
    var c := BuildCommitment(hash, count);
    Pow256Widths();
    BigEndianRoundTrip(count, 4);
    FromBigEndianSplit(hash[..28], BigEndian(count, 4));
    assert c[..28] == hash[..28];
    TruncateKeepsPrefix(c, hash);
  }
}
