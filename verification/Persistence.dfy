/** The persistent block queues: three column families of a key-value store ordered by key bytes. */
module Persistence {
  import opened Encoding
  import opened Stf
  import opened Generator

  function Key(n: U64): (r: Bytes)
    ensures |r| == 8
  {
    BigEndian(n, 8)
  }

  /** Different numbers never share a key, and key order is number order. */
  lemma KeyOrder(m: U64, n: U64)
    ensures Key(m) == Key(n) <==> m == n
    ensures BytesBelow(Key(m), Key(n)) <==> m < n
  {
    hide BigEndian, Pow256, BytesBelow;
    Pow256Widths();
    BigEndianOrder(m, n, 8);
    if Key(m) == Key(n) { BigEndianInjective(m, n, 8); }
  }

  /** Every block is filed under its own number. */
  predicate Filed(family: map<Bytes, PendingBlock>) {
    forall k :: k in family ==> k == Key(family[k].blockNumber)
  }

  /** A stored counter as it is read back: a value of another width reads as zero. */
  function ReadCounter(v: Bytes): nat { if |v| == 8 then FromBigEndian(v) else 0 }

  class BlockQueueStore {
    var pending: map<Bytes, PendingBlock>
    var failed: map<Bytes, PendingBlock>
    var meta: Option<Bytes>
    /** The number the last commit asked for next; zero before the first commit. */
    ghost var next: U64

    ghost predicate Valid()
      reads this
    {
      && Filed(pending) && Filed(failed)
      && (if meta.None? then next == 0 else meta.value == BigEndian(next, 8))
    }

    constructor ()
      ensures Valid() && pending == map[] && failed == map[] && next == 0
    {
      pending, failed, meta, next := map[], map[], None, 0;
    }

    method PushPending(block: PendingBlock)
      requires Valid()
      modifies this
      ensures Valid() && pending == old(pending)[Key(block.blockNumber) := block]
      ensures failed == old(failed) && meta == old(meta) && next == old(next)
    {
      pending := pending[Key(block.blockNumber) := block];
    }

    /** The first entry in key order: the pending block with the smallest number. */
    method PeekPending() returns (r: Option<PendingBlock>)
      requires Valid()
      ensures r.None? <==> pending == map[]
      ensures r.Some? ==> Key(r.value.blockNumber) in pending && pending[Key(r.value.blockNumber)] == r.value
      ensures r.Some? ==> forall k :: k in pending ==> r.value.blockNumber <= pending[k].blockNumber
    {
      if pending == map[] { return None; }
      var first :| first in pending;
      var rest := pending.Keys - {first};
      while rest != {}
        invariant first in pending && rest <= pending.Keys
        invariant forall k :: k in pending && k !in rest ==> pending[first].blockNumber <= pending[k].blockNumber
      {
        var k :| k in rest;
        KeyOrder(pending[k].blockNumber, pending[first].blockNumber);
        if BytesBelow(k, first) { first := k; }
        rest := rest - {k};
      }
      return Some(pending[first]);
    }

    method RemovePending(n: U64)
      requires Valid()
      modifies this
      ensures Valid() && pending == old(pending) - {Key(n)}
      ensures failed == old(failed) && meta == old(meta) && next == old(next)
    {
      pending := pending - {Key(n)};
    }

    method PushFailed(block: PendingBlock)
      requires Valid()
      modifies this
      ensures Valid() && failed == old(failed)[Key(block.blockNumber) := block]
      ensures pending == old(pending) && meta == old(meta) && next == old(next)
    {
      failed := failed[Key(block.blockNumber) := block];
    }

    /** After any number of commits: what the last one asked for, and zero before the first. */
    method GetBlockCounter() returns (n: nat)
      requires Valid()
      ensures n == next
    {
      match meta
      case None => return 0;
      case Some(v) =>
        Pow256Widths();
        BigEndianRoundTrip(next, 8);
        return ReadCounter(v);
    }

    /** Block and counter are written in one atomic batch. */
    method CommitOptimisticBlock(block: PendingBlock, nextBlockNumber: U64)
      requires Valid()
      modifies this
      ensures Valid() && pending == old(pending)[Key(block.blockNumber) := block]
      ensures next == nextBlockNumber && failed == old(failed)
    {
      pending, meta := pending[Key(block.blockNumber) := block], Some(BigEndian(nextBlockNumber, 8));
      next := nextBlockNumber;
    }
  }
}
