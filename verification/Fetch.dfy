/** How the sequencer turns queued L1 items into block contents, and why L1 then accepts the block. */
module Fetch {
  import opened Encoding
  import opened Stf
  import opened Guest
  import opened Commitment
  import opened Program
  import opened Bridge

  /** An address padded to an account id. */
  function AddressToHash(a: Address): Hash { Zeros(12) + a }

  /** u256 fields are narrowed to u64; a larger value is a panic. */
  predicate Narrow(x: nat) { x < U64_SIZE }

  function FetchDeposit(d: L1Deposit): Deposit
    requires Narrow(d.amount) && Narrow(d.timestamp)
  {
    Deposit(AddressToHash(d.user), d.amount, d.timestamp)
  }

  /** Calldata that does not parse becomes a dummy from the zero id, which every execution skips. */
  function FetchForced(parse: Calldata -> Option<ForcedTx>, f: L1Forced): ForcedTx
    requires Narrow(f.timestamp)
  {
    match parse(f.data)
    case Some(tx) => tx.(timestamp := f.timestamp, l2Calldata := f.data)
    case None => ForcedTx(ZERO_HASH, ZERO_HASH, 0, 0, 0, f.timestamp, f.data)
  }

  /** Reading a queued item back as the guest's item keeps everything L1 stores. */
  lemma FetchedDepositRoundTrip(d: L1Deposit)
    requires Narrow(d.amount) && Narrow(d.timestamp)
    ensures ToL1Deposit(FetchDeposit(d)) == d
  {
    assert AddressToHash(d.user)[12..] == d.user;
  }

  /**
   A fetched forced transaction keeps everything L1 stores, and asks for exactly what its calldata says:
   sender, recipient, nonce, fee and amount; calldata that does not parse has the zero sender.
   */
  lemma FetchedForcedRoundTrip(parse: Calldata -> Option<ForcedTx>, f: L1Forced)
    requires Narrow(f.timestamp)
    ensures ToL1Forced(FetchForced(parse, f)) == f
    ensures match parse(f.data)
      case None => FetchForced(parse, f).from == ZERO_HASH
      case Some(tx) => FetchForced(parse, f).Order() == Transaction(tx.from, tx.to, tx.nonce, tx.fee, tx.amount)
  {}

  /** A fetched deposit is credited to the padded address of its sender, with its amount. */
  predicate FetchedFrom(d: Deposit, q: L1Deposit) {
    d.to[..12] == Zeros(12) && d.to[12..] == q.user && d.amount == q.amount && d.timestamp == q.timestamp
  }

  /** A fetched forced transaction carries calldata and time of the queued one, and the order its calldata parses to. */
  predicate ForcedFrom(parse: Calldata -> Option<ForcedTx>, f: ForcedTx, q: L1Forced) {
    && f.l2Calldata == q.data && f.timestamp == q.timestamp
    && match parse(q.data)
       case None => f.from == ZERO_HASH
       case Some(tx) => f.Order() == Transaction(tx.from, tx.to, tx.nonce, tx.fee, tx.amount)
  }

  /** Everything queued and not yet processed, in order; None when a field does not fit. */
  method FetchNewDeposits(bridge: RollupBridge) returns (r: Option<seq<Deposit>>)
    requires bridge.Value().Valid()
    ensures var queued := bridge.pendingDeposits[bridge.processedDepositCount..];
      && (r.Some? <==> forall d :: d in queued ==> Narrow(d.amount) && Narrow(d.timestamp))
      && (r.Some? ==> ToL1Deposits(r.value) == queued)
      && (r.Some? ==> forall j :: 0 <= j < |queued| ==> FetchedFrom(r.value[j], queued[j]))
  {
    var processed, count := bridge.processedDepositCount, bridge.depositCount;
    var newDeposits: seq<Deposit> := [];
    ghost var queued := bridge.pendingDeposits[processed..];
    if count > processed {
      var fromL1 := bridge.GetDeposits(processed, count - processed);
      assert fromL1.value == queued;
      for i := 0 to |fromL1.value|
        invariant |newDeposits| == i && forall j :: 0 <= j < i ==>
          && Narrow(queued[j].amount) && Narrow(queued[j].timestamp)
          && newDeposits[j] == FetchDeposit(queued[j])
      {
        var d := fromL1.value[i];
        if !Narrow(d.amount) || !Narrow(d.timestamp) { return None; }
        newDeposits := newDeposits + [FetchDeposit(d)];
      }
    }
    forall j | 0 <= j < |queued| ensures ToL1Deposits(newDeposits)[j] == queued[j] {
      FetchedDepositRoundTrip(queued[j]);
    }
    return Some(newDeposits);
  }

  /** The same for forced transactions. Calldata that does not parse is no failure. */
  method FetchNewForced(bridge: RollupBridge, parse: Calldata -> Option<ForcedTx>) returns (r: Option<seq<ForcedTx>>)
    requires bridge.Value().Valid()
    ensures var queued := bridge.forcedTransactions[bridge.processedForcedTxCount..];
      && (r.Some? <==> forall f :: f in queued ==> Narrow(f.timestamp))
      && (r.Some? ==> ToL1ForcedTxs(r.value) == queued)
      && (r.Some? ==> forall j :: 0 <= j < |queued| ==> ForcedFrom(parse, r.value[j], queued[j]))
  {
    var processed, count := bridge.processedForcedTxCount, bridge.forcedTxCount;
    var newForced: seq<ForcedTx> := [];
    ghost var queued := bridge.forcedTransactions[processed..];
    if count > processed {
      var fromL1 := bridge.GetForcedTransactions(processed, count - processed);
      assert fromL1.value == queued;
      for i := 0 to |fromL1.value|
        invariant |newForced| == i && forall j :: 0 <= j < i ==>
          && Narrow(queued[j].timestamp)
          && newForced[j] == FetchForced(parse, queued[j])
      {
        var f := fromL1.value[i];
        if !Narrow(f.timestamp) { return None; }
        match parse(f.data)
        case Some(tx) => newForced := newForced + [tx.(timestamp := f.timestamp, l2Calldata := f.data)];
        case None => newForced := newForced + [ForcedTx(ZERO_HASH, ZERO_HASH, 0, 0, 0, f.timestamp, f.data)];
      }
    }
    forall j | 0 <= j < |queued| ensures ToL1ForcedTxs(newForced)[j] == queued[j] {
      FetchedForcedRoundTrip(parse, queued[j]);
    }
    return Some(newForced);
  }

  lemma HonestDepositsMatch(k: Hasher, s: BridgeState, ds: seq<Deposit>)
    requires Range(s.pendingDeposits, s.processedDepositCount, |ds|) == Some(ToL1Deposits(ds))
    requires |ds| < U32_SIZE
    ensures var c := DepositsCommitment(k, ds);
      DecodeCommitment(c).0 == |ds| && CommitmentMatches(DepositHash(k, s, |ds|), c)
  {
    hide BuildCommitment, DecodeCommitment, Truncate, ListHash;
    CommitmentRoundTrip(ListHash(k, DepositItems(ToL1Deposits(ds))), |ds| % U32_SIZE);
  }

  lemma HonestForcedMatch(k: Hasher, s: BridgeState, fs: seq<ForcedTx>)
    requires Range(s.forcedTransactions, s.processedForcedTxCount, |fs|) == Some(ToL1ForcedTxs(fs))
    requires |fs| < U32_SIZE
    ensures var c := ForcedCommitment(k, fs);
      DecodeCommitment(c).0 == |fs| && CommitmentMatches(ForcedHash(k, s, |fs|), c)
  {
    hide BuildCommitment, DecodeCommitment, Truncate, ListHash;
    CommitmentRoundTrip(ListHash(k, ForcedItems(ToL1ForcedTxs(fs))), |fs| % U32_SIZE);
  }

  /** The items stand in the queue from the given position on. */
  predicate StandsAt<T(==)>(queue: seq<T>, at: nat, items: seq<T>) {
    items == [] || (at + |items| <= |queue| && queue[at..at + |items|] == items)
  }

  /** The batch starts at L1's root and carries exactly the next queued items, fewer than 2^32 of each kind. */
  predicate NextItems(s: BridgeState, g: GuestInput) {
    && g.preStateRoot == s.stateRoot
    && StandsAt(s.pendingDeposits, s.processedDepositCount, ToL1Deposits(g.deposits))
    && StandsAt(s.forcedTransactions, s.processedForcedTxCount, ToL1ForcedTxs(g.forced))
    && |g.deposits| < 0x1_0000_0000 && |g.forced| < 0x1_0000_0000
  }

  /**
   Completeness of the bridge: a batch that the guest accepts from the current root, carrying the next
   queued items and fewer than 2^32 of each kind, is accepted by L1 and moves both pointers past them.
   */
  lemma HonestUpdateAccepted(h: Hasher, k: Hasher, s: BridgeState, g: GuestInput)
    requires Transition(h, g).Done? && NextItems(s, g)
    ensures var v := PublicValuesOf(h, k, g).value;
      var s' := Apply(h, k, s, UpdateStep(v, g));
      && Accepts(h, k, s, v, g)
      && s'.stateRoot == Transition(h, g).value
      && s'.processedDepositCount == s.processedDepositCount + |g.deposits|
      && s'.processedForcedTxCount == s.processedForcedTxCount + |g.forced|
  {
    hide Transition, DepositsCommitment, ForcedCommitment, DepositHash, ForcedHash, DecodeCommitment, Truncate, Range,
         ToL1Deposits, ToL1ForcedTxs;
    StandsInRange(s.pendingDeposits, s.processedDepositCount, ToL1Deposits(g.deposits));
    StandsInRange(s.forcedTransactions, s.processedForcedTxCount, ToL1ForcedTxs(g.forced));
    HonestDepositsMatch(k, s, g.deposits);
    HonestForcedMatch(k, s, g.forced);
  }

  lemma StandsInRange<T>(queue: seq<T>, at: nat, items: seq<T>)
    ensures StandsAt(queue, at, items) <==> Range(queue, at, |items|) == Some(items)
  {}

  /**
   What L1 accepts, exactly: values the guest yields for a batch that starts at L1's root and carries the next
   queued items, fewer than 2^32 of each kind; or the items hashed for this update contain a collision.
   */
  lemma UpdateAcceptedIff(h: Hasher, k: Hasher, s: BridgeState, v: PublicValues, g: GuestInput)
    ensures
      || (Accepts(h, k, s, v, g) <==> PublicValuesOf(h, k, g) == Some(v) && NextItems(s, g))
      || CollisionIn(Truncated(k), UpdatePreimages(k, s, v, g))
  {
    hide Transition, DepositsCommitment, ForcedCommitment, DecodeCommitment, Truncate, Range, ListPreimages, ListHash,
         DepositItems, ForcedItems, ToL1Deposits, ToL1ForcedTxs, DepositHash, ForcedHash;
    if PublicValuesOf(h, k, g) == Some(v) && NextItems(s, g) {
      HonestUpdateAccepted(h, k, s, g);
    } else if Accepts(h, k, s, v, g) {
      AcceptedItems(h, k, s, v, g);
    }
  }

  lemma AcceptedItems(h: Hasher, k: Hasher, s: BridgeState, v: PublicValues, g: GuestInput)
    requires Accepts(h, k, s, v, g)
    ensures NextItems(s, g) || CollisionIn(Truncated(k), UpdatePreimages(k, s, v, g))
  {
    hide Transition, DecodeCommitment, Truncate, ListPreimages, ListHash, DepositItems, ForcedItems, ToL1Deposits,
         ToL1ForcedTxs, BuildCommitment;
    var all := UpdatePreimages(k, s, v, g);
    CommitmentRoundTrip(ListHash(k, DepositItems(ToL1Deposits(g.deposits))), |g.deposits| % U32_SIZE);
    CommitmentRoundTrip(ListHash(k, ForcedItems(ToL1ForcedTxs(g.forced))), |g.forced| % U32_SIZE);
    DepositsBound(k, s, g.deposits);
    ForcedBound(k, s, g.forced);
    StandsInRange(s.pendingDeposits, s.processedDepositCount, ToL1Deposits(g.deposits));
    StandsInRange(s.forcedTransactions, s.processedForcedTxCount, ToL1ForcedTxs(g.forced));
    var n, m := DecodeCommitment(v.depositsCommitment).0, DecodeCommitment(v.forcedTxsCommitment).0;
    var ds := Range(s.pendingDeposits, s.processedDepositCount, n).value;
    var fs := Range(s.forcedTransactions, s.processedForcedTxCount, m).value;
    var p := ListPreimages(k, DepositItems(ds)) + ListPreimages(k, DepositItems(ToL1Deposits(g.deposits)));
    var q := ListPreimages(k, ForcedItems(fs)) + ListPreimages(k, ForcedItems(ToL1ForcedTxs(g.forced)));
    if CollisionIn(Truncated(k), p) {
      CollisionMonotone(Truncated(k), p, all);
    } else if CollisionIn(Truncated(k), q) {
      CollisionMonotone(Truncated(k), q, all);
    }
  }

  // ---- Deposits included more than once ----

  /**
   L1 credits no deposit twice: a block that carries a range of the deposit queue from position `p` is accepted
   only if the queue holds the very same deposits at L1's pointer, or a collision is exhibited. So it is
   refused as soon as L1 is past `p`, unless the queue repeats itself.
   */
  lemma ProcessedAgainOnlyIfRepeated(h: Hasher, k: Hasher, s: BridgeState, v: PublicValues, g: GuestInput, p: nat)
    requires 0 < |g.deposits| && p + |g.deposits| <= |s.pendingDeposits|
    requires ToL1Deposits(g.deposits) == s.pendingDeposits[p..p + |g.deposits|]
    requires Accepts(h, k, s, v, g)
    ensures var q, at, n := s.pendingDeposits, s.processedDepositCount, |g.deposits|;
      || (at + n <= |q| && q[at..at + n] == q[p..p + n])
      || CollisionIn(Truncated(k), UpdatePreimages(k, s, v, g))
  {
    hide Accepts, UpdatePreimages, ToL1Deposits, ToL1ForcedTxs;
    AcceptedItems(h, k, s, v, g);
  }

  /** What the sequencer saw when it fetched the deposits of a block: L1's pointer and the length of the queue. */
  datatype Look = Look(processed: nat, count: nat)

  /** Pointer and length never go back. */
  predicate Successive(looks: seq<Look>) {
    && (forall i :: 0 <= i < |looks| ==> looks[i].processed <= looks[i].count)
    && (forall i, j :: 0 <= i < j < |looks| ==>
          looks[i].processed <= looks[j].processed && looks[i].count <= looks[j].count)
  }

  function Interval(a: nat, b: nat): (r: seq<nat>)
    requires a <= b
    ensures |r| == b - a
  {
    seq(b - a, i requires 0 <= i < b - a => a + i)
  }

  /** The queue positions included in the blocks, in order: each block takes everything it saw unprocessed. */
  function Included(looks: seq<Look>): seq<nat>
    requires Successive(looks)
  {
    if looks == [] then []
    else
      var n := |looks| - 1;
      Included(looks[..n]) + Interval(looks[n].processed, looks[n].count)
  }

  /** Whenever the sequencer looked again, L1 had processed exactly what the blocks before had taken. */
  predicate CaughtUp(looks: seq<Look>) {
    forall i :: 0 <= i < |looks| - 1 ==> looks[i + 1].processed == looks[i].count
  }

  /** Blocks include every deposit exactly once and in order if and only if L1 had always caught up. */
  lemma FetchedOnceIff(looks: seq<Look>)
    requires looks != [] && Successive(looks)
    ensures Included(looks) == Interval(looks[0].processed, looks[|looks| - 1].count) <==> CaughtUp(looks)
  {
    if CaughtUp(looks) {
      CaughtUpIncludes(looks);
    } else if Included(looks) == Interval(looks[0].processed, looks[|looks| - 1].count) {
      IncludedOnce(looks, looks[|looks| - 1].count);
    }
  }

  lemma {:induction false} CaughtUpIncludes(looks: seq<Look>)
    requires looks != [] && Successive(looks) && CaughtUp(looks)
    ensures Included(looks) == Interval(looks[0].processed, looks[|looks| - 1].count)
  {
    var n := |looks| - 1;
    if n > 0 { CaughtUpIncludes(looks[..n]); }
  }

  /** Blocks that include an interval include no more than was seen, and all of it only if L1 had caught up. */
  lemma {:induction false} IncludedOnce(looks: seq<Look>, e: nat)
    requires looks != [] && Successive(looks) && looks[0].processed <= e
    requires Included(looks) == Interval(looks[0].processed, e)
    ensures var last := looks[|looks| - 1];
      && e <= last.count && (last.processed < last.count ==> e == last.count)
      && (e == last.count ==> CaughtUp(looks))
  {
    var n, first := |looks| - 1, looks[0].processed;
    if n > 0 {
      var before, last := Included(looks[..n]), Interval(looks[n].processed, looks[n].count);
      var all := before + last;
      if last != [] { assert all[|before|] == looks[n].processed; }
      assert before == all[..|before|] == Interval(first, first + |before|);
      IncludedOnce(looks[..n], first + |before|);
      assert looks[..n][n - 1] == looks[n - 1];
      if e == looks[n].count { CaughtUpSnoc(looks); }
    } else {
      assert looks[..0] == [];
    }
  }

  lemma CaughtUpSnoc(looks: seq<Look>)
    requires |looks| > 1 && CaughtUp(looks[..|looks| - 1])
    requires looks[|looks| - 1].processed == looks[|looks| - 2].count
    ensures CaughtUp(looks)
  {
    var n := |looks| - 1;
    forall i | 0 <= i < n ensures looks[i + 1].processed == looks[i].count {
      if i < n - 1 { assert looks[..n][i + 1] == looks[i + 1] && looks[..n][i] == looks[i]; }
    }
  }
}
