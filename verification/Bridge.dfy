/** The L1 contract: two append-only queues, two processed pointers and the state root. */
module Bridge {
  import opened Encoding
  import opened Stf
  import opened Merkle
  import opened Guest
  import opened Commitment
  import opened Program

  const FORCED_TX_FEE: nat := 1_000_000_000_000_000

  datatype BridgeState = BridgeState(
    stateRoot: Hash,
    pendingDeposits: seq<L1Deposit>, depositCount: nat, processedDepositCount: nat,
    forcedTransactions: seq<L1Forced>, forcedTxCount: nat, processedForcedTxCount: nat)
  {
    /** Counts are array lengths and the pointers stay within them. */
    predicate Valid() {
      && depositCount == |pendingDeposits| && processedDepositCount <= depositCount
      && forcedTxCount == |forcedTransactions| && processedForcedTxCount <= forcedTxCount
    }
  }

  function Init(initialStateRoot: Hash): BridgeState { BridgeState(initialStateRoot, [], 0, 0, [], 0, 0) }

  // ---- What one call does ----

  /** A range of a queue, or None where the contract reverts. A zero count never reverts. */
  function Range<T>(queue: seq<T>, start: nat, count: nat): Option<seq<T>> {
    if count == 0 then Some([])
    else if start + count > |queue| then None
    else Some(queue[start..start + count])
  }

  function DepositHash(k: Hasher, s: BridgeState, count: nat): Option<Hash> {
    var r := Range(s.pendingDeposits, s.processedDepositCount, count);
    if r.None? then None else Some(ListHash(k, DepositItems(r.value)))
  }

  function ForcedHash(k: Hasher, s: BridgeState, count: nat): Option<Hash> {
    var r := Range(s.forcedTransactions, s.processedForcedTxCount, count);
    if r.None? then None else Some(ListHash(k, ForcedItems(r.value)))
  }

  /** The recomputed hash matches the decoded commitment. */
  predicate CommitmentMatches(recomputed: Option<Hash>, commitment: Hash) {
    recomputed.Some? && Truncate(recomputed.value) == DecodeCommitment(commitment).1
  }

  /** A sound verifier: a proof is accepted only for values some guest input yields; the input is the proof. */
  predicate VerifyProof(h: Hasher, k: Hasher, values: PublicValues, proof: GuestInput) {
    PublicValuesOf(h, k, proof) == Some(values)
  }

  predicate Accepts(h: Hasher, k: Hasher, s: BridgeState, values: PublicValues, proof: GuestInput) {
    && values.preStateRoot == s.stateRoot
    && CommitmentMatches(DepositHash(k, s, DecodeCommitment(values.depositsCommitment).0), values.depositsCommitment)
    && CommitmentMatches(ForcedHash(k, s, DecodeCommitment(values.forcedTxsCommitment).0), values.forcedTxsCommitment)
    && VerifyProof(h, k, values, proof)
  }

  datatype Step =
    | DepositStep(user: Address, value: U256, timestamp: U256)
    | ForceStep(data: Calldata, value: U256, timestamp: U256)
    | UpdateStep(values: PublicValues, proof: GuestInput)

  /** A call that reverts leaves the state as it was. */
  function Apply(h: Hasher, k: Hasher, s: BridgeState, step: Step): BridgeState {
    match step
    case DepositStep(user, value, ts) =>
      if value == 0 then s
      else
        var q := s.pendingDeposits + [L1Deposit(user, value, ts)];
        s.(pendingDeposits := q, depositCount := |q|)
    case ForceStep(data, value, ts) =>
      if value < FORCED_TX_FEE then s
      else
        var q := s.forcedTransactions + [L1Forced(data, ts)];
        s.(forcedTransactions := q, forcedTxCount := |q|)
    case UpdateStep(v, proof) =>
      if !Accepts(h, k, s, v, proof) then s
      else s.(stateRoot := v.postStateRoot,
              processedDepositCount := s.processedDepositCount + DecodeCommitment(v.depositsCommitment).0,
              processedForcedTxCount := s.processedForcedTxCount + DecodeCommitment(v.forcedTxsCommitment).0)
  }

  function Run(h: Hasher, k: Hasher, root: Hash, steps: seq<Step>): BridgeState {
    if steps == [] then Init(root)
    else Apply(h, k, Run(h, k, root, steps[..|steps| - 1]), steps[|steps| - 1])
  }

  // ---- The contract ----

  /** `abi.encodePacked` of an array of words. */
  function Pack(hashes: seq<Hash>): Bytes {
    if hashes == [] then [] else Pack(hashes[..|hashes| - 1]) + hashes[|hashes| - 1]
  }

  lemma {:induction false} PackDigests(k: Hasher, items: seq<Bytes>, hashes: seq<Hash>)
    requires |hashes| == |items| && forall j :: 0 <= j < |items| ==> hashes[j] == k(items[j])
    ensures Pack(hashes) == ConcatDigests(k, items)
  {
    if items != [] { PackDigests(k, items[..|items| - 1], hashes[..|items| - 1]); }
  }

  /** The loop of both hash calculations: a digest per encoded item into an array, packed and hashed. */
  method HashItems(k: Hasher, items: seq<Bytes>) returns (r: Hash)
    ensures r == ListHash(k, items)
  {
    var hashes := new Hash[|items|](_ => ZERO_HASH);
    for i := 0 to |items|
      invariant forall j :: 0 <= j < i ==> hashes[j] == k(items[j])
    {
      hashes[i] := k(items[i]);
    }
    PackDigests(k, items, hashes[..]);
    r := k(Pack(hashes[..]));
  }

  class RollupBridge {
    const h: Hasher
    const k: Hasher
    var stateRoot: Hash
    var pendingDeposits: seq<L1Deposit>
    var depositCount: nat
    var processedDepositCount: nat
    var forcedTransactions: seq<L1Forced>
    var forcedTxCount: nat
    var processedForcedTxCount: nat

    ghost function Value(): BridgeState
      reads this
    {
      BridgeState(stateRoot, pendingDeposits, depositCount, processedDepositCount,
                  forcedTransactions, forcedTxCount, processedForcedTxCount)
    }

    constructor (h: Hasher, k: Hasher, initialStateRoot: Hash)
      ensures this.h == h && this.k == k && Value() == Init(initialStateRoot)
    {
      this.h, this.k, stateRoot := h, k, initialStateRoot;
      pendingDeposits, depositCount, processedDepositCount := [], 0, 0;
      forcedTransactions, forcedTxCount, processedForcedTxCount := [], 0, 0;
    }

    method Deposit(sender: Address, value: U256, timestamp: U256) returns (ok: bool)
      modifies this
      ensures Value() == Apply(h, k, old(Value()), DepositStep(sender, value, timestamp))
      ensures ok <==> value > 0
      ensures !ok ==> Value() == old(Value())
      ensures ok ==>
        && |pendingDeposits| == |old(pendingDeposits)| + 1 && old(pendingDeposits) <= pendingDeposits
        && var last := pendingDeposits[|pendingDeposits| - 1];
        last.user == sender && last.amount == value && last.timestamp == timestamp
      ensures ok ==> depositCount == |pendingDeposits| && processedDepositCount == old(processedDepositCount)
      ensures stateRoot == old(stateRoot) && forcedTransactions == old(forcedTransactions)
      ensures forcedTxCount == old(forcedTxCount) && processedForcedTxCount == old(processedForcedTxCount)
    {
      if value == 0 { return false; }
      pendingDeposits := pendingDeposits + [L1Deposit(sender, value, timestamp)];
      depositCount := |pendingDeposits|;
      return true;
    }

    method ForceTransaction(data: Calldata, value: U256, timestamp: U256) returns (ok: bool)
      modifies this
      ensures Value() == Apply(h, k, old(Value()), ForceStep(data, value, timestamp))
      ensures ok <==> value >= 1_000_000_000_000_000 // 0.001 ether
      ensures !ok ==> Value() == old(Value())
      ensures ok ==>
        && |forcedTransactions| == |old(forcedTransactions)| + 1 && old(forcedTransactions) <= forcedTransactions
        && var last := forcedTransactions[|forcedTransactions| - 1];
        last.data == data && last.timestamp == timestamp
      ensures ok ==> forcedTxCount == |forcedTransactions| && processedForcedTxCount == old(processedForcedTxCount)
      ensures stateRoot == old(stateRoot) && pendingDeposits == old(pendingDeposits)
      ensures depositCount == old(depositCount) && processedDepositCount == old(processedDepositCount)
    {
      if value < FORCED_TX_FEE { return false; }
      forcedTransactions := forcedTransactions + [L1Forced(data, timestamp)];
      forcedTxCount := |forcedTransactions|;
      return true;
    }

    /** None is the revert on an invalid range. */
    method GetDeposits(start: nat, count: nat) returns (r: Option<seq<L1Deposit>>)
      requires Value().Valid()
      ensures r.Some? <==> start + count <= depositCount
      ensures r.Some? ==> r.value == pendingDeposits[start..start + count]
    {
      if start + count > depositCount { return None; }
      var deposits: seq<L1Deposit> := [];
      for i := 0 to count
        invariant deposits == pendingDeposits[start..start + i]
      {
        deposits := deposits + [pendingDeposits[start + i]];
      }
      return Some(deposits);
    }

    method GetForcedTransactions(start: nat, count: nat) returns (r: Option<seq<L1Forced>>)
      requires Value().Valid()
      ensures r.Some? <==> start + count <= forcedTxCount
      ensures r.Some? ==> r.value == forcedTransactions[start..start + count]
    {
      if start + count > forcedTxCount { return None; }
      var txs: seq<L1Forced> := [];
      for i := 0 to count
        invariant txs == forcedTransactions[start..start + i]
      {
        txs := txs + [forcedTransactions[start + i]];
      }
      return Some(txs);
    }

    method CalculateDepositHash(start: nat, count: nat) returns (r: Option<Hash>)
      requires Value().Valid()
      ensures r.Some? <==> count == 0 || start + count <= |pendingDeposits|
      ensures r == match Range(pendingDeposits, start, count)
        case None => None
        case Some(ds) => Some(ListHash(k, DepositItems(ds)))
    {
      if count == 0 {
        assert DepositItems([]) == [];
        return Some(k([]));
      }
      if start + count > depositCount { return None; }
      var hash := HashItems(k, DepositItems(pendingDeposits[start..start + count]));
      return Some(hash);
    }

    method CalculateForcedTxHash(start: nat, count: nat) returns (r: Option<Hash>)
      requires Value().Valid()
      ensures r.Some? <==> count == 0 || start + count <= |forcedTransactions|
      ensures r == match Range(forcedTransactions, start, count)
        case None => None
        case Some(fs) => Some(ListHash(k, ForcedItems(fs)))
    {
      if count == 0 {
        assert ForcedItems([]) == [];
        return Some(k([]));
      }
      if start + count > forcedTxCount { return None; }
      var hash := HashItems(k, ForcedItems(forcedTransactions[start..start + count]));
      return Some(hash);
    }

    method UpdateState(values: PublicValues, proof: GuestInput) returns (ok: bool)
      requires Value().Valid()
      modifies this
      ensures ok <==> Accepts(h, k, old(Value()), values, proof)
      ensures Value() == Apply(h, k, old(Value()), UpdateStep(values, proof))
      ensures !ok ==> Value() == old(Value())
      ensures ok ==> old(stateRoot) == values.preStateRoot && stateRoot == values.postStateRoot
      ensures pendingDeposits == old(pendingDeposits) && forcedTransactions == old(forcedTransactions)
    {
      hide PublicValuesOf, Truncate, ListHash, DecodeCommitment, DepositItems, ForcedItems;
      if values.preStateRoot != stateRoot { return false; }
      var (depositsInBatch, depositsHash) := DecodeCommitment(values.depositsCommitment);
      var (forcedTxsInBatch, forcedTxsHash) := DecodeCommitment(values.forcedTxsCommitment);
      var dh := CalculateDepositHash(processedDepositCount, depositsInBatch);
      if dh.None? || Truncate(dh.value) != depositsHash { return false; }
      var fh := CalculateForcedTxHash(processedForcedTxCount, forcedTxsInBatch);
      if fh.None? || Truncate(fh.value) != forcedTxsHash { return false; }
      var verified := RunGuest(h, k, proof);
      if verified != Some(values) { return false; }
      processedDepositCount := processedDepositCount + depositsInBatch;
      processedForcedTxCount := processedForcedTxCount + forcedTxsInBatch;
      stateRoot := values.postStateRoot;
      return true;
    }
  }

  // ---- Queues ----

  lemma StepKeepsQueues(h: Hasher, k: Hasher, s: BridgeState, step: Step)
    requires s.Valid()
    ensures var s' := Apply(h, k, s, step);
      && s'.Valid()
      && s.pendingDeposits <= s'.pendingDeposits && s.forcedTransactions <= s'.forcedTransactions
      && s.processedDepositCount <= s'.processedDepositCount && s.processedForcedTxCount <= s'.processedForcedTxCount
  {
    hide ListHash, DecodeCommitment, Truncate, VerifyProof;
  }

  /** In every run the counts are lengths, the pointers are within range, and nothing ever shrinks. */
  lemma {:induction false} QueueInvariant(h: Hasher, k: Hasher, root: Hash, steps: seq<Step>, i: nat)
    requires i <= |steps|
    ensures var s, s' := Run(h, k, root, steps[..i]), Run(h, k, root, steps);
      && s'.Valid()
      && s.pendingDeposits <= s'.pendingDeposits && s.forcedTransactions <= s'.forcedTransactions
      && s.processedDepositCount <= s'.processedDepositCount && s.processedForcedTxCount <= s'.processedForcedTxCount
    decreases |steps|
  {
    if steps != [] {
      var n := |steps| - 1;
      var j := if i <= n then i else n;
      QueueInvariant(h, k, root, steps[..n], j);
      StepKeepsQueues(h, k, Run(h, k, root, steps[..n]), steps[n]);
      assert steps[..n][..j] == steps[..j];
      if i > n { assert steps[..i] == steps; }
    } else {
      assert steps[..i] == [];
    }
  }

  /** The deposit calls of a run that paid something, in order. */
  function PaidDeposits(steps: seq<Step>): seq<L1Deposit> {
    if steps == [] then []
    else
      var before, step := PaidDeposits(steps[..|steps| - 1]), steps[|steps| - 1];
      if step.DepositStep? && step.value > 0
      then before + [L1Deposit(user := step.user, amount := step.value, timestamp := step.timestamp)]
      else before
  }

  /** The calls of a run that paid 0.001 ether or more for a forced transaction, in order. */
  function PaidForced(steps: seq<Step>): seq<L1Forced> {
    if steps == [] then []
    else
      var before, step := PaidForced(steps[..|steps| - 1]), steps[|steps| - 1];
      if step.ForceStep? && step.value >= 1_000_000_000_000_000
      then before + [L1Forced(data := step.data, timestamp := step.timestamp)]
      else before
  }

  /** All ether sent with deposit calls. */
  function EtherIn(steps: seq<Step>): nat {
    if steps == [] then 0
    else
      var step := steps[|steps| - 1];
      EtherIn(steps[..|steps| - 1]) + if step.DepositStep? then step.value else 0
  }

  function SumAmounts(ds: seq<L1Deposit>): nat {
    if ds == [] then 0 else SumAmounts(ds[..|ds| - 1]) + ds[|ds| - 1].amount
  }

  lemma StepQueues(h: Hasher, k: Hasher, s: BridgeState, step: Step)
    ensures var s' := Apply(h, k, s, step);
      && s'.pendingDeposits == s.pendingDeposits +
         (if step.DepositStep? && step.value > 0 then [L1Deposit(step.user, step.value, step.timestamp)] else [])
      && s'.forcedTransactions == s.forcedTransactions +
         (if step.ForceStep? && step.value >= 1_000_000_000_000_000 then [L1Forced(step.data, step.timestamp)] else [])
  {
    hide Accepts, DecodeCommitment;
  }

  /**
   In every run the queues are exactly the paid calls, in order, with their senders, amounts and times, and the
   queued amounts add up to the ether sent with deposits.
   */
  lemma {:induction false} QueuesAreCalls(h: Hasher, k: Hasher, root: Hash, steps: seq<Step>)
    ensures var s := Run(h, k, root, steps);
      && s.pendingDeposits == PaidDeposits(steps) && s.forcedTransactions == PaidForced(steps)
      && SumAmounts(s.pendingDeposits) == EtherIn(steps)
  {
    hide Apply;
    if steps != [] {
      var n := |steps| - 1;
      QueuesAreCalls(h, k, root, steps[..n]);
      StepQueues(h, k, Run(h, k, root, steps[..n]), steps[n]);
      var before := PaidDeposits(steps[..n]);
      if steps[n].DepositStep? && steps[n].value > 0 {
        assert (before + [L1Deposit(steps[n].user, steps[n].value, steps[n].timestamp)])[..|before|] == before;
      }
    }
  }

  // ---- End to end ----

  /** The guest inputs behind the accepted updates, in order. */
  function Batches(h: Hasher, k: Hasher, root: Hash, steps: seq<Step>): seq<GuestInput> {
    if steps == [] then []
    else
      var n := |steps| - 1;
      var before, s := Batches(h, k, root, steps[..n]), Run(h, k, root, steps[..n]);
      if steps[n].UpdateStep? && Accepts(h, k, s, steps[n].values, steps[n].proof)
      then before + [steps[n].proof] else before
  }

  /** Guest transitions lead from `root` to `end`, each starting where the one before stopped. */
  predicate Linked(h: Hasher, root: Hash, gs: seq<GuestInput>, end: Hash) {
    if gs == [] then root == end
    else
      var n := |gs| - 1;
      Transition(h, gs[n]) == Done(end) && Linked(h, root, gs[..n], gs[n].preStateRoot)
  }

  function AllDeposits(gs: seq<GuestInput>): seq<L1Deposit> {
    if gs == [] then [] else AllDeposits(gs[..|gs| - 1]) + ToL1Deposits(gs[|gs| - 1].deposits)
  }

  function AllForced(gs: seq<GuestInput>): seq<L1Forced> {
    if gs == [] then [] else AllForced(gs[..|gs| - 1]) + ToL1ForcedTxs(gs[|gs| - 1].forced)
  }

  /** What L1 and the guest hash for one update. */
  function UpdatePreimages(k: Hasher, s: BridgeState, v: PublicValues, g: GuestInput): set<Bytes> {
    var ds := Range(s.pendingDeposits, s.processedDepositCount, DecodeCommitment(v.depositsCommitment).0);
    var fs := Range(s.forcedTransactions, s.processedForcedTxCount, DecodeCommitment(v.forcedTxsCommitment).0);
    (if ds.None? then {} else ListPreimages(k, DepositItems(ds.value))) +
    ListPreimages(k, DepositItems(ToL1Deposits(g.deposits))) +
    (if fs.None? then {} else ListPreimages(k, ForcedItems(fs.value))) +
    ListPreimages(k, ForcedItems(ToL1ForcedTxs(g.forced)))
  }

  function BridgePreimages(h: Hasher, k: Hasher, root: Hash, steps: seq<Step>): set<Bytes> {
    if steps == [] then {}
    else
      var n := |steps| - 1;
      var s := Run(h, k, root, steps[..n]);
      BridgePreimages(h, k, root, steps[..n]) +
      (if steps[n].UpdateStep? then UpdatePreimages(k, s, steps[n].values, steps[n].proof) else {})
  }

  /** A matching commitment means the guest saw exactly the next items of the queue. */
  lemma DepositsBound(k: Hasher, s: BridgeState, ds: seq<Deposit>)
    requires var c := DepositsCommitment(k, ds);
      CommitmentMatches(DepositHash(k, s, DecodeCommitment(c).0), c)
    ensures var c := DepositsCommitment(k, ds);
      var range := Range(s.pendingDeposits, s.processedDepositCount, DecodeCommitment(c).0).value;
      || CollisionIn(Truncated(k),
                     ListPreimages(k, DepositItems(range)) + ListPreimages(k, DepositItems(ToL1Deposits(ds))))
      || (range == ToL1Deposits(ds) && DecodeCommitment(c).0 == |ds|)
  {
    hide FromBigEndian, BigEndian, ListHash, ConcatDigests, DepositItems, ToL1Deposits, ListPreimages;
    var c := DepositsCommitment(k, ds);
    var range := Range(s.pendingDeposits, s.processedDepositCount, DecodeCommitment(c).0).value;
    var xs, ys := DepositItems(range), DepositItems(ToL1Deposits(ds));
    CommitmentRoundTrip(ListHash(k, ys), |ds| % U32_SIZE);
    TruncateKeepsPrefix(ListHash(k, xs), ListHash(k, ys));
    ListBinding(k, xs, ys);
    if xs == ys { DepositItemsInjective(range, ToL1Deposits(ds)); }
  }

  lemma ForcedBound(k: Hasher, s: BridgeState, fs: seq<ForcedTx>)
    requires var c := ForcedCommitment(k, fs);
      CommitmentMatches(ForcedHash(k, s, DecodeCommitment(c).0), c)
    ensures var c := ForcedCommitment(k, fs);
      var range := Range(s.forcedTransactions, s.processedForcedTxCount, DecodeCommitment(c).0).value;
      || CollisionIn(Truncated(k),
                     ListPreimages(k, ForcedItems(range)) + ListPreimages(k, ForcedItems(ToL1ForcedTxs(fs))))
      || (range == ToL1ForcedTxs(fs) && DecodeCommitment(c).0 == |fs|)
  {
    hide FromBigEndian, BigEndian, ListHash, ConcatDigests, ForcedItems, ToL1ForcedTxs, ListPreimages;
    var c := ForcedCommitment(k, fs);
    var range := Range(s.forcedTransactions, s.processedForcedTxCount, DecodeCommitment(c).0).value;
    var xs, ys := ForcedItems(range), ForcedItems(ToL1ForcedTxs(fs));
    CommitmentRoundTrip(ListHash(k, ys), |fs| % U32_SIZE);
    TruncateKeepsPrefix(ListHash(k, xs), ListHash(k, ys));
    ListBinding(k, xs, ys);
    if xs == ys { ForcedItemsInjective(range, ToL1ForcedTxs(fs)); }
  }

  /** The state root comes from a chain of guest runs over exactly the processed prefixes of both queues. */
  predicate Explained(h: Hasher, root: Hash, gs: seq<GuestInput>, s: BridgeState)
  {
    && s.Valid()
    && Linked(h, root, gs, s.stateRoot)
    && AllDeposits(gs) == s.pendingDeposits[..s.processedDepositCount]
    && AllForced(gs) == s.forcedTransactions[..s.processedForcedTxCount]
  }

  lemma QueueingKeepsExplained(h: Hasher, k: Hasher, root: Hash, gs: seq<GuestInput>, s: BridgeState, step: Step)
    requires Explained(h, root, gs, s) && !step.UpdateStep?
    ensures Explained(h, root, gs, Apply(h, k, s, step))
  {
    hide Linked, AllDeposits, AllForced, Accepts, DecodeCommitment;
    var s' := Apply(h, k, s, step);
    assert s'.pendingDeposits[..s.processedDepositCount] == s.pendingDeposits[..s.processedDepositCount];
    assert s'.forcedTransactions[..s.processedForcedTxCount] == s.forcedTransactions[..s.processedForcedTxCount];
  }

  lemma RangeExtendsPrefix<T>(queue: seq<T>, start: nat, count: nat)
    requires start <= |queue| && Range(queue, start, count).Some?
    ensures start + count <= |queue|
    ensures queue[..start + count] == queue[..start] + Range(queue, start, count).value
  {}

  lemma BatchSnoc(h: Hasher, root: Hash, gs: seq<GuestInput>, g: GuestInput, end: Hash)
    requires Linked(h, root, gs, g.preStateRoot) && Transition(h, g) == Done(end)
    ensures Linked(h, root, gs + [g], end)
    ensures AllDeposits(gs + [g]) == AllDeposits(gs) + ToL1Deposits(g.deposits)
    ensures AllForced(gs + [g]) == AllForced(gs) + ToL1ForcedTxs(g.forced)
  {
    assert (gs + [g])[..|gs|] == gs;
  }

  lemma UpdateKeepsExplained(h: Hasher, k: Hasher, root: Hash, gs: seq<GuestInput>, s: BridgeState,
                             v: PublicValues, g: GuestInput)
    requires Explained(h, root, gs, s) && Accepts(h, k, s, v, g)
    ensures Explained(h, root, gs + [g], Apply(h, k, s, UpdateStep(v, g)))
      || CollisionIn(Truncated(k), UpdatePreimages(k, s, v, g))
  {
    hide ListPreimages, DecodeCommitment, Transition, DepositsCommitment, ForcedCommitment, ListHash,
         Linked, AllDeposits, AllForced, ToL1Deposits, ToL1ForcedTxs, Truncate;
    var all := UpdatePreimages(k, s, v, g);
    var n, m := DecodeCommitment(v.depositsCommitment).0, DecodeCommitment(v.forcedTxsCommitment).0;
    DepositsBound(k, s, g.deposits);
    ForcedBound(k, s, g.forced);
    RangeExtendsPrefix(s.pendingDeposits, s.processedDepositCount, n);
    RangeExtendsPrefix(s.forcedTransactions, s.processedForcedTxCount, m);
    BatchSnoc(h, root, gs, g, v.postStateRoot);
    var ds := Range(s.pendingDeposits, s.processedDepositCount, n).value;
    var fs := Range(s.forcedTransactions, s.processedForcedTxCount, m).value;
    var p := ListPreimages(k, DepositItems(ds)) + ListPreimages(k, DepositItems(ToL1Deposits(g.deposits)));
    var q := ListPreimages(k, ForcedItems(fs)) + ListPreimages(k, ForcedItems(ToL1ForcedTxs(g.forced)));
    if CollisionIn(Truncated(k), p) {
      CollisionMonotone(Truncated(k), p, all);
    } else if CollisionIn(Truncated(k), q) {
      CollisionMonotone(Truncated(k), q, all);
    }
  }

  /**
   End-to-end safety. In every run of the contract the state root is linked to the initial one by guest
   transitions whose deposits and forced transactions are, item by item, the processed prefixes of the
   two queues: no gap, no overlap, no reordering. Otherwise the hashed items contain a collision of the
   28-byte digest.
   */
  lemma {:induction false} BridgeSafety(h: Hasher, k: Hasher, root: Hash, steps: seq<Step>)
    ensures
      || Explained(h, root, Batches(h, k, root, steps), Run(h, k, root, steps))
      || CollisionIn(Truncated(k), BridgePreimages(h, k, root, steps))
  {
    if steps != [] {
      hide Explained, UpdatePreimages, Accepts, Apply;
      var n := |steps| - 1;
      var s, gs := Run(h, k, root, steps[..n]), Batches(h, k, root, steps[..n]);
      BridgeSafety(h, k, root, steps[..n]);
      var all := BridgePreimages(h, k, root, steps);
      if CollisionIn(Truncated(k), BridgePreimages(h, k, root, steps[..n])) {
        CollisionMonotone(Truncated(k), BridgePreimages(h, k, root, steps[..n]), all);
      } else if !steps[n].UpdateStep? {
        QueueingKeepsExplained(h, k, root, gs, s, steps[n]);
      } else if Accepts(h, k, s, steps[n].values, steps[n].proof) {
        UpdateKeepsExplained(h, k, root, gs, s, steps[n].values, steps[n].proof);
        if CollisionIn(Truncated(k), UpdatePreimages(k, s, steps[n].values, steps[n].proof)) {
          CollisionMonotone(Truncated(k), UpdatePreimages(k, s, steps[n].values, steps[n].proof), all);
        }
      } else {
        RefusedUpdate(h, k, s, steps[n]);
      }
    } else {
      assert Init(root).pendingDeposits[..0] == [] && Init(root).forcedTransactions[..0] == [];
    }
  }

  lemma RefusedUpdate(h: Hasher, k: Hasher, s: BridgeState, step: Step)
    requires step.UpdateStep? && !Accepts(h, k, s, step.values, step.proof)
    ensures Apply(h, k, s, step) == s
  {}

  // ---- Down to the leaves ----

  /** The accepted batches applied, one after the other, to a full tree. */
  function TreeAfter(t: Tree, gs: seq<GuestInput>): Option<Tree> {
    if gs == [] then Some(t)
    else
      var n := |gs| - 1;
      var before := TreeAfter(t, gs[..n]);
      if before.None? then None
      else TreeRun(before.value, gs[n].Ops(), PathsOf(gs[n].Pairs()), 0)
  }

  function ChainPreimages(h: Hasher, t: Tree, gs: seq<GuestInput>): set<Bytes> {
    if gs == [] then {}
    else
      var n := |gs| - 1;
      var before := TreeAfter(t, gs[..n]);
      ChainPreimages(h, t, gs[..n]) +
      (if before.None? then {} else RunPreimages(h, before.value, gs[n].Ops(), gs[n].Pairs(), 0))
  }

  lemma {:induction false} ChainSound(h: Hasher, t: Tree, gs: seq<GuestInput>, end: Hash)
    requires Linked(h, Root(h, t), gs, end)
    ensures
      || (TreeAfter(t, gs).Some? && Root(h, TreeAfter(t, gs).value) == end)
      || CollisionIn(h, ChainPreimages(h, t, gs))
  {
    if gs != [] {
      var n := |gs| - 1;
      var g := gs[n];
      ChainSound(h, t, gs[..n], g.preStateRoot);
      if CollisionIn(h, ChainPreimages(h, t, gs[..n])) {
        CollisionMonotone(h, ChainPreimages(h, t, gs[..n]), ChainPreimages(h, t, gs));
      } else {
        var t' := TreeAfter(t, gs[..n]).value;
        GuestSound(h, t', g.Ops(), g.Pairs(), 0);
        if CollisionIn(h, RunPreimages(h, t', g.Ops(), g.Pairs(), 0)) {
          CollisionMonotone(h, RunPreimages(h, t', g.Ops(), g.Pairs(), 0), ChainPreimages(h, t, gs));
        }
      }
    }
  }

  /**
   From the L1 queues to the leaves: the root on L1 is the root of the genesis tree after the accepted
   batches, which carry exactly the processed L1 items, were applied to its leaves in order; or one of
   two explicit finite sets contains a collision.
   */
  lemma L1RootIsTreeRoot(h: Hasher, k: Hasher, t: Tree, steps: seq<Step>)
    ensures
      var s, gs := Run(h, k, Root(h, t), steps), Batches(h, k, Root(h, t), steps);
      || (&& TreeAfter(t, gs).Some? && Root(h, TreeAfter(t, gs).value) == s.stateRoot
          && Explained(h, Root(h, t), gs, s))
      || CollisionIn(Truncated(k), BridgePreimages(h, k, Root(h, t), steps))
      || CollisionIn(h, ChainPreimages(h, t, gs))
  {
    BridgeSafety(h, k, Root(h, t), steps);
    var s, gs := Run(h, k, Root(h, t), steps), Batches(h, k, Root(h, t), steps);
    if Explained(h, Root(h, t), gs, s) { ChainSound(h, t, gs, s.stateRoot); }
  }
}
