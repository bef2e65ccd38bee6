/**
 The guest program: it replays a block knowing a 32-byte root and one Merkle proof per touched leaf.
 The reference is the same block run on the full tree, which the guest never sees.
 */
module Guest {
  import opened Encoding
  import opened Stf
  import opened Merkle
  import opened Commitment

  /** `Panicked` is an index out of range: the proof vectors are read without a length check. */
  datatype Outcome<+T> = Done(value: T) | Rejected(error: StfError) | Panicked

  datatype ProofBundle = ProofBundle(deposits: seq<MerkleProof>,
                                     forcedFrom: seq<MerkleProof>, forcedTo: seq<MerkleProof>,
                                     txsFrom: seq<MerkleProof>, txsTo: seq<MerkleProof>)

  /** The proofs available to one operation: the depositor's or sender's, and the recipient's. */
  datatype ProofPair = ProofPair(first: Option<MerkleProof>, second: Option<MerkleProof>)

  function At<T>(s: seq<T>, i: nat): Option<T> { if i < |s| then Some(s[i]) else None }

  datatype GuestInput = GuestInput(preStateRoot: Hash, txs: seq<Transaction>, deposits: seq<Deposit>,
                                   forced: seq<ForcedTx>, proofs: ProofBundle)
  {
    function Ops(): seq<Op> { BlockOps(deposits, forced, txs) }

    function Pairs(): seq<ProofPair> { PairsOf(|deposits|, |forced|, |txs|, proofs) }
  }

  /** The bundle regrouped by operation. */
  function PairsOf(nd: nat, nf: nat, nt: nat, b: ProofBundle): (r: seq<ProofPair>)
    ensures |r| == nd + nf + nt
  {
    seq(nd, i requires 0 <= i < nd => ProofPair(At(b.deposits, i), None)) +
    seq(nf, i requires 0 <= i < nf => ProofPair(At(b.forcedFrom, i), At(b.forcedTo, i))) +
    seq(nt, i requires 0 <= i < nt => ProofPair(At(b.txsFrom, i), At(b.txsTo, i)))
  }

  // ---- What the guest computes ----

  function GuestDeposit(h: Hasher, root: Hash, d: Deposit, pair: ProofPair): Outcome<Hash> {
    if pair.first.None? then Panicked
    else
      var p := pair.first.value;
      if !Verifies(h, p, root) then Rejected(MerkleProofVerificationFailed)
      else
        var r := Credit(p.account, d.amount);
        if r.Err? then Rejected(r.error) else Done(Fold(h, AccountHash(h, r.value), p.siblings))
  }

  /** The recipient is credited as a new account; the account in its proof is only verified. */
  function GuestTransfer(h: Hasher, root: Hash, tx: Transaction, pair: ProofPair): Outcome<Hash> {
    if pair.first.None? then Panicked
    else
      var pf := pair.first.value;
      if !Verifies(h, pf, root) then Rejected(MerkleProofVerificationFailed)
      else
        var r := Settle(pf.account, NewAccount(tx.to), tx);
        if r.Err? then Rejected(r.error)
        else
          var mid := Fold(h, AccountHash(h, r.value.from), pf.siblings);
          if r.value.Failure? then Done(mid)
          else if pair.second.None? then Panicked
          else
            var pt := pair.second.value;
            if !Verifies(h, pt, mid) then Rejected(MerkleProofVerificationFailed)
            else Done(Fold(h, AccountHash(h, r.value.to), pt.siblings))
  }

  function GuestStep(h: Hasher, root: Hash, op: Op, pair: ProofPair): Outcome<Hash> {
    match op
    case DepositOp(d) => GuestDeposit(h, root, d, pair)
    case ForcedOp(f) => if f.from == ZERO_HASH then Done(root) else GuestTransfer(h, root, f.Order(), pair)
    case TxOp(tx) => GuestTransfer(h, root, tx, pair)
  }

  function GuestRun(h: Hasher, root: Hash, ops: seq<Op>, pairs: seq<ProofPair>, i: nat): Outcome<Hash>
    requires i <= |ops| == |pairs|
    decreases |ops| - i
  {
    if i == |ops| then Done(root)
    else match GuestStep(h, root, ops[i], pairs[i])
      case Done(r) => GuestRun(h, r, ops, pairs, i + 1)
      case Rejected(e) => Rejected(e)
      case Panicked => Panicked
  }

  function Transition(h: Hasher, input: GuestInput): Outcome<Hash> {
    GuestRun(h, input.preStateRoot, input.Ops(), input.Pairs(), 0)
  }

  /** Running operations `i` up to `j` from `root` ended as `r` says, and the rest is still to come. */
  ghost predicate RanTo(h: Hasher, ops: seq<Op>, pairs: seq<ProofPair>, root: Hash, i: nat, j: nat, r: Outcome<Hash>)
    requires i <= j <= |ops| == |pairs|
  {
    var whole := GuestRun(h, root, ops, pairs, i);
    match r
    case Done(root') => whole == GuestRun(h, root', ops, pairs, j)
    case _ => whole == r
  }

  method ExecuteTransition(h: Hasher, k: Hasher, input: GuestInput) returns (r: Outcome<(Hash, Hash, Hash)>)
    ensures match Transition(h, input)
      case Done(root) =>
        r == Done((root, ListHash(k, DepositItems(ToL1Deposits(input.deposits))),
                   ListHash(k, ForcedItems(ToL1ForcedTxs(input.forced)))))
      case Rejected(e) => r == Rejected(e)
      case Panicked => r == Panicked
  {
    var depositsHash := HashDeposits(k, input.deposits);
    var forcedHash := HashForcedTxs(k, input.forced);
    var step := ReplayLoops(h, input);
    match step
    case Done(root) => return Done((root, depositsHash, forcedHash));
    case Rejected(e) => return Rejected(e);
    case Panicked => return Panicked;
  }

  method ReplayLoops(h: Hasher, input: GuestInput) returns (step: Outcome<Hash>)
    ensures step == Transition(h, input)
  {
    hide GuestStep;
    ghost var ops, pairs := Layout(h, input);
    var p := input.proofs;
    ghost var nd, nf := |input.deposits|, |input.forced|;
    step := DepositLoop(h, input.deposits, p.deposits, input.preStateRoot, ops, pairs);
    if !step.Done? { return; }
    step := ForcedLoop(h, input.forced, p.forcedFrom, p.forcedTo, step.value, ops, pairs, nd);
    if !step.Done? { return; }
    step := TxLoop(h, input.txs, p.txsFrom, p.txsTo, step.value, ops, pairs, nd + nf);
  }

  /** Which item and which proofs stand at each position of the block. */
  lemma Layout(h: Hasher, input: GuestInput) returns (ops: seq<Op>, pairs: seq<ProofPair>)
    ensures |ops| == |pairs| == |input.deposits| + |input.forced| + |input.txs|
    ensures Transition(h, input) == GuestRun(h, input.preStateRoot, ops, pairs, 0)
    ensures forall i :: 0 <= i < |input.deposits| ==>
      ops[i] == DepositOp(input.deposits[i]) && pairs[i] == ProofPair(At(input.proofs.deposits, i), None)
    ensures var n := |input.deposits|;
      forall i :: 0 <= i < |input.forced| ==>
        && ops[n + i] == ForcedOp(input.forced[i])
        && pairs[n + i] == ProofPair(At(input.proofs.forcedFrom, i), At(input.proofs.forcedTo, i))
    ensures var n := |input.deposits| + |input.forced|;
      forall i :: 0 <= i < |input.txs| ==>
        && ops[n + i] == TxOp(input.txs[i])
        && pairs[n + i] == ProofPair(At(input.proofs.txsFrom, i), At(input.proofs.txsTo, i))
  {
    hide GuestStep;
    ops, pairs := input.Ops(), input.Pairs();
  }

  method DepositLoop(h: Hasher, deposits: seq<Deposit>, proofs: seq<MerkleProof>, preRoot: Hash,
                     ghost ops: seq<Op>, ghost pairs: seq<ProofPair>) returns (r: Outcome<Hash>)
    requires |deposits| <= |ops| == |pairs|
    requires forall i :: 0 <= i < |deposits| ==>
      ops[i] == DepositOp(deposits[i]) && pairs[i] == ProofPair(At(proofs, i), None)
    ensures RanTo(h, ops, pairs, preRoot, 0, |deposits|, r)
  {
    var currentRoot := preRoot;
    for i := 0 to |deposits|
      invariant RanTo(h, ops, pairs, preRoot, 0, i, Done(currentRoot))
    {
      if i >= |proofs| { return Panicked; }
      var ok := Verify(h, proofs[i], currentRoot);
      if !ok { return Rejected(MerkleProofVerificationFailed); }
      var updated := ApplyDeposit(proofs[i].account, deposits[i]);
      if updated.Err? { return Rejected(updated.error); }
      currentRoot := ComputeNewRoot(h, proofs[i], AccountHash(h, updated.value));
    }
    return Done(currentRoot);
  }

  method ForcedLoop(h: Hasher, forced: seq<ForcedTx>, froms: seq<MerkleProof>, tos: seq<MerkleProof>, preRoot: Hash,
                    ghost ops: seq<Op>, ghost pairs: seq<ProofPair>, ghost n: nat) returns (r: Outcome<Hash>)
    requires n + |forced| <= |ops| == |pairs|
    requires forall i :: 0 <= i < |forced| ==>
      ops[n + i] == ForcedOp(forced[i]) && pairs[n + i] == ProofPair(At(froms, i), At(tos, i))
    ensures RanTo(h, ops, pairs, preRoot, n, n + |forced|, r)
  {
    var currentRoot := preRoot;
    for i := 0 to |forced|
      invariant RanTo(h, ops, pairs, preRoot, n, n + i, Done(currentRoot))
    {
      if forced[i].from == ZERO_HASH { continue; }
      var step := TransferStep(h, currentRoot, forced[i].Order(), froms, tos, i);
      if !step.Done? { return step; }
      currentRoot := step.value;
    }
    return Done(currentRoot);
  }

  method TxLoop(h: Hasher, txs: seq<Transaction>, froms: seq<MerkleProof>, tos: seq<MerkleProof>, preRoot: Hash,
                ghost ops: seq<Op>, ghost pairs: seq<ProofPair>, ghost n: nat) returns (r: Outcome<Hash>)
    requires n + |txs| <= |ops| == |pairs|
    requires forall i :: 0 <= i < |txs| ==>
      ops[n + i] == TxOp(txs[i]) && pairs[n + i] == ProofPair(At(froms, i), At(tos, i))
    ensures RanTo(h, ops, pairs, preRoot, n, n + |txs|, r)
  {
    var currentRoot := preRoot;
    for i := 0 to |txs|
      invariant RanTo(h, ops, pairs, preRoot, n, n + i, Done(currentRoot))
    {
      var step := TransferStep(h, currentRoot, txs[i], froms, tos, i);
      if !step.Done? { return step; }
      currentRoot := step.value;
    }
    return Done(currentRoot);
  }

  /** The loop body shared by forced and ordinary transactions. */
  method TransferStep(h: Hasher, root: Hash, tx: Transaction,
                      froms: seq<MerkleProof>, tos: seq<MerkleProof>, i: nat) returns (r: Outcome<Hash>)
    ensures r == GuestTransfer(h, root, tx, ProofPair(At(froms, i), At(tos, i)))
  {
    if i >= |froms| { return Panicked; }
    var ok := Verify(h, froms[i], root);
    if !ok { return Rejected(MerkleProofVerificationFailed); }
    var result := ApplyTransaction(froms[i].account, NewAccount(tx.to), tx);
    if result.Err? { return Rejected(result.error); }
    var mid := ComputeNewRoot(h, froms[i], AccountHash(h, result.value.from));
    if result.value.Failure? { return Done(mid); }
    if i >= |tos| { return Panicked; }
    ok := Verify(h, tos[i], mid);
    if !ok { return Rejected(MerkleProofVerificationFailed); }
    var post := ComputeNewRoot(h, tos[i], AccountHash(h, result.value.to));
    return Done(post);
  }

  // ---- Panics ----

  /** The guest reads a proof that is not there: the first one, or the recipient's of a transfer that is paid. */
  predicate LacksProof(h: Hasher, root: Hash, op: Op, pair: ProofPair) {
    match op
    case DepositOp(_) => pair.first.None?
    case ForcedOp(f) =>
      f.from != ZERO_HASH && LacksTransferProof(h, root, Transaction(f.from, f.to, f.nonce, f.fee, f.amount), pair)
    case TxOp(tx) => LacksTransferProof(h, root, tx, pair)
  }

  predicate LacksTransferProof(h: Hasher, root: Hash, tx: Transaction, pair: ProofPair) {
    || pair.first.None?
    || (&& pair.second.None? && Verifies(h, pair.first.value, root)
        && CanPay(pair.first.value.account, NewAccount(tx.to), tx))
  }

  /** An operation that the guest reaches lacks a proof. */
  predicate SomeLacksProof(h: Hasher, root: Hash, ops: seq<Op>, pairs: seq<ProofPair>, i: nat)
    requires i <= |ops| == |pairs|
    decreases |ops| - i
  {
    i < |ops| &&
      (LacksProof(h, root, ops[i], pairs[i]) ||
       var s := GuestStep(h, root, ops[i], pairs[i]); s.Done? && SomeLacksProof(h, s.value, ops, pairs, i + 1))
  }

  /** The guest panics exactly when an operation it reaches lacks a proof; with full proof vectors it never does. */
  lemma {:induction false} PanicsIff(h: Hasher, root: Hash, ops: seq<Op>, pairs: seq<ProofPair>, i: nat)
    requires i <= |ops| == |pairs|
    ensures GuestRun(h, root, ops, pairs, i) == Panicked <==> SomeLacksProof(h, root, ops, pairs, i)
    ensures (forall j :: i <= j < |ops| ==> pairs[j].first.Some? && (ops[j].DepositOp? || pairs[j].second.Some?)) ==>
      GuestRun(h, root, ops, pairs, i) != Panicked
    decreases |ops| - i
  {
    hide Fold;
    if i < |ops| {
      var s := GuestStep(h, root, ops[i], pairs[i]);
      assert s == Panicked <==> LacksProof(h, root, ops[i], pairs[i]);
      if s.Done? { PanicsIff(h, s.value, ops, pairs, i + 1); }
    }
  }

  // ---- The same block on the full tree ----

  /** Where an operation reads and writes. Nothing else of a proof is used here. */
  datatype PathPair = PathPair(first: Path, second: Path)

  function ProofPath(p: Option<MerkleProof>): Path { if p.Some? then PathOf(p.value.siblings) else [] }

  function PathsOf(pairs: seq<ProofPair>): (r: seq<PathPair>)
    ensures |r| == |pairs|
  {
    seq(|pairs|, i requires 0 <= i < |pairs| => PathPair(ProofPath(pairs[i].first), ProofPath(pairs[i].second)))
  }

  function TreeDeposit(t: Tree, d: Deposit, at: Path): Option<Tree> {
    match LeafAt(t, at)
    case None => None
    case Some(a) =>
      match Credit(a, d.amount)
      case Err(_) => None
      case Ok(a') => Some(Update(t, at, a'))
  }

  /** What the transfer makes of the sender's leaf, and of a new recipient. */
  function LeafSettle(t: Tree, tx: Transaction, at: Path): Option<TransferResult> {
    match LeafAt(t, at)
    case None => None
    case Some(a) =>
      match Settle(a, NewAccount(tx.to), tx)
      case Err(_) => None
      case Ok(r) => Some(r)
  }

  function TreeTransfer(t: Tree, tx: Transaction, at: PathPair): Option<Tree> {
    match LeafSettle(t, tx, at.first)
    case None => None
    case Some(Failure(a)) => Some(Update(t, at.first, a))
    case Some(Success(a, b)) =>
      var mid := Update(t, at.first, a);
      if LeafAt(mid, at.second).Some? then Some(Update(mid, at.second, b)) else None
  }

  function TreeStep(t: Tree, op: Op, at: PathPair): Option<Tree> {
    match op
    case DepositOp(d) => TreeDeposit(t, d, at.first)
    case ForcedOp(f) => if f.from == ZERO_HASH then Some(t) else TreeTransfer(t, f.Order(), at)
    case TxOp(tx) => TreeTransfer(t, tx, at)
  }

  function TreeRun(t: Tree, ops: seq<Op>, paths: seq<PathPair>, i: nat): Option<Tree>
    requires i <= |ops| == |paths|
    decreases |ops| - i
  {
    if i == |ops| then Some(t)
    else match TreeStep(t, ops[i], paths[i])
      case None => None
      case Some(t') => TreeRun(t', ops, paths, i + 1)
  }

  // ---- Soundness ----

  function OrderOf(op: Op): Option<Transaction> {
    match op
    case DepositOp(_) => None
    case ForcedOp(f) => Some(f.Order())
    case TxOp(tx) => Some(tx)
  }

  /** The tree against which the recipient's proof is checked. */
  function MidTree(t: Tree, tx: Transaction, at: Path): Tree {
    match LeafSettle(t, tx, at)
    case None => t
    case Some(r) => Update(t, at, r.from)
  }

  /** The strings hashed by the proofs of one operation and by the trees they are checked against. */
  function StepPreimages(h: Hasher, t: Tree, op: Op, pair: ProofPair): set<Bytes> {
    if pair.first.None? then {}
    else
      var pf := pair.first.value;
      BindingPreimages(h, t, pf) +
      (if OrderOf(op).None? || pair.second.None? then {}
       else BindingPreimages(h, MidTree(t, OrderOf(op).value, PathOf(pf.siblings)), pair.second.value))
  }

  function RunPreimages(h: Hasher, t: Tree, ops: seq<Op>, pairs: seq<ProofPair>, i: nat): set<Bytes>
    requires i <= |ops| == |pairs|
    decreases |ops| - i
  {
    if i == |ops| then {}
    else
      var t' := TreeStep(t, ops[i], PathsOf(pairs)[i]);
      StepPreimages(h, t, ops[i], pairs[i]) +
      (if t'.None? then {} else RunPreimages(h, t'.value, ops, pairs, i + 1))
  }

  /** A verified proof turns a new leaf into the root of the rewritten tree. */
  lemma ProofRewrites(h: Hasher, t: Tree, p: MerkleProof, a: Account, s: set<Bytes>)
    requires Verifies(h, p, Root(h, t))
    requires BindingPreimages(h, t, p) <= s
    ensures CollisionIn(h, s) ||
      (LeafAt(t, PathOf(p.siblings)) == Some(p.account)
       && Fold(h, AccountHash(h, a), p.siblings) == Root(h, Update(t, PathOf(p.siblings), a)))
  {
    Binding(h, t, p);
    if Matches(h, t, p) {
      UpdateRoot(h, t, PathOf(p.siblings), a);
    } else {
      CollisionMonotone(h, BindingPreimages(h, t, p), s);
    }
  }

  lemma TransferSound(h: Hasher, t: Tree, op: Op, tx: Transaction, pair: ProofPair)
    requires OrderOf(op) == Some(tx)
    requires GuestTransfer(h, Root(h, t), tx, pair).Done?
    ensures
      var at := PathPair(ProofPath(pair.first), ProofPath(pair.second));
      CollisionIn(h, StepPreimages(h, t, op, pair)) ||
      (TreeTransfer(t, tx, at).Some?
       && GuestTransfer(h, Root(h, t), tx, pair).value == Root(h, TreeTransfer(t, tx, at).value))
  {
    var s, pf := StepPreimages(h, t, op, pair), pair.first.value;
    var r := Settle(pf.account, NewAccount(tx.to), tx).value;
    ProofRewrites(h, t, pf, r.from, s);
    if !CollisionIn(h, s) && r.Success? {
      ProofRewrites(h, Update(t, PathOf(pf.siblings), r.from), pair.second.value, r.to, s);
    }
  }

  lemma StepSound(h: Hasher, t: Tree, op: Op, pair: ProofPair)
    requires GuestStep(h, Root(h, t), op, pair).Done?
    ensures
      var at := PathPair(ProofPath(pair.first), ProofPath(pair.second));
      CollisionIn(h, StepPreimages(h, t, op, pair)) ||
      (TreeStep(t, op, at).Some? && GuestStep(h, Root(h, t), op, pair).value == Root(h, TreeStep(t, op, at).value))
  {
    match op
    case DepositOp(d) =>
      var p := pair.first.value;
      ProofRewrites(h, t, p, Credit(p.account, d.amount).value, StepPreimages(h, t, op, pair));
    case ForcedOp(f) => if f.from != ZERO_HASH { TransferSound(h, t, op, f.Order(), pair); }
    case TxOp(tx) => TransferSound(h, t, op, tx, pair);
  }

  /**
   Whole-block soundness. If the guest accepts a block from the root of a full tree, the root it returns
   is the root of that tree after the block's operations were applied to its leaves, at the proofs' paths;
   or the strings hashed on the way contain a collision.
   */
  lemma {:induction false} GuestSound(h: Hasher, t: Tree, ops: seq<Op>, pairs: seq<ProofPair>, i: nat)
    requires i <= |ops| == |pairs|
    requires GuestRun(h, Root(h, t), ops, pairs, i).Done?
    ensures
      var t' := TreeRun(t, ops, PathsOf(pairs), i);
      || (t'.Some? && GuestRun(h, Root(h, t), ops, pairs, i) == Done(Root(h, t'.value)))
      || CollisionIn(h, RunPreimages(h, t, ops, pairs, i))
    decreases |ops| - i
  {
    if i < |ops| {
      StepSound(h, t, ops[i], pairs[i]);
      var s := RunPreimages(h, t, ops, pairs, i);
      if CollisionIn(h, StepPreimages(h, t, ops[i], pairs[i])) {
        CollisionMonotone(h, StepPreimages(h, t, ops[i], pairs[i]), s);
      } else {
        var t' := TreeStep(t, ops[i], PathsOf(pairs)[i]).value;
        GuestSound(h, t', ops, pairs, i + 1);
        if CollisionIn(h, RunPreimages(h, t', ops, pairs, i + 1)) {
          CollisionMonotone(h, RunPreimages(h, t', ops, pairs, i + 1), s);
        }
      }
    }
  }

  // ---- Completeness ----

  /** The proof an honest prover reads off the tree. */
  function HonestProof(h: Hasher, t: Tree, at: Path): Option<MerkleProof> {
    match LeafAt(t, at)
    case None => None
    case Some(a) => Some(MerkleProof(a, SiblingsAlong(h, t, at)))
  }

  function HonestPair(h: Hasher, t: Tree, op: Op, at: PathPair): ProofPair {
    var mid := if OrderOf(op).None? then t else MidTree(t, OrderOf(op).value, at.first);
    ProofPair(HonestProof(h, t, at.first), HonestProof(h, mid, at.second))
  }

  function HonestPairs(h: Hasher, t: Tree, ops: seq<Op>, paths: seq<PathPair>, i: nat): (r: seq<ProofPair>)
    requires i <= |ops| == |paths|
    ensures |r| == |ops| - i
    decreases |ops| - i
  {
    if i == |ops| then []
    else
      var t' := TreeStep(t, ops[i], paths[i]);
      [HonestPair(h, t, ops[i], paths[i])] +
      (if t'.None? then seq(|ops| - i - 1, _ => ProofPair(None, None))
       else HonestPairs(h, t'.value, ops, paths, i + 1))
  }

  lemma StepComplete(h: Hasher, t: Tree, op: Op, at: PathPair)
    requires TreeStep(t, op, at).Some?
    ensures GuestStep(h, Root(h, t), op, HonestPair(h, t, op, at)) == Done(Root(h, TreeStep(t, op, at).value))
  {
    if op.ForcedOp? && op.forced.from == ZERO_HASH { return; }
    HonestProofVerifies(h, t, at.first);
    match OrderOf(op) {
      case None =>
        UpdateRoot(h, t, at.first, Credit(LeafAt(t, at.first).value, op.deposit.amount).value);
      case Some(tx) =>
        var r := LeafSettle(t, tx, at.first).value;
        UpdateRoot(h, t, at.first, r.from);
        if r.Success? {
          var mid := Update(t, at.first, r.from);
          HonestProofVerifies(h, mid, at.second);
          UpdateRoot(h, mid, at.second, r.to);
        }
    }
  }

  /** Where the block can be run on the tree, the guest accepts the honest proofs and returns that root. */
  lemma {:induction false} GuestComplete(h: Hasher, t: Tree, ops: seq<Op>, paths: seq<PathPair>,
                                         pairs: seq<ProofPair>, i: nat)
    requires i <= |ops| == |paths| == |pairs|
    requires TreeRun(t, ops, paths, i).Some?
    requires pairs[i..] == HonestPairs(h, t, ops, paths, i)
    ensures GuestRun(h, Root(h, t), ops, pairs, i) == Done(Root(h, TreeRun(t, ops, paths, i).value))
    decreases |ops| - i
  {
    if i < |ops| {
      StepComplete(h, t, ops[i], paths[i]);
      assert pairs[i] == pairs[i..][0] && pairs[i + 1..] == pairs[i..][1..];
      GuestComplete(h, TreeStep(t, ops[i], paths[i]).value, ops, paths, pairs, i + 1);
    }
  }
}
