/**
 The proof generator: it replays a committed block root by root, asking the tree for accounts and
 siblings, and hands the collected proofs to the guest.
 */
module Generator {
  import opened Encoding
  import opened Stf
  import opened Merkle
  import opened Ledger
  import opened Executor
  import opened Guest

  datatype SiblingLookup = Siblings(siblings: seq<Sibling>) | NoProof | ProofUnreadable(error: CoreError)

  /** The state tree as the generator sees it: answers by root and key. */
  datatype Oracle = Oracle(account: (Hash, Hash) -> Lookup, siblings: (Hash, Hash) -> SiblingLookup)

  datatype PendingBlock = PendingBlock(blockNumber: U64, txs: seq<Transaction>, deposits: seq<Deposit>,
                                       forced: seq<ForcedTx>, preStateRoot: Hash, postStateRoot: Hash)
  {
    function Ops(): seq<Op> { BlockOps(deposits, forced, txs) }

    function Input(proofs: ProofBundle): GuestInput { GuestInput(preStateRoot, txs, deposits, forced, proofs) }
  }

  function GetAccount(o: Oracle, root: Hash, key: Hash): Lookup {
    if root == ZERO_HASH then NotFound else o.account(root, key)
  }

  function GetProof(o: Oracle, root: Hash, key: Hash): SiblingLookup {
    if root == ZERO_HASH then NoProof else o.siblings(root, key)
  }

  /** A missing account is proved as a new one, a missing path as an empty one. */
  function BuildProof(o: Oracle, root: Hash, key: Hash): CoreResult<MerkleProof> {
    var a, s := GetAccount(o, root, key), GetProof(o, root, key);
    if a.Unreadable? then Err(a.error)
    else if s.ProofUnreadable? then Err(s.error)
    else Ok(MerkleProof(if a.Found? then a.account else NewAccount(key), if s.Siblings? then s.siblings else []))
  }

  // ---- One operation ----

  datatype GenStepped = GenStepped(root: Hash, pair: ProofPair)

  function Dummy(from: Hash, to: Hash): ProofPair {
    ProofPair(Some(MerkleProof(NewAccount(from), [])), Some(MerkleProof(NewAccount(to), [])))
  }

  function GenDeposit(h: Hasher, o: Oracle, root: Hash, d: Deposit): CoreResult<GenStepped> {
    var p := BuildProof(o, root, d.to);
    if p.Err? then Err(p.error)
    else
      var r := Credit(p.value.account, d.amount);
      Ok(GenStepped(if r.Ok? then Fold(h, AccountHash(h, r.value), p.value.siblings) else root,
                    ProofPair(Some(p.value), None)))
  }

  function GenTransfer(h: Hasher, o: Oracle, root: Hash, tx: Transaction): CoreResult<GenStepped> {
    var pf, pt := BuildProof(o, root, tx.from), BuildProof(o, root, tx.to);
    if pf.Err? then Err(pf.error)
    else if pt.Err? then Err(pt.error)
    else
      var r := Settle(pf.value.account, pt.value.account, tx);
      if r.Err? then Err(StfFailure(r.error))
      else
        var mid := Fold(h, AccountHash(h, r.value.from), pf.value.siblings);
        if r.value.Failure? then Ok(GenStepped(mid, ProofPair(Some(pf.value), Some(pt.value))))
        else
          var pt' := BuildProof(o, mid, tx.to);
          if pt'.Err? then Err(pt'.error)
          else Ok(GenStepped(Fold(h, AccountHash(h, r.value.to), pt'.value.siblings),
                             ProofPair(Some(pf.value), Some(pt'.value))))
  }

  function GenStep(h: Hasher, o: Oracle, root: Hash, op: Op): CoreResult<GenStepped> {
    match op
    case DepositOp(d) => GenDeposit(h, o, root, d)
    case ForcedOp(f) =>
      if f.from == ZERO_HASH then Ok(GenStepped(root, Dummy(f.from, f.to))) else GenTransfer(h, o, root, f.Order())
    case TxOp(tx) =>
      if !GetAccount(o, root, tx.from).Found? then Ok(GenStepped(root, Dummy(tx.from, tx.to)))
      else GenTransfer(h, o, root, tx)
  }

  /** Operations `i` onwards: the proofs in order and the final root. */
  datatype GenRan = GenRan(root: Hash, pairs: seq<ProofPair>)

  function GenRun(h: Hasher, o: Oracle, root: Hash, ops: seq<Op>, i: nat): (r: CoreResult<GenRan>)
    requires i <= |ops|
    ensures r.Ok? ==> |r.value.pairs| == |ops| - i
    decreases |ops| - i
  {
    if i == |ops| then Ok(GenRan(root, []))
    else
      var s := GenStep(h, o, root, ops[i]);
      if s.Err? then Err(s.error)
      else
        var rest := GenRun(h, o, s.value.root, ops, i + 1);
        if rest.Err? then rest else Ok(GenRan(rest.value.root, [s.value.pair] + rest.value.pairs))
  }

  // ---- The generator itself ----

  /** `RootMismatch` is the failed assertion at the end. */
  datatype GenOutcome = Bundle(proofs: ProofBundle) | Failed(error: CoreError) | RootMismatch

  /** The run from `i` is the run from `j` with `done` in front. */
  ghost predicate GenPrefix(h: Hasher, o: Oracle, ops: seq<Op>, whole: CoreResult<GenRan>, root: Hash,
                            done: seq<ProofPair>, j: nat)
    requires j <= |ops|
  {
    var rest := GenRun(h, o, root, ops, j);
    whole == if rest.Err? then rest else Ok(GenRan(rest.value.root, done + rest.value.pairs))
  }

  lemma GenPrefixNext(h: Hasher, o: Oracle, ops: seq<Op>, whole: CoreResult<GenRan>, root: Hash,
                      done: seq<ProofPair>, j: nat)
    requires j < |ops| && GenPrefix(h, o, ops, whole, root, done, j)
    ensures var s := GenStep(h, o, root, ops[j]);
      if s.Err? then whole == Err(s.error)
      else GenPrefix(h, o, ops, whole, s.value.root, done + [s.value.pair], j + 1)
  {
    var s := GenStep(h, o, root, ops[j]);
    if s.Ok? {
      var rest := GenRun(h, o, s.value.root, ops, j + 1);
      if rest.Ok? {
        assert done + ([s.value.pair] + rest.value.pairs) == done + [s.value.pair] + rest.value.pairs;
      }
    }
  }

  method BuildStfProof(o: Oracle, root: Hash, key: Hash) returns (r: CoreResult<MerkleProof>)
    ensures r == BuildProof(o, root, key)
  {
    var account: Account;
    match GetAccount(o, root, key) {
      case Found(acc) => account := acc;
      case NotFound => account := NewAccount(key);
      case Unreadable(e) => return Err(e);
    }
    match GetProof(o, root, key) {
      case Siblings(s) => return Ok(MerkleProof(account, s));
      case NoProof => return Ok(MerkleProof(account, []));
      case ProofUnreadable(e) => return Err(e);
    }
  }

  /** The new root and the two proofs to push. */
  datatype Pushed = Pushed(root: Hash, from: MerkleProof, to: MerkleProof)
  {
    function Stepped(): GenStepped { GenStepped(root, ProofPair(Some(from), Some(to))) }
  }

  function PushedStep(r: CoreResult<Pushed>): CoreResult<GenStepped> {
    if r.Err? then Err(r.error) else Ok(r.value.Stepped())
  }

  method GenerateForced(h: Hasher, o: Oracle, root: Hash, tx: ForcedTx) returns (r: CoreResult<Pushed>)
    ensures PushedStep(r) == GenStep(h, o, root, ForcedOp(tx))
  {
    if tx.from == ZERO_HASH {
      return Ok(Pushed(root, MerkleProof(NewAccount(tx.from), []), MerkleProof(NewAccount(tx.to), [])));
    }
    r := GenerateTransfer(h, o, root, tx.Order());
  }

  method GenerateTx(h: Hasher, o: Oracle, root: Hash, tx: Transaction) returns (r: CoreResult<Pushed>)
    ensures PushedStep(r) == GenStep(h, o, root, TxOp(tx))
  {
    if !GetAccount(o, root, tx.from).Found? {
      return Ok(Pushed(root, MerkleProof(NewAccount(tx.from), []), MerkleProof(NewAccount(tx.to), [])));
    }
    r := GenerateTransfer(h, o, root, tx);
  }

  /** The part of the loop body shared by forced and ordinary transactions. */
  method GenerateTransfer(h: Hasher, o: Oracle, root: Hash, tx: Transaction) returns (r: CoreResult<Pushed>)
    ensures PushedStep(r) == GenTransfer(h, o, root, tx)
  {
    var proofFrom := BuildStfProof(o, root, tx.from);
    if proofFrom.Err? { return Err(proofFrom.error); }
    var proofTo := BuildStfProof(o, root, tx.to);
    if proofTo.Err? { return Err(proofTo.error); }
    var result := ApplyTransaction(proofFrom.value.account, proofTo.value.account, tx);
    if result.Err? { return Err(StfFailure(result.error)); }
    var currentRoot := ComputeNewRoot(h, proofFrom.value, AccountHash(h, result.value.from));
    if result.value.Failure? { return Ok(Pushed(currentRoot, proofFrom.value, proofTo.value)); }
    var proofToAfterFrom := BuildStfProof(o, currentRoot, tx.to);
    if proofToAfterFrom.Err? { return Err(proofToAfterFrom.error); }
    currentRoot := ComputeNewRoot(h, proofToAfterFrom.value, AccountHash(h, result.value.to));
    return Ok(Pushed(currentRoot, proofFrom.value, proofToAfterFrom.value));
  }

  /** The proof vectors zipped, as the guest will read them. */
  function Zip(froms: seq<MerkleProof>, tos: seq<MerkleProof>): (r: seq<ProofPair>)
    requires |froms| == |tos|
    ensures |r| == |froms|
  {
    seq(|froms|, i requires 0 <= i < |froms| => ProofPair(Some(froms[i]), Some(tos[i])))
  }

  function Singles(ps: seq<MerkleProof>): (r: seq<ProofPair>)
    ensures |r| == |ps|
  {
    seq(|ps|, i requires 0 <= i < |ps| => ProofPair(Some(ps[i]), None))
  }

  method DepositProofs(h: Hasher, o: Oracle, deposits: seq<Deposit>, preRoot: Hash,
                       ghost ops: seq<Op>, ghost whole: CoreResult<GenRan>)
    returns (r: CoreResult<(Hash, seq<MerkleProof>)>)
    requires |deposits| <= |ops| && forall i :: 0 <= i < |deposits| ==> ops[i] == DepositOp(deposits[i])
    requires GenPrefix(h, o, ops, whole, preRoot, [], 0)
    ensures match r
      case Err(e) => whole == Err(e)
      case Ok((root, ps)) => |ps| == |deposits| && GenPrefix(h, o, ops, whole, root, Singles(ps), |deposits|)
  {
    var currentRoot, proofs: seq<MerkleProof> := preRoot, [];
    assert Singles([]) == [];
    for i := 0 to |deposits|
      invariant |proofs| == i
      invariant GenPrefix(h, o, ops, whole, currentRoot, Singles(proofs), i)
    {
      GenPrefixNext(h, o, ops, whole, currentRoot, Singles(proofs), i);
      var proof := BuildStfProof(o, currentRoot, deposits[i].to);
      if proof.Err? { return Err(proof.error); }
      var updated := ApplyDeposit(proof.value.account, deposits[i]);
      if updated.Ok? { currentRoot := ComputeNewRoot(h, proof.value, AccountHash(h, updated.value)); }
      assert Singles(proofs + [proof.value]) == Singles(proofs) + [ProofPair(Some(proof.value), None)];
      proofs := proofs + [proof.value];
    }
    return Ok((currentRoot, proofs));
  }

  /** The state of one of the two transaction loops. */
  datatype TransferProofs = TransferProofs(root: Hash, froms: seq<MerkleProof>, tos: seq<MerkleProof>)
  {
    predicate Full(n: nat) { |froms| == |tos| == n }

    function Pairs(): seq<ProofPair>
      requires |froms| == |tos|
    {
      Zip(froms, tos)
    }
  }

  method ForcedProofs(h: Hasher, o: Oracle, forced: seq<ForcedTx>, preRoot: Hash,
    ghost ops: seq<Op>, ghost whole: CoreResult<GenRan>, ghost done: seq<ProofPair>, ghost n: nat)
    returns (r: CoreResult<TransferProofs>)
    requires n + |forced| <= |ops| && forall i :: 0 <= i < |forced| ==> ops[n + i] == ForcedOp(forced[i])
    requires GenPrefix(h, o, ops, whole, preRoot, done, n)
    ensures r.Err? ==> whole == Err(r.error)
    ensures r.Ok? ==> r.value.Full(|forced|)
    ensures r.Ok? ==> GenPrefix(h, o, ops, whole, r.value.root, done + r.value.Pairs(), n + |forced|)
  {
    hide GenPrefix, GenStep;
    var acc := TransferProofs(preRoot, [], []);
    assert done + acc.Pairs() == done;
    for i := 0 to |forced|
      invariant acc.Full(i) && GenPrefix(h, o, ops, whole, acc.root, done + acc.Pairs(), n + i)
    {
      var step := GenerateForced(h, o, acc.root, forced[i]);
      PushPair(h, o, ops, whole, done, acc, n + i, step);
      if step.Err? { return Err(step.error); }
      acc := TransferProofs(step.value.root, acc.froms + [step.value.from], acc.tos + [step.value.to]);
    }
    return Ok(acc);
  }

  method TxProofs(h: Hasher, o: Oracle, txs: seq<Transaction>, preRoot: Hash,
    ghost ops: seq<Op>, ghost whole: CoreResult<GenRan>, ghost done: seq<ProofPair>, ghost n: nat)
    returns (r: CoreResult<TransferProofs>)
    requires n + |txs| <= |ops| && forall i :: 0 <= i < |txs| ==> ops[n + i] == TxOp(txs[i])
    requires GenPrefix(h, o, ops, whole, preRoot, done, n)
    ensures r.Err? ==> whole == Err(r.error)
    ensures r.Ok? ==> r.value.Full(|txs|)
    ensures r.Ok? ==> GenPrefix(h, o, ops, whole, r.value.root, done + r.value.Pairs(), n + |txs|)
  {
    hide GenPrefix, GenStep;
    var acc := TransferProofs(preRoot, [], []);
    assert done + acc.Pairs() == done;
    for i := 0 to |txs|
      invariant acc.Full(i) && GenPrefix(h, o, ops, whole, acc.root, done + acc.Pairs(), n + i)
    {
      var step := GenerateTx(h, o, acc.root, txs[i]);
      PushPair(h, o, ops, whole, done, acc, n + i, step);
      if step.Err? { return Err(step.error); }
      acc := TransferProofs(step.value.root, acc.froms + [step.value.from], acc.tos + [step.value.to]);
    }
    return Ok(acc);
  }

  lemma PushPair(h: Hasher, o: Oracle, ops: seq<Op>, whole: CoreResult<GenRan>, done: seq<ProofPair>,
                 acc: TransferProofs, j: nat, step: CoreResult<Pushed>)
    requires j < |ops| && |acc.froms| == |acc.tos|
    requires GenPrefix(h, o, ops, whole, acc.root, done + acc.Pairs(), j)
    requires PushedStep(step) == GenStep(h, o, acc.root, ops[j])
    ensures step.Err? ==> whole == Err(step.error)
    ensures step.Ok? ==>
      var acc' := TransferProofs(step.value.root, acc.froms + [step.value.from], acc.tos + [step.value.to]);
      GenPrefix(h, o, ops, whole, acc'.root, done + acc'.Pairs(), j + 1)
  {
    GenPrefixNext(h, o, ops, whole, acc.root, done + acc.Pairs(), j);
    if step.Ok? { ZipSnoc(done, acc.froms, acc.tos, step.value.from, step.value.to); }
  }

  lemma ZipSnoc(done: seq<ProofPair>, froms: seq<MerkleProof>, tos: seq<MerkleProof>,
                from: MerkleProof, to: MerkleProof)
    requires |froms| == |tos|
    ensures done + Zip(froms + [from], tos + [to]) == done + Zip(froms, tos) + [ProofPair(Some(from), Some(to))]
  {}

  /**
   Generates the proofs of a block. On success the guest, reading the bundle, sees exactly the proofs of
   the run, none missing; and the run ended in the block's post root.
   */
  method GenerateProofsForBlock(h: Hasher, o: Oracle, block: PendingBlock) returns (r: GenOutcome)
    ensures match GenRun(h, o, block.preStateRoot, block.Ops(), 0)
      case Err(e) => r == Failed(e)
      case Ok(run) =>
        if run.root != block.postStateRoot then r == RootMismatch
        else r.Bundle? && block.Input(r.proofs).Pairs() == run.pairs
  {
    hide GenStep;
    ghost var ops, whole := GenLayout(h, o, block);
    ghost var nd, nf := |block.deposits|, |block.forced|;
    var d := DepositProofs(h, o, block.deposits, block.preStateRoot, ops, whole);
    if d.Err? { return Failed(d.error); }
    var f := ForcedProofs(h, o, block.forced, d.value.0, ops, whole, Singles(d.value.1), nd);
    if f.Err? { return Failed(f.error); }
    ghost var done := Singles(d.value.1) + f.value.Pairs();
    var t := TxProofs(h, o, block.txs, f.value.root, ops, whole, done, nd + nf);
    if t.Err? { return Failed(t.error); }
    if t.value.root != block.postStateRoot { return RootMismatch; }
    r := Bundle(ProofBundle(d.value.1, f.value.froms, f.value.tos, t.value.froms, t.value.tos));
    BundlePairs(block, r.proofs);
  }

  lemma GenLayout(h: Hasher, o: Oracle, block: PendingBlock) returns (ops: seq<Op>, whole: CoreResult<GenRan>)
    ensures |ops| == |block.deposits| + |block.forced| + |block.txs|
    ensures whole == GenRun(h, o, block.preStateRoot, block.Ops(), 0)
    ensures GenPrefix(h, o, ops, whole, block.preStateRoot, [], 0)
    ensures forall i :: 0 <= i < |block.deposits| ==> ops[i] == DepositOp(block.deposits[i])
    ensures forall i :: 0 <= i < |block.forced| ==> ops[|block.deposits| + i] == ForcedOp(block.forced[i])
    ensures forall i :: 0 <= i < |block.txs| ==> ops[|block.deposits| + |block.forced| + i] == TxOp(block.txs[i])
  {
    hide GenStep;
    ops := block.Ops();
    whole := GenRun(h, o, block.preStateRoot, ops, 0);
    if whole.Ok? { assert [] + whole.value.pairs == whole.value.pairs; }
  }

  lemma BundlePairs(block: PendingBlock, b: ProofBundle)
    requires |b.deposits| == |block.deposits|
    requires |b.forcedFrom| == |b.forcedTo| == |block.forced|
    requires |b.txsFrom| == |b.txsTo| == |block.txs|
    ensures block.Input(b).Pairs() == Singles(b.deposits) + Zip(b.forcedFrom, b.forcedTo) + Zip(b.txsFrom, b.txsTo)
  {}
}
