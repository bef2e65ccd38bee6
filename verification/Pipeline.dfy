/** A block on its whole way: built, proved, replayed by the guest, and accepted on L1. */
module Pipeline {
  import opened Encoding
  import opened Stf
  import opened Merkle
  import opened Ledger
  import opened Executor
  import opened Guest
  import opened Generator
  import opened FullTree
  import opened Commitment
  import opened Program
  import opened Bridge
  import opened Fetch

  /**
   A block that is clean on the ledger, starts at L1's root and carries the next queued items, fewer than
   2^32 of each kind, goes all the way: the generated proofs let L1 accept it, and L1's new root is the root
   of the tree holding the ledger after the block. Otherwise the trees on the way contain a collision or an
   all-zero digest.
   */
  lemma CleanBlockReachesL1(h: Hasher, k: Hasher, shape: Tree, l: Ledger, s: BridgeState, block: PendingBlock,
                            proofs: ProofBundle)
    requires Distinct(shape) && Keyed(shape, l) && LedgerClean(shape, l, block.Ops(), 0)
    requires block.preStateRoot == Root(h, Populate(shape, l)) && NextItems(s, block.Input(proofs))
    requires
      var o := HonestOracle(h, shape, CleanTrail(shape, l, block.Ops(), 0));
      var run := GenRun(h, o, block.preStateRoot, block.Ops(), 0);
      run.Ok? ==> block.Input(proofs).Pairs() == run.value.pairs
    ensures
      var g, hashed := block.Input(proofs), KnownPreimages(h, shape, CleanTrail(shape, l, block.Ops(), 0));
      || CollisionIn(h, hashed) || ZeroDigestIn(h, hashed)
      || (&& PublicValuesOf(h, k, g).Some? && Bridge.Accepts(h, k, s, PublicValuesOf(h, k, g).value, g)
          && Apply(h, k, s, UpdateStep(PublicValuesOf(h, k, g).value, g)).stateRoot ==
             Root(h, Populate(shape, LedgerRun(l, block.Ops(), 0))))
  {
    hide GenRun, GuestRun, LedgerRun, LedgerClean, CleanTrail, KnownPreimages, Bridge.Accepts, Apply, Range,
         BlockOps;
    ThreeExecutionsAgree(h, shape, l, block.Ops());
    var g := block.Input(proofs);
    if AllAgree(h, shape, CleanTrail(shape, l, block.Ops(), 0), l, block.Ops()) {
      assert Transition(h, g) == Done(Root(h, Populate(shape, LedgerRun(l, block.Ops(), 0))));
      HonestUpdateAccepted(h, k, s, g);
    }
  }

  /**
   Calldata that does not parse is consumed on L1 and does nothing on L2: the ledger, the executor's writes,
   the generator's root and the guest's root stay, whatever proofs come with it. Calldata that parses does
   what an ordinary transaction with its fields does, unless it names the zero sender or, for the generator, a
   missing one.
   */
  lemma UnparsableDoesNothing(h: Hasher, o: Oracle, root: Hash, l: Ledger, base: Reader, writes: Ledger,
                              pair: ProofPair, parse: Calldata -> Option<ForcedTx>, f: L1Forced)
    requires Narrow(f.timestamp)
    ensures var op := ForcedOp(FetchForced(parse, f));
      match parse(f.data)
      case None =>
        && LedgerStep(l, op) == l && ExecStep(base, writes, op) == Ok(writes)
        && GenStep(h, o, root, op).Ok? && GenStep(h, o, root, op).value.root == root
        && GuestStep(h, root, op, pair) == Done(root)
      case Some(tx) => tx.from != ZERO_HASH ==>
        var order := TxOp(Transaction(tx.from, tx.to, tx.nonce, tx.fee, tx.amount));
        && LedgerStep(l, op) == LedgerStep(l, order) && ExecStep(base, writes, op) == ExecStep(base, writes, order)
        && (GetAccount(o, root, tx.from).Found? ==> GenStep(h, o, root, op) == GenStep(h, o, root, order))
        && GuestStep(h, root, op, pair) == GuestStep(h, root, order, pair)
  {
    hide GenTransfer, GuestTransfer, ExecTransfer, LedgerTransfer;
    FetchedForcedRoundTrip(parse, f);
  }
}
