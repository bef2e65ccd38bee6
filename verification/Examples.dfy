/** Concrete inputs for the laws the code does not keep. */
module Examples {
  import opened Encoding
  import opened Stf
  import opened Merkle
  import opened Ledger
  import opened Executor
  import opened Guest
  import opened Generator
  import opened Agreement
  import opened SharedTree
  import opened FullTree
  import Fetch
  import Sequencer

  const A: Hash := [1] + seq(31, _ => 0)
  const B: Hash := [2] + seq(31, _ => 0)

  lemma DifferentIds()
    ensures A != B && A != ZERO_HASH && B != ZERO_HASH
  {
    assert A[0] == 1 && B[0] == 2 && ZERO_HASH[0] == 0;
  }

  /** A deposit that overflows: the executor skips it, the guest rejects the block. */
  lemma OverflowingDeposit(h: Hasher)
    ensures
      var rich := Account(A, U64_SIZE - 1, 0);
      var ops, pairs := [DepositOp(Deposit(A, 1, 0))], [ProofPair(Some(MerkleProof(rich, [])), None)];
      && LedgerRun(map[A := rich], ops, 0) == map[A := rich]
      && GuestRun(h, Root(h, Leaf(rich)), ops, pairs, 0) == Rejected(BalanceOverflow)
  {
    var rich := Account(A, U64_SIZE - 1, 0);
    var l: Ledger := map[A := rich];
    var ops := [DepositOp(Deposit(A, 1, 0))];
    assert LedgerStep(l, ops[0]) == l;
    assert LedgerRun(l, ops, 1) == l;
  }

  /** A transfer to an existing account: the executor leaves 8 there, the guest 3. */
  lemma ExistingRecipient(h: Hasher)
    ensures
      var l: Ledger := map[A := Account(A, 10, 0), B := Account(B, 5, 7)];
      var shape, tx := Node(Leaf(NewAccount(A)), Leaf(NewAccount(B))), Transaction(A, B, 0, 0, 3);
      var t' := TreeTransfer(Populate(shape, l), tx, PathPair(PathTo(shape, A), PathTo(shape, B)));
      && B in LedgerTransfer(l, tx) && LedgerTransfer(l, tx)[B] == Account(B, 8, 7)
      && t'.Some? && LeafAt(t'.value, PathTo(shape, B)) == Some(Account(B, 3, 0))
  {
    DifferentIds();
    var l: Ledger := map[A := Account(A, 10, 0), B := Account(B, 5, 7)];
    var shape, tx := Node(Leaf(NewAccount(A)), Leaf(NewAccount(B))), Transaction(A, B, 0, 0, 3);
    NewRecipientIsExact(shape, l, tx, PathPair(PathTo(shape, A), PathTo(shape, B)));
  }

  function Forced(from: Hash, to: Hash, amount: U64): Op { ForcedOp(ForcedTx(from, to, 0, 0, amount, 0, [])) }

  /** A forced transaction of an unknown sender: skipped by the executor, applied by the generator. */
  lemma UnknownForcedSender()
    ensures var l: Ledger, ops := map[A := Account(A, 10, 0)], [Forced(B, A, 1)];
      && LedgerRun(l, ops, 0) == l
      && GenLedgerRun(l, ops, 0) == map[A := Account(A, 10, 0), B := Account(B, 0, 1)]
  {
    DifferentIds();
    var l: Ledger, ops := map[A := Account(A, 10, 0)], [Forced(B, A, 1)];
    assert LedgerStep(l, ops[0]) == l;
    assert LedgerRun(l, ops, 1) == l;
    var g := GenLedgerStep(l, ops[0]);
    assert g == map[A := Account(A, 10, 0), B := Account(B, 0, 1)];
    assert GenLedgerRun(g, ops, 1) == g;
  }

  /** Yet both ledgers can end equal: the missing account pays itself nothing and is credited afterwards. */
  lemma UnknownForcedSenderHealed()
    ensures var l: Ledger, ops := map[A := Account(A, 10, 0)], [Forced(B, B, 0), Forced(A, B, 5)];
      !ForcedSendersExist(l, ops, 0) && GenLedgerRun(l, ops, 0) == LedgerRun(l, ops, 0)
  {
    DifferentIds();
    var l: Ledger, ops := map[A := Account(A, 10, 0)], [Forced(B, B, 0), Forced(A, B, 5)];
    var end: Ledger := map[A := Account(A, 5, 1), B := Account(B, 5, 0)];
    assert LedgerStep(l, ops[0]) == l;
    assert LedgerStep(l, ops[1]) == end;
    assert LedgerRun(end, ops, 2) == end && LedgerRun(l, ops, 1) == end;
    var g := GenLedgerStep(l, ops[0]);
    assert g == map[A := Account(A, 10, 0), B := Account(B, 0, 0)];
    assert GenLedgerStep(g, ops[1]) == end;
    assert GenLedgerRun(end, ops, 2) == end && GenLedgerRun(g, ops, 1) == end;
  }

  /** A transaction of a missing sender: skipped by the executor, rejected by the guest. */
  lemma MissingSender(h: Hasher)
    requires AccountHash(h, NewAccount(B)) != AccountHash(h, Account(A, 10, 0))
    ensures
      var l: Ledger, ops := map[A := Account(A, 10, 0)], [TxOp(Transaction(B, A, 0, 0, 1))];
      && LedgerRun(l, ops, 0) == l
      && GuestRun(h, Root(h, Leaf(l[A])), ops, [Dummy(B, A)], 0) == Rejected(MerkleProofVerificationFailed)
  {
    DifferentIds();
    var l: Ledger, ops := map[A := Account(A, 10, 0)], [TxOp(Transaction(B, A, 0, 0, 1))];
    assert LedgerStep(l, ops[0]) == l;
    assert LedgerRun(l, ops, 1) == l;
  }

  /** A deposit to a new user: the executor makes an account of 7, the guest rejects the generated proof. */
  lemma DepositToNewUser(h: Hasher, o: Oracle)
    requires AccountHash(h, NewAccount(B)) != AccountHash(h, Account(A, 10, 0))
    requires Missing(o, AccountHash(h, Account(A, 10, 0)), B)
    ensures
      var l: Ledger, ops := map[A := Account(A, 10, 0)], [DepositOp(Deposit(B, 7, 0))];
      var root := AccountHash(h, l[A]);
      var run := GenRun(h, o, root, ops, 0);
      && LedgerRun(l, ops, 0) == map[A := Account(A, 10, 0), B := Account(B, 7, 0)]
      && run.Ok? && run.value.root == AccountHash(h, Account(B, 7, 0))
      && GuestRun(h, root, ops, run.value.pairs, 0) == Rejected(MerkleProofVerificationFailed)
  {
    DifferentIds();
    var l: Ledger, ops := map[A := Account(A, 10, 0)], [DepositOp(Deposit(B, 7, 0))];
    var root := AccountHash(h, l[A]);
    assert LedgerStep(l, ops[0]) == map[A := Account(A, 10, 0), B := Account(B, 7, 0)];
    assert LedgerRun(LedgerStep(l, ops[0]), ops, 1) == LedgerStep(l, ops[0]);
    MissingFirstProof(h, o, root, ops[0]);
    var s := GenStep(h, o, root, ops[0]).value;
    assert GenRun(h, o, s.root, ops, 1) == Ok(GenRan(s.root, []));
    assert [s.pair] + [] == [s.pair];
    assert GenRun(h, o, root, ops, 0) == Ok(GenRan(s.root, [s.pair]));
  }

  /** A wrong nonce: the executor skips the transaction, the generator cannot finish. */
  lemma WrongNonce()
    ensures var l: Ledger, ops := map[A := Account(A, 10, 0)], [TxOp(Transaction(A, B, 1, 0, 3))];
      LedgerRun(l, ops, 0) == l && !FinishesAll(l, ops, 0)
  {
    var l: Ledger, ops := map[A := Account(A, 10, 0)], [TxOp(Transaction(A, B, 1, 0, 3))];
    assert LedgerStep(l, ops[0]) == l;
    assert LedgerRun(l, ops, 1) == l;
  }

  /** A stored recipient is overwritten: 5 with nonce 7 are in the tree, 3 with nonce 0 after the batch. */
  lemma StoredRecipient(h: Hasher, root: Hash)
    requires root != ZERO_HASH
    ensures
      var v: Versions := map[root := map[B := AccountHash(h, Account(B, 5, 7))]];
      var ops := [DepositOp(Deposit(A, 10, 0)), TxOp(Transaction(A, B, 0, 0, 3))];
      ExecRun(ReaderOf(v, BincodeLeaf(), root), map[], ops, 0) ==
      Ok(map[A := Account(A, 7, 1), B := Account(B, 3, 0)])
  {
    hide ExecRun, ReaderOf;
    DifferentIds();
    var v: Versions := map[root := map[B := AccountHash(h, Account(B, 5, 7))]];
    var ops := [DepositOp(Deposit(A, 10, 0)), TxOp(Transaction(A, B, 0, 0, 3))];
    var l1: Ledger, l2: Ledger := map[A := Account(A, 10, 0)], map[A := Account(A, 7, 1), B := Account(B, 3, 0)];
    StoredAccountsUnreadable(v, root, map[], ops, 0);
    assert LedgerStep(map[], ops[0]) == l1 && LedgerStep(l1, ops[1]) == l2;
    assert LedgerRun(l2, ops, 2) == l2 && LedgerRun(l1, ops, 1) == l2;
    assert !SomeNeedsBlocked(v, root, l1, ops, 1);
  }

  /** Two deposits to an existing account: nothing is wrong with them, but nobody files the ledger between them. */
  lemma TwoDeposits()
    ensures
      var l: Ledger, ops := map[A := Account(A, 10, 0)], [DepositOp(Deposit(A, 1, 0)), DepositOp(Deposit(A, 1, 1))];
      && FinishesAll(l, ops, 0) && FirstCreated(l, ops, 0).None?
      && !(Trail(l, ops, 0) <= {l, LedgerRun(l, ops, 0)})
  {
    var l: Ledger, ops := map[A := Account(A, 10, 0)], [DepositOp(Deposit(A, 1, 0)), DepositOp(Deposit(A, 1, 1))];
    var l1: Ledger, l2: Ledger := map[A := Account(A, 11, 0)], map[A := Account(A, 12, 0)];
    assert LedgerStep(l, ops[0]) == l1 && LedgerStep(l1, ops[1]) == l2;
    assert LedgerRun(l2, ops, 2) == l2 && LedgerRun(l1, ops, 1) == l2;
    assert l1 in Trail(l1, ops, 1);
    assert FirstCreated(l2, ops, 2).None? && FirstCreated(l1, ops, 1).None?;
    assert l1[A].balance == 11 && l[A].balance == 10 && l2[A].balance == 12;
  }

  /** A deposit that is still unprocessed when the next block is built goes into both and is credited twice. */
  lemma DepositTwice()
    ensures var looks := [Fetch.Look(0, 1), Fetch.Look(0, 1)];
      && Fetch.Successive(looks) && Fetch.Included(looks) == [0, 0] && !Fetch.CaughtUp(looks)
    ensures var d := DepositOp(Deposit(A, 10, 0));
      LedgerRun(map[], [d, d], 0) == map[A := Account(A, 20, 0)]
  {
    var looks := [Fetch.Look(0, 1), Fetch.Look(0, 1)];
    assert looks[..1] == [Fetch.Look(0, 1)] && looks[..1][..0] == [];
    assert looks[1].processed != looks[0].count;
    var ops := [DepositOp(Deposit(A, 10, 0)), DepositOp(Deposit(A, 10, 0))];
    var l1: Ledger, l2: Ledger := map[A := Account(A, 10, 0)], map[A := Account(A, 20, 0)];
    assert LedgerStep(map[], ops[0]) == l1 && LedgerStep(l1, ops[1]) == l2;
    assert LedgerRun(l2, ops, 2) == l2 && LedgerRun(l1, ops, 1) == l2;
  }

  /** A crash after the head root was set: the next committed block does not start where the chain ended. */
  lemma CrashBreaksChain(root: Hash, lost: Hash, post: Hash, d: Deposit)
    requires lost != root
    ensures
      var lose := [Sequencer.Snapshot([d], [])] + [Sequencer.ReadHead] + [Sequencer.ApplyBatch(lost)];
      var again := lose + [Sequencer.Crash] + [Sequencer.Snapshot([d], [])] + [Sequencer.ReadHead];
      var es := again + [Sequencer.ApplyBatch(post)] + [Sequencer.MoveHead] + [Sequencer.Drain] + [Sequencer.Commit];
      var s := Sequencer.Run(root, es);
      s.Some? && s.value.committed == [PendingBlock(0, [], [d], [], lost, post)]
      && !Sequencer.LinkedBlocks(root, s.value.committed)
  {
    hide Sequencer.RunFrom, Sequencer.Next, Sequencer.Init;
    var e1 := [Sequencer.Snapshot([d], [])];
    var e2 := e1 + [Sequencer.ReadHead];
    var e3 := e2 + [Sequencer.ApplyBatch(lost)];
    var e4 := e3 + [Sequencer.Crash];
    var e5 := e4 + [Sequencer.Snapshot([d], [])];
    var e6 := e5 + [Sequencer.ReadHead];
    var e7 := e6 + [Sequencer.ApplyBatch(post)];
    var e8 := e7 + [Sequencer.MoveHead];
    var e9 := e8 + [Sequencer.Drain];
    var s0 := Sequencer.Init(root);
    LostBlock(root, lost, d);
    FirstBlock(lost, post, d);
    WalkOne(s0, e1[0]);
    Walk(s0, e1, Sequencer.ReadHead);
    Walk(s0, e2, Sequencer.ApplyBatch(lost));
    Walk(s0, e3, Sequencer.Crash);
    Walk(s0, e4, Sequencer.Snapshot([d], []));
    Walk(s0, e5, Sequencer.ReadHead);
    Walk(s0, e6, Sequencer.ApplyBatch(post));
    Walk(s0, e7, Sequencer.MoveHead);
    Walk(s0, e8, Sequencer.Drain);
    Walk(s0, e9, Sequencer.Commit);
    var committed := [PendingBlock(0, [], [d], [], lost, post)];
    assert Sequencer.Run(root, e9 + [Sequencer.Commit]).value.committed == committed;
    assert committed[0].preStateRoot != Sequencer.RootAt(root, committed, 0);
  }

  function Then(s: Option<Sequencer.Sys>, e: Sequencer.Event): Option<Sequencer.Sys> {
    if s.None? then None else Sequencer.Next(s.value, e)
  }

  /** The crash leaves a system that starts over at the lost block's root. */
  lemma LostBlock(root: Hash, lost: Hash, d: Deposit)
    ensures Then(Then(Then(Sequencer.Next(Sequencer.Init(root), Sequencer.Snapshot([d], [])), Sequencer.ReadHead),
                      Sequencer.ApplyBatch(lost)), Sequencer.Crash) == Some(Sequencer.Init(lost))
  {}

  lemma FirstBlock(root: Hash, post: Hash, d: Deposit)
    ensures
      var s3 := Then(Then(Sequencer.Next(Sequencer.Init(root), Sequencer.Snapshot([d], [])), Sequencer.ReadHead),
                     Sequencer.ApplyBatch(post));
      var s := Then(Then(Then(s3, Sequencer.MoveHead), Sequencer.Drain), Sequencer.Commit);
      s.Some? && s.value.committed == [PendingBlock(0, [], [d], [], root, post)]
  {}

  /** A restart with a block pending: the proven head is where that block ends, though it was never proved. */
  lemma RestartAhead(root: Hash, post: Hash, d: Deposit)
    ensures
      var s3 := Then(Then(Sequencer.Next(Sequencer.Init(root), Sequencer.Snapshot([d], [])), Sequencer.ReadHead),
                     Sequencer.ApplyBatch(post));
      var s6 := Then(Then(Then(s3, Sequencer.MoveHead), Sequencer.Drain), Sequencer.Commit);
      var s := Then(s6, Sequencer.Crash);
      && s.Some? && s.value.proven == post && s.value.provenNumbers == {}
      && 0 in s.value.pending && s.value.pending[0].preStateRoot == root
  {}

  lemma WalkOne(s: Sequencer.Sys, e: Sequencer.Event)
    ensures Sequencer.RunFrom(s, [e]) == Sequencer.Next(s, e)
  {
    assert [e][..0] == [];
  }

  lemma Walk(s: Sequencer.Sys, es: seq<Sequencer.Event>, e: Sequencer.Event)
    ensures Sequencer.RunFrom(s, es + [e]) == Then(Sequencer.RunFrom(s, es), e)
  {
    assert (es + [e])[..|es|] == es;
  }
}
