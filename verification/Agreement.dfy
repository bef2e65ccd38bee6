/**
 The three executions of one block: the optimistic executor, the proof generator and the guest.
 A root cannot determine a ledger for all ledgers at once, so truthfulness of the tree is asked for
 only on the finite set of ledgers a run passes through.
 */
module Agreement {
  import opened Encoding
  import opened Stf
  import opened Merkle
  import opened Ledger
  import opened Executor
  import opened Guest
  import opened Generator

  // ---- The ledger the generator works on ----

  /** The transfer the generator carries out: it does not ask whether a forced sender exists. */
  function Carried(l: Ledger, op: Op): Option<Transaction> {
    var t := TransferOf(op);
    if t.Some? && op.TxOp? && t.value.from !in l then None else t
  }

  function SettleAnyway(l: Ledger, tx: Transaction): StfResult<TransferResult> {
    Settle(AccountOrNew(l, tx.from), AccountOrNew(l, tx.to), tx)
  }

  function TransferAnyway(l: Ledger, tx: Transaction): Ledger {
    var r := SettleAnyway(l, tx);
    if r.Err? then l
    else if r.value.Failure? then l[tx.from := r.value.from]
    else l[tx.from := r.value.from][tx.to := r.value.to]
  }

  function GenLedgerStep(l: Ledger, op: Op): Ledger {
    if op.DepositOp? then LedgerDeposit(l, op.deposit)
    else
      var t := Carried(l, op);
      if t.None? then l else TransferAnyway(l, t.value)
  }

  function GenLedgerRun(l: Ledger, ops: seq<Op>, i: nat): Ledger
    requires i <= |ops|
    decreases |ops| - i
  {
    if i == |ops| then l else GenLedgerRun(GenLedgerStep(l, ops[i]), ops, i + 1)
  }

  /** The ledger between the two rewrites of a transfer. */
  function MidLedger(l: Ledger, op: Op): Ledger {
    var t := Carried(l, op);
    if t.None? then l
    else
      var r := SettleAnyway(l, t.value);
      if r.Err? then l else l[t.value.from := r.value.from]
  }

  function Trail(l: Ledger, ops: seq<Op>, i: nat): set<Ledger>
    requires i <= |ops|
    decreases |ops| - i
  {
    if i == |ops| then {l}
    else {l, MidLedger(l, ops[i])} + Trail(GenLedgerStep(l, ops[i]), ops, i + 1)
  }

  /** The executor skips a forced transaction of an unknown sender. */
  predicate ForcedSenderExists(l: Ledger, op: Op) {
    op.ForcedOp? && op.forced.from != ZERO_HASH ==> op.forced.from in l
  }

  predicate ForcedSendersExist(l: Ledger, ops: seq<Op>, i: nat)
    requires i <= |ops|
    decreases |ops| - i
  {
    i < |ops| ==> ForcedSenderExists(l, ops[i]) && ForcedSendersExist(LedgerStep(l, ops[i]), ops, i + 1)
  }

  /**
   One step of generator and executor leaves the same ledger exactly when no forced sender is missing, or
   the generator stops at it.
   */
  lemma StepLedgersAgreeIff(l: Ledger, op: Op)
    ensures GenLedgerStep(l, op) == LedgerStep(l, op) <==> ForcedSenderExists(l, op) || !Finishes(l, op)
  {
    if TransferOf(op).Some? {
      var tx := TransferOf(op).value;
      var r := SettleAnyway(l, tx);
      if tx.from in l {
        if r.Ok? && r.value.Success? { RecordIsTwoWrites(l, tx, r.value); }
      } else if op.ForcedOp? && r.Ok? {
        assert tx.from in GenLedgerStep(l, op);
      }
    }
  }

  lemma RecordIsTwoWrites(l: Ledger, tx: Transaction, r: TransferResult)
    requires r.Success?
    ensures l[tx.from := r.from][tx.to := r.to] == Record(l, tx, r)
  {}

  lemma {:induction false} LedgersAgree(l: Ledger, ops: seq<Op>, i: nat)
    requires i <= |ops| && ForcedSendersExist(l, ops, i)
    ensures GenLedgerRun(l, ops, i) == LedgerRun(l, ops, i)
    decreases |ops| - i
  {
    if i < |ops| {
      StepLedgersAgreeIff(l, ops[i]);
      LedgersAgree(LedgerStep(l, ops[i]), ops, i + 1);
    }
  }

  // ---- Where the two ledgers part, and what it takes for them to meet ----

  /** The first forced transaction whose sender the executor does not know. */
  function PartsAt(l: Ledger, ops: seq<Op>, i: nat): (j: Option<nat>)
    requires i <= |ops|
    ensures j.None? <==> ForcedSendersExist(l, ops, i)
    ensures j.Some? ==> i <= j.value < |ops| && ops[j.value].ForcedOp?
    decreases |ops| - i
  {
    if i == |ops| then None
    else if !ForcedSenderExists(l, ops[i]) then Some(i) else PartsAt(LedgerStep(l, ops[i]), ops, i + 1)
  }

  /** The executor's ledger before operation `j`. */
  function LedgerBefore(l: Ledger, ops: seq<Op>, i: nat, j: nat): Ledger
    requires i <= j <= |ops|
    decreases j - i
  {
    if i == j then l else LedgerBefore(LedgerStep(l, ops[i]), ops, i + 1, j)
  }

  /** A deposit to `k` or a successful transfer to `k`. */
  predicate Pays(l: Ledger, op: Op, k: Hash) {
    if op.DepositOp? then op.deposit.to == k
    else
      var t := TransferOf(op);
      t.Some? && t.value.to == k && Verdict(l, t.value).Some? && Verdict(l, t.value).value.Success?
  }

  /** Some operation from `i` on pays `k`, in the executor's run. */
  predicate PaidLater(l: Ledger, ops: seq<Op>, i: nat, k: Hash)
    requires i <= |ops|
    decreases |ops| - i
  {
    i < |ops| && (Pays(l, ops[i], k) || PaidLater(LedgerStep(l, ops[i]), ops, i + 1, k))
  }

  lemma OnlyPaymentsCreate(l: Ledger, op: Op, k: Hash)
    requires k !in l
    ensures k in LedgerStep(l, op) <==> Pays(l, op, k)
  {}

  lemma {:induction false} CreatedOnlyIfPaid(l: Ledger, ops: seq<Op>, i: nat, k: Hash)
    requires i <= |ops| && k !in l && k in LedgerRun(l, ops, i)
    ensures PaidLater(l, ops, i, k)
    decreases |ops| - i
  {
    hide LedgerStep, Pays;
    if i < |ops| {
      OnlyPaymentsCreate(l, ops[i], k);
      if !Pays(l, ops[i], k) { CreatedOnlyIfPaid(LedgerStep(l, ops[i]), ops, i + 1, k); }
    }
  }

  lemma {:induction false} GenKeepsAccounts(l: Ledger, ops: seq<Op>, i: nat, k: Hash)
    requires i <= |ops| && k in l
    ensures k in GenLedgerRun(l, ops, i)
    decreases |ops| - i
  {
    if i < |ops| { GenKeepsAccounts(GenLedgerStep(l, ops[i]), ops, i + 1, k); }
  }

  /**
   The two ledgers are equal up to the first forced transaction of an unknown sender and differ after it.
   They end equal only if a later operation of the executor pays that sender, as only then the executor
   has that account at all.
   */
  lemma {:induction false} LedgersPart(l: Ledger, ops: seq<Op>, i: nat)
    requires i <= |ops| && FinishesAll(l, ops, i) && PartsAt(l, ops, i).Some?
    ensures var j := PartsAt(l, ops, i).value;
      var m, k := LedgerBefore(l, ops, i, j), ops[j].forced.from;
      && GenLedgerRun(l, ops, i) == GenLedgerRun(m, ops, j) && LedgerRun(l, ops, i) == LedgerRun(m, ops, j)
      && k !in m && k in GenLedgerStep(m, ops[j]) && LedgerStep(m, ops[j]) == m
      && (GenLedgerRun(l, ops, i) == LedgerRun(l, ops, i) ==> PaidLater(m, ops, j + 1, k))
    decreases |ops| - i
  {
    hide LedgerStep, GenLedgerStep, Pays, Finishes;
    StepLedgersAgreeIff(l, ops[i]);
    if PartsAt(l, ops, i) == Some(i) {
      UnknownSenderStep(l, ops[i]);
      var k := ops[i].forced.from;
      GenKeepsAccounts(GenLedgerStep(l, ops[i]), ops, i + 1, k);
      if k in LedgerRun(l, ops, i + 1) { CreatedOnlyIfPaid(l, ops, i + 1, k); }
    } else {
      LedgersPart(LedgerStep(l, ops[i]), ops, i + 1);
    }
  }

  lemma UnknownSenderStep(l: Ledger, op: Op)
    requires !ForcedSenderExists(l, op) && Finishes(l, op)
    ensures op.forced.from in GenLedgerStep(l, op) && LedgerStep(l, op) == l
  {}

  // ---- Generator against its ledger ----

  type RootOf = Ledger -> Hash

  /** The proof for `k` at the root of `l` turns a rewritten leaf into the root of the rewritten ledger. */
  ghost predicate RewritesTo(h: Hasher, o: Oracle, rootOf: RootOf, l: Ledger, k: Hash, a: Account) {
    var p := BuildProof(o, rootOf(l), k);
    p.Ok? ==> Fold(h, AccountHash(h, a), p.value.siblings) == rootOf(l[k := a])
  }

  ghost predicate AnswersFor(o: Oracle, root: Hash, l: Ledger) {
    forall k :: GetAccount(o, root, k) == if k in l then Found(l[k]) else NotFound
  }

  /** On the known ledgers the tree tells accounts truthfully and its proofs rewrite roots correctly. */
  ghost predicate RootTruth(h: Hasher, o: Oracle, rootOf: RootOf, known: set<Ledger>) {
    && (forall l :: l in known ==> AnswersFor(o, rootOf(l), l))
    && (forall l, k, a :: l in known && l[k := a] in known ==> RewritesTo(h, o, rootOf, l, k, a))
  }

  /** On the known ledgers no lookup fails. */
  ghost predicate Readable(o: Oracle, rootOf: RootOf, known: set<Ledger>) {
    forall l, k :: l in known ==>
      !GetAccount(o, rootOf(l), k).Unreadable? && !GetProof(o, rootOf(l), k).ProofUnreadable?
  }

  /** The tree may refuse to answer, but does not lie. */
  ghost predicate NeverLies(o: Oracle, root: Hash, l: Ledger) {
    forall k :: !GetAccount(o, root, k).Unreadable? ==>
      GetAccount(o, root, k) == if k in l then Found(l[k]) else NotFound
  }

  /** The same on all known ledgers, and its proofs rewrite roots correctly. */
  ghost predicate Honest(h: Hasher, o: Oracle, rootOf: RootOf, known: set<Ledger>) {
    && (forall l :: l in known ==> NeverLies(o, rootOf(l), l))
    && (forall l, k, a :: l in known && l[k := a] in known ==> RewritesTo(h, o, rootOf, l, k, a))
  }

  lemma BuildProofAccount(o: Oracle, root: Hash, l: Ledger, k: Hash)
    requires NeverLies(o, root, l)
    ensures BuildProof(o, root, k).Ok? <==>
      !GetAccount(o, root, k).Unreadable? && !GetProof(o, root, k).ProofUnreadable?
    ensures BuildProof(o, root, k).Ok? ==> BuildProof(o, root, k).value.account == AccountOrNew(l, k)
  {}

  lemma TransferSimulates(h: Hasher, o: Oracle, rootOf: RootOf, known: set<Ledger>, l: Ledger, tx: Transaction,
                          mid: Ledger)
    requires Honest(h, o, rootOf, known) && {l, mid, TransferAnyway(l, tx)} <= known
    requires SettleAnyway(l, tx).Ok? ==> mid == l[tx.from := SettleAnyway(l, tx).value.from]
    ensures GenTransfer(h, o, rootOf(l), tx).Ok? ==>
      SettleAnyway(l, tx).Ok? && GenTransfer(h, o, rootOf(l), tx).value.root == rootOf(TransferAnyway(l, tx))
    ensures Readable(o, rootOf, known) && SettleAnyway(l, tx).Ok? ==> GenTransfer(h, o, rootOf(l), tx).Ok?
  {
    var root := rootOf(l);
    assert NeverLies(o, root, l);
    BuildProofAccount(o, root, l, tx.from);
    BuildProofAccount(o, root, l, tx.to);
    if SettleAnyway(l, tx).Ok? {
      var r := SettleAnyway(l, tx).value;
      assert RewritesTo(h, o, rootOf, l, tx.from, r.from);
      if r.Success? {
        assert NeverLies(o, rootOf(mid), mid);
        BuildProofAccount(o, rootOf(mid), mid, tx.to);
        assert RewritesTo(h, o, rootOf, mid, tx.to, r.to);
      }
    }
  }

  /** The generator gets past an operation unless a transfer it carries out has an error. */
  predicate Finishes(l: Ledger, op: Op) {
    Carried(l, op).Some? ==> SettleAnyway(l, Carried(l, op).value).Ok?
  }

  predicate FinishesAll(l: Ledger, ops: seq<Op>, i: nat)
    requires i <= |ops|
    decreases |ops| - i
  {
    i < |ops| ==> Finishes(l, ops[i]) && FinishesAll(GenLedgerStep(l, ops[i]), ops, i + 1)
  }

  /** One step on a tree that does not lie, where the sender of an ordinary transaction can be looked up. */
  lemma HonestStep(h: Hasher, o: Oracle, rootOf: RootOf, known: set<Ledger>, l: Ledger, op: Op)
    requires Honest(h, o, rootOf, known) && {l, MidLedger(l, op), GenLedgerStep(l, op)} <= known
    requires op.TxOp? ==> !GetAccount(o, rootOf(l), op.tx.from).Unreadable?
    ensures GenStep(h, o, rootOf(l), op).Ok? ==>
      Finishes(l, op) && GenStep(h, o, rootOf(l), op).value.root == rootOf(GenLedgerStep(l, op))
    ensures Readable(o, rootOf, known) && Finishes(l, op) ==> GenStep(h, o, rootOf(l), op).Ok?
  {
    hide GenTransfer, TransferAnyway, SettleAnyway;
    assert NeverLies(o, rootOf(l), l);
    if op.DepositOp? {
      var d := op.deposit;
      BuildProofAccount(o, rootOf(l), l, d.to);
      var r := Credit(AccountOrNew(l, d.to), d.amount);
      if r.Ok? { assert RewritesTo(h, o, rootOf, l, d.to, r.value); }
    } else if TransferOf(op).Some? && Carried(l, op).Some? {
      TransferSimulates(h, o, rootOf, known, l, TransferOf(op).value, MidLedger(l, op));
    }
  }

  lemma StepSimulates(h: Hasher, o: Oracle, rootOf: RootOf, known: set<Ledger>, l: Ledger, op: Op)
    requires RootTruth(h, o, rootOf, known) && {l, MidLedger(l, op), GenLedgerStep(l, op)} <= known
    ensures GenStep(h, o, rootOf(l), op).Ok? ==>
      Finishes(l, op) && GenStep(h, o, rootOf(l), op).value.root == rootOf(GenLedgerStep(l, op))
    ensures Readable(o, rootOf, known) && Finishes(l, op) ==> GenStep(h, o, rootOf(l), op).Ok?
  {
    hide GenStep, Finishes, GenLedgerStep, MidLedger, RewritesTo;
    assert AnswersFor(o, rootOf(l), l);
    forall m | m in known ensures NeverLies(o, rootOf(m), m) { assert AnswersFor(o, rootOf(m), m); }
    HonestStep(h, o, rootOf, known, l, op);
  }

  lemma StepInTrail(l: Ledger, ops: seq<Op>, i: nat)
    requires i < |ops|
    ensures {l, MidLedger(l, ops[i]), GenLedgerStep(l, ops[i])} <= Trail(l, ops, i)
    ensures Trail(GenLedgerStep(l, ops[i]), ops, i + 1) <= Trail(l, ops, i)
  {
    assert GenLedgerStep(l, ops[i]) in Trail(GenLedgerStep(l, ops[i]), ops, i + 1);
  }

  /**
   Whenever the generator's loops finish, they end in the root of its ledger. They finish, on a readable
   tree, exactly when no transfer they carry out has a wrong nonce or an overflow.
   */
  lemma {:induction false} GeneratorSimulates(h: Hasher, o: Oracle, rootOf: RootOf, known: set<Ledger>,
                                              l: Ledger, ops: seq<Op>, i: nat)
    requires i <= |ops| && RootTruth(h, o, rootOf, known) && Trail(l, ops, i) <= known
    ensures var run := GenRun(h, o, rootOf(l), ops, i);
      && (run.Ok? ==> FinishesAll(l, ops, i) && run.value.root == rootOf(GenLedgerRun(l, ops, i)))
      && (Readable(o, rootOf, known) && FinishesAll(l, ops, i) ==> run.Ok?)
    decreases |ops| - i
  {
    hide GenStep, GenLedgerStep, Finishes, RootTruth, Readable, MidLedger;
    if i < |ops| {
      StepInTrail(l, ops, i);
      StepSimulates(h, o, rootOf, known, l, ops[i]);
      GeneratorSimulates(h, o, rootOf, known, GenLedgerStep(l, ops[i]), ops, i + 1);
    }
  }

  /**
   Executor against generator, exactly: on a tree that tells the known ledgers apart, a finished run ends in
   the root of the executor's ledger if and only if both ledgers end equal. They do when every forced sender
   exists in its turn; otherwise they part at the first one that does not, and do not meet again unless the
   executor pays it later.
   */
  lemma GeneratorAgreesIff(h: Hasher, o: Oracle, rootOf: RootOf, known: set<Ledger>, l: Ledger, ops: seq<Op>)
    requires RootTruth(h, o, rootOf, known)
    requires Trail(l, ops, 0) + {LedgerRun(l, ops, 0)} <= known
    requires forall m, n :: m in known && n in known && rootOf(m) == rootOf(n) ==> m == n
    requires GenRun(h, o, rootOf(l), ops, 0).Ok?
    ensures GenRun(h, o, rootOf(l), ops, 0).value.root == rootOf(LedgerRun(l, ops, 0))
       <==> GenLedgerRun(l, ops, 0) == LedgerRun(l, ops, 0)
    ensures match PartsAt(l, ops, 0)
      case None => GenLedgerRun(l, ops, 0) == LedgerRun(l, ops, 0)
      case Some(j) => GenLedgerRun(l, ops, 0) == LedgerRun(l, ops, 0) ==>
        PaidLater(LedgerBefore(l, ops, 0, j), ops, j + 1, ops[j].forced.from)
  {
    hide GenRun, GenLedgerRun, LedgerRun, Trail, ForcedSendersExist, FinishesAll, LedgerBefore, PaidLater;
    GeneratorSimulates(h, o, rootOf, known, l, ops, 0);
    RunInTrail(l, ops, 0);
    if ForcedSendersExist(l, ops, 0) { LedgersAgree(l, ops, 0); } else { LedgersPart(l, ops, 0); }
  }

  lemma {:induction false} RunInTrail(l: Ledger, ops: seq<Op>, i: nat)
    requires i <= |ops|
    ensures GenLedgerRun(l, ops, i) in Trail(l, ops, i)
    decreases |ops| - i
  {
    if i < |ops| { RunInTrail(GenLedgerStep(l, ops[i]), ops, i + 1); }
  }

  // ---- Accounts missing from the tree ----

  function EmptyProof(k: Hash): MerkleProof { MerkleProof(NewAccount(k), []) }

  predicate Missing(o: Oracle, root: Hash, k: Hash) {
    GetAccount(o, root, k) == NotFound && GetProof(o, root, k) == NoProof
  }

  /**
   At every root, zero or not, a missing account is proved as a new one without siblings. That proof
   verifies exactly at the root that is the new account's own digest, and it rewrites any root to the digest
   of the rewritten account alone.
   */
  lemma MissingProof(h: Hasher, o: Oracle, root: Hash, k: Hash)
    requires Missing(o, root, k)
    ensures BuildProof(o, root, k) == Ok(EmptyProof(k))
    ensures Verifies(h, EmptyProof(k), root) <==> AccountHash(h, NewAccount(k)) == root
    ensures forall rootOf: RootOf, l: Ledger, a: Account :: rootOf(l) == root ==>
      (RewritesTo(h, o, rootOf, l, k, a) <==> rootOf(l[k := a]) == AccountHash(h, a))
  {}

  // ---- Generator and guest ----

  /** Whether the generator asks for the proofs of this operation at all. */
  predicate IsReal(o: Oracle, root: Hash, op: Op) {
    match op
    case DepositOp(_) => true
    case ForcedOp(f) => f.from != ZERO_HASH
    case TxOp(tx) => GetAccount(o, root, tx.from).Found?
  }

  /** The root after the sender's rewrite of a generated transfer. */
  function GenMid(h: Hasher, o: Oracle, root: Hash, tx: Transaction): Hash {
    var pf, pt := BuildProof(o, root, tx.from), BuildProof(o, root, tx.to);
    if pf.Err? || pt.Err? then root
    else
      var r := Settle(pf.value.account, pt.value.account, tx);
      if r.Err? then root else Fold(h, AccountHash(h, r.value.from), pf.value.siblings)
  }

  /** As the code builds proofs: one that verifies where it was asked for, or the empty one of a missing account. */
  ghost predicate Sourced(h: Hasher, o: Oracle) {
    forall r, k :: BuildProof(o, r, k).Ok? ==>
      Verifies(h, BuildProof(o, r, k).value, r) || BuildProof(o, r, k).value == EmptyProof(k)
  }

  /** A generated transfer that succeeds. */
  predicate Succeeds(o: Oracle, root: Hash, tx: Transaction) {
    var pf, pt := BuildProof(o, root, tx.from), BuildProof(o, root, tx.to);
    pf.Ok? && pt.Ok? && var r := Settle(pf.value.account, pt.value.account, tx); r.Ok? && r.value.Success?
  }

  /** A generated transfer whose success would credit an account that is not new. */
  predicate StaleRecipient(o: Oracle, root: Hash, tx: Transaction) {
    Succeeds(o, root, tx) && BuildProof(o, root, tx.to).value.account != NewAccount(tx.to)
  }

  predicate ProofHolds(h: Hasher, o: Oracle, root: Hash, k: Hash) {
    BuildProof(o, root, k).Ok? ==> Verifies(h, BuildProof(o, root, k).value, root)
  }

  /**
   The guest takes this operation as the generator did: its proofs verify, a deposit does not overflow, a
   sender is found, a credited recipient is new.
   */
  predicate CleanStep(h: Hasher, o: Oracle, root: Hash, op: Op) {
    match op
    case DepositOp(d) =>
      ProofHolds(h, o, root, d.to)
      && (BuildProof(o, root, d.to).Ok? ==> Credit(BuildProof(o, root, d.to).value.account, d.amount).Ok?)
    case _ => TransferOf(op).Some? ==> IsReal(o, root, op) && CleanTransfer(h, o, root, TransferOf(op).value)
  }

  predicate CleanTransfer(h: Hasher, o: Oracle, root: Hash, tx: Transaction) {
    && ProofHolds(h, o, root, tx.from)
    && !StaleRecipient(o, root, tx)
    && (Succeeds(o, root, tx) ==> ProofHolds(h, o, GenMid(h, o, root, tx), tx.to))
  }

  predicate CleanRun(h: Hasher, o: Oracle, root: Hash, ops: seq<Op>, i: nat)
    requires i <= |ops|
    decreases |ops| - i
  {
    i < |ops| ==>
      CleanStep(h, o, root, ops[i]) &&
      var s := GenStep(h, o, root, ops[i]); s.Ok? ==> CleanRun(h, o, s.value.root, ops, i + 1)
  }

  lemma CleanTransferAccepted(h: Hasher, o: Oracle, root: Hash, tx: Transaction)
    requires GenTransfer(h, o, root, tx).Ok? && CleanTransfer(h, o, root, tx)
    ensures var s := GenTransfer(h, o, root, tx).value; GuestTransfer(h, root, tx, s.pair) == Done(s.root)
  {
    hide Fold, GetAccount, GetProof;
  }

  lemma CleanStepAccepted(h: Hasher, o: Oracle, root: Hash, op: Op)
    requires GenStep(h, o, root, op).Ok? && CleanStep(h, o, root, op)
    ensures var s := GenStep(h, o, root, op).value; GuestStep(h, root, op, s.pair) == Done(s.root)
  {
    hide GenTransfer, GuestTransfer, CleanTransfer, Fold;
    if TransferOf(op).Some? { CleanTransferAccepted(h, o, root, TransferOf(op).value); }
  }

  /** The strings hashed when the generator and the guest write a recipient differently. */
  function StepFolds(h: Hasher, o: Oracle, root: Hash, tx: Transaction): set<Bytes> {
    var pt' := BuildProof(o, GenMid(h, o, root, tx), tx.to);
    if !StaleRecipient(o, root, tx) || pt'.Err? then {}
    else
      var pf, pt := BuildProof(o, root, tx.from).value, BuildProof(o, root, tx.to).value;
      FoldPreimages(h, Settle(pf.account, pt.account, tx).value.to, pt'.value.siblings) +
      FoldPreimages(h, Settle(pf.account, NewAccount(tx.to), tx).value.to, pt'.value.siblings)
  }

  function RunFolds(h: Hasher, o: Oracle, root: Hash, ops: seq<Op>, i: nat): set<Bytes>
    requires i <= |ops|
    decreases |ops| - i
  {
    if i == |ops| then {}
    else
      var t, s := TransferOf(ops[i]), GenStep(h, o, root, ops[i]);
      (if t.None? then {} else StepFolds(h, o, root, t.value)) +
      (if s.Err? then {} else RunFolds(h, o, s.value.root, ops, i + 1))
  }

  /** The digest of the new account that an operation's first proof may show is the guest's own root. */
  predicate FreshHit(h: Hasher, op: Op, root: Hash) {
    FirstKey(op).Some? && AccountHash(h, NewAccount(FirstKey(op).value)) == root
  }

  /** That happens at some operation the guest reaches. */
  predicate FreshHits(h: Hasher, root: Hash, ops: seq<Op>, pairs: seq<ProofPair>, i: nat)
    requires i <= |ops| == |pairs|
    decreases |ops| - i
  {
    i < |ops| &&
      (FreshHit(h, ops[i], root) ||
       var s := GuestStep(h, root, ops[i], pairs[i]); s.Done? && FreshHits(h, s.value, ops, pairs, i + 1))
  }

  /** Away from the generator's root the guest rejects the next proof, or has nothing to check. */
  lemma DivergedStep(h: Hasher, o: Oracle, g: Hash, root: Hash, op: Op)
    requires g != root && GenStep(h, o, root, op).Ok? && Sourced(h, o) && !FreshHit(h, op, g)
    ensures var s := GenStep(h, o, root, op).value; var r := GuestStep(h, g, op, s.pair);
      r.Rejected? || (r == Done(g) && s.root == root)
  {
    if FirstKey(op).Some? {
      var p := GenStep(h, o, root, op).value.pair.first.value;
      assert p == EmptyProof(FirstKey(op).value) || Verifies(h, p, root);
    }
  }

  /** Once the guest stands at another root, no generated proof brings it back. */
  lemma {:induction false} DivergedStaysAway(h: Hasher, o: Oracle, g: Hash, root: Hash, ops: seq<Op>,
                                             pairs: seq<ProofPair>, i: nat)
    requires i <= |ops| == |pairs| && g != root && Sourced(h, o)
    requires GenRun(h, o, root, ops, i).Ok? && pairs[i..] == GenRun(h, o, root, ops, i).value.pairs
    ensures GuestRun(h, g, ops, pairs, i) != Done(GenRun(h, o, root, ops, i).value.root)
      || FreshHits(h, g, ops, pairs, i)
    decreases |ops| - i
  {
    hide GenStep, GuestStep, Sourced, FreshHit;
    if i < |ops| && !FreshHit(h, ops[i], g) {
      var s := GenStep(h, o, root, ops[i]).value;
      assert pairs[i] == pairs[i..][0] && pairs[i + 1..] == pairs[i..][1..];
      DivergedStep(h, o, g, root, ops[i]);
      if GuestStep(h, g, ops[i], s.pair).Done? { DivergedStaysAway(h, o, g, root, ops, pairs, i + 1); }
    }
  }

  /** Crediting a new account instead of the one in the tree leads to another root, or to a collision. */
  lemma StaleTransferDiverges(h: Hasher, o: Oracle, root: Hash, tx: Transaction)
    requires GenTransfer(h, o, root, tx).Ok? && StaleRecipient(o, root, tx)
    requires ProofHolds(h, o, root, tx.from) && ProofHolds(h, o, GenMid(h, o, root, tx), tx.to)
    ensures var s := GenTransfer(h, o, root, tx).value;
      var g := GuestTransfer(h, root, tx, s.pair);
      CollisionIn(h, StepFolds(h, o, root, tx)) || (g.Done? && g.value != s.root)
  {
    var pf, pt := BuildProof(o, root, tx.from).value, BuildProof(o, root, tx.to).value;
    var pt' := BuildProof(o, GenMid(h, o, root, tx), tx.to).value;
    var b, b' := Settle(pf.account, pt.account, tx).value.to, Settle(pf.account, NewAccount(tx.to), tx).value.to;
    assert b != b';
    if Fold(h, AccountHash(h, b), pt'.siblings) == Fold(h, AccountHash(h, b'), pt'.siblings) {
      FoldInjective(h, b, b', pt'.siblings);
    }
  }

  /** At the first operation that is not clean the guest rejects, or leaves for another root. */
  lemma UncleanStep(h: Hasher, o: Oracle, root: Hash, op: Op)
    requires GenStep(h, o, root, op).Ok? && !CleanStep(h, o, root, op)
    ensures var s := GenStep(h, o, root, op).value; var g := GuestStep(h, root, op, s.pair);
      || g.Rejected?
      || (g.Done? && g.value != s.root)
      || FreshHit(h, op, root)
      || (TransferOf(op).Some? && CollisionIn(h, StepFolds(h, o, root, TransferOf(op).value)))
  {
    hide StepFolds, FoldPreimages, Fold, Settle;
    if TransferOf(op).Some? && IsReal(o, root, op) {
      var tx := TransferOf(op).value;
      var mid := GenMid(h, o, root, tx);
      if ProofHolds(h, o, root, tx.from) && StaleRecipient(o, root, tx) && ProofHolds(h, o, mid, tx.to) {
        StaleTransferDiverges(h, o, root, tx);
      } else {
        UnverifiedTransfer(h, o, root, tx);
      }
    } else if TransferOf(op).Some? {
      EmptyVerifiesIff(h, TransferOf(op).value.from, root);
    }
  }

  lemma EmptyVerifiesIff(h: Hasher, k: Hash, root: Hash)
    ensures Verifies(h, EmptyProof(k), root) <==> AccountHash(h, NewAccount(k)) == root
  {}

  lemma UnverifiedTransfer(h: Hasher, o: Oracle, root: Hash, tx: Transaction)
    requires GenTransfer(h, o, root, tx).Ok?
    requires !ProofHolds(h, o, root, tx.from)
      || (Succeeds(o, root, tx) && !ProofHolds(h, o, GenMid(h, o, root, tx), tx.to))
    ensures var s := GenTransfer(h, o, root, tx).value;
      GuestTransfer(h, root, tx, s.pair) == Rejected(MerkleProofVerificationFailed)
  {
    hide Fold, GetAccount, GetProof;
  }

  /**
   Generator to guest, exactly. With proofs built as the code builds them, the guest returns the generator's
   root if and only if at every operation the proofs verified, no deposit overflowed, the sender was found
   and a credited recipient was new. The two exceptions are explicit: a collision among the strings hashed
   for a recipient written in two ways, and a root of the guest that is the digest of a new account.
   */
  lemma {:induction false} GuestAcceptsIff(h: Hasher, o: Oracle, root: Hash, ops: seq<Op>,
                                           pairs: seq<ProofPair>, i: nat)
    requires i <= |ops| == |pairs|
    requires GenRun(h, o, root, ops, i).Ok? && pairs[i..] == GenRun(h, o, root, ops, i).value.pairs
    ensures CleanRun(h, o, root, ops, i) ==>
      GuestRun(h, root, ops, pairs, i) == Done(GenRun(h, o, root, ops, i).value.root)
    ensures Sourced(h, o) && !CleanRun(h, o, root, ops, i) ==>
      || GuestRun(h, root, ops, pairs, i) != Done(GenRun(h, o, root, ops, i).value.root)
      || CollisionIn(h, RunFolds(h, o, root, ops, i))
      || FreshHits(h, root, ops, pairs, i)
    decreases |ops| - i
  {
    hide GenStep, GuestStep, CleanStep, Sourced, StepFolds, FreshHit;
    if i < |ops| {
      var s := GenStep(h, o, root, ops[i]).value;
      var folds := RunFolds(h, o, root, ops, i);
      assert pairs[i] == pairs[i..][0] && pairs[i + 1..] == pairs[i..][1..];
      if CleanStep(h, o, root, ops[i]) {
        CleanStepAccepted(h, o, root, ops[i]);
        GuestAcceptsIff(h, o, s.root, ops, pairs, i + 1);
        if CollisionIn(h, RunFolds(h, o, s.root, ops, i + 1)) {
          CollisionMonotone(h, RunFolds(h, o, s.root, ops, i + 1), folds);
        }
      } else {
        UncleanStep(h, o, root, ops[i]);
        var t, g := TransferOf(ops[i]), GuestStep(h, root, ops[i], s.pair);
        if t.Some? && CollisionIn(h, StepFolds(h, o, root, t.value)) {
          CollisionMonotone(h, StepFolds(h, o, root, t.value), folds);
        } else if Sourced(h, o) && g.Done? && g.value != s.root {
          DivergedStaysAway(h, o, g.value, s.root, ops, pairs, i + 1);
        }
      }
    }
  }

  // ---- The first missing account of a block ----

  /** Operations `i` up to `j` are clean. */
  predicate CleanUntil(h: Hasher, o: Oracle, root: Hash, ops: seq<Op>, i: nat, j: nat)
    requires i <= j <= |ops|
    decreases j - i
  {
    i < j ==>
      CleanStep(h, o, root, ops[i]) &&
      var s := GenStep(h, o, root, ops[i]); s.Ok? ==> CleanUntil(h, o, s.value.root, ops, i + 1, j)
  }

  /** The generator's root before operation `j`. */
  function RootBefore(h: Hasher, o: Oracle, root: Hash, ops: seq<Op>, i: nat, j: nat): Hash
    requires i <= j <= |ops|
    decreases j - i
  {
    if i == j then root
    else
      var s := GenStep(h, o, root, ops[i]);
      if s.Err? then root else RootBefore(h, o, s.value.root, ops, i + 1, j)
  }

  /**
   The guest reaches the first operation of a block that names a missing account at the generator's root. If
   the digest of that account as new is not that root, it rejects the block there; a deposit gets past
   exactly when it is, and then guest and generator go on at the same root.
   */
  lemma {:induction false} MissingAccountRejected(h: Hasher, o: Oracle, root: Hash, ops: seq<Op>,
                                                  pairs: seq<ProofPair>, i: nat, j: nat)
    requires i <= j < |ops| == |pairs|
    requires GenRun(h, o, root, ops, i).Ok? && pairs[i..] == GenRun(h, o, root, ops, i).value.pairs
    requires CleanUntil(h, o, root, ops, i, j) && FirstKey(ops[j]).Some?
    requires Missing(o, RootBefore(h, o, root, ops, i, j), FirstKey(ops[j]).value)
    ensures var r, k := RootBefore(h, o, root, ops, i, j), FirstKey(ops[j]).value;
      && pairs[j].first == Some(EmptyProof(k))
      && GuestRun(h, root, ops, pairs, i) == GuestRun(h, r, ops, pairs, j)
      && (AccountHash(h, NewAccount(k)) != r ==>
          GuestRun(h, root, ops, pairs, i) == Rejected(MerkleProofVerificationFailed))
      && (ops[j].DepositOp? ==>
          (AccountHash(h, NewAccount(k)) == r <==>
           GuestStep(h, r, ops[j], pairs[j]) == Done(RootBefore(h, o, root, ops, i, j + 1))))
    decreases j - i
  {
    hide CleanStep, GenStep, GuestStep;
    var s := GenStep(h, o, root, ops[i]).value;
    assert pairs[i] == pairs[i..][0] && pairs[i + 1..] == pairs[i..][1..];
    if i < j {
      CleanStepAccepted(h, o, root, ops[i]);
      MissingAccountRejected(h, o, s.root, ops, pairs, i + 1, j);
    } else {
      MissingFirstProof(h, o, root, ops[i]);
    }
  }

  lemma MissingFirstProof(h: Hasher, o: Oracle, root: Hash, op: Op)
    requires FirstKey(op).Some? && Missing(o, root, FirstKey(op).value) && GenStep(h, o, root, op).Ok?
    ensures var s, k := GenStep(h, o, root, op).value, FirstKey(op).value;
      && s.pair.first == Some(EmptyProof(k))
      && (AccountHash(h, NewAccount(k)) != root ==>
          GuestStep(h, root, op, s.pair) == Rejected(MerkleProofVerificationFailed))
      && (op.DepositOp? ==>
          (AccountHash(h, NewAccount(k)) == root <==> GuestStep(h, root, op, s.pair) == Done(s.root)))
  {
    MissingProof(h, o, root, FirstKey(op).value);
  }

  /**
   In particular from the all-zero root of a fresh deployment: whatever skipped forced transactions come
   first, the block is rejected at the first real operation unless the digest of its account as new is all zero;
   a deposit gets past exactly then.
   */
  lemma ZeroRootRejected(h: Hasher, o: Oracle, ops: seq<Op>, pairs: seq<ProofPair>, j: nat)
    requires j < |ops| == |pairs| && FirstKey(ops[j]).Some?
    requires forall n :: 0 <= n < j ==> FirstKey(ops[n]).None?
    requires GenRun(h, o, ZERO_HASH, ops, 0).Ok? && pairs == GenRun(h, o, ZERO_HASH, ops, 0).value.pairs
    ensures var k := FirstKey(ops[j]).value;
      && pairs[j].first == Some(EmptyProof(k))
      && (AccountHash(h, NewAccount(k)) != ZERO_HASH ==>
          GuestRun(h, ZERO_HASH, ops, pairs, 0) == Rejected(MerkleProofVerificationFailed))
      && (ops[j].DepositOp? ==>
          (AccountHash(h, NewAccount(k)) == ZERO_HASH <==>
           GuestStep(h, ZERO_HASH, ops[j], pairs[j]) == Done(RootBefore(h, o, ZERO_HASH, ops, 0, j + 1))))
  {
    SkippedKeepsRoot(h, o, ZERO_HASH, ops, 0, j);
    MissingAccountRejected(h, o, ZERO_HASH, ops, pairs, 0, j);
  }

  lemma {:induction false} SkippedKeepsRoot(h: Hasher, o: Oracle, root: Hash, ops: seq<Op>, i: nat, j: nat)
    requires i <= j <= |ops| && forall n :: i <= n < j ==> FirstKey(ops[n]).None?
    ensures RootBefore(h, o, root, ops, i, j) == root && CleanUntil(h, o, root, ops, i, j)
    decreases j - i
  {
    if i < j { SkippedKeepsRoot(h, o, root, ops, i + 1, j); }
  }
}
