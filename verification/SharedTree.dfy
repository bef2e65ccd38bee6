/**
 Executor and generator on one and the same state tree, as the sequencer runs them. The executor files the
 final root of a batch and no other, while the generator asks for proofs at every root in between.
 */
module SharedTree {
  import opened Encoding
  import opened Stf
  import opened Merkle
  import opened Ledger
  import opened Executor
  import opened Generator
  import opened Agreement

  type Versions = map<Hash, Leaves>
  type Decoder = Hash -> Option<Account>
  type Paths = (Hash, Hash) -> SiblingLookup

  predicate Filed(v: Versions, root: Hash) { root == ZERO_HASH || root in v }

  /** The state tree as the generator sees it. At a root that is not filed every lookup fails. */
  function TreeOracle(v: Versions, decode: Decoder, paths: Paths): Oracle {
    Oracle((root: Hash, k: Hash) => Read(v, decode, root, k),
           (root: Hash, k: Hash) => if root in v then paths(root, k) else ProofUnreadable(DatabaseError))
  }

  // ---- Away from the filed roots ----

  lemma UnfiledLookups(v: Versions, decode: Decoder, paths: Paths, root: Hash, k: Hash)
    requires !Filed(v, root)
    ensures var o := TreeOracle(v, decode, paths);
      GetAccount(o, root, k) == Unreadable(DatabaseError) && BuildProof(o, root, k) == Err(DatabaseError)
  {}

  lemma UnfiledStep(h: Hasher, v: Versions, decode: Decoder, paths: Paths, root: Hash, op: Op)
    requires !Filed(v, root)
    ensures var s := GenStep(h, TreeOracle(v, decode, paths), root, op);
      (s.Ok? <==> FirstKey(op).None? || op.TxOp?) && (s.Ok? ==> s.value.root == root)
  {
    if FirstKey(op).Some? { UnfiledLookups(v, decode, paths, root, FirstKey(op).value); }
  }

  /**
   From a root that is not filed the generator never gets away: every deposit and every forced transfer is an
   error, and every ordinary transaction is skipped, since any failed lookup counts as a missing sender.
   */
  lemma {:induction false} UnfiledStays(h: Hasher, v: Versions, decode: Decoder, paths: Paths, root: Hash,
                                        ops: seq<Op>, i: nat)
    requires i <= |ops| && !Filed(v, root)
    ensures var run := GenRun(h, TreeOracle(v, decode, paths), root, ops, i);
      && (run.Ok? <==> forall j :: i <= j < |ops| ==> FirstKey(ops[j]).None? || ops[j].TxOp?)
      && (run.Ok? ==> run.value.root == root)
    decreases |ops| - i
  {
    hide GenStep, TreeOracle, FirstKey;
    if i < |ops| {
      UnfiledStep(h, v, decode, paths, root, ops[i]);
      UnfiledStays(h, v, decode, paths, root, ops, i + 1);
    }
  }

  /** Every root the generator asks for proofs at, and the one it ends at, is filed. */
  predicate StoodFiled(h: Hasher, v: Versions, o: Oracle, root: Hash, ops: seq<Op>, i: nat)
    requires i <= |ops|
    decreases |ops| - i
  {
    Filed(v, root) &&
    (i < |ops| ==>
      && MidFiled(h, v, o, root, ops[i])
      && var s := GenStep(h, o, root, ops[i]); s.Ok? ==> StoodFiled(h, v, o, s.value.root, ops, i + 1))
  }

  /** So is the root between the two rewrites of a successful transfer. */
  predicate MidFiled(h: Hasher, v: Versions, o: Oracle, root: Hash, op: Op) {
    TransferOf(op).Some? && IsReal(o, root, op) && Succeeds(o, root, TransferOf(op).value) ==>
      Filed(v, GenMid(h, o, root, TransferOf(op).value))
  }

  lemma StepMidFiled(h: Hasher, v: Versions, decode: Decoder, paths: Paths, root: Hash, op: Op)
    requires GenStep(h, TreeOracle(v, decode, paths), root, op).Ok?
    ensures MidFiled(h, v, TreeOracle(v, decode, paths), root, op)
  {
    hide TreeOracle, Fold;
    if TransferOf(op).Some? {
      var mid := GenMid(h, TreeOracle(v, decode, paths), root, TransferOf(op).value);
      if !Filed(v, mid) { UnfiledLookups(v, decode, paths, mid, TransferOf(op).value.to); }
    }
  }

  /** On every tree: a finished run ends at a filed root exactly when it stood at filed roots throughout. */
  lemma {:induction false} FiledThroughout(h: Hasher, v: Versions, decode: Decoder, paths: Paths, root: Hash,
                                           ops: seq<Op>, i: nat)
    requires i <= |ops| && GenRun(h, TreeOracle(v, decode, paths), root, ops, i).Ok?
    ensures var o := TreeOracle(v, decode, paths);
      Filed(v, GenRun(h, o, root, ops, i).value.root) <==> StoodFiled(h, v, o, root, ops, i)
    decreases |ops| - i
  {
    hide GenStep, TreeOracle, MidFiled;
    if !Filed(v, root) {
      UnfiledStays(h, v, decode, paths, root, ops, i);
    } else if i < |ops| {
      StepMidFiled(h, v, decode, paths, root, ops[i]);
      var s := GenStep(h, TreeOracle(v, decode, paths), root, ops[i]).value;
      FiledThroughout(h, v, decode, paths, s.root, ops, i + 1);
    }
  }

  // ---- Trees that hold ledgers ----

  /** The root of a ledger on a state tree. */
  function LedgerRoot(h: Hasher, rootOf: Leaves -> Hash): RootOf { (l: Ledger) => rootOf(Digests(h, l)) }

  /** Where the root of a known ledger is filed, that ledger is what the tree holds there. */
  ghost predicate Stores(h: Hasher, rootOf: Leaves -> Hash, v: Versions, decode: Decoder, known: set<Ledger>) {
    forall m :: m in known && Filed(v, LedgerRoot(h, rootOf)(m)) ==>
      HoldsLedger(h, v, decode, LedgerRoot(h, rootOf)(m), m)
  }

  /** Folding over the siblings of an account gives the root with that account rewritten. */
  ghost predicate FoldsTo(h: Hasher, rootOf: Leaves -> Hash, paths: Paths, m: Ledger, k: Hash, a: Account) {
    var p := paths(LedgerRoot(h, rootOf)(m), k);
    p.Siblings? && Fold(h, AccountHash(h, a), p.siblings) == LedgerRoot(h, rootOf)(m[k := a])
  }

  /** Accounts of a known ledger have siblings that rewrite its root; there is no path to a missing one. */
  ghost predicate PathsRight(h: Hasher, rootOf: Leaves -> Hash, paths: Paths, known: set<Ledger>) {
    && (forall m, k, a :: m in known && k in m && m[k := a] in known ==> FoldsTo(h, rootOf, paths, m, k, a))
    && (forall m, k :: m in known ==>
          var p := paths(LedgerRoot(h, rootOf)(m), k); if k in m then p.Siblings? else p == NoProof)
  }

  lemma StoresNeverLies(h: Hasher, rootOf: Leaves -> Hash, v: Versions, decode: Decoder, paths: Paths,
                        known: set<Ledger>, m: Ledger)
    requires Stores(h, rootOf, v, decode, known) && m in known
    ensures var o, root := TreeOracle(v, decode, paths), LedgerRoot(h, rootOf)(m);
      NeverLies(o, root, m) && (Filed(v, root) ==> AnswersFor(o, root, m))
  {
    var o, root := TreeOracle(v, decode, paths), LedgerRoot(h, rootOf)(m);
    if Filed(v, root) {
      HoldsIsTruthful(h, v, decode, root, m);
      var base := ReaderOf(v, decode, root);
      forall k ensures GetAccount(o, root, k) == if k in m then Found(m[k]) else NotFound {
        assert base(k) == if k in m then Found(m[k]) else NotFound;
      }
    }
  }

  lemma PathsRewrite(h: Hasher, rootOf: Leaves -> Hash, v: Versions, decode: Decoder, paths: Paths, known: set<Ledger>,
                     m: Ledger, k: Hash, a: Account)
    requires Stores(h, rootOf, v, decode, known) && PathsRight(h, rootOf, paths, known)
    requires m in known && k in m && m[k := a] in known
    ensures RewritesTo(h, TreeOracle(v, decode, paths), LedgerRoot(h, rootOf), m, k, a)
  {
    assert FoldsTo(h, rootOf, paths, m, k, a);
    assert k in Digests(h, m);
  }

  ghost predicate SameKeys(l: Ledger, known: set<Ledger>) { forall m :: m in known ==> m.Keys == l.Keys }

  /** On ledgers with the same accounts the tree is honest. */
  lemma SharedHonest(h: Hasher, rootOf: Leaves -> Hash, v: Versions, decode: Decoder, paths: Paths, known: set<Ledger>,
                     l: Ledger, some: set<Ledger>)
    requires Stores(h, rootOf, v, decode, known) && PathsRight(h, rootOf, paths, known)
    requires some <= known && SameKeys(l, some)
    ensures Honest(h, TreeOracle(v, decode, paths), LedgerRoot(h, rootOf), some)
  {
    var o := TreeOracle(v, decode, paths);
    forall m | m in some ensures NeverLies(o, LedgerRoot(h, rootOf)(m), m) {
      StoresNeverLies(h, rootOf, v, decode, paths, known, m);
    }
    forall m, k, a | m in some && m[k := a] in some ensures RewritesTo(h, o, LedgerRoot(h, rootOf), m, k, a) {
      assert k in m[k := a].Keys && k in m;
      PathsRewrite(h, rootOf, v, decode, paths, known, m, k, a);
    }
  }

  ghost predicate AllFiled(h: Hasher, rootOf: Leaves -> Hash, v: Versions, some: set<Ledger>) {
    forall m :: m in some ==> Filed(v, LedgerRoot(h, rootOf)(m))
  }

  /** Where moreover all their roots are filed, it answers every question. */
  lemma SharedTruth(h: Hasher, rootOf: Leaves -> Hash, v: Versions, decode: Decoder, paths: Paths, known: set<Ledger>,
                    l: Ledger, some: set<Ledger>)
    requires Stores(h, rootOf, v, decode, known) && PathsRight(h, rootOf, paths, known)
    requires some <= known && SameKeys(l, some) && AllFiled(h, rootOf, v, some)
    ensures var o := TreeOracle(v, decode, paths);
      RootTruth(h, o, LedgerRoot(h, rootOf), some) && Readable(o, LedgerRoot(h, rootOf), some)
  {
    var o, lr := TreeOracle(v, decode, paths), LedgerRoot(h, rootOf);
    SharedHonest(h, rootOf, v, decode, paths, known, l, some);
    forall m | m in some ensures AnswersFor(o, lr(m), m) {
      StoresNeverLies(h, rootOf, v, decode, paths, known, m);
    }
    forall m, k | m in some ensures !GetAccount(o, lr(m), k).Unreadable? && !GetProof(o, lr(m), k).ProofUnreadable? {
      assert AnswersFor(o, lr(m), m);
    }
  }

  // ---- Accounts a block creates ----

  /** The first account an operation of the generator writes that was missing, as it is written. */
  function Created(l: Ledger, op: Op): Option<Account> {
    if op.DepositOp? then
      var r := Credit(AccountOrNew(l, op.deposit.to), op.deposit.amount);
      if op.deposit.to !in l && r.Ok? then Some(r.value) else None
    else
      var t := Carried(l, op);
      if t.None? || SettleAnyway(l, t.value).Err? then None
      else
        var r := SettleAnyway(l, t.value).value;
        if t.value.from !in l then Some(r.from)
        else if r.Success? && t.value.to !in l then Some(r.to) else None
  }

  function FirstCreated(l: Ledger, ops: seq<Op>, i: nat): Option<Account>
    requires i <= |ops|
    decreases |ops| - i
  {
    if i == |ops| then None
    else if Created(l, ops[i]).Some? then Created(l, ops[i])
    else FirstCreated(GenLedgerStep(l, ops[i]), ops, i + 1)
  }

  lemma NoneCreatedKeys(l: Ledger, op: Op)
    requires Created(l, op).None?
    ensures MidLedger(l, op).Keys == GenLedgerStep(l, op).Keys == l.Keys
    ensures Finishes(l, op) ==> ForcedSenderExists(l, op)
  {}

  lemma {:induction false} NoneCreatedTrail(l: Ledger, ops: seq<Op>, i: nat)
    requires i <= |ops| && FirstCreated(l, ops, i).None?
    ensures SameKeys(l, Trail(l, ops, i))
    ensures FinishesAll(l, ops, i) ==> ForcedSendersExist(l, ops, i)
    decreases |ops| - i
  {
    hide Created, GenLedgerStep, LedgerStep, MidLedger, Finishes, ForcedSenderExists;
    if i < |ops| {
      NoneCreatedKeys(l, ops[i]);
      NoneCreatedTrail(GenLedgerStep(l, ops[i]), ops, i + 1);
      StepLedgersAgreeIff(l, ops[i]);
    }
  }

  /** The digest of the first account created is itself a filed root. */
  predicate CreatedHit(h: Hasher, v: Versions, l: Ledger, ops: seq<Op>, i: nat)
    requires i <= |ops|
  {
    var a := FirstCreated(l, ops, i);
    a.Some? && Filed(v, AccountHash(h, a.value))
  }

  // ---- Which blocks the tree yields proofs for ----

  /** A step that creates an account ends at, or asks for a proof at, the digest of that account alone. */
  lemma CreatingStep(h: Hasher, rootOf: Leaves -> Hash, v: Versions, decode: Decoder, paths: Paths, known: set<Ledger>,
                     l: Ledger, op: Op)
    requires Stores(h, rootOf, v, decode, known) && PathsRight(h, rootOf, paths, known)
    requires {l, MidLedger(l, op)} <= known && Filed(v, LedgerRoot(h, rootOf)(l)) && Created(l, op).Some?
    requires var s := GenStep(h, TreeOracle(v, decode, paths), LedgerRoot(h, rootOf)(l), op);
      s.Ok? && Filed(v, s.value.root)
    ensures Filed(v, AccountHash(h, Created(l, op).value))
  {
    hide TreeOracle, HoldsLedger, LedgerRoot;
    var o, root := TreeOracle(v, decode, paths), LedgerRoot(h, rootOf)(l);
    StoresNeverLies(h, rootOf, v, decode, paths, known, l);
    if op.DepositOp? {
      MissingPath(h, rootOf, v, decode, paths, known, l, op.deposit.to);
    } else {
      var tx := Carried(l, op).value;
      BuildProofAccount(o, root, l, tx.from);
      BuildProofAccount(o, root, l, tx.to);
      var r := SettleAnyway(l, tx).value;
      StepMidFiled(h, v, decode, paths, root, op);
      if tx.from !in l {
        MissingPath(h, rootOf, v, decode, paths, known, l, tx.from);
      } else {
        var mid := MidLedger(l, op);
        PathsRewrite(h, rootOf, v, decode, paths, known, l, tx.from, r.from);
        StoresNeverLies(h, rootOf, v, decode, paths, known, mid);
        MissingPath(h, rootOf, v, decode, paths, known, mid, tx.to);
      }
    }
  }

  lemma MissingPath(h: Hasher, rootOf: Leaves -> Hash, v: Versions, decode: Decoder, paths: Paths, known: set<Ledger>,
                    m: Ledger, k: Hash)
    requires PathsRight(h, rootOf, paths, known) && m in known && k !in m
    requires BuildProof(TreeOracle(v, decode, paths), LedgerRoot(h, rootOf)(m), k).Ok?
    ensures BuildProof(TreeOracle(v, decode, paths), LedgerRoot(h, rootOf)(m), k).value.siblings == []
  {}

  lemma KeepingStep(h: Hasher, rootOf: Leaves -> Hash, v: Versions, decode: Decoder, paths: Paths, known: set<Ledger>,
                    l: Ledger, op: Op)
    requires Stores(h, rootOf, v, decode, known) && PathsRight(h, rootOf, paths, known)
    requires {l, MidLedger(l, op), GenLedgerStep(l, op)} <= known
    requires Filed(v, LedgerRoot(h, rootOf)(l)) && Created(l, op).None?
    requires var s := GenStep(h, TreeOracle(v, decode, paths), LedgerRoot(h, rootOf)(l), op);
      s.Ok? && Filed(v, s.value.root)
    ensures var s := GenStep(h, TreeOracle(v, decode, paths), LedgerRoot(h, rootOf)(l), op).value;
      && Finishes(l, op) && s.root == LedgerRoot(h, rootOf)(GenLedgerStep(l, op))
      && Filed(v, LedgerRoot(h, rootOf)(MidLedger(l, op)))
  {
    hide TreeOracle, HoldsLedger, LedgerRoot, GenStep, Stores, PathsRight, Honest;
    var o, lr, some := TreeOracle(v, decode, paths), LedgerRoot(h, rootOf), {l, MidLedger(l, op), GenLedgerStep(l, op)};
    NoneCreatedKeys(l, op);
    SharedHonest(h, rootOf, v, decode, paths, known, l, some);
    StoresNeverLies(h, rootOf, v, decode, paths, known, l);
    HonestStep(h, o, lr, some, l, op);
    StepMidFiled(h, v, decode, paths, lr(l), op);
    if Carried(l, op).Some? { KeepingMid(h, o, lr, some, l, op); }
  }

  /** The generator's intermediate root is the root of the intermediate ledger. */
  lemma KeepingMid(h: Hasher, o: Oracle, lr: RootOf, some: set<Ledger>, l: Ledger, op: Op)
    requires Honest(h, o, lr, some) && {l, MidLedger(l, op), GenLedgerStep(l, op)} <= some
    requires AnswersFor(o, lr(l), l) && Carried(l, op).Some? && Finishes(l, op) && GenStep(h, o, lr(l), op).Ok?
    ensures var r := SettleAnyway(l, Carried(l, op).value).value;
      if r.Failure? then MidLedger(l, op) == GenLedgerStep(l, op)
      else IsReal(o, lr(l), op) && Succeeds(o, lr(l), Carried(l, op).value)
           && GenMid(h, o, lr(l), Carried(l, op).value) == lr(MidLedger(l, op))
  {
    var tx := Carried(l, op).value;
    BuildProofAccount(o, lr(l), l, tx.from);
    BuildProofAccount(o, lr(l), l, tx.to);
    assert RewritesTo(h, o, lr, l, tx.from, SettleAnyway(l, tx).value.from);
  }

  /** A run that ends at a filed root met no error, created no account and saw only filed ledgers. */
  lemma {:induction false} FiledRun(h: Hasher, rootOf: Leaves -> Hash, v: Versions, decode: Decoder, paths: Paths,
                                    known: set<Ledger>, l: Ledger, ops: seq<Op>, i: nat)
    requires Stores(h, rootOf, v, decode, known) && PathsRight(h, rootOf, paths, known)
    requires i <= |ops| && Trail(l, ops, i) <= known && Filed(v, LedgerRoot(h, rootOf)(l))
    requires var run := GenRun(h, TreeOracle(v, decode, paths), LedgerRoot(h, rootOf)(l), ops, i);
      run.Ok? && Filed(v, run.value.root)
    ensures
      || CreatedHit(h, v, l, ops, i)
      || (FinishesAll(l, ops, i) && FirstCreated(l, ops, i).None? && AllFiled(h, rootOf, v, Trail(l, ops, i)))
    decreases |ops| - i
  {
    hide GenStep, TreeOracle, LedgerRoot, Stores, PathsRight, GenLedgerStep, MidLedger, Created, Finishes;
    if i < |ops| {
      var o, root := TreeOracle(v, decode, paths), LedgerRoot(h, rootOf)(l);
      var s := GenStep(h, o, root, ops[i]).value;
      StepInTrail(l, ops, i);
      if !Filed(v, s.root) { UnfiledStays(h, v, decode, paths, s.root, ops, i + 1); }
      if Created(l, ops[i]).Some? {
        CreatingStep(h, rootOf, v, decode, paths, known, l, ops[i]);
      } else {
        KeepingStep(h, rootOf, v, decode, paths, known, l, ops[i]);
        FiledRun(h, rootOf, v, decode, paths, known, GenLedgerStep(l, ops[i]), ops, i + 1);
      }
    }
  }

  /** No transfer carried out has an error, no account is created, and every ledger on the way is filed. */
  ghost predicate Provable(h: Hasher, rootOf: Leaves -> Hash, v: Versions, l: Ledger, ops: seq<Op>) {
    FinishesAll(l, ops, 0) && FirstCreated(l, ops, 0).None? && AllFiled(h, rootOf, v, Trail(l, ops, 0))
  }

  /**
   Generator on the executor's tree, exactly: it finishes at a filed root if and only if no transfer carried
   out has an error, the block creates no account, and every ledger on the way, also between the two rewrites
   of a transfer, is filed; and then it ends in the root of the executor's ledger. The one exception is a
   created account whose own digest is a filed root.
   */
  lemma SharedTreeIff(h: Hasher, rootOf: Leaves -> Hash, v: Versions, decode: Decoder, paths: Paths, known: set<Ledger>,
                      l: Ledger, ops: seq<Op>)
    requires Stores(h, rootOf, v, decode, known) && PathsRight(h, rootOf, paths, known)
    requires Trail(l, ops, 0) <= known && Filed(v, LedgerRoot(h, rootOf)(l))
    ensures var run := GenRun(h, TreeOracle(v, decode, paths), LedgerRoot(h, rootOf)(l), ops, 0);
      && (CreatedHit(h, v, l, ops, 0) ||
          (run.Ok? && Filed(v, run.value.root) <==> Provable(h, rootOf, v, l, ops)))
      && (Provable(h, rootOf, v, l, ops) ==>
          run.Ok? && run.value.root == LedgerRoot(h, rootOf)(LedgerRun(l, ops, 0)))
      && (FirstCreated(l, ops, 0).None? && AllFiled(h, rootOf, v, Trail(l, ops, 0)) ==>
          (run.Ok? <==> FinishesAll(l, ops, 0)))
  {
    hide GenRun, TreeOracle, LedgerRoot, Stores, PathsRight, FinishesAll, FirstCreated, Trail, CreatedHit,
         GenLedgerRun, LedgerRun, ForcedSendersExist, RootTruth, Readable;
    var o, lr := TreeOracle(v, decode, paths), LedgerRoot(h, rootOf);
    var run, trail := GenRun(h, o, lr(l), ops, 0), Trail(l, ops, 0);
    if FirstCreated(l, ops, 0).None? && AllFiled(h, rootOf, v, trail) {
      NoneCreatedTrail(l, ops, 0);
      SharedTruth(h, rootOf, v, decode, paths, known, l, trail);
      GeneratorSimulates(h, o, lr, trail, l, ops, 0);
      RunInTrail(l, ops, 0);
      if FinishesAll(l, ops, 0) { LedgersAgree(l, ops, 0); }
    } else if run.Ok? && Filed(v, run.value.root) {
      FiledRun(h, rootOf, v, decode, paths, known, l, ops, 0);
    }
  }

  // ---- The whole way of a block through the sequencer ----

  /** The root tells the given leaves apart. */
  ghost predicate TellsApart(rootOf: Leaves -> Hash, all: set<Leaves>) {
    forall x, y :: x in all && y in all && rootOf(x) == rootOf(y) ==> x == y
  }

  function AllDigests(h: Hasher, known: set<Ledger>): set<Leaves> { set m | m in known :: Digests(h, m) }

  ghost predicate Decodable(h: Hasher, decode: Decoder, known: set<Ledger>) {
    forall m, k :: m in known && k in m ==> decode(AccountHash(h, m[k])) == Some(m[k])
  }

  /** A tree that files every version under its root holds known ledgers rightly, where it can tell leaves apart. */
  lemma ValidStores(h: Hasher, rootOf: Leaves -> Hash, v: Versions, decode: Decoder, known: set<Ledger>)
    requires rootOf(map[]) == ZERO_HASH && forall r :: r in v ==> rootOf(v[r]) == r
    requires Decodable(h, decode, known) && TellsApart(rootOf, v.Values + AllDigests(h, known) + {map[]})
    ensures Stores(h, rootOf, v, decode, known)
  {
    forall m | m in known && Filed(v, LedgerRoot(h, rootOf)(m))
      ensures HoldsLedger(h, v, decode, LedgerRoot(h, rootOf)(m), m)
    {
      var root, d := LedgerRoot(h, rootOf)(m), Digests(h, m);
      assert d in AllDigests(h, known);
      assert rootOf(LeavesAt(v, root)) == rootOf(d);
      assert LeavesAt(v, root) in v.Values + {map[]};
    }
  }

  /** Afterwards the roots filed are the old ones and the new head. */
  lemma BatchStores(h: Hasher, rootOf: Leaves -> Hash, v: Versions, decode: Decoder, known: set<Ledger>, root: Hash,
                    final: Ledger, r: CoreResult<Hash>, v': Versions)
    requires rootOf(map[]) == ZERO_HASH && (forall q :: q in v' ==> rootOf(v'[q]) == q) && Filed(v, root)
    requires Decodable(h, decode, known) && TellsApart(rootOf, v.Values + AllDigests(h, known) + {map[]})
    requires final in known && BatchOf(rootOf, v, root, Digests(h, final), r, v')
    ensures Stores(h, rootOf, v', decode, known)
    ensures forall q :: Filed(v', q) <==> Filed(v, q) || q == r.value
  {
    assert Digests(h, final) in AllDigests(h, known);
    assert v'.Values <= v.Values + AllDigests(h, known);
    ValidStores(h, rootOf, v', decode, known);
  }

  /**
   A block is built by the optimistic executor and handed to the proof generator, both on one tree. The
   generator returns a bundle exactly when no transfer it carries out has an error, the block creates no
   account, and every ledger on the way has a root that was filed before or is the block's own post root. If
   only the first of these fails, it returns an error and not a root mismatch.
   */
  method BuildAndGenerate(tree: StateTree, paths: Paths, number: U64, root: Hash, txs: seq<Transaction>,
                          deposits: seq<Deposit>, forced: seq<ForcedTx>, ghost l: Ledger, ghost known: set<Ledger>)
    returns (block: PendingBlock, proofs: GenOutcome)
    requires tree.Valid() && tree.Holds(root, l)
    requires var ops := BlockOps(deposits, forced, txs); Trail(l, ops, 0) + {LedgerRun(l, ops, 0)} <= known
    requires Decodable(tree.h, tree.decode, known) && PathsRight(tree.h, tree.rootOf, paths, known)
    requires TellsApart(tree.rootOf, tree.versions.Values + AllDigests(tree.h, known) + {map[]})
    modifies tree
    ensures tree.Valid()
    ensures block == PendingBlock(number, txs, deposits, forced, root,
              LedgerRoot(tree.h, tree.rootOf)(LedgerRun(l, BlockOps(deposits, forced, txs), 0)))
    ensures forall r :: Filed(tree.versions, r) <==> Filed(old(tree.versions), r) || r == block.postStateRoot
    ensures CreatedHit(tree.h, tree.versions, l, block.Ops(), 0) ||
      (proofs.Bundle? <==> Provable(tree.h, tree.rootOf, tree.versions, l, block.Ops()))
    ensures FirstCreated(l, block.Ops(), 0).None? ==>
      AllFiled(tree.h, tree.rootOf, tree.versions, Trail(l, block.Ops(), 0)) ==>
      if FinishesAll(l, block.Ops(), 0) then proofs.Bundle? else proofs.Failed?
  {
    hide GenRun, LedgerRun, Trail, FinishesAll, FirstCreated, BlockOps, PathsRight, TellsApart, Decodable, AllFiled,
         HoldsLedger, TreeOracle, Stores;
    ghost var ops, v := BlockOps(deposits, forced, txs), tree.versions;
    HeldRoot(tree.h, tree.rootOf, v, tree.decode, root, l);
    var post := ApplyOptimisticBatch(tree, root, txs, deposits, forced);
    block := PendingBlock(number, txs, deposits, forced, root, post.value);
    BatchStores(tree.h, tree.rootOf, v, tree.decode, known, root, LedgerRun(l, ops, 0), post, tree.versions);
    SharedTreeIff(tree.h, tree.rootOf, tree.versions, tree.decode, paths, known, l, ops);
    proofs := GenerateProofsForBlock(tree.h, TreeOracle(tree.versions, tree.decode, paths), block);
  }

  lemma HeldRoot(h: Hasher, rootOf: Leaves -> Hash, v: Versions, decode: Decoder, root: Hash, l: Ledger)
    requires rootOf(map[]) == ZERO_HASH && (forall r :: r in v ==> rootOf(v[r]) == r)
    requires HoldsLedger(h, v, decode, root, l)
    ensures LedgerRoot(h, rootOf)(l) == root && Filed(v, root)
  {}

  /**
   On a tree that has seen none of the ledgers a block leads to, the condition on roots says that the block
   passes through no ledger but its first and its last.
   */
  lemma FreshTrail(h: Hasher, rootOf: Leaves -> Hash, v: Versions, v': Versions, l: Ledger, ops: seq<Op>)
    requires Filed(v, LedgerRoot(h, rootOf)(l))
    requires forall r :: Filed(v', r) <==> Filed(v, r) || r == LedgerRoot(h, rootOf)(LedgerRun(l, ops, 0))
    requires forall m :: m in Trail(l, ops, 0) && m != l ==> !Filed(v, LedgerRoot(h, rootOf)(m))
    requires forall m :: m in Trail(l, ops, 0) ==>
      LedgerRoot(h, rootOf)(m) == LedgerRoot(h, rootOf)(LedgerRun(l, ops, 0)) ==> m == LedgerRun(l, ops, 0)
    ensures AllFiled(h, rootOf, v', Trail(l, ops, 0)) <==> Trail(l, ops, 0) <= {l, LedgerRun(l, ops, 0)}
  {
    hide Trail, LedgerRun, Filed;
  }
}
