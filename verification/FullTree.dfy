/**
 Full trees that hold a ledger, one leaf per account. They show that the assumptions made about the
 state tree can be met, that on such a tree executor, generator and guest agree, and what the guest's
 answer means for the ledger.
 */
module FullTree {
  import opened Encoding
  import opened Stf
  import opened Merkle
  import opened Ledger
  import opened Executor
  import opened Guest
  import opened Generator
  import opened Agreement
  import opened SharedTree

  function Ids(t: Tree): set<Hash> {
    match t
    case Leaf(a) => {a.id}
    case Node(l, r) => Ids(l) + Ids(r)
  }

  /** No id occurs at two leaves. */
  predicate Distinct(t: Tree) {
    match t
    case Leaf(_) => true
    case Node(l, r) => Ids(l) !! Ids(r) && Distinct(l) && Distinct(r)
  }

  function PathTo(t: Tree, k: Hash): Path {
    match t
    case Leaf(_) => []
    case Node(l, r) => if k in Ids(l) then PathTo(l, k) + [true] else PathTo(r, k) + [false]
  }

  /** The tree of the given shape holding the accounts of `l`. */
  function Populate(shape: Tree, l: Ledger): Tree {
    match shape
    case Leaf(a) => Leaf(AccountOrNew(l, a.id))
    case Node(x, y) => Node(Populate(x, l), Populate(y, l))
  }

  function TreeRoot(h: Hasher, shape: Tree): RootOf { (l: Ledger) => Root(h, Populate(shape, l)) }

  predicate Keyed(shape: Tree, l: Ledger) { l.Keys == Ids(shape) }

  lemma {:induction false} PopulateLeaf(shape: Tree, l: Ledger, k: Hash)
    requires k in Ids(shape)
    ensures LeafAt(Populate(shape, l), PathTo(shape, k)) == Some(AccountOrNew(l, k))
  {
    if shape.Node? {
      var child := if k in Ids(shape.left) then shape.left else shape.right;
      PopulateLeaf(child, l, k);
      var p := PathTo(shape, k);
      assert p[..|p| - 1] == PathTo(child, k);
    }
  }

  lemma {:induction false} PopulateElsewhere(shape: Tree, l: Ledger, k: Hash, a: Account)
    requires k !in Ids(shape)
    ensures Populate(shape, l[k := a]) == Populate(shape, l)
  {
    if shape.Node? {
      PopulateElsewhere(shape.left, l, k, a);
      PopulateElsewhere(shape.right, l, k, a);
    }
  }

  /** Rewriting the leaf of an account is rewriting the ledger. */
  lemma {:induction false} PopulateUpdate(shape: Tree, l: Ledger, k: Hash, a: Account)
    requires Distinct(shape) && k in Ids(shape)
    ensures Update(Populate(shape, l), PathTo(shape, k), a) == Populate(shape, l[k := a])
  {
    if shape.Node? {
      var left := k in Ids(shape.left);
      var child := if left then shape.left else shape.right;
      var p := PathTo(shape, k);
      assert p[..|p| - 1] == PathTo(child, k);
      PopulateUpdate(child, l, k, a);
      PopulateElsewhere(if left then shape.right else shape.left, l, k, a);
    }
  }

  /** The oracle that knows the given ledgers and looks roots up among them, answering as the code's tree does. */
  ghost function HonestOracle(h: Hasher, shape: Tree, known: set<Ledger>): Oracle {
    Oracle((root: Hash, k: Hash) => HonestAccount(h, shape, known, root, k),
           (root: Hash, k: Hash) => HonestSiblings(h, shape, known, root, k))
  }

  ghost function HonestAccount(h: Hasher, shape: Tree, known: set<Ledger>, root: Hash, k: Hash): Lookup {
    if l :| l in known && Root(h, Populate(shape, l)) == root then
      (if k in l then Found(l[k]) else NotFound)
    else Unreadable(DatabaseError)
  }

  /** There is no path to a key that is not in the tree. */
  ghost function HonestSiblings(h: Hasher, shape: Tree, known: set<Ledger>, root: Hash, k: Hash): SiblingLookup {
    if l :| l in known && Root(h, Populate(shape, l)) == root then
      (if k in Ids(shape) then Siblings(SiblingsAlong(h, Populate(shape, l), PathTo(shape, k))) else NoProof)
    else ProofUnreadable(DatabaseError)
  }

  predicate SameRoot(h: Hasher, shape: Tree, l: Ledger, m: Ledger) {
    Root(h, Populate(shape, l)) == Root(h, Populate(shape, m))
  }

  /** No known ledger has the all-zero root, which the code takes for an empty tree. */
  ghost predicate NonZero(h: Hasher, shape: Tree, known: set<Ledger>) {
    forall l :: l in known ==> Root(h, Populate(shape, l)) != ZERO_HASH
  }

  /** Moreover the known ledgers fit the shape. */
  ghost predicate Fitting(h: Hasher, shape: Tree, known: set<Ledger>) {
    NonZero(h, shape, known) && forall l :: l in known ==> Keyed(shape, l)
  }

  /** Moreover their roots differ. */
  ghost predicate Separated(h: Hasher, shape: Tree, known: set<Ledger>) {
    && Fitting(h, shape, known)
    && (forall l, m :: l in known && m in known && SameRoot(h, shape, l, m) ==> l == m)
  }

  /** Every string hashed for the trees of the known ledgers. */
  ghost function KnownPreimages(h: Hasher, shape: Tree, known: set<Ledger>): set<Bytes> {
    set l, x | l in known && x in TreePreimages(h, Populate(shape, l)) :: x
  }

  lemma NonZeroOrDigest(h: Hasher, shape: Tree, known: set<Ledger>)
    ensures NonZero(h, shape, known) || ZeroDigestIn(h, KnownPreimages(h, shape, known))
  {
    if l :| l in known && Root(h, Populate(shape, l)) == ZERO_HASH {
      assert RootBytes(h, Populate(shape, l)) in KnownPreimages(h, shape, known);
    }
  }

  lemma {:induction false} SameRootSameLedger(h: Hasher, shape: Tree, l: Ledger, m: Ledger)
    requires Keyed(shape, l) && Keyed(shape, m) && SameRoot(h, shape, l, m)
    ensures l == m || CollisionIn(h, TreePreimages(h, Populate(shape, l)) + TreePreimages(h, Populate(shape, m)))
  {
    RootBinding(h, Populate(shape, l), Populate(shape, m));
    if Populate(shape, l) == Populate(shape, m) {
      forall k | k in l ensures l[k] == m[k] {
        PopulateLeaf(shape, l, k);
        PopulateLeaf(shape, m, k);
      }
    }
  }

  /** Different ledgers have different roots, or their trees contain a collision. */
  lemma SeparatedOrCollision(h: Hasher, shape: Tree, known: set<Ledger>)
    requires Fitting(h, shape, known)
    ensures Separated(h, shape, known) || CollisionIn(h, KnownPreimages(h, shape, known))
  {
    if l, m :| l in known && m in known && SameRoot(h, shape, l, m) && l != m {
      SameRootSameLedger(h, shape, l, m);
      var s := TreePreimages(h, Populate(shape, l)) + TreePreimages(h, Populate(shape, m));
      assert s <= KnownPreimages(h, shape, known);
      CollisionMonotone(h, s, KnownPreimages(h, shape, known));
    }
  }

  lemma HonestAnswers(h: Hasher, shape: Tree, known: set<Ledger>, l: Ledger, k: Hash)
    requires Separated(h, shape, known) && l in known
    ensures var o, root := HonestOracle(h, shape, known), Root(h, Populate(shape, l));
      && GetAccount(o, root, k) == (if k in l then Found(l[k]) else NotFound)
      && BuildProof(o, root, k) == Ok(if k in Ids(shape)
        then MerkleProof(AccountOrNew(l, k), SiblingsAlong(h, Populate(shape, l), PathTo(shape, k)))
        else EmptyProof(k))
      && !GetProof(o, root, k).ProofUnreadable?
  {
    var o, root := HonestOracle(h, shape, known), Root(h, Populate(shape, l));
    assert forall m :: m in known && SameRoot(h, shape, m, l) ==> m == l;
    assert o.account(root, k) == HonestAccount(h, shape, known, root, k);
    assert o.siblings(root, k) == HonestSiblings(h, shape, known, root, k);
  }

  /** Where the oracle can build a proof at all, the root is zero or the root of a known ledger. */
  lemma HonestRefuses(h: Hasher, shape: Tree, known: set<Ledger>, root: Hash, k: Hash)
    requires BuildProof(HonestOracle(h, shape, known), root, k).Ok? && root != ZERO_HASH
    ensures exists l :: l in known && Root(h, Populate(shape, l)) == root
  {
    var o := HonestOracle(h, shape, known);
    assert o.account(root, k) == HonestAccount(h, shape, known, root, k);
  }

  /** An honest proof of a key in the tree verifies. */
  lemma HonestVerifies(h: Hasher, shape: Tree, known: set<Ledger>, l: Ledger, k: Hash)
    requires Separated(h, shape, known) && l in known && k in Ids(shape)
    ensures var root := Root(h, Populate(shape, l));
      Verifies(h, BuildProof(HonestOracle(h, shape, known), root, k).value, root)
  {
    HonestAnswers(h, shape, known, l, k);
    PopulateLeaf(shape, l, k);
    HonestProofVerifies(h, Populate(shape, l), PathTo(shape, k));
  }

  /** All assumptions made about the state tree hold of the honest oracle. */
  lemma HonestOracleIsTruthful(h: Hasher, shape: Tree, known: set<Ledger>)
    requires Distinct(shape) && Separated(h, shape, known)
    ensures var o, rootOf := HonestOracle(h, shape, known), TreeRoot(h, shape);
      RootTruth(h, o, rootOf, known) && Readable(o, rootOf, known) && Sourced(h, o)
  {
    var o, rootOf := HonestOracle(h, shape, known), TreeRoot(h, shape);
    forall l | l in known ensures AnswersFor(o, rootOf(l), l) {
      forall k ensures GetAccount(o, rootOf(l), k) == if k in l then Found(l[k]) else NotFound {
        HonestAnswers(h, shape, known, l, k);
      }
    }
    forall l, k | l in known
      ensures !GetAccount(o, rootOf(l), k).Unreadable? && !GetProof(o, rootOf(l), k).ProofUnreadable?
    {
      HonestAnswers(h, shape, known, l, k);
    }
    forall l, k, a | l in known && l[k := a] in known ensures RewritesTo(h, o, rootOf, l, k, a) {
      HonestAnswers(h, shape, known, l, k);
      assert Keyed(shape, l[k := a]);
      PopulateLeaf(shape, l, k);
      PopulateUpdate(shape, l, k, a);
      UpdateRoot(h, Populate(shape, l), PathTo(shape, k), a);
    }
    HonestSourced(h, shape, known);
  }

  lemma HonestSourced(h: Hasher, shape: Tree, known: set<Ledger>)
    requires Separated(h, shape, known)
    ensures Sourced(h, HonestOracle(h, shape, known))
  {
    var o := HonestOracle(h, shape, known);
    forall r, k | BuildProof(o, r, k).Ok?
      ensures Verifies(h, BuildProof(o, r, k).value, r) || BuildProof(o, r, k).value == EmptyProof(k)
    {
      if r != ZERO_HASH {
        HonestRefuses(h, shape, known, r, k);
        var l :| l in known && Root(h, Populate(shape, l)) == r;
        if k in Ids(shape) { HonestVerifies(h, shape, known, l, k); } else { HonestAnswers(h, shape, known, l, k); }
      }
    }
  }

  /** The root of a tree of this shape, computed from its leaves. */
  function DigestRoot(h: Hasher, shape: Tree, leaves: Leaves): Hash {
    match shape
    case Leaf(a) => if a.id in leaves then leaves[a.id] else AccountHash(h, NewAccount(a.id))
    case Node(x, y) => HashNodes(h, DigestRoot(h, x, leaves), DigestRoot(h, y, leaves))
  }

  function ShapeRoot(h: Hasher, shape: Tree): Leaves -> Hash {
    (leaves: Leaves) => if leaves == map[] then ZERO_HASH else DigestRoot(h, shape, leaves)
  }

  lemma {:induction false} DigestRootIsRoot(h: Hasher, shape: Tree, l: Ledger)
    ensures DigestRoot(h, shape, Digests(h, l)) == Root(h, Populate(shape, l))
  {
    if shape.Node? {
      DigestRootIsRoot(h, shape.left, l);
      DigestRootIsRoot(h, shape.right, l);
    }
  }

  lemma KeyedRoot(h: Hasher, shape: Tree, l: Ledger)
    requires Keyed(shape, l)
    ensures Digests(h, l) != map[] && LedgerRoot(h, ShapeRoot(h, shape))(l) == Root(h, Populate(shape, l))
  {
    DigestRootIsRoot(h, shape, l);
    var k := SomeId(shape);
    assert k in Digests(h, l);
  }

  function SomeId(t: Tree): (k: Hash)
    ensures k in Ids(t)
  {
    match t
    case Leaf(a) => a.id
    case Node(l, _) => SomeId(l)
  }

  /** What is asked of the tree that executor and generator share holds of a full tree. */
  lemma FullTreeIsShared(h: Hasher, shape: Tree, known: set<Ledger>)
    requires Distinct(shape) && Separated(h, shape, known)
    ensures var rootOf := ShapeRoot(h, shape);
      && rootOf(map[]) == ZERO_HASH && TellsApart(rootOf, AllDigests(h, known) + {map[]})
      && PathsRight(h, rootOf, HonestOracle(h, shape, known).siblings, known)
  {
    hide Separated, HonestOracle, Populate, Digests, DigestRoot;
    var rootOf, paths := ShapeRoot(h, shape), HonestOracle(h, shape, known).siblings;
    forall x, y | x in AllDigests(h, known) + {map[]} && y in AllDigests(h, known) + {map[]} && rootOf(x) == rootOf(y)
      ensures x == y
    {
      SharedRoots(h, shape, known, x, y);
    }
    forall m, k | m in known
      ensures var p := paths(LedgerRoot(h, rootOf)(m), k); if k in m then p.Siblings? else p == NoProof
    {
      SharedPath(h, shape, known, m, k);
    }
    forall m, k, a | m in known && k in m && m[k := a] in known ensures FoldsTo(h, rootOf, paths, m, k, a) {
      SharedFold(h, shape, known, m, k, a);
    }
  }

  lemma SharedRoots(h: Hasher, shape: Tree, known: set<Ledger>, x: Leaves, y: Leaves)
    requires Separated(h, shape, known) && ShapeRoot(h, shape)(x) == ShapeRoot(h, shape)(y)
    requires x in AllDigests(h, known) + {map[]} && y in AllDigests(h, known) + {map[]}
    ensures x == y
  {
    hide Separated, Populate, Digests, DigestRoot;
    forall m | m in known
      ensures Root(h, Populate(shape, m)) != ZERO_HASH
      ensures ShapeRoot(h, shape)(Digests(h, m)) == Root(h, Populate(shape, m))
    {
      SeparatedFits(h, shape, known, m);
      KeyedRoot(h, shape, m);
    }
    if x != map[] && y != map[] {
      var m, n :| m in known && n in known && x == Digests(h, m) && y == Digests(h, n);
      SeparatedTells(h, shape, known, m, n);
    }
  }

  lemma SharedPath(h: Hasher, shape: Tree, known: set<Ledger>, m: Ledger, k: Hash)
    requires Separated(h, shape, known) && m in known
    ensures var p := HonestOracle(h, shape, known).siblings(LedgerRoot(h, ShapeRoot(h, shape))(m), k);
      p == if k in m then Siblings(SiblingsAlong(h, Populate(shape, m), PathTo(shape, k))) else NoProof
  {
    SeparatedFits(h, shape, known, m);
    KeyedRoot(h, shape, m);
    assert forall n :: n in known && SameRoot(h, shape, n, m) ==> n == m;
  }

  lemma SharedFold(h: Hasher, shape: Tree, known: set<Ledger>, m: Ledger, k: Hash, a: Account)
    requires Distinct(shape) && Separated(h, shape, known) && m in known && k in m && m[k := a] in known
    ensures FoldsTo(h, ShapeRoot(h, shape), HonestOracle(h, shape, known).siblings, m, k, a)
  {
    hide HonestOracle, Populate, ShapeRoot, LedgerRoot;
    SharedPath(h, shape, known, m, k);
    SeparatedFits(h, shape, known, m);
    SeparatedFits(h, shape, known, m[k := a]);
    KeyedRoot(h, shape, m[k := a]);
    PopulateLeaf(shape, m, k);
    PopulateUpdate(shape, m, k, a);
    UpdateRoot(h, Populate(shape, m), PathTo(shape, k), a);
  }

  lemma SeparatedFits(h: Hasher, shape: Tree, known: set<Ledger>, m: Ledger)
    requires Separated(h, shape, known) && m in known
    ensures Keyed(shape, m) && Root(h, Populate(shape, m)) != ZERO_HASH
  {}

  lemma SeparatedTells(h: Hasher, shape: Tree, known: set<Ledger>, m: Ledger, n: Ledger)
    requires Separated(h, shape, known) && m in known && n in known
    requires Root(h, Populate(shape, m)) == Root(h, Populate(shape, n))
    ensures m == n
  {
    assert SameRoot(h, shape, m, n);
  }

  // ---- Which blocks go through ----

  /** The operation is not skipped, touches accounts of the tree, and whoever is credited by a transfer is new. */
  predicate LedgerCleanStep(shape: Tree, l: Ledger, op: Op) {
    match op
    case DepositOp(d) => d.to in Ids(shape) && Credit(AccountOrNew(l, d.to), d.amount).Ok?
    case _ =>
      var t := TransferOf(op);
      t.Some? ==>
        && Verdict(l, t.value).Some?
        && (Verdict(l, t.value).value.Success? ==>
            t.value.to in Ids(shape) && AccountOrNew(l, t.value.to) == NewAccount(t.value.to))
  }

  predicate LedgerClean(shape: Tree, l: Ledger, ops: seq<Op>, i: nat)
    requires i <= |ops|
    decreases |ops| - i
  {
    i < |ops| ==> LedgerCleanStep(shape, l, ops[i]) && LedgerClean(shape, LedgerStep(l, ops[i]), ops, i + 1)
  }

  /** The ledgers met up to the first operation that is not clean. */
  function CleanTrail(shape: Tree, l: Ledger, ops: seq<Op>, i: nat): set<Ledger>
    requires i <= |ops|
    decreases |ops| - i
  {
    if i == |ops| then {l}
    else
      {l} + (if Half(l, ops[i]).Some? then {Half(l, ops[i]).value} else {}) +
      (if LedgerCleanStep(shape, l, ops[i]) then CleanTrail(shape, LedgerStep(l, ops[i]), ops, i + 1) else {})
  }

  /** The ledger after the sender's half of a transfer. */
  function Half(l: Ledger, op: Op): Option<Ledger> {
    var t := TransferOf(op);
    if t.None? || Verdict(l, t.value).None? then None
    else Some(l[t.value.from := Verdict(l, t.value).value.from])
  }

  /** Every account carries the id it is filed under. */
  predicate Named(l: Ledger) { forall k :: k in l ==> l[k].id == k }

  lemma PutKeeps(shape: Tree, l: Ledger, k: Hash, a: Account)
    requires Keyed(shape, l) && k in Ids(shape) && a.id == AccountOrNew(l, k).id
    ensures Keyed(shape, l[k := a]) && (Named(l) ==> Named(l[k := a]))
  {}

  /** Clean operations neither add accounts nor rename them. */
  lemma CleanStepKeeps(shape: Tree, l: Ledger, op: Op)
    requires Keyed(shape, l)
    ensures Half(l, op).Some? ==> Keyed(shape, Half(l, op).value) && (Named(l) ==> Named(Half(l, op).value))
    ensures LedgerCleanStep(shape, l, op) ==>
      Keyed(shape, LedgerStep(l, op)) && (Named(l) ==> Named(LedgerStep(l, op)))
  {
    if op.DepositOp? {
      var d := op.deposit;
      var r := Credit(AccountOrNew(l, d.to), d.amount);
      if d.to in Ids(shape) && r.Ok? { PutKeeps(shape, l, d.to, r.value); }
    } else if TransferOf(op).Some? && Verdict(l, TransferOf(op).value).Some? {
      var tx := TransferOf(op).value;
      var r := Verdict(l, tx).value;
      assert tx.from in Ids(shape);
      PutKeeps(shape, l, tx.from, r.from);
      if r.Success? && tx.to in Ids(shape) {
        PutKeeps(shape, l, tx.to, r.to);
        if tx.from != tx.to { PutKeeps(shape, l[tx.from := r.from], tx.to, r.to); }
      }
    }
  }

  lemma {:induction false} CleanTrailKeeps(shape: Tree, l: Ledger, ops: seq<Op>, i: nat)
    requires i <= |ops| && Keyed(shape, l)
    ensures forall m :: m in CleanTrail(shape, l, ops, i) ==> Keyed(shape, m) && (Named(l) ==> Named(m))
    decreases |ops| - i
  {
    hide LedgerStep, LedgerCleanStep, Half, Keyed, Named;
    if i < |ops| {
      CleanStepKeeps(shape, l, ops[i]);
      if LedgerCleanStep(shape, l, ops[i]) { CleanTrailKeeps(shape, LedgerStep(l, ops[i]), ops, i + 1); }
    }
  }

  lemma CleanStepLedgers(shape: Tree, l: Ledger, ops: seq<Op>, i: nat)
    requires i < |ops| && LedgerCleanStep(shape, l, ops[i])
    ensures GenLedgerStep(l, ops[i]) == LedgerStep(l, ops[i]) && ForcedSenderExists(l, ops[i]) && Finishes(l, ops[i])
    ensures {l, MidLedger(l, ops[i]), LedgerStep(l, ops[i])} <= CleanTrail(shape, l, ops, i)
    ensures CleanTrail(shape, LedgerStep(l, ops[i]), ops, i + 1) <= CleanTrail(shape, l, ops, i)
  {
    StepLedgersAgreeIff(l, ops[i]);
    assert LedgerStep(l, ops[i]) in CleanTrail(shape, LedgerStep(l, ops[i]), ops, i + 1);
  }

  /** On a clean ledger step the generated proofs verify and the recipient is new. */
  lemma CleanLedgerIsClean(h: Hasher, shape: Tree, known: set<Ledger>, l: Ledger, op: Op)
    requires Distinct(shape) && Separated(h, shape, known) && LedgerCleanStep(shape, l, op)
    requires l in known && (Half(l, op).Some? ==> Half(l, op).value in known)
    ensures CleanStep(h, HonestOracle(h, shape, known), Root(h, Populate(shape, l)), op)
  {
    var o, root := HonestOracle(h, shape, known), Root(h, Populate(shape, l));
    if FirstKey(op).Some? {
      var k := FirstKey(op).value;
      assert Keyed(shape, l);
      HonestAnswers(h, shape, known, l, k);
      HonestVerifies(h, shape, known, l, k);
      if !op.DepositOp? {
        var tx := TransferOf(op).value;
        HonestAnswers(h, shape, known, l, tx.to);
        if Verdict(l, tx).value.Success? {
          HonestMid(h, shape, known, l, tx);
          HonestVerifies(h, shape, known, Half(l, op).value, tx.to);
        }
      }
    }
  }

  /** The generator's intermediate root is the root of the half-way ledger. */
  lemma HonestMid(h: Hasher, shape: Tree, known: set<Ledger>, l: Ledger, tx: Transaction)
    requires Distinct(shape) && Separated(h, shape, known) && l in known && Verdict(l, tx).Some?
    ensures GenMid(h, HonestOracle(h, shape, known), Root(h, Populate(shape, l)), tx) ==
            Root(h, Populate(shape, l[tx.from := Verdict(l, tx).value.from]))
  {
    hide HonestOracle, Populate, SiblingsAlong, PathTo, GetAccount, GetProof, Fold, Update;
    var a := Verdict(l, tx).value.from;
    assert Keyed(shape, l);
    HonestAnswers(h, shape, known, l, tx.from);
    HonestAnswers(h, shape, known, l, tx.to);
    PopulateLeaf(shape, l, tx.from);
    PopulateUpdate(shape, l, tx.from, a);
    UpdateRoot(h, Populate(shape, l), PathTo(shape, tx.from), a);
  }

  lemma {:induction false} CleanBlock(h: Hasher, shape: Tree, known: set<Ledger>, l: Ledger, ops: seq<Op>, i: nat)
    requires i <= |ops| && Distinct(shape) && Separated(h, shape, known)
    requires CleanTrail(shape, l, ops, i) <= known && LedgerClean(shape, l, ops, i)
    ensures var o, root := HonestOracle(h, shape, known), TreeRoot(h, shape)(l);
      && GenRun(h, o, root, ops, i).Ok? && CleanRun(h, o, root, ops, i)
      && GenRun(h, o, root, ops, i).value.root == TreeRoot(h, shape)(LedgerRun(l, ops, i))
    decreases |ops| - i
  {
    hide GenStep, CleanStep, LedgerStep, GenLedgerStep, LedgerCleanStep, Half, MidLedger, RootTruth, Readable,
         Separated;
    if i < |ops| {
      var o, rootOf, l' := HonestOracle(h, shape, known), TreeRoot(h, shape), LedgerStep(l, ops[i]);
      CleanStepLedgers(shape, l, ops, i);
      HonestOracleIsTruthful(h, shape, known);
      StepSimulates(h, o, rootOf, known, l, ops[i]);
      CleanLedgerIsClean(h, shape, known, l, ops[i]);
      CleanBlock(h, shape, known, l', ops, i + 1);
    }
  }

  /** Executor, generator and guest end in the root of the tree holding the final ledger. */
  ghost predicate AllAgree(h: Hasher, shape: Tree, known: set<Ledger>, l: Ledger, ops: seq<Op>) {
    var o := HonestOracle(h, shape, known);
    var pre, post := Root(h, Populate(shape, l)), Root(h, Populate(shape, LedgerRun(l, ops, 0)));
    var base: Reader := (k: Hash) => GetAccount(o, pre, k);
    var run := GenRun(h, o, pre, ops, 0);
    && run.Ok? && run.value.root == post
    && GuestRun(h, pre, ops, run.value.pairs, 0) == Done(post)
    && ExecRun(base, map[], ops, 0).Ok?
    && Root(h, Populate(shape, l + ExecRun(base, map[], ops, 0).value)) == post
  }

  /**
   One block, three executions, one root: on a full tree, a block that is clean on the ledger ends in the
   same root for the executor, for the generator and for the guest fed with the generated proofs; or the
   trees it passes through contain a collision or an all-zero digest.
   */
  lemma ThreeExecutionsAgree(h: Hasher, shape: Tree, l: Ledger, ops: seq<Op>)
    requires Distinct(shape) && Keyed(shape, l) && LedgerClean(shape, l, ops, 0)
    ensures var known := CleanTrail(shape, l, ops, 0);
      var hashed := KnownPreimages(h, shape, known);
      AllAgree(h, shape, known, l, ops) || CollisionIn(h, hashed) || ZeroDigestIn(h, hashed)
  {
    hide GenRun, GuestRun, LedgerRun, ExecRun, LedgerClean, CleanRun, Separated, KnownPreimages, RootTruth;
    var known := CleanTrail(shape, l, ops, 0);
    CleanTrailKeeps(shape, l, ops, 0);
    NonZeroOrDigest(h, shape, known);
    if NonZero(h, shape, known) { SeparatedOrCollision(h, shape, known); }
    if Separated(h, shape, known) {
      var o, pre := HonestOracle(h, shape, known), TreeRoot(h, shape)(l);
      CleanBlock(h, shape, known, l, ops, 0);
      var pairs := GenRun(h, o, pre, ops, 0).value.pairs;
      assert pairs[0..] == pairs;
      GuestAcceptsIff(h, o, pre, ops, pairs, 0);
      InCleanTrail(shape, l, ops, 0);
      ExecutorReachesRun(h, shape, known, l, ops);
    }
  }

  lemma InCleanTrail(shape: Tree, l: Ledger, ops: seq<Op>, i: nat)
    requires i <= |ops|
    ensures l in CleanTrail(shape, l, ops, i)
  {}

  lemma ExecutorReachesRun(h: Hasher, shape: Tree, known: set<Ledger>, l: Ledger, ops: seq<Op>)
    requires Separated(h, shape, known) && l in known
    ensures var pre := Root(h, Populate(shape, l));
      var run := ExecRun((k: Hash) => GetAccount(HonestOracle(h, shape, known), pre, k), map[], ops, 0);
      run.Ok? && l + run.value == LedgerRun(l, ops, 0)
  {
    hide ExecStep, LedgerStep, Separated;
    var pre := Root(h, Populate(shape, l));
    var base: Reader := (k: Hash) => GetAccount(HonestOracle(h, shape, known), pre, k);
    forall k ensures base(k) == if k in l then Found(l[k]) else NotFound { HonestAnswers(h, shape, known, l, k); }
    assert Truthful(base, l);
    ExecRefinesLedger(base, l, map[], ops, 0);
    assert l + map[] == l;
  }

  // ---- And which do not ----

  function NewBytes(keys: set<Hash>): set<Bytes> { set k | k in keys :: AccountBytes(NewAccount(k)) }

  /** The digest of an account that is not in the tree is not the tree's root, or a collision is exhibited. */
  lemma NewDigestIsNoRoot(h: Hasher, shape: Tree, l: Ledger, k: Hash)
    requires Keyed(shape, l) && Named(l) && k !in Ids(shape)
    requires AccountHash(h, NewAccount(k)) == Root(h, Populate(shape, l))
    ensures CollisionIn(h, TreePreimages(h, Populate(shape, l)) + NewBytes({k}))
  {
    var t, x := Populate(shape, l), AccountBytes(NewAccount(k));
    assert x in NewBytes({k});
    if t.Leaf? && AccountBytes(t.account) == x {
      AccountBytesInjective(t.account, NewAccount(k));
      assert false;
    }
    Collide(h, RootBytes(h, t), x, TreePreimages(h, t) + NewBytes({k}));
  }

  function BlockKeys(ops: seq<Op>): set<Hash> { set i, k | 0 <= i < |ops| && k in OpKeys(ops[i]) :: k }

  /** The strings in which a collision would let a block through that is not clean. */
  ghost function AllPreimages(h: Hasher, shape: Tree, known: set<Ledger>, keys: set<Hash>): set<Bytes> {
    KnownPreimages(h, shape, known) + NewBytes(keys)
  }

  lemma NewDigestCollides(h: Hasher, shape: Tree, known: set<Ledger>, l: Ledger, k: Hash, keys: set<Hash>)
    requires l in known && k in keys && Keyed(shape, l) && Named(l) && k !in Ids(shape)
    requires AccountHash(h, NewAccount(k)) == Root(h, Populate(shape, l))
    ensures CollisionIn(h, AllPreimages(h, shape, known, keys))
  {
    NewDigestIsNoRoot(h, shape, l, k);
    CollisionMonotone(h, TreePreimages(h, Populate(shape, l)) + NewBytes({k}), AllPreimages(h, shape, known, keys));
  }

  /** On the honest tree a generated step is clean only if it is clean on the ledger. */
  lemma CleanIsCleanLedger(h: Hasher, shape: Tree, known: set<Ledger>, l: Ledger, op: Op, keys: set<Hash>)
    requires Distinct(shape) && Separated(h, shape, known) && (forall m :: m in known ==> Named(m))
    requires l in known && (Half(l, op).Some? ==> Half(l, op).value in known) && OpKeys(op) <= keys
    requires var o, root := HonestOracle(h, shape, known), Root(h, Populate(shape, l));
      GenStep(h, o, root, op).Ok? && CleanStep(h, o, root, op)
    ensures LedgerCleanStep(shape, l, op) || CollisionIn(h, AllPreimages(h, shape, known, keys))
  {
    if FirstKey(op).Some? {
      var root, k := Root(h, Populate(shape, l)), FirstKey(op).value;
      assert Keyed(shape, l);
      HonestAnswers(h, shape, known, l, k);
      if k !in Ids(shape) {
        EmptyVerifiesIff(h, k, root);
        NewDigestCollides(h, shape, known, l, k, keys);
      } else if !op.DepositOp? {
        CleanTransferIsCleanLedger(h, shape, known, l, op, keys);
      }
    }
  }

  lemma CleanTransferIsCleanLedger(h: Hasher, shape: Tree, known: set<Ledger>, l: Ledger, op: Op, keys: set<Hash>)
    requires Distinct(shape) && Separated(h, shape, known) && (forall m :: m in known ==> Named(m))
    requires l in known && (Half(l, op).Some? ==> Half(l, op).value in known) && OpKeys(op) <= keys
    requires TransferOf(op).Some? && TransferOf(op).value.from in Ids(shape)
    requires var o, root := HonestOracle(h, shape, known), Root(h, Populate(shape, l));
      GenStep(h, o, root, op).Ok? && CleanTransfer(h, o, root, TransferOf(op).value)
    ensures LedgerCleanStep(shape, l, op) || CollisionIn(h, AllPreimages(h, shape, known, keys))
  {
    hide Populate, SiblingsAlong, PathTo, AllPreimages, Fold, HonestOracle;
    var tx := TransferOf(op).value;
    assert Keyed(shape, l);
    HonestAnswers(h, shape, known, l, tx.from);
    HonestAnswers(h, shape, known, l, tx.to);
    if Verdict(l, tx).Some? && Verdict(l, tx).value.Success? && tx.to !in Ids(shape) {
      var mid := Half(l, op).value;
      HonestMid(h, shape, known, l, tx);
      HonestAnswers(h, shape, known, mid, tx.to);
      EmptyVerifiesIff(h, tx.to, Root(h, Populate(shape, mid)));
      NewDigestCollides(h, shape, known, mid, tx.to, keys);
    }
  }

  lemma {:induction false} CleanRunIsCleanLedger(h: Hasher, shape: Tree, known: set<Ledger>, l: Ledger,
                                                 ops: seq<Op>, i: nat, keys: set<Hash>)
    requires i <= |ops| && Distinct(shape) && Separated(h, shape, known) && (forall m :: m in known ==> Named(m))
    requires CleanTrail(shape, l, ops, i) <= known && forall j :: i <= j < |ops| ==> OpKeys(ops[j]) <= keys
    requires var o, root := HonestOracle(h, shape, known), TreeRoot(h, shape)(l);
      GenRun(h, o, root, ops, i).Ok? && CleanRun(h, o, root, ops, i)
    ensures LedgerClean(shape, l, ops, i) || CollisionIn(h, AllPreimages(h, shape, known, keys))
    decreases |ops| - i
  {
    hide GenStep, CleanStep, LedgerStep, GenLedgerStep, LedgerCleanStep, MidLedger, RootTruth, Readable, Separated,
         AllPreimages, Half, OpKeys;
    if i < |ops| {
      var o, rootOf := HonestOracle(h, shape, known), TreeRoot(h, shape);
      CleanIsCleanLedger(h, shape, known, l, ops[i], keys);
      if LedgerCleanStep(shape, l, ops[i]) {
        CleanStepLedgers(shape, l, ops, i);
        HonestOracleIsTruthful(h, shape, known);
        StepSimulates(h, o, rootOf, known, l, ops[i]);
        CleanRunIsCleanLedger(h, shape, known, LedgerStep(l, ops[i]), ops, i + 1, keys);
      }
    }
  }

  /** A tree of two or more leaves stays one. */
  lemma StepKeepsNode(t: Tree, op: Op, at: PathPair)
    requires t.Node? && TreeStep(t, op, at).Some?
    ensures TreeStep(t, op, at).value.Node?
  {}

  /**
   On such a tree a guest root that is the digest of a new account is a collision: nodes are hashed from 64
   bytes, accounts from 48.
   */
  lemma {:induction false} FreshHitsCollide(h: Hasher, t: Tree, ops: seq<Op>, pairs: seq<ProofPair>, i: nat,
                                            keys: set<Hash>)
    requires i <= |ops| == |pairs| && t.Node? && FreshHits(h, Root(h, t), ops, pairs, i)
    requires forall j :: i <= j < |ops| ==> OpKeys(ops[j]) <= keys && pairs[j].first.Some?
    ensures CollisionIn(h, RunPreimages(h, t, ops, pairs, i) + NewBytes(keys))
    decreases |ops| - i
  {
    hide TreeStep, GuestStep, StepPreimages, TreePreimages, OpKeys;
    var all := RunPreimages(h, t, ops, pairs, i) + NewBytes(keys);
    if FreshHit(h, ops[i], Root(h, t)) {
      FreshHitCollides(h, t, ops[i], pairs[i], keys);
      CollisionMonotone(h, StepPreimages(h, t, ops[i], pairs[i]) + NewBytes(keys), all);
    } else {
      StepSound(h, t, ops[i], pairs[i]);
      if CollisionIn(h, StepPreimages(h, t, ops[i], pairs[i])) {
        CollisionMonotone(h, StepPreimages(h, t, ops[i], pairs[i]), all);
      } else {
        var t' := TreeStep(t, ops[i], PathsOf(pairs)[i]).value;
        StepKeepsNode(t, ops[i], PathsOf(pairs)[i]);
        FreshHitsCollide(h, t', ops, pairs, i + 1, keys);
        CollisionMonotone(h, RunPreimages(h, t', ops, pairs, i + 1) + NewBytes(keys), all);
      }
    }
  }

  lemma FreshHitCollides(h: Hasher, t: Tree, op: Op, pair: ProofPair, keys: set<Hash>)
    requires t.Node? && FreshHit(h, op, Root(h, t)) && OpKeys(op) <= keys && pair.first.Some?
    ensures CollisionIn(h, StepPreimages(h, t, op, pair) + NewBytes(keys))
  {
    var x := AccountBytes(NewAccount(FirstKey(op).value));
    assert x in NewBytes(keys);
    Collide(h, RootBytes(h, t), x, StepPreimages(h, t, op, pair) + NewBytes(keys));
  }

  lemma {:induction false} GeneratedFirsts(h: Hasher, o: Oracle, root: Hash, ops: seq<Op>, i: nat)
    requires i <= |ops| && GenRun(h, o, root, ops, i).Ok?
    ensures var pairs := GenRun(h, o, root, ops, i).value.pairs;
      forall j :: 0 <= j < |pairs| ==> pairs[j].first.Some?
    decreases |ops| - i
  {
    if i < |ops| { GeneratedFirsts(h, o, GenStep(h, o, root, ops[i]).value.root, ops, i + 1); }
  }

  /** The ways in which a block that is not clean could still get through. */
  ghost predicate Exception(h: Hasher, shape: Tree, l: Ledger, ops: seq<Op>) {
    var known, pre := CleanTrail(shape, l, ops, 0), Root(h, Populate(shape, l));
    var o := HonestOracle(h, shape, known);
    var run := GenRun(h, o, pre, ops, 0);
    || ZeroDigestIn(h, KnownPreimages(h, shape, known))
    || CollisionIn(h, AllPreimages(h, shape, known, BlockKeys(ops)))
    || (run.Ok? && CollisionIn(h, RunFolds(h, o, pre, ops, 0)))
    || (run.Ok? && FreshException(h, shape, l, ops, run.value.pairs))
  }

  /** A guest root that is the digest of a new account; on two or more leaves that is a collision. */
  ghost predicate FreshException(h: Hasher, shape: Tree, l: Ledger, ops: seq<Op>, pairs: seq<ProofPair>)
    requires |ops| == |pairs|
  {
    if shape.Leaf? then FreshHits(h, Root(h, Populate(shape, l)), ops, pairs, 0)
    else CollisionIn(h, RunPreimages(h, Populate(shape, l), ops, pairs, 0) + NewBytes(BlockKeys(ops)))
  }

  lemma FreshIsException(h: Hasher, o: Oracle, shape: Tree, l: Ledger, ops: seq<Op>)
    requires var pre := Root(h, Populate(shape, l));
      var run := GenRun(h, o, pre, ops, 0); run.Ok? && FreshHits(h, pre, ops, run.value.pairs, 0)
    ensures FreshException(h, shape, l, ops, GenRun(h, o, Root(h, Populate(shape, l)), ops, 0).value.pairs)
  {
    hide GenRun, FreshHits, RunPreimages, OpKeys;
    var pre := Root(h, Populate(shape, l));
    GeneratedFirsts(h, o, pre, ops, 0);
    if shape.Node? {
      FreshHitsCollide(h, Populate(shape, l), ops, GenRun(h, o, pre, ops, 0).value.pairs, 0, BlockKeys(ops));
    }
  }

  /**
   Which blocks can be proved, exactly. On a full tree whose accounts carry their ids: the generator
   finishes and the guest returns its root if and only if the block is clean on the ledger. The exceptions
   are collisions and an all-zero digest in explicit sets, and on a tree of one leaf a guest root that is the
   digest of a new account.
   */
  lemma BlockProvableIff(h: Hasher, shape: Tree, l: Ledger, ops: seq<Op>)
    requires Distinct(shape) && Keyed(shape, l) && Named(l)
    ensures
      var pre := Root(h, Populate(shape, l));
      var run := GenRun(h, HonestOracle(h, shape, CleanTrail(shape, l, ops, 0)), pre, ops, 0);
      || ((run.Ok? && GuestRun(h, pre, ops, run.value.pairs, 0) == Done(run.value.root)) <==>
          LedgerClean(shape, l, ops, 0))
      || Exception(h, shape, l, ops)
  {
    hide GenRun, GuestRun, LedgerRun, LedgerClean, CleanRun, RunFolds, FreshHits, Separated, RootTruth, Readable,
         Sourced, AllPreimages, KnownPreimages, FreshException, BlockKeys, HonestOracle, Keyed, NonZero, Root,
         CollisionIn, ZeroDigestIn;
    CleanTrailKeeps(shape, l, ops, 0);
    var known, pre, keys := CleanTrail(shape, l, ops, 0), Root(h, Populate(shape, l)), BlockKeys(ops);
    var o := HonestOracle(h, shape, known);
    NonZeroOrDigest(h, shape, known);
    if NonZero(h, shape, known) { SeparatedOrAllCollision(h, shape, known, keys); }
    if Separated(h, shape, known) {
      HonestOracleIsTruthful(h, shape, known);
      if LedgerClean(shape, l, ops, 0) { CleanBlock(h, shape, known, l, ops, 0); }
      if GenRun(h, o, pre, ops, 0).Ok? {
        var pairs := GenRun(h, o, pre, ops, 0).value.pairs;
        assert pairs[0..] == pairs;
        GuestAcceptsIff(h, o, pre, ops, pairs, 0);
        if FreshHits(h, pre, ops, pairs, 0) { FreshIsException(h, o, shape, l, ops); }
        if CleanRun(h, o, pre, ops, 0) {
          assert forall j :: 0 <= j < |ops| ==> OpKeys(ops[j]) <= keys by { KeysOfOps(ops); }
          CleanRunIsCleanLedger(h, shape, known, l, ops, 0, keys);
        }
      }
    }
  }

  lemma KeysOfOps(ops: seq<Op>)
    ensures forall j :: 0 <= j < |ops| ==> OpKeys(ops[j]) <= BlockKeys(ops)
  {}

  lemma SeparatedOrAllCollision(h: Hasher, shape: Tree, known: set<Ledger>, keys: set<Hash>)
    requires Fitting(h, shape, known)
    ensures Separated(h, shape, known) || CollisionIn(h, AllPreimages(h, shape, known, keys))
  {
    SeparatedOrCollision(h, shape, known);
    if CollisionIn(h, KnownPreimages(h, shape, known)) {
      CollisionMonotone(h, KnownPreimages(h, shape, known), AllPreimages(h, shape, known, keys));
    }
  }

  // ---- The guest against the ledger ----

  /** The operation's proofs stand at the leaves of the accounts it names, which the guest never checks. */
  predicate NamesItsLeaves(shape: Tree, op: Op, at: PathPair) {
    match op
    case DepositOp(d) => d.to in Ids(shape) && at.first == PathTo(shape, d.to)
    case _ =>
      var t := TransferOf(op);
      t.Some? ==>
        && t.value.from in Ids(shape) && at.first == PathTo(shape, t.value.from)
        && t.value.to in Ids(shape) && at.second == PathTo(shape, t.value.to)
  }

  /** A successful transfer credits an account that is new. */
  predicate NewRecipient(l: Ledger, op: Op) {
    var t := TransferOf(op);
    t.Some? && t.value.from in l ==>
      var r := Settle(l[t.value.from], NewAccount(t.value.to), t.value);
      r.Ok? && r.value.Success? ==> AccountOrNew(l, t.value.to) == NewAccount(t.value.to)
  }

  predicate NewRecipients(l: Ledger, ops: seq<Op>, i: nat)
    requires i <= |ops|
    decreases |ops| - i
  {
    i < |ops| ==> NewRecipient(l, ops[i]) && NewRecipients(LedgerStep(l, ops[i]), ops, i + 1)
  }

  /** With a new recipient the guest and the executor settle a transfer alike. */
  lemma NewRecipientVerdict(l: Ledger, tx: Transaction)
    requires tx.from in l && NewRecipient(l, TxOp(tx)) && Settle(l[tx.from], NewAccount(tx.to), tx).Ok?
    ensures Verdict(l, tx) == Some(Settle(l[tx.from], NewAccount(tx.to), tx).value)
  {}

  lemma TreeTransferIsLedgerTransfer(shape: Tree, l: Ledger, tx: Transaction, at: PathPair)
    requires Distinct(shape) && Keyed(shape, l)
    requires NamesItsLeaves(shape, TxOp(tx), at) && NewRecipient(l, TxOp(tx))
    requires TreeTransfer(Populate(shape, l), tx, at).Some?
    ensures TreeTransfer(Populate(shape, l), tx, at).value == Populate(shape, LedgerTransfer(l, tx))
    ensures Keyed(shape, LedgerTransfer(l, tx))
  {
    hide Settle, Populate, Update, LeafAt, PathTo, NewRecipient, Verdict, Ids;
    PopulateLeaf(shape, l, tx.from);
    NewRecipientVerdict(l, tx);
    var r := Settle(l[tx.from], NewAccount(tx.to), tx).value;
    PopulateUpdate(shape, l, tx.from, r.from);
    if r.Success? {
      PopulateUpdate(shape, l[tx.from := r.from], tx.to, r.to);
      RecordIsTwoWrites(l, tx, r);
    }
  }

  /** The one self-payment that the guest and the executor both turn into nothing. */
  predicate EmptiedAndRefilled(l: Ledger, tx: Transaction) {
    && tx.from == tx.to && AccountOrNew(l, tx.to) == Account(tx.to, tx.amount, 0)
    && 2 * tx.amount >= U64_SIZE
  }

  /**
   The premise on recipients is exact: a transfer that the guest lets succeed leaves the tree of the
   executor's ledger if and only if the recipient was new; otherwise its old balance and nonce are gone.
   The one exception is an account paying its whole balance of at least 2^63 to itself at nonce zero, which
   the executor refuses as an overflow and the guest writes back as it was.
   */
  lemma NewRecipientIsExact(shape: Tree, l: Ledger, tx: Transaction, at: PathPair)
    requires Distinct(shape) && Keyed(shape, l) && NamesItsLeaves(shape, TxOp(tx), at)
    requires var r := Settle(l[tx.from], NewAccount(tx.to), tx); r.Ok? && r.value.Success?
    ensures TreeTransfer(Populate(shape, l), tx, at).Some?
    ensures
      var t' := TreeTransfer(Populate(shape, l), tx, at).value;
      && LeafAt(t', at.second) == Some(Account(tx.to, tx.amount, 0))
      && (t' == Populate(shape, LedgerTransfer(l, tx)) <==>
          AccountOrNew(l, tx.to) == NewAccount(tx.to) || EmptiedAndRefilled(l, tx))
  {
    hide Populate, Update, LeafAt, PathTo, Ids;
    var r := Settle(l[tx.from], NewAccount(tx.to), tx).value;
    var mid := l[tx.from := r.from];
    var end, l' := mid[tx.to := r.to], LedgerTransfer(l, tx);
    PopulateLeaf(shape, l, tx.from);
    PopulateUpdate(shape, l, tx.from, r.from);
    PopulateLeaf(shape, mid, tx.to);
    PopulateUpdate(shape, mid, tx.to, r.to);
    PopulateLeaf(shape, end, tx.to);
    PopulateLeaf(shape, l', tx.to);
    PopulateLeaf(shape, end, tx.from);
    PopulateLeaf(shape, l', tx.from);
    if AccountOrNew(l, tx.to) == NewAccount(tx.to) { RecordIsTwoWrites(l, tx, r); }
    if EmptiedAndRefilled(l, tx) { assert end == l == l'; }
  }

  lemma TreeStepIsLedgerStep(shape: Tree, l: Ledger, op: Op, at: PathPair)
    requires Distinct(shape) && Keyed(shape, l) && NamesItsLeaves(shape, op, at) && NewRecipient(l, op)
    requires TreeStep(Populate(shape, l), op, at).Some?
    ensures TreeStep(Populate(shape, l), op, at).value == Populate(shape, LedgerStep(l, op))
    ensures Keyed(shape, LedgerStep(l, op))
  {
    if op.DepositOp? {
      var d := op.deposit;
      PopulateLeaf(shape, l, d.to);
      PopulateUpdate(shape, l, d.to, Credit(AccountOrNew(l, d.to), d.amount).value);
    } else if TransferOf(op).Some? {
      TreeTransferIsLedgerTransfer(shape, l, TransferOf(op).value, at);
    }
  }

  lemma {:induction false} TreeRunIsLedgerRun(shape: Tree, l: Ledger, ops: seq<Op>, paths: seq<PathPair>, i: nat)
    requires i <= |ops| == |paths| && Distinct(shape) && Keyed(shape, l)
    requires forall j :: i <= j < |ops| ==> NamesItsLeaves(shape, ops[j], paths[j])
    requires NewRecipients(l, ops, i) && TreeRun(Populate(shape, l), ops, paths, i).Some?
    ensures TreeRun(Populate(shape, l), ops, paths, i).value == Populate(shape, LedgerRun(l, ops, i))
    decreases |ops| - i
  {
    if i < |ops| {
      TreeStepIsLedgerStep(shape, l, ops[i], paths[i]);
      TreeRunIsLedgerRun(shape, LedgerStep(l, ops[i]), ops, paths, i + 1);
    }
  }

  /**
   The guest against any prover: whatever proofs it is fed, if it accepts a block and the proofs stand at
   the leaves of the accounts named by the block, the root it returns is the root of the executor's final
   ledger, provided transfers credit new accounts; or the hashed strings contain a collision.
   */
  lemma GuestRefinesLedger(h: Hasher, shape: Tree, l: Ledger, ops: seq<Op>, pairs: seq<ProofPair>)
    requires |ops| == |pairs| && Distinct(shape) && Keyed(shape, l)
    requires forall j :: 0 <= j < |ops| ==> NamesItsLeaves(shape, ops[j], PathsOf(pairs)[j])
    requires NewRecipients(l, ops, 0)
    requires GuestRun(h, Root(h, Populate(shape, l)), ops, pairs, 0).Done?
    ensures
      || GuestRun(h, Root(h, Populate(shape, l)), ops, pairs, 0) == Done(Root(h, Populate(shape, LedgerRun(l, ops, 0))))
      || CollisionIn(h, RunPreimages(h, Populate(shape, l), ops, pairs, 0))
  {
    GuestSound(h, Populate(shape, l), ops, pairs, 0);
    if TreeRun(Populate(shape, l), ops, PathsOf(pairs), 0).Some? {
      TreeRunIsLedgerRun(shape, l, ops, PathsOf(pairs), 0);
    }
  }
}
