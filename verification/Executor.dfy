/** The optimistic executor: a write-back account cache over a state tree. */
module Executor {
  import opened Encoding
  import opened Stf
  import opened Ledger
  import M = Merkle

  datatype CoreError =
    | DatabaseError
    | AccountNotFound(key: Hash)
    | AccountDataCorrupted(key: Hash)
    | ProofNotFound(key: Hash)
    | StfFailure(error: StfError)

  type CoreResult<+T> = Result<T, CoreError>

  /** What `get_account` finds under a key. */
  datatype Lookup = Found(account: Account) | NotFound | Unreadable(error: CoreError)

  type Reader = Hash -> Lookup

  // ---- The uncached reference ----

  /** The state as seen through the writes of this block. */
  function View(base: Reader, writes: Ledger, k: Hash): Lookup {
    if k in writes then Found(writes[k]) else base(k)
  }

  /** One operation applied to the writes of a block, or the read error that aborts it. */
  function ExecDeposit(base: Reader, writes: Ledger, d: Deposit): CoreResult<Ledger> {
    var v := View(base, writes, d.to);
    if v.Unreadable? then Err(v.error)
    else
      var r := Credit(if v.Found? then v.account else NewAccount(d.to), d.amount);
      Ok(if r.Ok? then writes[d.to := r.value] else writes)
  }

  /** A recipient that cannot be read for any reason counts as new. */
  function ExecTransfer(base: Reader, writes: Ledger, tx: Transaction): CoreResult<Ledger> {
    var from, to := View(base, writes, tx.from), View(base, writes, tx.to);
    match from
    case Unreadable(e) => Err(e)
    case NotFound => Ok(writes)
    case Found(a) =>
      var r := Settle(a, if to.Found? then to.account else NewAccount(tx.to), tx);
      Ok(if r.Ok? then Record(writes, tx, r.value) else writes)
  }

  function ExecStep(base: Reader, writes: Ledger, op: Op): CoreResult<Ledger> {
    match op
    case DepositOp(d) => ExecDeposit(base, writes, d)
    case ForcedOp(f) => if f.from == ZERO_HASH then Ok(writes) else ExecTransfer(base, writes, f.Order())
    case TxOp(tx) => ExecTransfer(base, writes, tx)
  }

  function ExecRun(base: Reader, writes: Ledger, ops: seq<Op>, i: nat): CoreResult<Ledger>
    requires i <= |ops|
    decreases |ops| - i
  {
    if i == |ops| then Ok(writes)
    else
      var r := ExecStep(base, writes, ops[i]);
      if r.Err? then r else ExecRun(base, r.value, ops, i + 1)
  }

  /** `base` answers every key truthfully from `l`. */
  ghost predicate Truthful(base: Reader, l: Ledger) {
    forall k :: base(k) == if k in l then Found(l[k]) else NotFound
  }

  /** Over a truthful base the block's writes, laid over the ledger, are what the ledger rules give. */
  lemma {:induction false} ExecRefinesLedger(base: Reader, l: Ledger, writes: Ledger, ops: seq<Op>, i: nat)
    requires i <= |ops| && Truthful(base, l)
    ensures ExecRun(base, writes, ops, i).Ok?
    ensures l + ExecRun(base, writes, ops, i).value == LedgerRun(l + writes, ops, i)
    decreases |ops| - i
  {
    if i < |ops| {
      ExecStepRefines(base, l, writes, ops[i]);
      ExecRefinesLedger(base, l, ExecStep(base, writes, ops[i]).value, ops, i + 1);
    }
  }

  lemma PutOver(l: Ledger, writes: Ledger, k: Hash, a: Account)
    ensures l + writes[k := a] == (l + writes)[k := a]
  {}

  lemma RecordOver(l: Ledger, writes: Ledger, tx: Transaction, r: TransferResult)
    ensures l + Record(writes, tx, r) == Record(l + writes, tx, r)
  {
    match r
    case Failure(a) => PutOver(l, writes, tx.from, a);
    case Success(a, b) =>
      PutOver(l, writes, tx.from, b);
      PutOver(l, writes, tx.from, a);
      PutOver(l, writes[tx.from := a], tx.to, b);
  }

  lemma ViewIsLedger(base: Reader, l: Ledger, writes: Ledger, k: Hash)
    requires Truthful(base, l)
    ensures View(base, writes, k) == if k in l + writes then Found((l + writes)[k]) else NotFound
  {
    assert base(k) == if k in l then Found(l[k]) else NotFound;
  }

  lemma ExecTransferRefines(base: Reader, l: Ledger, writes: Ledger, tx: Transaction)
    requires Truthful(base, l)
    ensures ExecTransfer(base, writes, tx).Ok?
    ensures l + ExecTransfer(base, writes, tx).value == LedgerTransfer(l + writes, tx)
  {
    ViewIsLedger(base, l, writes, tx.from);
    ViewIsLedger(base, l, writes, tx.to);
    if Verdict(l + writes, tx).Some? { RecordOver(l, writes, tx, Verdict(l + writes, tx).value); }
  }

  lemma ExecStepRefines(base: Reader, l: Ledger, writes: Ledger, op: Op)
    requires Truthful(base, l)
    ensures ExecStep(base, writes, op).Ok?
    ensures l + ExecStep(base, writes, op).value == LedgerStep(l + writes, op)
  {
    if op.DepositOp? {
      var d := op.deposit;
      ViewIsLedger(base, l, writes, d.to);
      var r := Credit(AccountOrNew(l + writes, d.to), d.amount);
      if r.Ok? { PutOver(l, writes, d.to, r.value); }
    } else if TransferOf(op).Some? {
      ExecTransferRefines(base, l, writes, TransferOf(op).value);
    }
  }

  // ---- The state tree ----

  type Leaves = map<Hash, Hash>

  function Digests(h: Hasher, accounts: Ledger): Leaves {
    map k | k in accounts :: M.AccountHash(h, accounts[k])
  }

  function Overlay(h: Hasher, base: Leaves, accounts: Ledger): Leaves { base + Digests(h, accounts) }

  lemma DigestsOver(h: Hasher, l: Ledger, writes: Ledger)
    ensures Overlay(h, Digests(h, l), writes) == Digests(h, l + writes)
  {}

  function InsertAll(base: Leaves, keys: seq<Hash>, leaves: seq<Hash>): Leaves
    requires |keys| == |leaves|
  {
    if keys == [] then base
    else
      var n := |keys| - 1;
      InsertAll(base, keys[..n], leaves[..n])[keys[n] := leaves[n]]
  }

  lemma InSplit<T>(s: seq<T>, x: T)
    requires s != []
    ensures x in s <==> x in s[..|s| - 1] || x == s[|s| - 1]
  {
    assert s == s[..|s| - 1] + [s[|s| - 1]];
  }

  predicate Lists(keys: seq<Hash>, leaves: seq<Hash>, digests: Leaves) {
    |keys| == |leaves| && forall i :: 0 <= i < |keys| ==> keys[i] in digests && leaves[i] == digests[keys[i]]
  }

  lemma {:induction false} InsertAllAt(base: Leaves, keys: seq<Hash>, leaves: seq<Hash>, digests: Leaves, k: Hash)
    requires Lists(keys, leaves, digests)
    ensures k in InsertAll(base, keys, leaves) <==> k in base || k in keys
    ensures k in keys ==> k in digests && InsertAll(base, keys, leaves)[k] == digests[k]
    ensures k in base && k !in keys ==> InsertAll(base, keys, leaves)[k] == base[k]
  {
    if keys != [] {
      var n := |keys| - 1;
      InSplit(keys, k);
      InsertAllAt(base, keys[..n], leaves[..n], digests, k);
    }
  }

  /** Inserting the accounts key by key gives the overlay, whatever the order of the keys. */
  lemma InsertAllIsOverlay(h: Hasher, base: Leaves, keys: seq<Hash>, leaves: seq<Hash>, accounts: Ledger)
    requires Lists(keys, leaves, Digests(h, accounts))
    requires forall k :: k in keys <==> k in accounts
    ensures InsertAll(base, keys, leaves) == Overlay(h, base, accounts)
  {
    var r, o := InsertAll(base, keys, leaves), Overlay(h, base, accounts);
    forall k ensures k in r <==> k in o {
      InsertAllAt(base, keys, leaves, Digests(h, accounts), k);
    }
    forall k | k in r ensures r[k] == o[k] {
      InsertAllAt(base, keys, leaves, Digests(h, accounts), k);
    }
  }

  function Read(versions: map<Hash, Leaves>, decode: Hash -> Option<Account>, root: Hash, key: Hash): Lookup {
    if root == ZERO_HASH then NotFound
    else if root !in versions then Unreadable(DatabaseError)
    else if key !in versions[root] then NotFound
    else match decode(versions[root][key])
      case None => Unreadable(AccountDataCorrupted(key))
      case Some(a) => Found(a)
  }

  function ReaderOf(versions: map<Hash, Leaves>, decode: Hash -> Option<Account>, root: Hash): Reader {
    (k: Hash) => Read(versions, decode, root, k)
  }

  function LeavesAt(versions: map<Hash, Leaves>, root: Hash): Leaves {
    if root != ZERO_HASH && root in versions then versions[root] else map[]
  }

  ghost predicate HoldsLedger(h: Hasher, versions: map<Hash, Leaves>, decode: Hash -> Option<Account>,
                              root: Hash, l: Ledger) {
    && (root == ZERO_HASH || root in versions) && LeavesAt(versions, root) == Digests(h, l)
    && forall k :: k in l ==> decode(M.AccountHash(h, l[k])) == Some(l[k])
  }

  /** Such a tree answers every key truthfully. */
  lemma HoldsIsTruthful(h: Hasher, versions: map<Hash, Leaves>, decode: Hash -> Option<Account>, root: Hash, l: Ledger)
    requires HoldsLedger(h, versions, decode, root, l)
    ensures Truthful(ReaderOf(versions, decode, root), l)
  {
    var leaves := LeavesAt(versions, root);
    forall k ensures ReaderOf(versions, decode, root)(k) == if k in l then Found(l[k]) else NotFound {
      assert k in leaves <==> k in l;
    }
  }

  /** What a cache may hold: the writes, and beside them accounts as the tree told them. */
  ghost predicate CacheOf(base: Reader, writes: Ledger, cache: Ledger) {
    && (forall k :: k in writes ==> k in cache && cache[k] == writes[k])
    && (forall k :: k in cache && k !in writes ==> base(k) == Found(cache[k]))
  }

  /** Accounts that were only read are written back as they were. */
  lemma ReadsAreNoWrites(h: Hasher, base: Reader, l: Ledger, writes: Ledger, cache: Ledger)
    requires Truthful(base, l) && CacheOf(base, writes, cache)
    ensures Overlay(h, Digests(h, l), cache) == Digests(h, l + writes)
  {
    forall k | k in cache && k !in writes ensures k in l && cache[k] == l[k] {
      assert base(k) == Found(cache[k]);
    }
    assert l + cache == l + writes;
    DigestsOver(h, l, cache);
  }

  /**
   The state tree, with its node store reduced to the leaves under each root. How leaves determine a
   root and how a leaf is decoded as an account are left open.
   */
  class StateTree {
    const h: Hasher
    const rootOf: Leaves -> Hash
    const decode: Hash -> Option<Account>
    var versions: map<Hash, Leaves>

    constructor (h: Hasher, rootOf: Leaves -> Hash, decode: Hash -> Option<Account>)
      ensures this.h == h && this.rootOf == rootOf && this.decode == decode && versions == map[]
    {
      this.h, this.rootOf, this.decode, this.versions := h, rootOf, decode, map[];
    }

    /** Every stored version is filed under its root, and the empty tree has the all-zero root. */
    ghost predicate Valid()
      reads this
    {
      rootOf(map[]) == ZERO_HASH && forall r :: r in versions ==> rootOf(versions[r]) == r
    }

    /** Under `root` the tree holds the digests of `l`, which decode to the accounts of `l`. */
    ghost predicate Holds(root: Hash, l: Ledger)
      reads this
    {
      HoldsLedger(h, versions, decode, root, l)
    }

    method Inserts(root: Hash, keys: seq<Hash>, leaves: seq<Hash>) returns (r: CoreResult<Hash>)
      requires |keys| == |leaves|
      modifies this
      ensures root != ZERO_HASH && root !in old(versions) ==> r == Err(DatabaseError) && versions == old(versions)
      ensures root == ZERO_HASH || root in old(versions) ==>
        var all := InsertAll(LeavesAt(old(versions), root), keys, leaves);
        r == Ok(rootOf(all)) && versions == old(versions)[rootOf(all) := all]
    {
      if root != ZERO_HASH && root !in versions { return Err(DatabaseError); }
      var all: Leaves := LeavesAt(versions, root);
      for i := 0 to |keys|
        invariant all == InsertAll(LeavesAt(versions, root), keys[..i], leaves[..i])
        invariant versions == old(versions)
      {
        assert keys[..i + 1][..i] == keys[..i] && leaves[..i + 1][..i] == leaves[..i];
        all := all[keys[i] := leaves[i]];
      }
      assert keys[..|keys|] == keys && leaves[..|leaves|] == leaves;
      versions := versions[rootOf(all) := all];
      return Ok(rootOf(all));
    }
  }

  // ---- The decoder the code really uses ----

  function Reversed(s: Bytes): (r: Bytes)
    ensures |r| == |s|
  {
    seq(|s|, i requires 0 <= i < |s| => s[|s| - 1 - i])
  }

  function LittleEndianU64(s: Bytes): U64
    requires |s| == 8
  {
    FromBigEndianBound(Reversed(s));
    Pow256Widths();
    FromBigEndian(Reversed(s))
  }

  /** bincode of an account: 32 bytes of id, then balance and nonce in 8 bytes each; shorter input fails. */
  function BincodeAccount(leaf: Bytes): Option<Account> {
    if |leaf| < 48 then None
    else Some(Account(leaf[..32], LittleEndianU64(leaf[32..40]), LittleEndianU64(leaf[40..48])))
  }

  /** Decoding reads back what encoding wrote, so it is the width alone that fails on leaves. */
  lemma BincodeRoundTrip(a: Account)
    ensures BincodeAccount(a.id + Reversed(BigEndian(a.balance, 8)) + Reversed(BigEndian(a.nonce, 8))) == Some(a)
  {
    hide BigEndian, FromBigEndian, Pow256;
    var x, y := BigEndian(a.balance, 8), BigEndian(a.nonce, 8);
    var leaf := a.id + Reversed(x) + Reversed(y);
    assert leaf[..32] == a.id && leaf[32..40] == Reversed(x) && leaf[40..48] == Reversed(y);
    assert Reversed(Reversed(x)) == x && Reversed(Reversed(y)) == y;
    Pow256Widths();
    BigEndianRoundTrip(a.balance, 8);
    BigEndianRoundTrip(a.nonce, 8);
  }

  function BincodeLeaf(): Hash -> Option<Account> { (leaf: Hash) => BincodeAccount(leaf) }

  /** No account can be read under this key: a leaf is stored there, or the root is not in the tree. */
  predicate Blocked(versions: map<Hash, Leaves>, root: Hash, k: Hash) {
    root != ZERO_HASH && (root in versions ==> k in versions[root])
  }

  /** Leaves are 32-byte digests and an encoded account has 48 bytes, so no leaf decodes. */
  lemma NoLeafDecodes(versions: map<Hash, Leaves>, root: Hash, k: Hash)
    ensures var found := ReaderOf(versions, BincodeLeaf(), root)(k);
      found == if !Blocked(versions, root, k) then NotFound
               else Unreadable(if root in versions then AccountDataCorrupted(k) else DatabaseError)
  {
    if root in versions && k in versions[root] { assert BincodeLeaf()(versions[root][k]) == None; }
  }

  /** The operation deposits to or spends from a blocked account that this block has not written itself. */
  predicate NeedsBlocked(versions: map<Hash, Leaves>, root: Hash, writes: Ledger, op: Op) {
    FirstKey(op).Some? && FirstKey(op).value !in writes && Blocked(versions, root, FirstKey(op).value)
  }

  predicate SomeNeedsBlocked(versions: map<Hash, Leaves>, root: Hash, writes: Ledger, ops: seq<Op>, i: nat)
    requires i <= |ops|
    decreases |ops| - i
  {
    i < |ops| &&
      (NeedsBlocked(versions, root, writes, ops[i]) ||
       SomeNeedsBlocked(versions, root, LedgerStep(writes, ops[i]), ops, i + 1))
  }

  /** The error that aborts a batch: that of the first such operation. */
  function BlockedError(versions: map<Hash, Leaves>, root: Hash, writes: Ledger, ops: seq<Op>, i: nat): CoreError
    requires i <= |ops| && SomeNeedsBlocked(versions, root, writes, ops, i)
    decreases |ops| - i
  {
    if !NeedsBlocked(versions, root, writes, ops[i])
    then BlockedError(versions, root, LedgerStep(writes, ops[i]), ops, i + 1)
    else if root in versions then AccountDataCorrupted(FirstKey(ops[i]).value) else DatabaseError
  }

  lemma UnreadableStep(versions: map<Hash, Leaves>, root: Hash, writes: Ledger, op: Op)
    ensures var step := ExecStep(ReaderOf(versions, BincodeLeaf(), root), writes, op);
      && (step.Err? <==> NeedsBlocked(versions, root, writes, op))
      && (step.Err? ==>
          step.error == if root in versions then AccountDataCorrupted(FirstKey(op).value) else DatabaseError)
      && (step.Ok? ==> step.value == LedgerStep(writes, op))
  {
    if FirstKey(op).Some? {
      NoLeafDecodes(versions, root, FirstKey(op).value);
      if TransferOf(op).Some? { NoLeafDecodes(versions, root, TransferOf(op).value.to); }
    }
  }

  /**
   The executor with the decoder it really has, for every batch: it is aborted exactly when some operation
   deposits to or spends from an account stored in the tree that the batch has not written itself, and a
   batch that is not aborted runs as on the empty ledger, whatever the tree holds.
   */
  lemma {:induction false} StoredAccountsUnreadable(versions: map<Hash, Leaves>, root: Hash, writes: Ledger,
                                                    ops: seq<Op>, i: nat)
    requires i <= |ops|
    ensures var run := ExecRun(ReaderOf(versions, BincodeLeaf(), root), writes, ops, i);
      && (run.Err? <==> SomeNeedsBlocked(versions, root, writes, ops, i))
      && (run.Err? ==> run.error == BlockedError(versions, root, writes, ops, i))
      && (run.Ok? ==> run.value == LedgerRun(writes, ops, i))
    decreases |ops| - i
  {
    hide ExecStep, LedgerStep, NeedsBlocked;
    if i < |ops| {
      UnreadableStep(versions, root, writes, ops[i]);
      StoredAccountsUnreadable(versions, root, LedgerStep(writes, ops[i]), ops, i + 1);
    }
  }

  /** The operation credits an account of `l` that was not written yet, as if it were new. */
  predicate Overwrites(l: Ledger, writes: Ledger, op: Op) {
    var t := TransferOf(op);
    && t.Some? && t.value.from in writes && t.value.to in l && t.value.to !in writes
    && l[t.value.to] != NewAccount(t.value.to)
    && var r := Settle(writes[t.value.from], NewAccount(t.value.to), t.value); r.Ok? && r.value.Success?
  }

  predicate SomeOverwrites(l: Ledger, writes: Ledger, ops: seq<Op>, i: nat)
    requires i <= |ops|
    decreases |ops| - i
  {
    i < |ops| && (Overwrites(l, writes, ops[i]) || SomeOverwrites(l, LedgerStep(writes, ops[i]), ops, i + 1))
  }

  /**
   On a stored ledger, a step that is not an abort does what the ledger rules say exactly when it does not
   overwrite a stored recipient.
   */
  lemma OverwriteIsExact(l: Ledger, writes: Ledger, op: Op)
    requires FirstKey(op).Some? ==> FirstKey(op).value in writes || FirstKey(op).value !in l
    ensures l + LedgerStep(writes, op) == LedgerStep(l + writes, op) <==> !Overwrites(l, writes, op)
  {
    if op.DepositOp? {
      var r := Credit(AccountOrNew(l + writes, op.deposit.to), op.deposit.amount);
      if r.Ok? { PutOver(l, writes, op.deposit.to, r.value); }
    } else if TransferOf(op).Some? && TransferOf(op).value.from in writes {
      var tx := TransferOf(op).value;
      var r := Settle(writes[tx.from], AccountOrNew(writes, tx.to), tx);
      if Overwrites(l, writes, op) {
        OverwriteDiffers(l, writes, tx);
      } else if r.Ok? {
        RecordOver(l, writes, tx, r.value);
      }
    }
  }

  lemma OverwriteDiffers(l: Ledger, writes: Ledger, tx: Transaction)
    requires Overwrites(l, writes, TxOp(tx))
    ensures l + LedgerTransfer(writes, tx) != LedgerTransfer(l + writes, tx)
  {
    var a, b := l + LedgerTransfer(writes, tx), LedgerTransfer(l + writes, tx);
    assert a[tx.to] == Account(tx.to, tx.amount, 0) && a[tx.from].nonce != writes[tx.from].nonce;
    if Verdict(l + writes, tx).None? { assert b[tx.from] == writes[tx.from]; }
  }

  /** So a batch that is neither aborted nor overwrites a stored recipient does what the ledger rules say. */
  lemma {:induction false} UnreadableBatchOnLedger(h: Hasher, versions: map<Hash, Leaves>, root: Hash, l: Ledger,
                                                   writes: Ledger, ops: seq<Op>, i: nat)
    requires i <= |ops| && (root == ZERO_HASH || root in versions) && LeavesAt(versions, root) == Digests(h, l)
    requires !SomeNeedsBlocked(versions, root, writes, ops, i) && !SomeOverwrites(l, writes, ops, i)
    ensures l + LedgerRun(writes, ops, i) == LedgerRun(l + writes, ops, i)
    decreases |ops| - i
  {
    hide LedgerStep, Overwrites;
    if i < |ops| {
      assert forall k :: k in Digests(h, l) <==> k in l;
      OverwriteIsExact(l, writes, ops[i]);
      UnreadableBatchOnLedger(h, versions, root, l, LedgerStep(writes, ops[i]), ops, i + 1);
    }
  }

  // ---- The cached executor ----

  lemma BatchLayout(base: Reader, writes: Ledger, deposits: seq<Deposit>, forced: seq<ForcedTx>, txs: seq<Transaction>)
    returns (base': Reader, ops: seq<Op>, whole: CoreResult<Ledger>)
    ensures base' == base && |ops| == |deposits| + |forced| + |txs|
    ensures whole == ExecRun(base, writes, BlockOps(deposits, forced, txs), 0) == ExecRun(base, writes, ops, 0)
    ensures forall i :: 0 <= i < |deposits| ==> ops[i] == DepositOp(deposits[i])
    ensures forall i :: 0 <= i < |forced| ==> ops[|deposits| + i] == ForcedOp(forced[i])
    ensures forall i :: 0 <= i < |txs| ==> ops[|deposits| + |forced| + i] == TxOp(txs[i])
  {
    base', ops := base, BlockOps(deposits, forced, txs);
    whole := ExecRun(base, writes, ops, 0);
  }

  class BlockExecutor {
    const tree: StateTree
    const root: Hash
    var cache: Ledger
    /** The accounts this block really changed; the cache also holds accounts that were only read. */
    ghost var writes: Ledger

    function Base(): Reader
      reads tree
    {
      ReaderOf(tree.versions, tree.decode, root)
    }

    ghost predicate Valid()
      reads this, tree
    {
      CacheOf(Base(), writes, cache)
    }

    constructor (tree: StateTree, root: Hash)
      ensures Valid() && this.tree == tree && this.root == root && cache == map[] && writes == map[]
    {
      this.tree, this.root, this.cache, this.writes := tree, root, map[], map[];
    }

    /** Reading through the cache changes nothing that can be seen. */
    method GetAccount(address: Hash) returns (r: Lookup)
      requires Valid()
      modifies this`cache
      ensures Valid()
      ensures r == View(Base(), writes, address)
      ensures r.Found? ==> address in cache
    {
      if address in cache { return Found(cache[address]); }
      r := Read(tree.versions, tree.decode, root, address);
      if r.Found? { cache := cache[address := r.account]; }
    }

    method Put(key: Hash, account: Account)
      requires Valid()
      modifies this
      ensures Valid() && writes == old(writes)[key := account]
    {
      cache := cache[key := account];
      writes := writes[key := account];
    }

    method ApplyDeposit(deposit: Deposit) returns (r: CoreResult<()>)
      requires Valid()
      modifies this
      ensures Valid()
      ensures match ExecStep(Base(), old(writes), DepositOp(deposit))
        case Ok(w) => r == Ok(()) && writes == w
        case Err(e) => r == Err(e) && writes == old(writes)
    {
      var found := GetAccount(deposit.to);
      if found.Unreadable? { return Err(found.error); }
      var account := if found.Found? then found.account else NewAccount(deposit.to);
      var updated := Stf.ApplyDeposit(account, deposit);
      if updated.Ok? { Put(deposit.to, updated.value); }
      return Ok(());
    }

    method ApplyForcedTx(tx: ForcedTx) returns (r: CoreResult<()>)
      requires Valid()
      modifies this
      ensures Valid()
      ensures match ExecStep(Base(), old(writes), ForcedOp(tx))
        case Ok(w) => r == Ok(()) && writes == w
        case Err(e) => r == Err(e) && writes == old(writes)
    {
      if tx.from == ZERO_HASH { return Ok(()); }
      r := ApplyTransaction(tx.Order());
    }

    method ApplyTransaction(tx: Transaction) returns (r: CoreResult<()>)
      requires Valid()
      modifies this
      ensures Valid()
      ensures match ExecStep(Base(), old(writes), TxOp(tx))
        case Ok(w) => r == Ok(()) && writes == w
        case Err(e) => r == Err(e) && writes == old(writes)
    {
      var from := GetAccount(tx.from);
      if from.Unreadable? { return Err(from.error); }
      if from.NotFound? { return Ok(()); }
      var to := GetAccount(tx.to);
      var toAccount := if to.Found? then to.account else NewAccount(tx.to);
      var result := Stf.ApplyTransaction(from.account, toAccount, tx);
      match result {
        case Ok(Success(updatedFrom, updatedTo)) => UpdateCacheSuccess(tx.from, updatedFrom, tx.to, updatedTo);
        case Ok(Failure(updatedFrom)) => Put(tx.from, updatedFrom);
        case Err(_) =>
      }
      return Ok(());
    }

    method UpdateCacheSuccess(fromKey: Hash, fromAccount: Account, toKey: Hash, toAccount: Account)
      requires Valid()
      modifies this
      ensures Valid()
      ensures writes ==
        if fromKey == toKey then old(writes)[fromKey := toAccount]
        else old(writes)[fromKey := fromAccount][toKey := toAccount]
    {
      if fromKey == toKey {
        Put(fromKey, toAccount);
      } else {
        Put(fromKey, fromAccount);
        Put(toKey, toAccount);
      }
    }

    /** The three loops of a batch. */
    method RunAll(deposits: seq<Deposit>, forced: seq<ForcedTx>, txs: seq<Transaction>) returns (r: CoreResult<()>)
      requires Valid()
      modifies this
      ensures Valid()
      ensures match ExecRun(Base(), old(writes), BlockOps(deposits, forced, txs), 0)
        case Ok(w) => r == Ok(()) && writes == w
        case Err(e) => r == Err(e)
    {
      hide ExecStep;
      ghost var base, ops, whole := BatchLayout(Base(), writes, deposits, forced, txs);
      for i := 0 to |deposits|
        invariant Valid() && whole == ExecRun(base, writes, ops, i)
      {
        r := ApplyDeposit(deposits[i]);
        if r.Err? { return; }
      }
      for i := 0 to |forced|
        invariant Valid() && whole == ExecRun(base, writes, ops, |deposits| + i)
      {
        r := ApplyForcedTx(forced[i]);
        if r.Err? { return; }
      }
      for i := 0 to |txs|
        invariant Valid() && whole == ExecRun(base, writes, ops, |deposits| + |forced| + i)
      {
        r := ApplyTransaction(txs[i]);
        if r.Err? { return; }
      }
      r := Ok(());
    }

    /** The cached keys and their leaves, in an arbitrary order, as a HashMap is iterated. */
    method Drain() returns (keys: seq<Hash>, leaves: seq<Hash>)
      ensures Lists(keys, leaves, Digests(tree.h, cache))
      ensures forall k :: k in keys <==> k in cache
    {
      keys, leaves := [], [];
      var remaining := cache.Keys;
      while remaining != {}
        invariant remaining <= cache.Keys
        invariant Lists(keys, leaves, Digests(tree.h, cache))
        invariant forall k :: k in keys <==> k in cache && k !in remaining
      {
        var address :| address in remaining;
        remaining := remaining - {address};
        keys, leaves := keys + [address], leaves + [M.AccountHash(tree.h, cache[address])];
      }
    }

    method CommitBlock() returns (r: CoreResult<Hash>)
      requires Valid()
      modifies tree
      ensures cache == map[] ==> r == Ok(root) && tree.versions == old(tree.versions)
      ensures cache != map[] && root != ZERO_HASH && root !in old(tree.versions) ==>
        r == Err(DatabaseError) && tree.versions == old(tree.versions)
      ensures cache != map[] && (root == ZERO_HASH || root in old(tree.versions)) ==>
        var all := Overlay(tree.h, LeavesAt(old(tree.versions), root), cache);
        r == Ok(tree.rootOf(all)) && tree.versions == old(tree.versions)[tree.rootOf(all) := all]
    {
      if cache == map[] { return Ok(root); }
      var keys, leaves := Drain();
      InsertAllIsOverlay(tree.h, LeavesAt(tree.versions, root), keys, leaves, cache);
      r := tree.Inserts(root, keys, leaves);
    }
  }

  /** What a finished batch leaves behind, given the cache it ended with. */
  ghost predicate Committed(h: Hasher, rootOf: Leaves -> Hash, v: map<Hash, Leaves>, root: Hash, cache: Ledger,
                            v': map<Hash, Leaves>, root': Hash) {
    if cache == map[] then v' == v && root' == root
    else
      var all := Overlay(h, LeavesAt(v, root), cache);
      root' == rootOf(all) && v' == v[root' := all]
  }

  /** The batch ended in the root of `leaves`, and nothing else was filed. */
  ghost predicate BatchOf(rootOf: Leaves -> Hash, v: map<Hash, Leaves>, root: Hash, leaves: Leaves,
                          r: CoreResult<Hash>, v': map<Hash, Leaves>) {
    r == Ok(rootOf(leaves)) && ((v' == v && r.value == root) || v' == v[rootOf(leaves) := leaves])
  }

  /**
   Runs a batch. A read error aborts it with nothing written. Otherwise the writes of the uncached run, and
   beside them only accounts as they were read, are laid over the leaves under the old root; on a tree that
   holds a ledger the new root is the root of the digests of that ledger after the batch, and no other root
   is filed.
   */
  method ApplyOptimisticBatch(tree: StateTree, root: Hash, txs: seq<Transaction>, deposits: seq<Deposit>,
                              forced: seq<ForcedTx>) returns (r: CoreResult<Hash>)
    requires tree.Valid()
    modifies tree
    ensures tree.Valid()
    ensures var v, base := old(tree.versions), ReaderOf(old(tree.versions), tree.decode, root);
      match ExecRun(base, map[], BlockOps(deposits, forced, txs), 0)
      case Err(e) => r == Err(e) && tree.versions == v
      case Ok(writes) =>
        && (r.Err? ==> root != ZERO_HASH && root !in v && tree.versions == v)
        && (r.Ok? ==> exists cache ::
              CacheOf(base, writes, cache) && Committed(tree.h, tree.rootOf, v, root, cache, tree.versions, r.value))
    ensures forall l :: old(tree.Holds(root, l)) ==>
      BatchOf(tree.rootOf, old(tree.versions), root,
              Digests(tree.h, LedgerRun(l, BlockOps(deposits, forced, txs), 0)), r, tree.versions)
  {
    ghost var v, base := tree.versions, ReaderOf(tree.versions, tree.decode, root);
    ghost var ops := BlockOps(deposits, forced, txs);
    ghost var cache: Ledger := map[];
    if txs == [] && deposits == [] && forced == [] {
      r := Ok(root);
      assert CacheOf(base, map[], cache);
    } else {
      var executor := new BlockExecutor(tree, root);
      var step := executor.RunAll(deposits, forced, txs);
      if step.Err? {
        forall l | old(tree.Holds(root, l)) ensures false { ExecSucceeds(tree.h, v, tree.decode, root, l, ops); }
        return Err(step.error);
      }
      cache := executor.cache;
      r := executor.CommitBlock();
    }
    if r.Ok? {
      assert CacheOf(base, ExecRun(base, map[], ops, 0).value, cache);
      assert Committed(tree.h, tree.rootOf, v, root, cache, tree.versions, r.value);
    }
    forall l | old(tree.Holds(root, l))
      ensures BatchOf(tree.rootOf, v, root, Digests(tree.h, LedgerRun(l, ops, 0)), r, tree.versions)
    {
      BatchRoot(tree.h, tree.rootOf, v, tree.decode, root, l, ops, cache, r, tree.versions);
    }
  }

  /**
   With the decoder the code really has, what a finished batch commits is the run of its operations on the
   empty ledger, laid over the old leaves: a stored recipient is replaced, its balance and nonce forgotten.
   */
  lemma UnreadableBatchCommits(h: Hasher, rootOf: Leaves -> Hash, v: map<Hash, Leaves>, root: Hash, ops: seq<Op>,
                               cache: Ledger, v': map<Hash, Leaves>, root': Hash)
    requires rootOf(LeavesAt(v, root)) == root
    requires var base := ReaderOf(v, BincodeLeaf(), root);
      var run := ExecRun(base, map[], ops, 0);
      run.Ok? && CacheOf(base, run.value, cache) && Committed(h, rootOf, v, root, cache, v', root')
    ensures root' == rootOf(Overlay(h, LeavesAt(v, root), LedgerRun(map[], ops, 0)))
  {
    hide ExecRun, LedgerRun, ReaderOf;
    var base := ReaderOf(v, BincodeLeaf(), root);
    var writes := ExecRun(base, map[], ops, 0).value;
    StoredAccountsUnreadable(v, root, map[], ops, 0);
    forall k | k in cache ensures k in writes { NoLeafDecodes(v, root, k); }
    assert cache == writes;
    if cache == map[] { assert Overlay(h, LeavesAt(v, root), map[]) == LeavesAt(v, root); }
  }

  lemma ExecSucceeds(h: Hasher, v: map<Hash, Leaves>, decode: Hash -> Option<Account>, root: Hash, l: Ledger,
                     ops: seq<Op>)
    requires HoldsLedger(h, v, decode, root, l)
    ensures var run := ExecRun(ReaderOf(v, decode, root), map[], ops, 0);
      run.Ok? && l + run.value == LedgerRun(l, ops, 0)
  {
    hide ExecStep, LedgerStep, HoldsLedger, Truthful;
    HoldsIsTruthful(h, v, decode, root, l);
    ExecRefinesLedger(ReaderOf(v, decode, root), l, map[], ops, 0);
    assert l + map[] == l;
  }

  lemma BatchRoot(h: Hasher, rootOf: Leaves -> Hash, v: map<Hash, Leaves>, decode: Hash -> Option<Account>,
                  root: Hash, l: Ledger, ops: seq<Op>, cache: Ledger, r: CoreResult<Hash>, v': map<Hash, Leaves>)
    requires HoldsLedger(h, v, decode, root, l) && rootOf(LeavesAt(v, root)) == root
    requires var run := ExecRun(ReaderOf(v, decode, root), map[], ops, 0);
      run.Ok? ==> CacheOf(ReaderOf(v, decode, root), run.value, cache)
    requires r.Ok? && Committed(h, rootOf, v, root, cache, v', r.value)
    ensures BatchOf(rootOf, v, root, Digests(h, LedgerRun(l, ops, 0)), r, v')
  {
    hide ExecRun, LedgerRun;
    var base := ReaderOf(v, decode, root);
    ExecSucceeds(h, v, decode, root, l, ops);
    HoldsIsTruthful(h, v, decode, root, l);
    var writes := ExecRun(base, map[], ops, 0).value;
    ReadsAreNoWrites(h, base, l, writes, cache);
    if cache == map[] { assert writes == map[] && l + writes == l; }
  }
}
