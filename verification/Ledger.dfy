/**
 The rollup state as a map from account ids to accounts, and what one operation does to it:
 the rules of the optimistic executor without its cache. Operations that cannot be applied are skipped.
 */
module Ledger {
  import opened Encoding
  import opened Stf

  type Ledger = map<Hash, Account>

  function AccountOrNew(l: Ledger, k: Hash): Account { if k in l then l[k] else NewAccount(k) }

  /** The transfer an operation asks for; a forced transaction from the zero id asks for none. */
  function TransferOf(op: Op): Option<Transaction> {
    match op
    case DepositOp(_) => None
    case ForcedOp(f) => if f.from == ZERO_HASH then None else Some(f.Order())
    case TxOp(tx) => Some(tx)
  }

  /** The account an operation cannot do without: the depositor or the sender; a skipped operation has none. */
  function FirstKey(op: Op): Option<Hash> {
    if op.DepositOp? then Some(op.deposit.to)
    else if TransferOf(op).None? then None else Some(TransferOf(op).value.from)
  }

  /** What a transfer leads to, or None when it is skipped. */
  function Verdict(l: Ledger, tx: Transaction): Option<TransferResult> {
    if tx.from !in l then None
    else
      var r := Settle(l[tx.from], AccountOrNew(l, tx.to), tx);
      if r.Err? then None else Some(r.value)
  }

  function LedgerDeposit(l: Ledger, d: Deposit): Ledger {
    var r := Credit(AccountOrNew(l, d.to), d.amount);
    if r.Err? then l else l[d.to := r.value]
  }

  /** A transfer to oneself keeps only the credited copy. */
  function Record(l: Ledger, tx: Transaction, r: TransferResult): Ledger {
    match r
    case Failure(a) => l[tx.from := a]
    case Success(a, b) => if tx.from == tx.to then l[tx.from := b] else l[tx.from := a][tx.to := b]
  }

  function LedgerTransfer(l: Ledger, tx: Transaction): Ledger {
    match Verdict(l, tx)
    case None => l
    case Some(r) => Record(l, tx, r)
  }

  function LedgerStep(l: Ledger, op: Op): Ledger {
    match op
    case DepositOp(d) => LedgerDeposit(l, d)
    case _ => if TransferOf(op).None? then l else LedgerTransfer(l, TransferOf(op).value)
  }

  function LedgerRun(l: Ledger, ops: seq<Op>, i: nat): Ledger
    requires i <= |ops|
    decreases |ops| - i
  {
    if i == |ops| then l else LedgerRun(LedgerStep(l, ops[i]), ops, i + 1)
  }

  /** The accounts an operation names. */
  function OpKeys(op: Op): set<Hash> {
    if op.DepositOp? then {op.deposit.to}
    else if TransferOf(op).None? then {} else {TransferOf(op).value.from, TransferOf(op).value.to}
  }

  // ---- What one operation does to every account, in plain numbers ----

  function BalanceOf(l: Ledger, k: Hash): U64 { AccountOrNew(l, k).balance }

  /** The sender exists, its nonce fits, it has amount and fee, and the recipient has room for the amount. */
  predicate GoesThrough(l: Ledger, tx: Transaction) {
    && tx.from in l && tx.nonce == l[tx.from].nonce && tx.amount + tx.fee <= l[tx.from].balance
    && (if tx.to in l then l[tx.to].balance else 0) + tx.amount < U64_SIZE
  }

  /** The sender exists and its nonce fits, but it has less than amount and fee. */
  predicate FallsShort(l: Ledger, tx: Transaction) {
    tx.from in l && tx.nonce == l[tx.from].nonce && l[tx.from].balance < tx.amount + tx.fee < U64_SIZE
  }

  /** What an operation brings to `k`. */
  function Received(l: Ledger, op: Op, k: Hash): nat {
    match op
    case DepositOp(d) =>
      if d.to == k && (if k in l then l[k].balance else 0) + d.amount < U64_SIZE then d.amount else 0
    case ForcedOp(f) =>
      if f.from != ZERO_HASH && f.to == k && GoesThrough(l, Transaction(f.from, f.to, f.nonce, f.fee, f.amount))
      then f.amount else 0
    case TxOp(tx) => if tx.to == k && GoesThrough(l, tx) then tx.amount else 0
  }

  /** What a transfer takes from `k`: nothing if it succeeds in paying the sender itself. */
  function TransferCost(l: Ledger, tx: Transaction, k: Hash): nat {
    if tx.from != k then 0
    else if GoesThrough(l, tx) then (if tx.to == k then 0 else tx.amount + tx.fee)
    else if FallsShort(l, tx) then (if l[k].balance < tx.fee then l[k].balance else tx.fee)
    else 0
  }

  /** What an operation takes from `k`. */
  function Spent(l: Ledger, op: Op, k: Hash): nat {
    match op
    case DepositOp(_) => 0
    case ForcedOp(f) =>
      if f.from == ZERO_HASH then 0 else TransferCost(l, Transaction(f.from, f.to, f.nonce, f.fee, f.amount), k)
    case TxOp(tx) => TransferCost(l, tx, k)
  }

  lemma TransferIsExact(l: Ledger, tx: Transaction, k: Hash)
    ensures var l' := LedgerTransfer(l, tx);
      && BalanceOf(l', k) + TransferCost(l, tx, k) ==
         BalanceOf(l, k) + (if tx.to == k && GoesThrough(l, tx) then tx.amount else 0)
      && (k in l' <==> k in l || (k == tx.to && GoesThrough(l, tx)))
      && (k != tx.from && k != tx.to && k in l ==> l'[k] == l[k])
      && (!GoesThrough(l, tx) && !FallsShort(l, tx) ==> l' == l)
      && (GoesThrough(l, tx) <==> Verdict(l, tx).Some? && Verdict(l, tx).value.Success?)
  {}

  function Recipients(op: Op): set<Hash> {
    match op
    case DepositOp(d) => {d.to}
    case ForcedOp(f) => {f.to}
    case TxOp(tx) => {tx.to}
  }

  /**
   One operation moves the balance of every account by what it brings and takes, creates only the account it
   pays, and leaves every account it does not name as it was.
   */
  lemma StepIsExact(l: Ledger, op: Op, k: Hash)
    ensures var l' := LedgerStep(l, op);
      && BalanceOf(l', k) + Spent(l, op, k) == BalanceOf(l, k) + Received(l, op, k)
      && (k in l || Received(l, op, k) > 0 ==> k in l')
      && (k in l' && k !in l ==> k in Recipients(op))
      && (k in l && k !in OpKeys(op) ==> l'[k] == l[k])
  {
    if TransferOf(op).Some? { TransferIsExact(l, TransferOf(op).value, k); }
  }

  function TotalReceived(l: Ledger, ops: seq<Op>, i: nat, k: Hash): nat
    requires i <= |ops|
    decreases |ops| - i
  {
    if i == |ops| then 0 else Received(l, ops[i], k) + TotalReceived(LedgerStep(l, ops[i]), ops, i + 1, k)
  }

  function TotalSpent(l: Ledger, ops: seq<Op>, i: nat, k: Hash): nat
    requires i <= |ops|
    decreases |ops| - i
  {
    if i == |ops| then 0 else Spent(l, ops[i], k) + TotalSpent(LedgerStep(l, ops[i]), ops, i + 1, k)
  }

  /** The statement of every account over every run: what it had and received, less what it spent. */
  lemma {:induction false} AccountStatement(l: Ledger, ops: seq<Op>, i: nat, k: Hash)
    requires i <= |ops|
    ensures BalanceOf(LedgerRun(l, ops, i), k) + TotalSpent(l, ops, i, k) ==
            BalanceOf(l, k) + TotalReceived(l, ops, i, k)
    decreases |ops| - i
  {
    hide LedgerStep, Received, Spent, BalanceOf;
    if i < |ops| {
      StepIsExact(l, ops[i], k);
      AccountStatement(LedgerStep(l, ops[i]), ops, i + 1, k);
    }
  }

  // ---- Several batches are one long run ----

  function RunBatches(l: Ledger, batches: seq<seq<Op>>): Ledger {
    if batches == [] then l
    else LedgerRun(RunBatches(l, batches[..|batches| - 1]), batches[|batches| - 1], 0)
  }

  function Flatten(batches: seq<seq<Op>>): seq<Op> {
    if batches == [] then [] else Flatten(batches[..|batches| - 1]) + batches[|batches| - 1]
  }

  lemma {:induction false} RunConcat(l: Ledger, a: seq<Op>, b: seq<Op>, i: nat)
    requires i <= |a|
    ensures LedgerRun(l, a + b, i) == LedgerRun(LedgerRun(l, a, i), b, 0)
    decreases |a| - i
  {
    if i < |a| {
      assert (a + b)[i] == a[i];
      RunConcat(LedgerStep(l, a[i]), a, b, i + 1);
    } else {
      RunSuffix(l, a, b, 0);
    }
  }

  lemma {:induction false} RunSuffix(l: Ledger, a: seq<Op>, b: seq<Op>, j: nat)
    requires j <= |b|
    ensures LedgerRun(l, a + b, |a| + j) == LedgerRun(l, b, j)
    decreases |b| - j
  {
    if j < |b| {
      assert (a + b)[|a| + j] == b[j];
      RunSuffix(LedgerStep(l, b[j]), a, b, j + 1);
    }
  }

  /** So every law about runs is a law about any sequence of batches. */
  lemma {:induction false} BatchesAreOneRun(l: Ledger, batches: seq<seq<Op>>)
    ensures RunBatches(l, batches) == LedgerRun(l, Flatten(batches), 0)
  {
    if batches != [] {
      var n := |batches| - 1;
      BatchesAreOneRun(l, batches[..n]);
      RunConcat(l, Flatten(batches[..n]), batches[n], 0);
    }
  }

  // ---- Conservation ----

  ghost function Total(l: Ledger): nat {
    if l == map[] then 0
    else
      var k :| k in l;
      l[k].balance + Total(l - {k})
  }

  lemma {:induction false} TotalRemove(l: Ledger, k: Hash)
    requires k in l
    ensures Total(l) == l[k].balance + Total(l - {k})
    decreases |l|
  {
    var p :| p in l && Total(l) == l[p].balance + Total(l - {p});
    if p != k {
      TotalRemove(l - {p}, k);
      assert l - {p} - {k} == l - {k} - {p};
      TotalRemove(l - {k}, p);
    }
  }

  lemma TotalPut(l: Ledger, k: Hash, a: Account)
    ensures Total(l[k := a]) + AccountOrNew(l, k).balance == Total(l) + a.balance
  {
    TotalRemove(l[k := a], k);
    assert l[k := a] - {k} == l - {k};
    if k in l { TotalRemove(l, k); } else { assert l - {k} == l; }
  }

  /** The amount a deposit really adds. */
  function Credited(l: Ledger, op: Op): nat {
    if op.DepositOp? && Credit(AccountOrNew(l, op.deposit.to), op.deposit.amount).Ok? then op.deposit.amount else 0
  }

  /** The fee of an applied transfer: whole on success, what the balance allows on failure. */
  function Fee(l: Ledger, op: Op): nat {
    if TransferOf(op).None? then 0
    else
      var tx := TransferOf(op).value;
      match Verdict(l, tx)
      case None => 0
      case Some(Success(_, _)) => tx.fee
      case Some(Failure(_)) => Min(AccountOrNew(l, tx.from).balance, tx.fee)
  }

  /** What a successful transfer to oneself conjures up: the debit that is never recorded. */
  function Minted(l: Ledger, op: Op): nat {
    if TransferOf(op).None? then 0
    else
      var tx := TransferOf(op).value;
      var v := Verdict(l, tx);
      if tx.from == tx.to && v.Some? && v.value.Success? then tx.amount + tx.fee else 0
  }

  datatype Flows = Flows(credited: nat, fees: nat, minted: nat)

  function RunFlows(l: Ledger, ops: seq<Op>, i: nat): Flows
    requires i <= |ops|
    decreases |ops| - i
  {
    if i == |ops| then Flows(0, 0, 0)
    else
      var rest := RunFlows(LedgerStep(l, ops[i]), ops, i + 1);
      Flows(Credited(l, ops[i]) + rest.credited, Fee(l, ops[i]) + rest.fees, Minted(l, ops[i]) + rest.minted)
  }

  lemma StepConserves(l: Ledger, op: Op)
    ensures Total(LedgerStep(l, op)) + Fee(l, op) == Total(l) + Credited(l, op) + Minted(l, op)
  {
    if op.DepositOp? {
      var d := op.deposit;
      var r := Credit(AccountOrNew(l, d.to), d.amount);
      if r.Ok? { TotalPut(l, d.to, r.value); }
    } else if TransferOf(op).Some? {
      var tx := TransferOf(op).value;
      match Verdict(l, tx) {
        case None =>
        case Some(Failure(a)) => TotalPut(l, tx.from, a);
        case Some(Success(a, b)) =>
          if tx.from == tx.to { TotalPut(l, tx.from, b); }
          else {
            TotalPut(l, tx.from, a);
            TotalPut(l[tx.from := a], tx.to, b);
          }
      }
    }
  }

  /** The ledger total moves by credited deposits, fees and mintage, in every run. */
  lemma {:induction false} Conservation(l: Ledger, ops: seq<Op>, i: nat)
    requires i <= |ops|
    ensures var f := RunFlows(l, ops, i);
      Total(LedgerRun(l, ops, i)) + f.fees == Total(l) + f.credited + f.minted
    decreases |ops| - i
  {
    if i < |ops| {
      StepConserves(l, ops[i]);
      Conservation(LedgerStep(l, ops[i]), ops, i + 1);
    }
  }

  /** No transfer to oneself with a positive debit is asked for. */
  predicate NoSelfTransfer(ops: seq<Op>) {
    forall i :: 0 <= i < |ops| ==> var t := TransferOf(ops[i]);
      t.Some? && t.value.from == t.value.to ==> t.value.amount + t.value.fee == 0
  }

  lemma {:induction false} NothingMinted(l: Ledger, ops: seq<Op>, i: nat)
    requires i <= |ops| && NoSelfTransfer(ops)
    ensures RunFlows(l, ops, i).minted == 0
    decreases |ops| - i
  {
    if i < |ops| { NothingMinted(LedgerStep(l, ops[i]), ops, i + 1); }
  }

  /**
   The books balance exactly when no transfer to oneself succeeded with a positive debit; asking for none
   is enough.
   */
  lemma ConservedIff(l: Ledger, ops: seq<Op>)
    ensures var f := RunFlows(l, ops, 0);
      Total(LedgerRun(l, ops, 0)) + f.fees == Total(l) + f.credited <==> f.minted == 0
    ensures NoSelfTransfer(ops) ==> RunFlows(l, ops, 0).minted == 0
  {
    Conservation(l, ops, 0);
    if NoSelfTransfer(ops) { NothingMinted(l, ops, 0); }
  }

  /** The sum of all deposits asked for. */
  function DepositSum(ops: seq<Op>, i: nat): nat
    requires i <= |ops|
    decreases |ops| - i
  {
    if i == |ops| then 0
    else (if ops[i].DepositOp? then ops[i].deposit.amount else 0) + DepositSum(ops, i + 1)
  }

  lemma {:induction false} CreditedAtMostDeposited(l: Ledger, ops: seq<Op>, i: nat)
    requires i <= |ops|
    ensures RunFlows(l, ops, i).credited <= DepositSum(ops, i)
    decreases |ops| - i
  {
    if i < |ops| { CreditedAtMostDeposited(LedgerStep(l, ops[i]), ops, i + 1); }
  }

  /**
   From an empty ledger, over any batches, users own at most what was deposited and minted. So they own
   no more than what was deposited when nothing was minted, and exactly when the mintage does not exceed
   the fees and the deposits that were not credited.
   */
  lemma Solvency(batches: seq<seq<Op>>)
    ensures
      var ops, total := Flatten(batches), Total(RunBatches(map[], batches));
      var f := RunFlows(map[], ops, 0);
      && f.credited <= DepositSum(ops, 0)
      && total <= DepositSum(ops, 0) + f.minted
      && (f.minted == 0 ==> total <= DepositSum(ops, 0))
      && (total <= DepositSum(ops, 0) <==> f.minted <= f.fees + (DepositSum(ops, 0) - f.credited))
  {
    var ops := Flatten(batches);
    BatchesAreOneRun(map[], batches);
    Conservation(map[], ops, 0);
    CreditedAtMostDeposited(map[], ops, 0);
  }

  /** Without the condition solvency fails: one deposit and a transfer to oneself. */
  lemma SelfTransferMints(a: Hash)
    ensures var ops := [DepositOp(Deposit(a, 10, 0)), TxOp(Transaction(a, a, 0, 1, 5))];
      Total(LedgerRun(map[], ops, 0)) == 15 && DepositSum(ops, 0) == 10
  {
    var ops := [DepositOp(Deposit(a, 10, 0)), TxOp(Transaction(a, a, 0, 1, 5))];
    var l1 := LedgerStep(map[], ops[0]);
    assert l1 == map[a := Account(a, 10, 0)];
    var l2 := LedgerStep(l1, ops[1]);
    assert l2 == map[a := Account(a, 15, 0)];
    TotalRemove(l2, a);
    assert l2 - {a} == map[];
    assert LedgerRun(l2, ops, 2) == l2;
    assert LedgerRun(l1, ops, 1) == l2;
    assert DepositSum(ops, 2) == 0 && DepositSum(ops, 1) == 0;
  }

  // ---- Nonces ----

  function NonceOf(l: Ledger, k: Hash): U64 { AccountOrNew(l, k).nonce }

  /** `op` is a transfer sent by `s` that is applied, as a success or as a failure. */
  predicate Accepts(l: Ledger, op: Op, s: Hash) {
    var t := TransferOf(op);
    t.Some? && t.value.from == s && Verdict(l, t.value).Some?
  }

  /** An applied transfer of a sender: its nonce, and whether it succeeded in paying the sender itself. */
  datatype Entry = Entry(nonce: U64, paysSelf: bool)

  predicate PaysSelf(l: Ledger, op: Op) {
    var t := TransferOf(op);
    t.Some? && t.value.from == t.value.to && Verdict(l, t.value).Some? && Verdict(l, t.value).value.Success?
  }

  /** The applied transfers of `s`, in order. */
  function Accepted(l: Ledger, ops: seq<Op>, i: nat, s: Hash): seq<Entry>
    requires i <= |ops|
    decreases |ops| - i
  {
    if i == |ops| then []
    else
      (if Accepts(l, ops[i], s) then [Entry(TransferOf(ops[i]).value.nonce, PaysSelf(l, ops[i]))] else []) +
      Accepted(LedgerStep(l, ops[i]), ops, i + 1, s)
  }

  function SelfPayments(acc: seq<Entry>): (n: nat)
    ensures n <= |acc|
  {
    if acc == [] then 0 else (if acc[0].paysSelf then 1 else 0) + SelfPayments(acc[1..])
  }

  /** `j` increments of a u64 counter. */
  function Advance(n: U64, j: nat): U64 { (n + j) % U64_SIZE }

  /**
   Only an applied transfer moves its sender's nonce, by one, and not even that if it succeeds in paying
   the sender itself; every credit leaves nonces alone.
   */
  lemma StepNonce(l: Ledger, op: Op, s: Hash)
    ensures NonceOf(LedgerStep(l, op), s) ==
      if Accepts(l, op, s) && !PaysSelf(l, op) then NextNonce(NonceOf(l, s)) else NonceOf(l, s)
    ensures Accepts(l, op, s) ==> TransferOf(op).value.nonce == NonceOf(l, s)
  {}

  /** The entry `j` carries the nonce moved by the entries before it that did not pay their sender. */
  predicate CarriesNonces(n: U64, acc: seq<Entry>) {
    forall j :: 0 <= j < |acc| ==> acc[j].nonce == Advance(n, j - SelfPayments(acc[..j]))
  }

  lemma {:induction false} NonceRun(l: Ledger, ops: seq<Op>, i: nat, s: Hash)
    requires i <= |ops|
    ensures var acc := Accepted(l, ops, i, s);
      && NonceOf(LedgerRun(l, ops, i), s) == Advance(NonceOf(l, s), |acc| - SelfPayments(acc))
      && CarriesNonces(NonceOf(l, s), acc)
    decreases |ops| - i
  {
    hide LedgerStep, Accepts, PaysSelf, CarriesNonces, SelfPayments, Advance, NonceOf;
    if i == |ops| {
      NoEntries(NonceOf(l, s));
    } else {
      StepNonce(l, ops[i], s);
      var l' := LedgerStep(l, ops[i]);
      NonceRun(l', ops, i + 1, s);
      if Accepts(l, ops[i], s) {
        CarriesCons(NonceOf(l, s), Entry(NonceOf(l, s), PaysSelf(l, ops[i])), Accepted(l', ops, i + 1, s));
      } else {
        NotAccepted(l, ops, i, s);
      }
    }
  }

  lemma NoEntries(n: U64)
    ensures CarriesNonces(n, []) && SelfPayments([]) == 0 && Advance(n, 0) == n
  {}

  lemma NotAccepted(l: Ledger, ops: seq<Op>, i: nat, s: Hash)
    requires i < |ops| && !Accepts(l, ops[i], s)
    ensures Accepted(l, ops, i, s) == Accepted(LedgerStep(l, ops[i]), ops, i + 1, s)
  {}

  lemma CarriesCons(n: U64, e: Entry, rest: seq<Entry>)
    requires e.nonce == n && CarriesNonces(if e.paysSelf then n else NextNonce(n), rest)
    ensures CarriesNonces(n, [e] + rest)
    ensures Advance(n, |[e] + rest| - SelfPayments([e] + rest)) ==
            Advance(if e.paysSelf then n else NextNonce(n), |rest| - SelfPayments(rest))
  {
    var all := [e] + rest;
    assert all[1..] == rest;
    if !e.paysSelf { AdvanceNext(n, |rest| - SelfPayments(rest)); }
    forall j | 0 <= j < |all| ensures all[j].nonce == Advance(n, j - SelfPayments(all[..j])) {
      if j > 0 {
        assert all[..j][1..] == rest[..j - 1] && all[j] == rest[j - 1];
        if !e.paysSelf { AdvanceNext(n, j - 1 - SelfPayments(rest[..j - 1])); }
      }
    }
  }

  lemma AdvanceNext(n: U64, j: nat)
    ensures Advance(NextNonce(n), j) == Advance(n, j + 1)
  {
    var q, r := (n + 1) / U64_SIZE, (n + 1) % U64_SIZE;
    assert n + 1 + j == U64_SIZE * q + (r + j);
    ModMultiple(q, r + j);
  }

  lemma {:induction false} ModMultiple(q: nat, x: nat)
    ensures (U64_SIZE * q + x) % U64_SIZE == x % U64_SIZE
  {
    if q > 0 { ModMultiple(q - 1, x); }
  }

  predicate Consecutive(n: U64, acc: seq<Entry>) {
    forall j :: 0 <= j < |acc| ==> acc[j].nonce == Advance(n, j)
  }

  /** No applied transfer of the sender follows a successful payment to itself. */
  predicate SelfPaymentOnlyLast(acc: seq<Entry>) {
    forall j :: 0 <= j < |acc| - 1 ==> !acc[j].paysSelf
  }

  lemma {:induction false} NoSelfPayments(acc: seq<Entry>)
    requires forall j :: 0 <= j < |acc| ==> !acc[j].paysSelf
    ensures SelfPayments(acc) == 0
  {
    if acc != [] { NoSelfPayments(acc[1..]); }
  }

  lemma {:induction false} SelfPaymentsSnoc(acc: seq<Entry>, j: nat)
    requires j < |acc|
    ensures SelfPayments(acc[..j + 1]) == SelfPayments(acc[..j]) + (if acc[j].paysSelf then 1 else 0)
  {
    if j > 0 {
      SelfPaymentsSnoc(acc[1..], j - 1);
      assert acc[..j + 1][1..] == acc[1..][..j] && acc[..j][1..] == acc[1..][..j - 1];
    }
  }

  /**
   For every sender and every run: the final nonce is the initial one plus the number of applied transfers
   exactly when the successful payments to itself are a multiple of 2^64; and the nonces of its applied
   transfers are consecutive exactly when none of them follows a successful payment to itself.
   */
  lemma NonceDiscipline(l: Ledger, ops: seq<Op>, s: Hash)
    ensures
      var n, acc := NonceOf(l, s), Accepted(l, ops, 0, s);
      && NonceOf(LedgerRun(l, ops, 0), s) == Advance(n, |acc| - SelfPayments(acc))
      && (NonceOf(LedgerRun(l, ops, 0), s) == Advance(n, |acc|) <==> SelfPayments(acc) % U64_SIZE == 0)
      && (Consecutive(n, acc) <==> SelfPaymentOnlyLast(acc))
  {
    hide Accepted, LedgerRun, Advance, SelfPayments, Consecutive, SelfPaymentOnlyLast;
    var n, acc := NonceOf(l, s), Accepted(l, ops, 0, s);
    NonceRun(l, ops, 0, s);
    AdvanceSame(n, |acc| - SelfPayments(acc), |acc|);
    ConsecutiveIff(n, acc);
  }

  lemma AdvanceSame(n: U64, a: nat, b: nat)
    requires a <= b
    ensures Advance(n, a) == Advance(n, b) <==> (b - a) % U64_SIZE == 0
  {}

  lemma RepeatAfterSelfPayment(n: U64, acc: seq<Entry>, j: nat)
    requires CarriesNonces(n, acc) && j < |acc| - 1 && acc[j].paysSelf
    ensures acc[j + 1].nonce == acc[j].nonce
  {
    SelfPaymentsSnoc(acc, j);
  }

  lemma ConsecutiveUnlessSelf(n: U64, acc: seq<Entry>)
    requires CarriesNonces(n, acc) && SelfPaymentOnlyLast(acc)
    ensures Consecutive(n, acc)
  {
    forall j | 0 <= j < |acc| ensures acc[j].nonce == Advance(n, j) { NoSelfPayments(acc[..j]); }
  }

  lemma RepeatIsNotConsecutive(n: U64, acc: seq<Entry>, j: nat)
    requires j < |acc| - 1 && acc[j + 1].nonce == acc[j].nonce
    ensures !Consecutive(n, acc)
  {
    hide Advance;
    AdvanceSame(n, j, j + 1);
  }

  lemma ConsecutiveIff(n: U64, acc: seq<Entry>)
    requires CarriesNonces(n, acc)
    ensures Consecutive(n, acc) <==> SelfPaymentOnlyLast(acc)
  {
    hide Consecutive, CarriesNonces;
    if SelfPaymentOnlyLast(acc) { ConsecutiveUnlessSelf(n, acc); }
    else {
      var j :| 0 <= j < |acc| - 1 && acc[j].paysSelf;
      RepeatAfterSelfPayment(n, acc, j);
      RepeatIsNotConsecutive(n, acc, j);
    }
  }

  predicate DistinctNonces(acc: seq<Entry>) {
    forall j, m :: 0 <= j < m < |acc| ==> acc[j].nonce != acc[m].nonce
  }

  /**
   Replay protection, exactly: over any batches, up to 2^64 applied transfers of a sender have pairwise
   different nonces if and only if none of them follows a successful payment to itself.
   */
  lemma NoReplay(l: Ledger, batches: seq<seq<Op>>, s: Hash)
    requires |Accepted(l, Flatten(batches), 0, s)| <= U64_SIZE
    ensures var acc := Accepted(l, Flatten(batches), 0, s);
      DistinctNonces(acc) <==> SelfPaymentOnlyLast(acc)
  {
    hide Accepted, LedgerRun, Flatten;
    var n, acc := NonceOf(l, s), Accepted(l, Flatten(batches), 0, s);
    NonceRun(l, Flatten(batches), 0, s);
    DistinctIff(n, acc);
  }

  lemma DistinctIff(n: U64, acc: seq<Entry>)
    requires CarriesNonces(n, acc) && |acc| <= U64_SIZE
    ensures DistinctNonces(acc) <==> SelfPaymentOnlyLast(acc)
  {
    hide Advance, SelfPayments;
    if SelfPaymentOnlyLast(acc) {
      ConsecutiveUnlessSelf(n, acc);
      forall j, m | 0 <= j < m < |acc| ensures acc[j].nonce != acc[m].nonce {
        AdvanceSame(n, j, m);
      }
    } else {
      var j :| 0 <= j < |acc| - 1 && acc[j].paysSelf;
      RepeatAfterSelfPayment(n, acc, j);
    }
  }

  /** The very same payment to oneself is applied again exactly when the balance can take it twice. */
  lemma SelfTransferReplays(l: Ledger, tx: Transaction)
    requires tx.from == tx.to && PaysSelf(l, TxOp(tx))
    ensures var l' := LedgerStep(l, TxOp(tx));
      && (Accepts(l', TxOp(tx), tx.from) <==> l[tx.from].balance + 2 * tx.amount < U64_SIZE)
      && (Accepts(l', TxOp(tx), tx.from) ==> PaysSelf(l', TxOp(tx)))
  {}
}
