/** Accounts, block contents and the balance arithmetic of `crates/stf`. */
module Stf {
  import opened Encoding

  datatype Option<+T> = None | Some(value: T)

  datatype StfError =
    | InsufficientBalance
    | BalanceOverflow
    | MerkleProofVerificationFailed
    | InvalidNonce(expected: U64, got: U64)
    | InvalidTransaction

  datatype Result<+T, +E> = Ok(value: T) | Err(error: E)

  type StfResult<+T> = Result<T, StfError>

  datatype Account = Account(id: Hash, balance: U64, nonce: U64)

  datatype Transaction = Transaction(from: Hash, to: Hash, nonce: U64, fee: U64, amount: U64)

  datatype Deposit = Deposit(to: Hash, amount: U64, timestamp: U64)

  datatype ForcedTx = ForcedTx(from: Hash, to: Hash, nonce: U64, fee: U64, amount: U64,
                               timestamp: U64, l2Calldata: Calldata)
  {
    /** The part of a forced transaction that moves money. */
    function Order(): Transaction { Transaction(from, to, nonce, fee, amount) }
  }

  /** `Failure` carries the sender after its nonce and fee were charged. */
  datatype TransferResult = Success(from: Account, to: Account) | Failure(from: Account)

  function NewAccount(id: Hash): Account { Account(id, 0, 0) }

  /** `checked_add` on u64. */
  function CheckedAdd(x: U64, y: U64): Option<U64> {
    if x + y < U64_SIZE then Some(x + y) else None
  }

  /** `nonce += 1` in a release build: wraps at 2^64. */
  function NextNonce(n: U64): U64 { (n + 1) % U64_SIZE }

  function Min(x: nat, y: nat): nat { if x < y then x else y }

  /** What a deposit of `amount` makes of an account. */
  function Credit(a: Account, amount: U64): StfResult<Account> {
    match CheckedAdd(a.balance, amount)
    case Some(b) => Ok(a.(balance := b))
    case None => Err(BalanceOverflow)
  }

  /** What a transfer makes of the two account copies it is given. */
  function Settle(from: Account, to: Account, tx: Transaction): StfResult<TransferResult> {
    if from.nonce != tx.nonce then Err(InvalidNonce(from.nonce, tx.nonce))
    else if tx.amount + tx.fee >= U64_SIZE then Err(BalanceOverflow)
    else if from.balance < tx.amount + tx.fee then
      Ok(Failure(Account(from.id, from.balance - Min(from.balance, tx.fee), NextNonce(from.nonce))))
    else if to.balance + tx.amount >= U64_SIZE then Err(BalanceOverflow)
    else
      Ok(Success(Account(from.id, from.balance - tx.amount - tx.fee, NextNonce(from.nonce)),
                 Account(to.id, to.balance + tx.amount, to.nonce)))
  }

  method ApplyDeposit(account: Account, deposit: Deposit) returns (r: StfResult<Account>)
    ensures r == Credit(account, deposit.amount)
    ensures r.Ok? <==> account.balance + deposit.amount < U64_SIZE
    ensures r.Ok? ==> r.value == Account(account.id, account.balance + deposit.amount, account.nonce)
    ensures r.Err? ==> r.error == BalanceOverflow
  {
    var acc := account;
    var sum := CheckedAdd(acc.balance, deposit.amount);
    if sum.None? { return Err(BalanceOverflow); }
    acc := acc.(balance := sum.value);
    return Ok(acc);
  }

  // ---- Settlement in plain numbers ----

  /** The nonce fits, the sender has amount and fee, and the recipient has room for the amount. */
  predicate CanPay(sender: Account, recipient: Account, tx: Transaction) {
    && tx.nonce == sender.nonce && tx.amount + tx.fee <= sender.balance
    && recipient.balance + tx.amount < U64_SIZE
  }

  /** The nonce fits, but the sender has less than amount and fee, which is a number of 64 bits. */
  predicate CannotPay(sender: Account, tx: Transaction) {
    tx.nonce == sender.nonce && sender.balance < tx.amount + tx.fee < U64_SIZE
  }

  /** A paid transfer takes amount and fee from the sender and gives the amount to the recipient. */
  predicate PaidBy(sender: Account, recipient: Account, tx: Transaction, r: TransferResult) {
    && r.Success? && r.from.id == sender.id && r.to.id == recipient.id
    && r.from.balance == sender.balance - tx.amount - tx.fee && r.to.balance == recipient.balance + tx.amount
    && (r.from.nonce == sender.nonce + 1 || (sender.nonce == U64_SIZE - 1 && r.from.nonce == 0))
    && r.to.nonce == recipient.nonce
  }

  /** A transfer that cannot be paid takes the fee, or what there is, from the sender alone. */
  predicate ChargedTo(sender: Account, tx: Transaction, r: TransferResult) {
    && r.Failure? && r.from.id == sender.id
    && (if sender.balance < tx.fee then r.from.balance == 0 else r.from.balance == sender.balance - tx.fee)
    && (r.from.nonce == sender.nonce + 1 || (sender.nonce == U64_SIZE - 1 && r.from.nonce == 0))
  }

  /**
   When a transfer succeeds, fails and is refused, exactly, and what each of these does to the two accounts.
   */
  predicate SettledAs(sender: Account, recipient: Account, tx: Transaction, r: StfResult<TransferResult>) {
    && (r.Ok? && r.value.Success? <==> CanPay(sender, recipient, tx))
    && (r.Ok? && r.value.Failure? <==> CannotPay(sender, tx))
    && (r.Ok? && r.value.Success? ==> PaidBy(sender, recipient, tx, r.value))
    && (r.Ok? && r.value.Failure? ==> ChargedTo(sender, tx, r.value))
    && (r.Err? && tx.nonce != sender.nonce ==> r.error == InvalidNonce(sender.nonce, tx.nonce))
    && (r.Err? && tx.nonce == sender.nonce ==> r.error == BalanceOverflow)
  }

  lemma SettleIsExact(sender: Account, recipient: Account, tx: Transaction)
    ensures SettledAs(sender, recipient, tx, Settle(sender, recipient, tx))
  {}

  method ApplyTransaction(sender: Account, recipient: Account, tx: Transaction)
    returns (r: StfResult<TransferResult>)
    ensures r == Settle(sender, recipient, tx)
    ensures SettledAs(sender, recipient, tx, r)
  {
    var from, to := sender, recipient;
    if from.nonce != tx.nonce { return Err(InvalidNonce(from.nonce, tx.nonce)); }
    from := from.(nonce := NextNonce(from.nonce));

    var totalDebit := CheckedAdd(tx.amount, tx.fee);
    if totalDebit.None? { return Err(BalanceOverflow); }

    if from.balance < totalDebit.value {
      from := from.(balance := if from.balance < tx.fee then 0 else from.balance - tx.fee);
      return Ok(Failure(from));
    }

    from := from.(balance := from.balance - totalDebit.value);
    var credited := CheckedAdd(to.balance, tx.amount);
    if credited.None? { return Err(BalanceOverflow); }
    to := to.(balance := credited.value);
    return Ok(Success(from, to));
  }

  method ApplyForcedTx(sender: Account, recipient: Account, tx: ForcedTx)
    returns (r: StfResult<TransferResult>)
    ensures r == Settle(sender, recipient, tx.Order())
    ensures SettledAs(sender, recipient, Transaction(tx.from, tx.to, tx.nonce, tx.fee, tx.amount), r)
  {
    var from, to := sender, recipient;
    if from.nonce != tx.nonce { return Err(InvalidNonce(from.nonce, tx.nonce)); }
    from := from.(nonce := NextNonce(from.nonce));

    var totalDebit := CheckedAdd(tx.amount, tx.fee);
    if totalDebit.None? { return Err(BalanceOverflow); }

    if from.balance < totalDebit.value {
      from := from.(balance := if from.balance < tx.fee then 0 else from.balance - tx.fee);
      return Ok(Failure(from));
    }

    from := from.(balance := from.balance - totalDebit.value);
    var credited := CheckedAdd(to.balance, tx.amount);
    if credited.None? { return Err(BalanceOverflow); }
    to := to.(balance := credited.value);
    return Ok(Success(from, to));
  }

  /** The preimage of `Account::hash`: nonce, id, balance; 48 bytes. */
  function AccountBytes(a: Account): (r: Bytes)
    ensures |r| == 48
  {
    BigEndian(a.nonce, 8) + a.id + BigEndian(a.balance, 8)
  }

  /** Where nonce, id and balance stand in the preimage, as a reader of the bytes finds them. */
  lemma AccountBytesLayout(a: Account)
    ensures var x := AccountBytes(a);
      FromBigEndian(x[..8]) == a.nonce && x[8..40] == a.id && FromBigEndian(x[40..]) == a.balance
  {
    hide BigEndian, FromBigEndian, Pow256;
    var x := AccountBytes(a);
    assert x[..8] == BigEndian(a.nonce, 8) && x[40..] == BigEndian(a.balance, 8);
    Pow256Widths();
    BigEndianRoundTrip(a.nonce, 8);
    BigEndianRoundTrip(a.balance, 8);
  }

  lemma AccountBytesInjective(a: Account, b: Account)
    requires AccountBytes(a) == AccountBytes(b)
    ensures a == b
  {
    var x, y := AccountBytes(a), AccountBytes(b);
    assert x[..8] == BigEndian(a.nonce, 8) && y[..8] == BigEndian(b.nonce, 8);
    assert x[8..40] == a.id && y[8..40] == b.id;
    assert x[40..] == BigEndian(a.balance, 8) && y[40..] == BigEndian(b.balance, 8);
    Pow256Widths();
    BigEndianInjective(a.nonce, b.nonce, 8);
    BigEndianInjective(a.balance, b.balance, 8);
  }

  // ---- Block contents in execution order ----

  /** One item of a block; a block runs its deposits, then its forced transactions, then the rest. */
  datatype Op = DepositOp(deposit: Deposit) | ForcedOp(forced: ForcedTx) | TxOp(tx: Transaction)

  function BlockOps(deposits: seq<Deposit>, forced: seq<ForcedTx>, txs: seq<Transaction>): (ops: seq<Op>)
    ensures |ops| == |deposits| + |forced| + |txs|
  {
    seq(|deposits|, i requires 0 <= i < |deposits| => DepositOp(deposits[i])) +
    seq(|forced|, i requires 0 <= i < |forced| => ForcedOp(forced[i])) +
    seq(|txs|, i requires 0 <= i < |txs| => TxOp(txs[i]))
  }
}
