/**
 Withdrawals. The payout calls into the recipient, which may call back; a frame that reverts takes
 everything done inside it back. Calls are therefore trees.
 */
module Withdrawal {
  import opened Encoding
  import opened Commitment

  datatype Claim = Claim(sender: Address, amount: U256, nonce: U64)

  /** Packed encoding of a claim: 20, 32 and 8 bytes. */
  function Packed(c: Claim): (r: Bytes)
    ensures |r| == 60
  {
    c.sender + Word(c.amount) + BigEndian(c.nonce, 8)
  }

  /** Sender, amount and nonce as a reader of the packed bytes finds them. */
  lemma PackedLayout(c: Claim)
    ensures var x := Packed(c);
      x[..20] == c.sender && FromBigEndian(x[20..52]) == c.amount && FromBigEndian(x[52..]) == c.nonce
  {
    hide BigEndian, FromBigEndian, Pow256;
    var x := Packed(c);
    assert x[20..52] == Word(c.amount) && x[52..] == BigEndian(c.nonce, 8);
    Pow256Widths();
    BigEndianRoundTrip(c.amount, 32);
    BigEndianRoundTrip(c.nonce, 8);
  }

  lemma PackedInjective(c: Claim, d: Claim)
    requires Packed(c) == Packed(d)
    ensures c == d
  {
    hide BigEndian, Pow256;
    var x, y := Packed(c), Packed(d);
    assert x[..20] == c.sender && y[..20] == d.sender;
    assert x[20..52] == Word(c.amount) && y[20..52] == Word(d.amount);
    assert x[52..] == BigEndian(c.nonce, 8) && y[52..] == BigEndian(d.nonce, 8);
    BigEndianInjective(c.amount, d.amount, 32);
    Pow256Widths();
    BigEndianInjective(c.nonce, d.nonce, 8);
  }

  /**
   A call with what happens inside it. For a withdrawal: whether its Merkle proof verifies, the calls the
   recipient makes when it is paid, and whether the payment goes through. Any other frame, such as the
   code of an attacking contract, makes calls and may revert.
   */
  datatype Call =
    | Withdraw(claim: Claim, proofValid: bool, inner: seq<Call>, transferOk: bool)
    | Frame(inner: seq<Call>, reverts: bool)

  /** The nullifier mapping, and the payouts made so far. */
  datatype Vault = Vault(nullifiers: set<Hash>, paid: seq<Claim>)

  function Exec(k: Hasher, v: Vault, call: Call): Vault
    decreases call
  {
    match call
    case Withdraw(c, proofValid, inner, transferOk) =>
      if k(Packed(c)) in v.nullifiers || !proofValid || !transferOk then v
      else ExecAll(k, Vault(v.nullifiers + {k(Packed(c))}, v.paid + [c]), inner)
    case Frame(inner, reverts) => if reverts then v else ExecAll(k, v, inner)
  }

  function ExecAll(k: Hasher, v: Vault, calls: seq<Call>): Vault
    decreases calls
  {
    if calls == [] then v else ExecAll(k, Exec(k, v, calls[0]), calls[1..])
  }

  /** The contract, executing a call with its nested calls; a revert restores the saved storage. */
  class Withdrawals {
    const k: Hasher
    var nullifiers: set<Hash>
    var paid: seq<Claim>

    ghost function Value(): Vault
      reads this
    {
      Vault(nullifiers, paid)
    }

    constructor (k: Hasher)
      ensures this.k == k && Value() == Vault({}, [])
    {
      this.k, nullifiers, paid := k, {}, [];
    }

    method Execute(call: Call)
      modifies this
      ensures Value() == Exec(k, old(Value()), call)
      // Without a valid proof, without a completed transfer and in a reverting frame nothing happens.
      ensures call.Withdraw? && !(call.proofValid && call.transferOk) ==> Value() == old(Value())
      ensures call.Frame? && call.reverts ==> Value() == old(Value())
      decreases call
    {
      var savedNullifiers, savedPaid := nullifiers, paid;
      match call
      case Withdraw(c, proofValid, inner, transferOk) =>
        var nullifier := k(Packed(c));
        if nullifier in nullifiers { return; }
        if !proofValid { return; }
        nullifiers := nullifiers + {nullifier};
        paid := paid + [c];
        ExecuteAll(inner);
        if !transferOk { nullifiers, paid := savedNullifiers, savedPaid; }
      case Frame(inner, reverts) =>
        ExecuteAll(inner);
        if reverts { nullifiers, paid := savedNullifiers, savedPaid; }
    }

    method ExecuteAll(calls: seq<Call>)
      modifies this
      ensures Value() == ExecAll(k, old(Value()), calls)
      decreases calls
    {
      if calls != [] {
        Execute(calls[0]);
        ExecuteAll(calls[1..]);
      }
    }
  }

  /** Nullifiers are exactly those of the paid claims, and no two paid claims share one. */
  ghost predicate Sound(k: Hasher, v: Vault) {
    && (forall n :: n in v.nullifiers <==> exists i :: 0 <= i < |v.paid| && k(Packed(v.paid[i])) == n)
    && (forall i, j :: 0 <= i < j < |v.paid| ==> k(Packed(v.paid[i])) != k(Packed(v.paid[j])))
  }

  lemma PaySound(k: Hasher, v: Vault, c: Claim)
    requires Sound(k, v) && k(Packed(c)) !in v.nullifiers
    ensures Sound(k, Vault(v.nullifiers + {k(Packed(c))}, v.paid + [c]))
  {
    var v' := Vault(v.nullifiers + {k(Packed(c))}, v.paid + [c]);
    forall n ensures n in v'.nullifiers <==> exists i :: 0 <= i < |v'.paid| && k(Packed(v'.paid[i])) == n {
      if n in v.nullifiers {
        var i :| 0 <= i < |v.paid| && k(Packed(v.paid[i])) == n;
        assert k(Packed(v'.paid[i])) == n;
      } else if n == k(Packed(c)) {
        assert k(Packed(v'.paid[|v.paid|])) == n;
      } else {
        forall i | 0 <= i < |v'.paid| ensures k(Packed(v'.paid[i])) != n {
          if i < |v.paid| { assert k(Packed(v.paid[i])) in v.nullifiers; }
        }
      }
    }
    forall i, j | 0 <= i < j < |v'.paid| ensures k(Packed(v'.paid[i])) != k(Packed(v'.paid[j])) {
      if j == |v.paid| { assert k(Packed(v.paid[i])) in v.nullifiers; }
    }
  }

  lemma {:induction false} ExecSound(k: Hasher, v: Vault, call: Call)
    requires Sound(k, v)
    ensures Sound(k, Exec(k, v, call)) && v.paid <= Exec(k, v, call).paid
    decreases call
  {
    match call
    case Withdraw(c, proofValid, inner, transferOk) =>
      if k(Packed(c)) !in v.nullifiers && proofValid && transferOk {
        PaySound(k, v, c);
        ExecAllSound(k, Vault(v.nullifiers + {k(Packed(c))}, v.paid + [c]), inner);
      }
    case Frame(inner, reverts) => if !reverts { ExecAllSound(k, v, inner); }
  }

  lemma {:induction false} ExecAllSound(k: Hasher, v: Vault, calls: seq<Call>)
    requires Sound(k, v)
    ensures Sound(k, ExecAll(k, v, calls)) && v.paid <= ExecAll(k, v, calls).paid
    decreases calls
  {
    if calls != [] {
      ExecSound(k, v, calls[0]);
      ExecAllSound(k, Exec(k, v, calls[0]), calls[1..]);
    }
  }

  /** In every run, reentrant or not, each claim is paid at most once. */
  lemma PaidAtMostOnce(k: Hasher, calls: seq<Call>, i: nat, j: nat)
    requires i < j < |ExecAll(k, Vault({}, []), calls).paid|
    ensures ExecAll(k, Vault({}, []), calls).paid[i] != ExecAll(k, Vault({}, []), calls).paid[j]
  {
    ExecAllSound(k, Vault({}, []), calls);
  }

  /**
   And no claim is refused without cause: after any run, a provable claim whose transfer goes through is
   refused if and only if it was paid before, or collides with a different paid claim.
   */
  lemma RefusedIff(k: Hasher, calls: seq<Call>, c: Claim, inner: seq<Call>)
    ensures
      var v := ExecAll(k, Vault({}, []), calls);
      var collides :=
        exists i :: 0 <= i < |v.paid| &&
          Packed(v.paid[i]) != Packed(c) && k(Packed(v.paid[i])) == k(Packed(c));
      && (k(Packed(c)) in v.nullifiers <==> c in v.paid || collides)
      && (k(Packed(c)) in v.nullifiers ==> Exec(k, v, Withdraw(c, true, inner, true)) == v)
      && (k(Packed(c)) !in v.nullifiers ==> v.paid + [c] <= Exec(k, v, Withdraw(c, true, inner, true)).paid)
  {
    var v := ExecAll(k, Vault({}, []), calls);
    ExecAllSound(k, Vault({}, []), calls);
    if k(Packed(c)) in v.nullifiers {
      var i :| 0 <= i < |v.paid| && k(Packed(v.paid[i])) == k(Packed(c));
      if Packed(v.paid[i]) == Packed(c) { PackedInjective(v.paid[i], c); }
    } else {
      PaySound(k, v, c);
      ExecAllSound(k, Vault(v.nullifiers + {k(Packed(c))}, v.paid + [c]), inner);
    }
  }

  // ---- Every payment has a cause ----

  /**
   The claims of all withdrawals in a call tree that have a valid proof and a completed transfer and stand in
   no frame that was taken back.
   */
  function Completed(call: Call): seq<Claim>
    decreases call
  {
    match call
    case Withdraw(c, proofValid, inner, transferOk) =>
      if proofValid && transferOk then [c] + CompletedAll(inner) else []
    case Frame(inner, reverts) => if reverts then [] else CompletedAll(inner)
  }

  function CompletedAll(calls: seq<Call>): seq<Claim>
    decreases calls
  {
    if calls == [] then [] else Completed(calls[0]) + CompletedAll(calls[1..])
  }

  /** What was paid is what had been paid before and some of these claims, each at most as often as it occurs. */
  ghost predicate PaidWithin(before: seq<Claim>, after: seq<Claim>, claims: seq<Claim>) {
    multiset(after) <= multiset(before) + multiset(claims)
  }

  lemma {:induction false} ExecPaysWithin(k: Hasher, v: Vault, call: Call)
    ensures PaidWithin(v.paid, Exec(k, v, call).paid, Completed(call))
    decreases call
  {
    match call
    case Withdraw(c, proofValid, inner, transferOk) =>
      if k(Packed(c)) !in v.nullifiers && proofValid && transferOk {
        ExecAllPaysWithin(k, Vault(v.nullifiers + {k(Packed(c))}, v.paid + [c]), inner);
      }
    case Frame(inner, reverts) => if !reverts { ExecAllPaysWithin(k, v, inner); }
  }

  lemma {:induction false} ExecAllPaysWithin(k: Hasher, v: Vault, calls: seq<Call>)
    ensures PaidWithin(v.paid, ExecAll(k, v, calls).paid, CompletedAll(calls))
    decreases calls
  {
    if calls != [] {
      ExecPaysWithin(k, v, calls[0]);
      ExecAllPaysWithin(k, Exec(k, v, calls[0]), calls[1..]);
    }
  }

  /** In every run each payment belongs to a withdrawal with a valid proof, a completed transfer and no revert. */
  lemma PaidOnlyWithCause(k: Hasher, calls: seq<Call>)
    ensures multiset(ExecAll(k, Vault({}, []), calls).paid) <= multiset(CompletedAll(calls))
  {
    ExecAllPaysWithin(k, Vault({}, []), calls);
  }

  function Nullifiers(k: Hasher, claims: seq<Claim>): set<Hash> {
    set c | c in claims :: k(Packed(c))
  }

  /** No nullifier of these claims is used, or occurs twice among them. */
  ghost predicate Fresh(k: Hasher, v: Vault, claims: seq<Claim>) {
    && (forall i :: 0 <= i < |claims| ==> k(Packed(claims[i])) !in v.nullifiers)
    && (forall i, j :: 0 <= i < j < |claims| ==> k(Packed(claims[i])) != k(Packed(claims[j])))
  }

  /** All of the claims were paid, in order. */
  ghost predicate PaidInOrder(k: Hasher, v: Vault, claims: seq<Claim>, v': Vault) {
    v'.paid == v.paid + claims && v'.nullifiers == v.nullifiers + Nullifiers(k, claims)
  }

  lemma FreshSplit(k: Hasher, v: Vault, a: seq<Claim>, b: seq<Claim>, v': Vault)
    requires Fresh(k, v, a + b) && v'.nullifiers == v.nullifiers + Nullifiers(k, a)
    ensures Fresh(k, v, a) && Fresh(k, v', b)
  {
    var all := a + b;
    assert forall i :: 0 <= i < |a| ==> all[i] == a[i];
    forall i | 0 <= i < |b| ensures k(Packed(b[i])) !in v'.nullifiers {
      assert all[|a| + i] == b[i];
      forall j | 0 <= j < |a| ensures k(Packed(a[j])) != k(Packed(b[i])) { assert all[j] == a[j]; }
    }
    forall i, j | 0 <= i < j < |b| ensures k(Packed(b[i])) != k(Packed(b[j])) {
      assert all[|a| + i] == b[i] && all[|a| + j] == b[j];
    }
  }

  lemma PaidConcat(k: Hasher, v: Vault, a: seq<Claim>, v1: Vault, b: seq<Claim>, v2: Vault)
    requires PaidInOrder(k, v, a, v1) && PaidInOrder(k, v1, b, v2)
    ensures PaidInOrder(k, v, a + b, v2)
  {
    assert v.paid + a + b == v.paid + (a + b);
  }

  lemma {:induction false} ExecPaysFresh(k: Hasher, v: Vault, call: Call)
    requires Fresh(k, v, Completed(call))
    ensures PaidInOrder(k, v, Completed(call), Exec(k, v, call))
    decreases call
  {
    hide Fresh, Packed;
    match call
    case Withdraw(c, proofValid, inner, transferOk) =>
      if proofValid && transferOk {
        var v1 := Vault(v.nullifiers + {k(Packed(c))}, v.paid + [c]);
        assert Nullifiers(k, [c]) == {k(Packed(c))};
        FreshHead(k, v, c, CompletedAll(inner));
        FreshSplit(k, v, [c], CompletedAll(inner), v1);
        ExecAllPaysFresh(k, v1, inner);
        PaidConcat(k, v, [c], v1, CompletedAll(inner), Exec(k, v, call));
      }
    case Frame(inner, reverts) => if !reverts { ExecAllPaysFresh(k, v, inner); }
  }

  lemma FreshHead(k: Hasher, v: Vault, c: Claim, rest: seq<Claim>)
    requires Fresh(k, v, [c] + rest)
    ensures k(Packed(c)) !in v.nullifiers
  {
    assert ([c] + rest)[0] == c;
  }

  lemma {:induction false} ExecAllPaysFresh(k: Hasher, v: Vault, calls: seq<Call>)
    requires Fresh(k, v, CompletedAll(calls))
    ensures PaidInOrder(k, v, CompletedAll(calls), ExecAll(k, v, calls))
    decreases calls
  {
    hide Fresh;
    if calls != [] {
      var v1, first, rest := Exec(k, v, calls[0]), Completed(calls[0]), CompletedAll(calls[1..]);
      FreshSplit(k, v, first, rest, v.(nullifiers := v.nullifiers + Nullifiers(k, first)));
      ExecPaysFresh(k, v, calls[0]);
      FreshSplit(k, v, first, rest, v1);
      ExecAllPaysFresh(k, v1, calls[1..]);
      PaidConcat(k, v, first, v1, rest, ExecAll(k, v, calls));
    }
  }

  /**
   And every cause is a payment: a run pays all of its completed withdrawals, nested ones included, in the order
   of the calls and nothing else, if and only if they have different nullifiers.
   */
  lemma AllCompletedPaidIff(k: Hasher, calls: seq<Call>)
    ensures var cs := CompletedAll(calls);
      ExecAll(k, Vault({}, []), calls).paid == cs <==>
      forall i, j :: 0 <= i < j < |cs| ==> k(Packed(cs[i])) != k(Packed(cs[j]))
  {
    var cs := CompletedAll(calls);
    ExecAllSound(k, Vault({}, []), calls);
    if forall i, j :: 0 <= i < j < |cs| ==> k(Packed(cs[i])) != k(Packed(cs[j])) {
      ExecAllPaysFresh(k, Vault({}, []), calls);
    }
  }
}
