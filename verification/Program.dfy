/** The guest's entry point: from private inputs to the values it commits to. */
module Program {
  import opened Encoding
  import opened Stf
  import opened Guest
  import opened Commitment

  datatype PublicValues = PublicValues(preStateRoot: Hash, postStateRoot: Hash,
                                       depositsCommitment: Hash, forcedTxsCommitment: Hash)

  function DepositsCommitment(k: Hasher, ds: seq<Deposit>): Hash {
    BuildCommitment(ListHash(k, DepositItems(ToL1Deposits(ds))), |ds| % U32_SIZE)
  }

  function ForcedCommitment(k: Hasher, fs: seq<ForcedTx>): Hash {
    BuildCommitment(ListHash(k, ForcedItems(ToL1ForcedTxs(fs))), |fs| % U32_SIZE)
  }

  /** None when the guest panics: no proof exists for such an input. Counts are cut to 32 bits. */
  function PublicValuesOf(h: Hasher, k: Hasher, input: GuestInput): Option<PublicValues> {
    var r := Transition(h, input);
    if !r.Done? then None
    else Some(PublicValues(input.preStateRoot, r.value,
                           DepositsCommitment(k, input.deposits), ForcedCommitment(k, input.forced)))
  }

  method RunGuest(h: Hasher, k: Hasher, input: GuestInput) returns (r: Option<PublicValues>)
    ensures r == PublicValuesOf(h, k, input)
  {
    var depositsLen: U32, forcedLen: U32 := |input.deposits| % U32_SIZE, |input.forced| % U32_SIZE;
    var out := ExecuteTransition(h, k, input);
    match out
    case Done((postRoot, depositsHash, forcedHash)) =>
      return Some(PublicValues(input.preStateRoot, postRoot,
                               BuildCommitment(depositsHash, depositsLen), BuildCommitment(forcedHash, forcedLen)));
    case Rejected(_) => return None;
    case Panicked => return None;
  }
}
