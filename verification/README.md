# A verified model of the tiny SP1 rollup

The rollup keeps accounts in a Merkle tree. A sequencer executes blocks optimistically, generates Merkle
proofs for them, and a zkVM guest replays each block knowing only a 32-byte root and one proof per touched
leaf. An L1 contract queues deposits and forced transactions, checks the guest's public values against
those queues and moves its state root. This project models these parts in Dafny and proves how they fit
together. `dafny verify dfyconfig.toml` checks all of it.

## How it is organised

| file | contents |
|---|---|
| `Encoding.dfy` | bytes, big-endian integers, key order, what a hash collision is |
| `Stf.dfy` | accounts, block contents, the arithmetic of deposits and transfers |
| `Merkle.dfy` | proofs, full trees, binding of proofs to trees, leaf rewrites |
| `Commitment.dfy` | ABI encoding, list hashes, the 28 + 4 byte commitment |
| `Guest.dfy`, `Program.dfy` | the state transition of the guest and its public values |
| `Ledger.dfy` | the state as a map, conservation, solvency, nonces |
| `Executor.dfy` | the cached optimistic executor over a state tree |
| `Generator.dfy` | the proof generator |
| `Agreement.dfy` | executor against generator, generator against guest |
| `SharedTree.dfy` | executor and generator on one tree, which holds no intermediate roots |
| `FullTree.dfy` | full trees holding a ledger: which blocks all three executions agree on; the guest against the ledger |
| `Bridge.dfy`, `Fetch.dfy` | the L1 contract, safety of all its runs, acceptance of honest batches |
| `Pipeline.dfy` | a block on its whole way to L1 |
| `Examples.dfy` | concrete inputs for the laws the code does not keep |
| `Withdrawal.dfy` | withdrawals with reentrant and reverting calls |
| `Persistence.dfy`, `Sequencer.dfy` | the block queues and the sequencer protocol with crashes |

Loops and in-place updates of the original are methods and classes, each specified by a function; the
theorems are about those functions. A block is one list of operations (`Op`): deposits, then forced
transactions, then ordinary ones, so that every result about whole blocks is one induction.

**Hash functions** are parameters, and nothing is assumed about them. A function into 32 bytes has
collisions, so "no collision exists" would make every theorem empty. Instead a theorem ends in "or
`CollisionIn(h, S)`", where `S` is the explicit finite set of byte strings that the trees, proofs and lists
at hand make the program hash. For the same reason the state tree is assumed truthful only on the finite
set of ledgers a block passes through (`RootTruth`, `Stores`, `PathsRight`), and proofs are assumed to be as
the code builds them: verifying, or the empty proof of a missing account (`Sourced`). `FullTree` exhibits trees
that meet this.

## Where the code does not keep what one would expect

Each of these comes with the exact condition under which the expected law holds, and with a concrete input.

- A transfer to oneself that succeeds stores only the credited copy (crates/core/src/executor.rs:159-160): it
  creates money, keeps its nonce and can be replayed. `Ledger.ConservedIff`, `Ledger.Solvency`,
  `Ledger.NonceDiscipline`, `Ledger.NoReplay`, `Ledger.SelfTransferReplays`; input: `Ledger.SelfTransferMints`.
- The guest credits a fresh account instead of the one in the tree (crates/stf/src/lib.rs:161, 182), so an
  existing recipient loses its balance and nonce. `FullTree.NewRecipientIsExact`; input:
  `Examples.ExistingRecipient`.
- A deposit that overflows is skipped by executor and generator but makes the guest reject the block.
  `Agreement.GuestAcceptsIff`; input: `Examples.OverflowingDeposit`.
- An ordinary transaction of a missing sender is skipped by executor and generator, which pushes dummy proofs
  (crates/core/src/lib.rs:141-148), but makes the guest reject the block. `Agreement.GuestAcceptsIff`; input:
  `Examples.MissingSender`.
- An account that is not in the tree is proved as a new one without siblings (crates/core/src/lib.rs:46, 58).
  At any root, such as after a deposit to a new user in a populated tree, that proof verifies only if the
  root is that account's own digest, and the generator moves on to the digest of that account alone.
  `Agreement.MissingProof`, `Agreement.MissingAccountRejected`. A fresh deployment starts at the all-zero
  root, where every account is missing: `Agreement.ZeroRootRejected`. Input: `Examples.DepositToNewUser`.
- A forced transaction of an unknown sender is skipped by the executor but applied by the generator, so their
  roots part unless the ledgers happen to meet again, which takes a later payment to that sender.
  `Agreement.StepLedgersAgreeIff`, `Agreement.LedgersPart`, `Agreement.GeneratorAgreesIff`; inputs:
  `Examples.UnknownForcedSender`, `Examples.UnknownForcedSenderHealed`.
- A transaction with a wrong nonce or an overflow is skipped by the executor but stops the generator with an
  error, so a block containing one is never proved. `Agreement.GeneratorSimulates`,
  `FullTree.BlockProvableIff`; input: `Examples.WrongNonce`.
- The executor files only the final root of a batch, while the generator asks the same tree for proofs at every
  root in between (crates/core/src/lib.rs:84, 119). At a root that is not filed deposits and forced transfers
  are errors and every other transaction is skipped, because any failed lookup counts as a missing sender
  (crates/core/src/lib.rs:136). So a block yields proofs exactly when it has no failing transfer, creates no
  account, and every ledger on the way is filed: on a tree that has not seen these ledgers before, when the
  block passes through no third ledger. `SharedTree.SharedTreeIff`, `SharedTree.BuildAndGenerate`, `SharedTree.FreshTrail`;
  input: `Examples.TwoDeposits`.
- Leaves are 32-byte digests, but `get_account` decodes them as 48-byte accounts (crates/core/src/lib.rs:38),
  which never succeeds. A batch is aborted exactly when it deposits to or spends from a stored account that it
  has not written itself. A stored recipient is not an error but taken for a new account
  (crates/core/src/executor.rs:76-78, 102-104) and overwritten. So a batch that is not aborted runs as on the
  empty ledger; a step of it does what the ledger rules say exactly when it overwrites no stored account.
  `Executor.StoredAccountsUnreadable`, `Executor.OverwriteIsExact`, `Executor.UnreadableBatchCommits`; input:
  `Examples.StoredRecipient`. Everywhere else decoding is a parameter.
- A crash between setting the tree's head root and committing the block breaks the chain of committed
  blocks. `Sequencer.CrashLinkIff`; input: `Examples.CrashBreaksChain`.
- A restart sets the proven head to the tree's head root (crates/sequencer/src/main.rs:185-211), ahead of every
  pending block, until the next proof. `Sequencer.RestartChaining`; input: `Examples.RestartAhead`.
- Blocks refetch every deposit that L1 has not processed yet, so one deposit may go into several blocks and be
  credited several times by the executor. Blocks include each deposit once exactly when L1 had caught up at
  every fetch; L1 itself refuses the repetition. `Fetch.FetchedOnceIff`, `Fetch.ProcessedAgainOnlyIfRepeated`;
  input: `Examples.DepositTwice`.

The two mask literals in contracts/src/RollupBridge.sol:148 and 153 have 72 hexadecimal digits, 288 bits. Their
low 256 bits are the mask of the high 28 bytes that README.md:11 and the type `bytes28` announce; the model uses
that mask.

## Model

| member | source | states |
|---|---|---|
| `Encoding.BigEndianRoundTrip` | crates/sequencer/src/persistence.rs:77-100 | reading back a fixed-width big-endian number gives the number |
| `Encoding.BigEndianOrder` | crates/sequencer/src/persistence.rs:26-47 | the byte order of fixed-width keys is exactly the order of the numbers |
| `Stf.ApplyDeposit` | crates/stf/src/lib.rs:284-290 | succeeds exactly when the sum fits 64 bits, with id and nonce kept; otherwise overflow |
| `Stf.SettleIsExact` | crates/stf/src/lib.rs:292-322 | success exactly when the nonce fits, the sender has amount and fee and the recipient has room; failure exactly when it has less and the sum fits 64 bits; which error otherwise; what each does to both accounts, in plain numbers |
| `Stf.ApplyTransaction` | crates/stf/src/lib.rs:292-322 | the same for the code as it runs, step by step |
| `Stf.ApplyForcedTx` | crates/stf/src/lib.rs:324-354 | the same for forced transactions |
| `Stf.AccountBytesLayout` | crates/stf/src/lib.rs:53-61 | nonce, id and balance read back from bytes 0-8, 8-40 and 40-48 |
| `Stf.AccountBytesInjective` | crates/stf/src/lib.rs:53-61 | the 48-byte account preimage determines the account |
| `Merkle.ComputeNewRoot` | crates/stf/src/lib.rs:71-81 | folds the siblings over the new leaf digest |
| `Merkle.Verify` | crates/stf/src/lib.rs:89-101 | true exactly when the fold of the account's digest is the expected root |
| `Merkle.TwoLeaves` | crates/stf/src/lib.rs:64-69 | a tree of two leaves, byte by byte: its root and the proofs of both leaves |
| `Merkle.Binding` | crates/stf/src/lib.rs:53-100 | a proof verifying against a full tree's root has the path, account and siblings of a leaf of it, or tree and proof contain a collision; covers paths of any length |
| `Merkle.SiblingsFollowPath` | crates/stf/src/lib.rs:83-87 | siblings read off a tree carry the direction bits of the path they were read on |
| `Merkle.UpdateRoot` | crates/stf/src/lib.rs:71-100 | the old siblings fold a new leaf to the root of the rewritten tree and still prove it |
| `Merkle.UpdateElsewhere` | crates/stf/src/lib.rs:71-81 | a rewrite leaves every other position unchanged |
| `Merkle.HonestProofVerifies` | crates/stf/src/lib.rs:89-101 | the siblings read off a tree verify its leaf, and any leaf after it was rewritten |
| `Merkle.FoldInjective` | crates/stf/src/lib.rs:71-81 | two accounts under one proof reach different roots, or a collision is exhibited |
| `Commitment.HashDeposits` | crates/stf/src/lib.rs:228-255 | digest of the concatenated digests of the ABI-encoded deposits, empty list included |
| `Commitment.HashForcedTxs` | crates/stf/src/lib.rs:257-282 | the same for calldata and timestamps of forced transactions |
| `Commitment.DepositHashLayout` | crates/stf/src/lib.rs:228-255 | the list hash is one digest over the digests of the encoded deposits, in order |
| `Commitment.ForcedHashLayout` | crates/stf/src/lib.rs:257-282 | the same for forced transactions |
| `Commitment.AbiDepositLayout` | crates/stf/src/lib.rs:216-220 | padded address, amount and timestamp read back from the three words |
| `Commitment.AbiForcedLayout` | crates/stf/src/lib.rs:222-225 | whole words; offsets 32 and 64, timestamp, length, data and zero padding at their places |
| `Commitment.ConcatDigestsAt` | crates/stf/src/lib.rs:228-255 | the digest of each item stands at its place |
| `Commitment.AbiDepositInjective` | crates/stf/src/lib.rs:216-220 | the three-word encoding determines address, amount and timestamp |
| `Commitment.AbiForcedInjective` | crates/stf/src/lib.rs:222-225 | the dynamic encoding determines calldata and timestamp |
| `Commitment.ListBinding` | crates/stf/src/lib.rs:228-282 | lists of any lengths with the same 28-byte list hash are equal item by item, or a collision of the 28-byte digest is exhibited |
| `Commitment.TruncateKeepsPrefix` | contracts/src/RollupBridge.sol:152-154 | masked words agree exactly when the first 28 bytes do |
| `Commitment.CommitmentLayout` | crates/stf/src/lib.rs:201-206 | 28 bytes of the digest, then the count; L1 reads the count of any word from its last four bytes |
| `Commitment.CommitmentRoundTrip` | contracts/src/RollupBridge.sol:145-154 | decoding the guest's commitment gives its count and the truncation of its digest |
| `Guest.ExecuteTransition` | crates/stf/src/lib.rs:125-198 | the three loops with every error and out-of-range panic, and the two list hashes |
| `Guest.DepositLoop` | crates/stf/src/lib.rs:141-149 | the deposit loop ends where the run of the deposit operations ends |
| `Guest.ForcedLoop` | crates/stf/src/lib.rs:151-174 | the same for forced transactions, skipping the zero sender |
| `Guest.TxLoop` | crates/stf/src/lib.rs:176-195 | the same for ordinary transactions |
| `Guest.TransferStep` | crates/stf/src/lib.rs:156-173 | verify sender, settle with a new recipient, rewrite, verify recipient at the intermediate root, rewrite |
| `Guest.PanicsIff` | crates/stf/src/lib.rs:141-195 | the guest panics exactly when an operation it reaches lacks the first proof, or the second of a transfer that is paid; never with full proof vectors |
| `Guest.GuestSound` | crates/stf/src/lib.rs:125-198 | whole-block soundness: an accepted block's root is the root of the full tree after the block was applied to its leaves, or a collision is exhibited |
| `Guest.GuestComplete` | crates/stf/src/lib.rs:125-198 | where the block can be applied to the tree, honest proofs are accepted and give that tree's root |
| `Program.RunGuest` | crates/program/src/main.rs:9-46 | public values, or none when the guest panics; counts cut to 32 bits |
| `Ledger.StepIsExact` | crates/core/src/executor.rs:36-165 | one operation moves every balance by what it brings and takes, in plain numbers, creates only recipients and leaves unnamed accounts alone |
| `Ledger.AccountStatement` | crates/core/src/executor.rs:36-165 | over every run the balance of every account is what it had and received less what it spent |
| `Ledger.BatchesAreOneRun` | crates/sequencer/src/main.rs:653-679 | running batches one after the other is running the concatenated operations |
| `Ledger.StepConserves` | crates/core/src/executor.rs:36-165 | one operation changes the total by credit, fee and mintage |
| `Ledger.Conservation` | crates/core/src/executor.rs:36-165 | the same for every run |
| `Ledger.ConservedIff` | crates/core/src/executor.rs:152-165 | the total is conserved up to deposits and fees exactly when no transfer to oneself with a positive debit succeeded |
| `Ledger.Solvency` | crates/core/src/executor.rs:36-165 | from nothing, over any batches, the total is at most deposits plus mintage; it is at most the deposits exactly when mintage does not exceed fees and uncredited deposits |
| `Ledger.SelfTransferMints` | crates/core/src/executor.rs:159-160 | a two-operation block after which more is owned than was deposited |
| `Ledger.StepNonce` | crates/stf/src/lib.rs:297-303 | an applied transfer moves its sender's nonce by one unless it succeeds in paying the sender; credits never move a nonce |
| `Ledger.NonceDiscipline` | crates/stf/src/lib.rs:297-303 | for every sender and run: the final nonce; it is the initial one plus the applied transfers exactly when successful self-payments are 0 modulo 2^64; nonces are consecutive exactly when no applied transfer follows a successful self-payment |
| `Ledger.NoReplay` | crates/core/src/executor.rs:58-125 | over any batches, up to 2^64 applied transfers of a sender have different nonces exactly when none follows a successful self-payment |
| `Ledger.SelfTransferReplays` | crates/core/src/executor.rs:159-160 | a successful payment to oneself is applied again exactly when the balance can take the amount twice |
| `Executor.ExecRefinesLedger` | crates/core/src/executor.rs:36-125 | over a truthful tree the writes of a batch laid over the ledger are the ledger's run |
| `Executor.ReadsAreNoWrites` | crates/core/src/executor.rs:127-138 | over a truthful tree, writing back accounts that were only read changes nothing: the leaves are the digests of the ledger with the real writes |
| `Executor.HoldsIsTruthful` | crates/core/src/lib.rs:26-41 | a tree holding the digests of a ledger, decoded rightly, answers every key truthfully |
| `Executor.BincodeRoundTrip` | crates/stf/src/lib.rs:36-41 | decoding an encoded account gives it back |
| `Executor.StoredAccountsUnreadable` | crates/core/src/lib.rs:33-40 | with the decoder the code uses, for every batch: aborted, with which error, exactly when an operation deposits to or spends from a stored account the batch has not written; otherwise it runs as on the empty ledger |
| `Executor.OverwriteIsExact` | crates/core/src/executor.rs:76-78 | with that decoder, a step that is not aborted does what the ledger rules say exactly when it does not succeed in paying a stored, not new, unwritten recipient |
| `Executor.UnreadableBatchOnLedger` | crates/core/src/executor.rs:58-125 | with that decoder, a batch neither aborted nor overwriting stored recipients is the ledger's run |
| `Executor.UnreadableBatchCommits` | crates/core/src/executor.rs:127-150 | with that decoder, the committed leaves are the run on the empty ledger laid over the old leaves |
| `Executor.InsertAllIsOverlay` | crates/core/src/executor.rs:127-150 | inserting the cached accounts in any order gives the same leaves |
| `Executor.BlockExecutor.GetAccount` | crates/core/src/executor.rs:26-34 | answers like the uncached view and changes nothing visible |
| `Executor.BlockExecutor.ApplyDeposit` | crates/core/src/executor.rs:36-56 | matches the uncached step; a read error changes nothing |
| `Executor.BlockExecutor.ApplyForcedTx` | crates/core/src/executor.rs:58-90 | matches the uncached step, skips included |
| `Executor.BlockExecutor.ApplyTransaction` | crates/core/src/executor.rs:92-125 | matches the uncached step, skips included |
| `Executor.BlockExecutor.UpdateCacheSuccess` | crates/core/src/executor.rs:152-165 | two writes, or only the credited copy for a transfer to oneself |
| `Executor.BlockExecutor.RunAll` | crates/sequencer/src/main.rs:668-676 | the three loops match the uncached run |
| `Executor.BlockExecutor.CommitBlock` | crates/core/src/executor.rs:127-150 | new leaves are the overlay of the cache, whatever its order; an empty cache writes nothing |
| `Executor.ApplyOptimisticBatch` | crates/sequencer/src/main.rs:653-679 | an aborted batch writes nothing; otherwise the uncached run's writes, and only accounts as read beside them, are laid over the old leaves; on a tree holding a ledger the result is the root of the ledger after the batch, and no other root is filed |
| `Generator.BuildStfProof` | crates/core/src/lib.rs:43-63 | missing account proved as new, missing path as empty, other errors passed on |
| `Generator.GenerateTransfer` | crates/core/src/lib.rs:112-131 | both proofs, the rewrite, and the recipient's proof at the intermediate root |
| `Generator.DepositProofs` | crates/core/src/lib.rs:79-95 | one proof per deposit, overflow skipped without moving the root |
| `Generator.ForcedProofs` | crates/core/src/lib.rs:97-132 | two proofs per forced transaction, dummies for the zero sender |
| `Generator.TxProofs` | crates/core/src/lib.rs:134-172 | two proofs per transaction, dummies for a missing sender |
| `Generator.GenerateProofsForBlock` | crates/core/src/lib.rs:73-186 | the error, the root mismatch, or a bundle in which the guest finds exactly the run's proofs at every index |
| `Agreement.StepLedgersAgreeIff` | crates/core/src/executor.rs:65-72 | generator and executor leave the same ledger exactly when no forced sender is missing or the generator stops there |
| `Agreement.GeneratorSimulates` | crates/core/src/lib.rs:79-177 | whenever the generator's loops finish they end in the root of its ledger, transfers to oneself and unknown forced senders included; on a readable tree they finish exactly when no transfer carried out has a wrong nonce or an overflow |
| `Agreement.LedgersPart` | crates/core/src/executor.rs:65-72 | the two ledgers are equal up to the first forced transaction of an unknown sender, differ after it, and end equal only if the executor later pays that sender |
| `Agreement.GeneratorAgreesIff` | crates/core/src/lib.rs:174-177 | a finished run ends in the executor's root exactly when both ledgers end equal: always when forced senders exist, otherwise only after a later payment to the first unknown one |
| `SharedTree.UnfiledStays` | crates/core/src/lib.rs:134-150 | from a root the tree does not hold the generator never gets away: it finishes exactly if only skipped and ordinary transactions follow, at that same root |
| `SharedTree.FiledThroughout` | crates/core/src/lib.rs:79-177 | on every tree a finished run ends at a filed root exactly when all roots it stood at, also between the rewrites of a transfer, were filed |
| `SharedTree.SharedTreeIff` | crates/core/src/lib.rs:73-186 | on the executor's tree the generator ends at a filed root exactly when no transfer carried out has an error, no account is created and all ledgers on the way are filed, and then at the executor's root; unless the digest of a created account is a filed root |
| `SharedTree.BuildAndGenerate` | crates/sequencer/src/main.rs:304-335 | a block built by the executor and given to the generator on the same tree: its post root is the root of the ledger's run and the only root filed; a bundle exactly under those conditions; with filed ledgers and no created account an error exactly when a transfer has one, and never a root mismatch |
| `SharedTree.FreshTrail` | crates/sequencer/src/main.rs:653-679 | on a tree that has seen none of the block's ledgers the condition on roots says that the block passes through its first and last ledger only |
| `Agreement.MissingProof` | crates/core/src/lib.rs:43-63 | a missing account's proof verifies exactly at its own digest and rewrites every root to the digest of that account alone |
| `Agreement.GuestAcceptsIff` | crates/core/src/lib.rs:73-186 | with proofs as the code builds them, the guest returns the generator's root exactly when at every operation the proofs verify, no deposit overflows, the sender is found and a credited recipient is new; or a collision or a guest root that is a new account's digest |
| `Agreement.MissingAccountRejected` | crates/core/src/lib.rs:43-63 | the guest reaches the first operation naming a missing account at the generator's root and rejects the block there if that account's digest is another; a deposit gets past, in step with the generator, exactly when it is that root |
| `Agreement.ZeroRootRejected` | crates/core/src/lib.rs:16-63 | from the all-zero root, after any skipped forced transactions, the block is rejected at its first real operation unless that account's digest is all zero |
| `FullTree.PopulateUpdate` | crates/stf/src/lib.rs:71-81 | rewriting an account's leaf is rewriting the ledger |
| `FullTree.SeparatedOrCollision` | crates/stf/src/lib.rs:53-69 | different ledgers on one tree shape have different roots, or a collision is exhibited |
| `FullTree.HonestOracleIsTruthful` | crates/core/src/lib.rs:16-63 | all assumptions on the state tree are met by a full tree that answers missing accounts as the code's tree does |
| `FullTree.FullTreeIsShared` | crates/core/src/lib.rs:16-63 | what is asked of the tree shared by executor and generator holds of a full tree |
| `FullTree.ThreeExecutionsAgree` | crates/sequencer/src/main.rs:653-679 | for a block clean on the ledger (nothing skipped, accounts in the tree, credited recipients new) executor, generator and guest end in the root of the tree holding the final ledger, or a collision or an all-zero digest is exhibited |
| `FullTree.FreshHitsCollide` | crates/stf/src/lib.rs:53-69 | on a tree of two or more leaves a guest root that is the digest of a new account exhibits a collision |
| `FullTree.BlockProvableIff` | crates/core/src/lib.rs:73-186 | on a full tree the generator finishes and the guest returns its root exactly when the block is clean on the ledger, up to explicit collisions or an all-zero digest and, on a single leaf, a guest root that is a new account's digest |
| `FullTree.TreeRunIsLedgerRun` | crates/stf/src/lib.rs:141-195 | the block on the leaves is the block on the ledger when paths name the accounts and recipients are new |
| `FullTree.NewRecipientIsExact` | crates/stf/src/lib.rs:176-190 | a transfer the guest lets succeed gives the executor's ledger exactly when the recipient was new, or an account pays itself its whole balance of at least 2^63 at nonce zero; the recipient's leaf is overwritten |
| `FullTree.GuestRefinesLedger` | crates/stf/src/lib.rs:125-198 | whatever proofs it is fed, an accepted block's root is the root of the executor's final ledger under those conditions, or a collision is exhibited |
| `Bridge.HashItems` | contracts/src/RollupBridge.sol:123-128 | digests into an array, packed and hashed, give the guest's list hash |
| `Bridge.RollupBridge.constructor` | contracts/src/RollupBridge.sol:39-47 | initial root and empty queues |
| `Bridge.RollupBridge.Deposit` | contracts/src/RollupBridge.sol:76-85 | a positive value makes the queue one longer, the new last entry has the sender, the value as amount and the time, all else is kept; zero value reverts |
| `Bridge.RollupBridge.ForceTransaction` | contracts/src/RollupBridge.sol:87-95 | from 0.001 ether on the queue is one longer, the new last entry has calldata and time, all else is kept; below it reverts |
| `Bridge.RollupBridge.GetDeposits` | contracts/src/RollupBridge.sol:97-105 | exactly the range, or a revert |
| `Bridge.RollupBridge.GetForcedTransactions` | contracts/src/RollupBridge.sol:107-115 | exactly the range, or a revert |
| `Bridge.RollupBridge.CalculateDepositHash` | contracts/src/RollupBridge.sol:117-129 | list hash of the range; zero count never reverts |
| `Bridge.RollupBridge.CalculateForcedTxHash` | contracts/src/RollupBridge.sol:131-143 | list hash of the range; zero count never reverts |
| `Bridge.RollupBridge.UpdateState` | contracts/src/RollupBridge.sol:49-74 | accepted exactly when root, both commitments and proof match; then root and pointers move, otherwise nothing |
| `Bridge.QueueInvariant` | contracts/src/RollupBridge.sol:59-95 | in every run counts are lengths, pointers are in range, queues only grow and pointers never go back |
| `Bridge.QueuesAreCalls` | contracts/src/RollupBridge.sol:76-95 | in every run the queues are exactly the paid calls in order, with sender, amount, calldata and time, and queued amounts add up to the ether sent |
| `Bridge.DepositsBound` | contracts/src/RollupBridge.sol:59-63 | a matching deposit commitment means the guest saw exactly the next queued deposits, or a collision is exhibited |
| `Bridge.ForcedBound` | contracts/src/RollupBridge.sol:59-63 | the same for forced transactions |
| `Bridge.BridgeSafety` | contracts/src/RollupBridge.sol:49-74 | in every run the state root is linked to the initial one by guest transitions whose items are exactly the processed prefixes of both queues, or a collision is exhibited |
| `Bridge.ChainSound` | crates/stf/src/lib.rs:125-198 | a chain of guest transitions is a chain of rewrites of one full tree |
| `Bridge.L1RootIsTreeRoot` | contracts/src/RollupBridge.sol:49-74 | in every run the L1 root is the root of the genesis tree after the accepted batches, which are the processed L1 items |
| `Fetch.FetchNewDeposits` | crates/sequencer/src/main.rs:347-405 | all unprocessed deposits in order, each to the padded address with its amount and time, or a failure exactly when a field exceeds u64 |
| `Fetch.FetchNewForced` | crates/sequencer/src/main.rs:407-489 | all unprocessed forced transactions in order, each with the order its calldata parses to or the zero sender, or a failure exactly when a timestamp exceeds u64 |
| `Fetch.FetchedDepositRoundTrip` | crates/sequencer/src/main.rs:396-402 | a fetched deposit encodes back to what L1 stores |
| `Fetch.FetchedForcedRoundTrip` | crates/sequencer/src/main.rs:459-485 | a fetched forced transaction encodes back to what L1 stores and asks for exactly what its calldata says; unparsable calldata has the zero sender |
| `Fetch.HonestUpdateAccepted` | contracts/src/RollupBridge.sol:49-74 | a guest-accepted batch of the next queued items is accepted and moves both pointers past them |
| `Fetch.UpdateAcceptedIff` | contracts/src/RollupBridge.sol:49-74 | L1 accepts exactly the guest's values for a batch that starts at its root and carries the next queued items, fewer than 2^32 of each kind; or a collision is exhibited |
| `Fetch.ProcessedAgainOnlyIfRepeated` | contracts/src/RollupBridge.sol:59-63 | a block carrying any range of the deposit queue is accepted only if the same deposits stand at L1's pointer, or a collision is exhibited |
| `Fetch.FetchedOnceIff` | crates/sequencer/src/main.rs:347-405 | blocks include every deposit once and in order exactly when at each fetch L1 had processed all that was fetched before |
| `Pipeline.CleanBlockReachesL1` | crates/sequencer/src/main.rs:560-613 | a block clean on the ledger, starting at L1's root and carrying the next queued items, is accepted by L1, whose new root is the root of the final ledger; or a collision or an all-zero digest is exhibited |
| `Pipeline.UnparsableDoesNothing` | crates/sequencer/src/main.rs:468-485 | unparsable calldata leaves ledger, writes, generator root and guest root as they were; parsable calldata acts as an ordinary transaction with its fields |
| `Withdrawal.PackedLayout` | contracts/src/RollupBridge.sol:161-164 | sender, amount and nonce read back from the packed bytes |
| `Withdrawal.PackedInjective` | contracts/src/RollupBridge.sol:161-164 | the packed claim determines sender, amount and nonce |
| `Withdrawal.Withdrawals.Execute` | contracts/src/RollupBridge.sol:160-173 | a call with its nested calls; without a valid proof or a completed transfer, and in a reverting frame, nothing happens |
| `Withdrawal.PaidAtMostOnce` | contracts/src/RollupBridge.sol:160-173 | in every run, reentrant or reverting, no claim is paid twice |
| `Withdrawal.PaidOnlyWithCause` | contracts/src/RollupBridge.sol:160-173 | in every run each payment belongs to a withdrawal with a valid proof and a completed transfer inside nothing taken back |
| `Withdrawal.AllCompletedPaidIff` | contracts/src/RollupBridge.sol:160-173 | a run pays all such withdrawals, nested ones included, in order and nothing else exactly when their nullifiers differ |
| `Withdrawal.RefusedIff` | contracts/src/RollupBridge.sol:160-173 | a provable claim is refused exactly when it was paid before or collides with a different paid claim |
| `Persistence.KeyOrder` | crates/sequencer/src/persistence.rs:26-47 | block keys are distinct and ordered as the numbers |
| `Persistence.BlockQueueStore.PushPending` | crates/sequencer/src/persistence.rs:21-32 | files one block under its number |
| `Persistence.BlockQueueStore.PeekPending` | crates/sequencer/src/persistence.rs:34-50 | the pending block with the smallest number, none exactly when the queue is empty |
| `Persistence.BlockQueueStore.RemovePending` | crates/sequencer/src/persistence.rs:52-62 | removes exactly that number |
| `Persistence.BlockQueueStore.PushFailed` | crates/sequencer/src/persistence.rs:64-75 | files one block as failed, pending untouched |
| `Persistence.BlockQueueStore.GetBlockCounter` | crates/sequencer/src/persistence.rs:77-87 | reads back the number the last commit asked for next, zero before the first commit |
| `Persistence.BlockQueueStore.CommitOptimisticBlock` | crates/sequencer/src/persistence.rs:102-129 | block and next number change together |
| `Sequencer.CrashSafeNumbering` | crates/sequencer/src/main.rs:204-339 | with crashes anywhere: committed blocks are numbered without gap or repetition below the stored counter, and each is pending, failed or proven |
| `Sequencer.MempoolConservation` | crates/sequencer/src/main.rs:278-339 | in every crash-free interleaving the accepted submissions are, in order, committed, in flight and waiting; draining removes exactly the snapshot |
| `Sequencer.BlockTakesSnapshot` | crates/sequencer/src/main.rs:278-339 | a committed block holds the whole mempool at its snapshot and exactly the fetched deposits and forced transactions, is not empty, and leaves in the mempool what was submitted since |
| `Sequencer.AcceptedAreCommitted` | crates/sequencer/src/main.rs:278-339 | without crashes the blocks up to a commit hold exactly the submissions accepted before its snapshot |
| `Sequencer.RestartConservation` | crates/sequencer/src/main.rs:185-211 | submissions accepted after a restart are, in order, in blocks committed later, in flight and waiting; only uncommitted ones are lost |
| `Sequencer.RestartRevives` | crates/sequencer/src/main.rs:185-231 | a restart keeps the queues; a block can be built as soon as anything is fetched, and exactly the oldest pending block taken up |
| `Sequencer.FailedWorkerStays` | crates/sequencer/src/main.rs:219-224 | a failed worker stays where it stood until a restart |
| `Sequencer.FailedProverStays` | crates/sequencer/src/main.rs:226-231 | after the prover failed nothing is proven, given up or removed until a restart |
| `Sequencer.ThreeAttempts` | crates/sequencer/src/main.rs:491-553 | a block is given up after exactly three failed attempts in a row since it was taken up, and proven after fewer |
| `Sequencer.CommittedChain` | crates/sequencer/src/main.rs:286-339 | committed blocks form one chain across restarts and stopped workers as long as no crash hits a block in flight |
| `Sequencer.LaterChain` | crates/sequencer/src/main.rs:185-211 | after a restart, whatever interleaving follows, the blocks committed later form a chain from the tree's head root |
| `Sequencer.CrashLinkIff` | crates/sequencer/src/main.rs:312-339 | after a crash with a block in flight, whatever follows, once another block is committed the chain is unbroken exactly when the lost block had not changed the root |
| `Sequencer.RootChaining` | crates/sequencer/src/main.rs:497-610 | without restart: pending blocks and optimistic head are chained, the proven head is the root after the last proven block, all blocks between failed; it is chained to the pending ones exactly when those left the root where it was, so always without failed blocks |
| `Sequencer.RestartChaining` | crates/sequencer/src/main.rs:185-211 | after a restart with no block in flight: pending blocks stay chained; up to the next proof the proven head is the end of the chain at the restart, from then on as without restart |
| `Examples.OverflowingDeposit` | crates/core/src/executor.rs:47-52 | an input where the executor skips a deposit and the guest rejects the block |
| `Examples.ExistingRecipient` | crates/stf/src/lib.rs:182-190 | an input where the executor leaves 8 with nonce 7 and the guest 3 with nonce 0 |
| `Examples.UnknownForcedSender` | crates/core/src/executor.rs:65-72 | an input where the generator creates an account the executor does not |
| `Examples.UnknownForcedSenderHealed` | crates/core/src/executor.rs:65-72 | an input with an unknown forced sender where both ledgers still end equal |
| `Examples.MissingSender` | crates/core/src/lib.rs:136-150 | an input where the executor skips a transaction and the guest rejects the block |
| `Examples.DepositToNewUser` | crates/core/src/lib.rs:43-63 | an input where the executor makes an account and the guest rejects its generated proof |
| `Examples.WrongNonce` | crates/core/src/lib.rs:153-156 | an input the executor skips and the generator cannot finish |
| `Examples.StoredRecipient` | crates/core/src/executor.rs:102-104 | an input where a stored account of 5 with nonce 7 is replaced by one of 3 with nonce 0 |
| `Examples.TwoDeposits` | crates/core/src/lib.rs:79-95 | a block without errors or new accounts that passes through a third ledger |
| `Examples.DepositTwice` | crates/sequencer/src/main.rs:347-405 | two fetches that take the same deposit, which is then credited twice |
| `Examples.RestartAhead` | crates/sequencer/src/main.rs:185-211 | a restart after which the proven head is the end of a block never proved |
| `Examples.CrashBreaksChain` | crates/sequencer/src/main.rs:312-339 | a run in which the first committed block does not start at the initial root |

## Left out

- SHA3, Keccak, the SP1 prover and verifier, OpenZeppelin's `MerkleProof`: hash functions are parameters, the verifier is taken as sound, a withdrawal's Merkle check is an arbitrary outcome.
- Monotree and RocksDB: the tree is a map of leaves under each root or an oracle with stated assumptions.
- bincode and serde, including how forced calldata is parsed: an open partial function, except for the width of an encoded account.
- A tree root of `None` in the executor: the sequencer always passes a root.
- Debug builds, where `nonce += 1` panics at 2^64 - 1: the model wraps as release builds do.
- Block numbers at 2^64 - 1: the protocol stops there instead of wrapping.
- L1 reads of `FetchNewDeposits` are one atomic look at the contract; the sequencer makes three calls.
- The sequencer's workers are modelled on values, as atomic protocol steps, since the properties are about interleavings and crashes; what a batch computes there is an arbitrary new root, and `Executor` says which.
- Where a fetched deposit ends up in `Fetch.FetchedOnceIff`: it speaks of queue positions seen at each fetch, not of the interleaving of fetches with proofs.
- A lookup at a root the tree does not hold is an error here; a comment at crates/core/src/lib.rs:34 says the library panics. Either way such a block gets no proofs.
- Withdrawals keep their own storage, apart from the queues: the two share no variable but the state root, whose effect on a withdrawal is the arbitrary outcome of its Merkle check. Ether balances are not tracked.
- HTTP API, RPC, retries with backoff, sleeps, configuration, logging, wallets, `reclaimDeposit` (always reverts), `set_block_counter` (unused), command-line tools, build scripts and the Fibonacci template.
