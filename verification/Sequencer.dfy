/**
 The sequencer as a protocol: submissions, the optimistic worker and the prover worker interleave in
 atomic steps, and the process may crash between any two of them.
 */
module Sequencer {
  import opened Encoding
  import opened Stf
  import opened Generator

  const MAX_RETRIES: nat := 3

  /** Where the optimistic worker stands in its loop. */
  datatype Worker =
    | Idle
    | Snapshotted(txs: seq<Transaction>, deposits: seq<Deposit>, forced: seq<ForcedTx>)
    | Based(txs: seq<Transaction>, deposits: seq<Deposit>, forced: seq<ForcedTx>, pre: Hash)
    | Applied(block: PendingBlock)     // head root of the tree set, number taken
    | HeadMoved(block: PendingBlock)   // optimistic head updated
    | Drained(block: PendingBlock)     // snapshot removed from the mempool

  /** Where the prover worker stands in its loop. */
  datatype Prover =
    | Resting
    | Proving(block: PendingBlock, retries: nat)
    | Proved(block: PendingBlock)      // proven head updated, removal due
    | GivingUp(block: PendingBlock)    // out of retries
    | Moved(block: PendingBlock)       // copied to the failed queue, removal due

  datatype Sys = Sys(
    // lost in a crash
    mempool: seq<Transaction>, optimistic: Hash, proven: Hash, counter: nat, worker: Worker, prover: Prover,
    workerUp: bool, proverUp: bool,    // false once the worker returned an error; it stays where it stood
    // persistent
    headroot: Hash, pending: map<nat, PendingBlock>, failed: map<nat, PendingBlock>, stored: nat,
    // history, for stating properties
    accepted: seq<Transaction>, committed: seq<PendingBlock>, provenNumbers: set<nat>)

  function Init(root: Hash): Sys {
    Sys([], root, root, 0, Idle, Resting, true, true, root, map[], map[], 0, [], [], {})
  }

  datatype Event =
    | Submit(tx: Transaction)
    | Snapshot(deposits: seq<Deposit>, forced: seq<ForcedTx>)
    | ReadHead
    | ApplyBatch(newRoot: Hash)
    | MoveHead
    | Drain
    | Commit
    | WorkerFails
    | Peek(number: nat)
    | ProveOk
    | ProveFails
    | PushFailed
    | Remove
    | ProverFails
    | Crash

  predicate ProverEvent(e: Event) {
    e.Peek? || e.ProveOk? || e.ProveFails? || e.PushFailed? || e.Remove? || e.ProverFails?
  }

  /** A step of the optimistic worker; None where the event is not possible. */
  function WorkerNext(s: Sys, e: Event): Option<Sys> {
    match e
    case Snapshot(ds, fs) =>
      if s.worker.Idle? && !(s.mempool == [] && ds == [] && fs == [])
      then Some(s.(worker := Snapshotted(s.mempool, ds, fs))) else None
    case ReadHead =>
      if s.worker.Snapshotted?
      then Some(s.(worker := Based(s.worker.txs, s.worker.deposits, s.worker.forced, s.optimistic))) else None
    case ApplyBatch(newRoot) =>
      if s.worker.Based? && s.counter + 1 < U64_SIZE then
        var w := s.worker;
        var b := PendingBlock(s.counter, w.txs, w.deposits, w.forced, w.pre, newRoot);
        Some(s.(headroot := newRoot, counter := s.counter + 1, worker := Applied(b)))
      else None
    case MoveHead =>
      if s.worker.Applied?
      then Some(s.(optimistic := s.worker.block.postStateRoot, worker := HeadMoved(s.worker.block))) else None
    case Drain =>
      if !s.worker.HeadMoved? then None
      else if |s.worker.block.txs| > |s.mempool| then Some(s.(workerUp := false))
      else Some(s.(mempool := s.mempool[|s.worker.block.txs|..], worker := Drained(s.worker.block)))
    case Commit =>
      if s.worker.Drained? then
        var b := s.worker.block;
        Some(s.(pending := s.pending[b.blockNumber := b], stored := b.blockNumber + 1,
                committed := s.committed + [b], worker := Idle))
      else None
    case WorkerFails => Some(s.(workerUp := false))
    case _ => None
  }

  /** A step of the prover worker; None where the event is not possible. */
  function ProverNext(s: Sys, e: Event): Option<Sys> {
    match e
    case Peek(n) =>
      if s.prover.Resting? && n in s.pending && forall m :: m in s.pending ==> n <= m
      then Some(s.(prover := Proving(s.pending[n], 0))) else None
    case ProveOk =>
      if s.prover.Proving? then
        var b := s.prover.block;
        Some(s.(proven := b.postStateRoot, provenNumbers := s.provenNumbers + {b.blockNumber}, prover := Proved(b)))
      else None
    case ProveFails =>
      if s.prover.Proving? then
        var b, r := s.prover.block, s.prover.retries + 1;
        Some(s.(prover := if r >= MAX_RETRIES then GivingUp(b) else Proving(b, r)))
      else None
    case PushFailed =>
      if s.prover.GivingUp? then
        var b := s.prover.block;
        Some(s.(failed := s.failed[b.blockNumber := b], prover := Moved(b)))
      else None
    case Remove =>
      if s.prover.Proved? || s.prover.Moved?
      then Some(s.(pending := s.pending - {s.prover.block.blockNumber}, prover := Resting)) else None
    case ProverFails => Some(s.(proverUp := false))
    case _ => None
  }

  function Next(s: Sys, e: Event): Option<Sys> {
    match e
    case Submit(tx) => Some(s.(mempool := s.mempool + [tx], accepted := s.accepted + [tx]))
    case Crash =>
      Some(s.(mempool := [], optimistic := s.headroot, proven := s.headroot, counter := s.stored,
              worker := Idle, prover := Resting, workerUp := true, proverUp := true))
    case _ =>
      if ProverEvent(e) then (if s.proverUp then ProverNext(s, e) else None)
      else (if s.workerUp then WorkerNext(s, e) else None)
  }

  /** The state after the given events, or None if one of them was not possible. */
  function RunFrom(s: Sys, es: seq<Event>): Option<Sys> {
    if es == [] then Some(s)
    else
      var before := RunFrom(s, es[..|es| - 1]);
      if before.None? then None else Next(before.value, es[|es| - 1])
  }

  function Run(root: Hash, es: seq<Event>): Option<Sys> { RunFrom(Init(root), es) }

  /** Transactions that have left the mempool but are in no committed block. */
  function InFlight(w: Worker): seq<Transaction> { if w.Drained? then w.block.txs else [] }

  // ---- Numbering, with crashes anywhere ----

  predicate WorkerNumbered(w: Worker, stored: nat, counter: nat) {
    match w
    case Applied(b) => b.blockNumber == stored && counter == stored + 1
    case HeadMoved(b) => b.blockNumber == stored && counter == stored + 1
    case Drained(b) => b.blockNumber == stored && counter == stored + 1
    case _ => counter == stored
  }

  /** `b` is the committed block of number `n`. */
  predicate IsCommitted(committed: seq<PendingBlock>, n: nat, b: PendingBlock) {
    n < |committed| && b == committed[n] && b.blockNumber == n
  }

  predicate ProverNumbered(p: Prover, committed: seq<PendingBlock>, failed: map<nat, PendingBlock>, proven: set<nat>) {
    match p
    case Resting => true
    case Proving(b, _) => IsCommitted(committed, b.blockNumber, b)
    case GivingUp(b) => IsCommitted(committed, b.blockNumber, b)
    case Proved(b) => IsCommitted(committed, b.blockNumber, b) && b.blockNumber in proven
    case Moved(b) => IsCommitted(committed, b.blockNumber, b) && b.blockNumber in failed
  }

  predicate QueuesNumbered(pending: map<nat, PendingBlock>, failed: map<nat, PendingBlock>, stored: nat,
                           committed: seq<PendingBlock>, proven: set<nat>) {
    && stored == |committed|
    && (forall i :: 0 <= i < |committed| ==> committed[i].blockNumber == i)
    && (forall n :: n in pending ==> IsCommitted(committed, n, pending[n]))
    && (forall n :: n in failed ==> IsCommitted(committed, n, failed[n]))
    && (forall n :: 0 <= n < stored ==> n in pending || n in failed || n in proven)
  }

  /**
   Committed blocks are numbered 0, 1, 2, ... without gap or repetition; the stored counter is their
   number; the queues hold committed blocks under their own numbers; and no committed block is lost:
   each is pending, failed or proven.
   */
  predicate Numbered(s: Sys) {
    && QueuesNumbered(s.pending, s.failed, s.stored, s.committed, s.provenNumbers)
    && WorkerNumbered(s.worker, s.stored, s.counter)
    && ProverNumbered(s.prover, s.committed, s.failed, s.provenNumbers)
  }

  lemma CommitNumbered(s: Sys)
    requires Numbered(s) && s.worker.Drained?
    ensures Numbered(WorkerNext(s, Commit).value)
  {
    var s' := WorkerNext(s, Commit).value;
    forall n, b | IsCommitted(s.committed, n, b) ensures IsCommitted(s'.committed, n, b) {}
  }

  lemma WorkerNumberedNext(s: Sys, e: Event)
    requires Numbered(s) && WorkerNext(s, e).Some?
    ensures Numbered(WorkerNext(s, e).value)
  {
    hide QueuesNumbered, ProverNumbered;
    if e.Commit? { CommitNumbered(s); }
  }

  lemma ProverNumberedNext(s: Sys, e: Event)
    requires Numbered(s) && ProverNext(s, e).Some?
    ensures Numbered(ProverNext(s, e).value)
  {
    hide WorkerNumbered;
  }

  lemma NextNumbered(s: Sys, e: Event)
    requires Numbered(s) && Next(s, e).Some?
    ensures Numbered(Next(s, e).value)
  {
    hide WorkerNext, ProverNext, QueuesNumbered;
    if !e.Submit? && !e.Crash? {
      if ProverEvent(e) { ProverNumberedNext(s, e); } else { WorkerNumberedNext(s, e); }
    }
  }

  lemma {:induction false} CrashSafeNumbering(root: Hash, es: seq<Event>)
    requires Run(root, es).Some?
    ensures Numbered(Run(root, es).value)
  {
    if es != [] {
      CrashSafeNumbering(root, es[..|es| - 1]);
      NextNumbered(Run(root, es[..|es| - 1]).value, es[|es| - 1]);
    }
  }

  // ---- The mempool, without crashes ----

  function CommittedTxs(blocks: seq<PendingBlock>): seq<Transaction> {
    if blocks == [] then [] else CommittedTxs(blocks[..|blocks| - 1]) + blocks[|blocks| - 1].txs
  }

  /** The snapshot the worker took and has not drained yet. */
  function Undrained(w: Worker): seq<Transaction> {
    match w
    case Snapshotted(txs, _, _) => txs
    case Based(txs, _, _, _) => txs
    case Applied(b) => b.txs
    case HeadMoved(b) => b.txs
    case _ => []
  }

  /** Accepted submissions are, in order: committed, in flight, still in the mempool. */
  predicate Conserved(s: Sys) {
    && s.accepted == CommittedTxs(s.committed) + InFlight(s.worker) + s.mempool
    && Undrained(s.worker) <= s.mempool
  }

  lemma WorkerConserves(s: Sys, e: Event)
    requires Conserved(s) && WorkerNext(s, e).Some?
    ensures Conserved(WorkerNext(s, e).value)
  {
    hide CommittedTxs;
    if e.Drain? {
      Regroup(CommittedTxs(s.committed), s.worker.block.txs, s.mempool);
    } else if e.Commit? {
      CommittedSnoc(s.committed, s.worker.block);
      assert CommittedTxs(s.committed) + s.worker.block.txs + s.mempool
          == CommittedTxs(s.committed + [s.worker.block]) + [] + s.mempool;
    }
  }

  lemma Regroup<T>(done: seq<T>, snapshot: seq<T>, mempool: seq<T>)
    requires snapshot <= mempool
    ensures done + [] + mempool == done + snapshot + mempool[|snapshot|..]
  {}

  lemma CommittedSnoc(blocks: seq<PendingBlock>, b: PendingBlock)
    ensures CommittedTxs(blocks + [b]) == CommittedTxs(blocks) + b.txs
  {
    assert (blocks + [b])[..|blocks|] == blocks;
  }

  lemma NextConserved(s: Sys, e: Event)
    requires Conserved(s) && Next(s, e).Some? && !e.Crash?
    ensures Conserved(Next(s, e).value)
  {
    hide WorkerNext;
    if e.Submit? {
      var s' := Next(s, e).value;
      assert s'.accepted == CommittedTxs(s.committed) + InFlight(s.worker) + s'.mempool;
    } else if !ProverEvent(e) {
      WorkerConserves(s, e);
    }
  }

  /**
   In every crash-free interleaving no submission is lost, repeated or reordered; draining removes
   exactly the snapshot, so it never runs past the end of the mempool.
   */
  lemma {:induction false} MempoolConservation(root: Hash, es: seq<Event>)
    requires Run(root, es).Some? && NoCrashes(es)
    ensures Conserved(Run(root, es).value)
  {
    if es != [] {
      MempoolConservation(root, es[..|es| - 1]);
      NextConserved(Run(root, es[..|es| - 1]).value, es[|es| - 1]);
    }
  }

  // ---- From snapshot to block ----

  predicate NoCrashes(es: seq<Event>) { forall i :: 0 <= i < |es| ==> !es[i].Crash? }

  predicate NoCommits(es: seq<Event>) { forall i :: 0 <= i < |es| ==> !es[i].Commit? }

  /** What was submitted in these events, in order. */
  function Submitted(es: seq<Event>): seq<Transaction> {
    if es == [] then []
    else
      var e := es[|es| - 1];
      Submitted(es[..|es| - 1]) + if e.Submit? then [e.tx] else []
  }

  /** The worker is busy with this snapshot, and what was submitted since waits behind it. */
  predicate Carries(w: Worker, mempool: seq<Transaction>, txs: seq<Transaction>, ds: seq<Deposit>, fs: seq<ForcedTx>,
                    since: seq<Transaction>) {
    match w
    case Idle => false
    case Snapshotted(t, d, f) => t == txs && d == ds && f == fs && mempool == txs + since
    case Based(t, d, f, _) => t == txs && d == ds && f == fs && mempool == txs + since
    case Applied(b) => b.txs == txs && b.deposits == ds && b.forced == fs && mempool == txs + since
    case HeadMoved(b) => b.txs == txs && b.deposits == ds && b.forced == fs && mempool == txs + since
    case Drained(b) => b.txs == txs && b.deposits == ds && b.forced == fs && mempool == since
  }

  lemma CarriesNext(s: Sys, e: Event, txs: seq<Transaction>, ds: seq<Deposit>, fs: seq<ForcedTx>,
                    since: seq<Transaction>)
    requires Carries(s.worker, s.mempool, txs, ds, fs, since)
    requires Next(s, e).Some? && !e.Crash? && !e.Commit?
    ensures var s' := Next(s, e).value;
      && Carries(s'.worker, s'.mempool, txs, ds, fs, since + if e.Submit? then [e.tx] else [])
      && s'.committed == s.committed
  {
    if e.Submit? {
      assert txs + since + [e.tx] == txs + (since + [e.tx]);
    } else {
      assert since + [] == since;
      if e.Drain? { assert (txs + since)[|txs|..] == since; }
    }
  }

  lemma {:induction false} CarriesRun(s: Sys, ds: seq<Deposit>, fs: seq<ForcedTx>, es: seq<Event>)
    requires Next(s, Snapshot(ds, fs)).Some? && RunFrom(Next(s, Snapshot(ds, fs)).value, es).Some?
    requires NoCrashes(es) && NoCommits(es)
    ensures var s' := RunFrom(Next(s, Snapshot(ds, fs)).value, es).value;
      Carries(s'.worker, s'.mempool, s.mempool, ds, fs, Submitted(es)) && s'.committed == s.committed
  {
    if es == [] {
      assert s.mempool + [] == s.mempool;
    } else {
      hide Next, Carries;
      var n, s1 := |es| - 1, Next(s, Snapshot(ds, fs)).value;
      CarriesRun(s, ds, fs, es[..n]);
      CarriesNext(RunFrom(s1, es[..n]).value, es[n], s.mempool, ds, fs, Submitted(es[..n]));
    }
  }

  /**
   A snapshot is taken by an idle worker when there is anything to do. Whatever happens up to its commit, the
   block then holds the whole mempool as it was at the snapshot and exactly the fetched deposits and forced
   transactions, it is not empty, and the mempool holds what was submitted since.
   */
  lemma BlockTakesSnapshot(s: Sys, ds: seq<Deposit>, fs: seq<ForcedTx>, es: seq<Event>)
    requires Next(s, Snapshot(ds, fs)).Some? && RunFrom(Next(s, Snapshot(ds, fs)).value, es).Some?
    requires NoCrashes(es) && NoCommits(es)
    requires Next(RunFrom(Next(s, Snapshot(ds, fs)).value, es).value, Commit).Some?
    ensures s.workerUp && s.worker.Idle? && (s.mempool != [] || ds != [] || fs != [])
    ensures var s' := Next(RunFrom(Next(s, Snapshot(ds, fs)).value, es).value, Commit).value;
      && |s'.committed| == |s.committed| + 1 && s'.committed[..|s.committed|] == s.committed
      && s'.committed[|s.committed|].txs == s.mempool
      && s'.committed[|s.committed|].deposits == ds && s'.committed[|s.committed|].forced == fs
      && s'.mempool == Submitted(es)
  {
    hide RunFrom;
    CarriesRun(s, ds, fs, es);
  }

  lemma SnapshotWhenever(s: Sys, ds: seq<Deposit>, fs: seq<ForcedTx>)
    ensures Next(s, Snapshot(ds, fs)).Some? <==>
      s.workerUp && s.worker.Idle? && (s.mempool != [] || ds != [] || fs != [])
  {}

  /** Without crashes, every submission accepted before a block's snapshot is in that block or an earlier one. */
  lemma AcceptedAreCommitted(root: Hash, before: seq<Event>, ds: seq<Deposit>, fs: seq<ForcedTx>, es: seq<Event>)
    requires Run(root, before).Some? && NoCrashes(before)
    requires var s := Run(root, before).value;
      && Next(s, Snapshot(ds, fs)).Some? && RunFrom(Next(s, Snapshot(ds, fs)).value, es).Some?
      && NoCrashes(es) && NoCommits(es) && Next(RunFrom(Next(s, Snapshot(ds, fs)).value, es).value, Commit).Some?
    ensures var s := Run(root, before).value;
      CommittedTxs(Next(RunFrom(Next(s, Snapshot(ds, fs)).value, es).value, Commit).value.committed) == s.accepted
  {
    hide RunFrom, CommittedTxs, WorkerNext;
    var s := Run(root, before).value;
    MempoolConservation(root, before);
    BlockTakesSnapshot(s, ds, fs, es);
    SnapshotWhenever(s, ds, fs);
    var all := Next(RunFrom(Next(s, Snapshot(ds, fs)).value, es).value, Commit).value.committed;
    CommittedSnoc(s.committed, all[|s.committed|]);
    assert all == s.committed + [all[|s.committed|]];
  }

  // ---- What a restart loses ----

  /** The history since a state with `n` accepted submissions and `m` committed blocks. */
  function Since(s: Sys, n: nat, m: nat): Sys
    requires n <= |s.accepted| && m <= |s.committed|
  {
    s.(accepted := s.accepted[n..], committed := s.committed[m..])
  }

  lemma NextSince(s: Sys, e: Event, n: nat, m: nat)
    requires n <= |s.accepted| && m <= |s.committed| && Next(s, e).Some?
    ensures var s' := Next(s, e).value;
      && s.accepted <= s'.accepted && s.committed <= s'.committed
      && Next(Since(s, n, m), e) == Some(Since(s', n, m))
  {
    if e.Commit? { assert (s.committed + [s.worker.block])[m..] == s.committed[m..] + [s.worker.block]; }
    if e.Submit? { assert (s.accepted + [e.tx])[n..] == s.accepted[n..] + [e.tx]; }
  }

  /**
   A restart loses the submissions that are in no committed block and nothing else: those accepted later are, in
   order, in the blocks committed later, in flight and waiting.
   */
  lemma {:induction false} RestartConservation(s: Sys, es: seq<Event>)
    requires RunFrom(Next(s, Crash).value, es).Some? && NoCrashes(es)
    ensures var s' := RunFrom(Next(s, Crash).value, es).value;
      && s.accepted <= s'.accepted && s.committed <= s'.committed
      && Conserved(Since(s', |s.accepted|, |s.committed|))
  {
    var n, m, s1 := |s.accepted|, |s.committed|, Next(s, Crash).value;
    if es == [] {
      assert s1.accepted[n..] == [] && s1.committed[m..] == [];
    } else {
      hide Next, Conserved;
      RestartConservation(s, es[..|es| - 1]);
      var before, e := RunFrom(s1, es[..|es| - 1]).value, es[|es| - 1];
      NextSince(before, e, n, m);
      NextConserved(Since(before, n, m), e);
    }
  }

  /** After a restart a block can be built as soon as there is anything to put in, and the oldest pending one proved. */
  lemma RestartRevives(s: Sys, ds: seq<Deposit>, fs: seq<ForcedTx>, n: nat)
    ensures var s1 := Next(s, Crash).value;
      && s1.pending == s.pending && s1.failed == s.failed && s1.stored == s.stored && s1.headroot == s.headroot
      && (Next(s1, Snapshot(ds, fs)).Some? <==> ds != [] || fs != [])
      && (Next(s1, Peek(n)).Some? <==> n in s.pending && forall m :: m in s.pending ==> n <= m)
  {}

  // ---- Stopped workers ----

  /** A worker that failed stays where it stood, with all it had done, until a restart. */
  lemma {:induction false} FailedWorkerStays(s: Sys, es: seq<Event>)
    requires Next(s, WorkerFails).Some? && RunFrom(Next(s, WorkerFails).value, es).Some? && NoCrashes(es)
    ensures var s' := RunFrom(Next(s, WorkerFails).value, es).value;
      && !s'.workerUp && s'.worker == s.worker && s'.counter == s.counter && s'.stored == s.stored
      && s'.optimistic == s.optimistic && s'.headroot == s.headroot && s'.committed == s.committed
  {
    if es != [] { FailedWorkerStays(s, es[..|es| - 1]); }
  }

  /** So does a prover that failed: nothing is proven, given up or removed any more. */
  lemma {:induction false} FailedProverStays(s: Sys, es: seq<Event>)
    requires Next(s, ProverFails).Some? && RunFrom(Next(s, ProverFails).value, es).Some? && NoCrashes(es)
    ensures var s' := RunFrom(Next(s, ProverFails).value, es).value;
      && !s'.proverUp && s'.prover == s.prover && s'.proven == s.proven && s'.failed == s.failed
      && s'.provenNumbers == s.provenNumbers && s.pending.Keys <= s'.pending.Keys
  {
    if es != [] { FailedProverStays(s, es[..|es| - 1]); }
  }

  // ---- Three attempts ----

  /** The prover's events since the last restart. */
  function ProverLog(es: seq<Event>): seq<Event> {
    if es == [] then []
    else
      var before, e := ProverLog(es[..|es| - 1]), es[|es| - 1];
      if e.Crash? then [] else if ProverEvent(e) then before + [e] else before
  }

  predicate EndsWith(log: seq<Event>, tail: seq<Event>) {
    |tail| <= |log| && log[|log| - |tail|..] == tail
  }

  /** Block `n` was taken up, and then `fails` attempts failed. */
  function Attempts(n: nat, fails: nat): seq<Event> { [Peek(n)] + seq(fails, _ => ProveFails) }

  /** What the prover has just been through. */
  ghost predicate Logged(s: Sys, log: seq<Event>) {
    s.proverUp ==>
      match s.prover
      case Resting => true
      case Proving(b, r) => r < 3 && EndsWith(log, Attempts(b.blockNumber, r))
      case Proved(b) => exists r: nat :: r < 3 && EndsWith(log, Attempts(b.blockNumber, r) + [ProveOk])
      case GivingUp(b) => EndsWith(log, Attempts(b.blockNumber, 3))
      case Moved(b) => EndsWith(log, Attempts(b.blockNumber, 3) + [PushFailed])
  }

  lemma EndsWithSnoc(log: seq<Event>, tail: seq<Event>, e: Event)
    requires EndsWith(log, tail)
    ensures EndsWith(log + [e], tail + [e])
  {}

  lemma ProverLogged(s: Sys, log: seq<Event>, e: Event)
    requires Logged(s, log) && s.proverUp && ProverNext(s, e).Some?
    requires forall n :: n in s.pending ==> s.pending[n].blockNumber == n
    ensures Logged(ProverNext(s, e).value, log + [e])
  {
    match e
    case Peek(n) => assert (log + [e])[|log|..] == [e] == Attempts(n, 0);
    case ProveOk =>
      EndsWithSnoc(log, Attempts(s.prover.block.blockNumber, s.prover.retries), e);
    case ProveFails =>
      var n, r := s.prover.block.blockNumber, s.prover.retries;
      EndsWithSnoc(log, Attempts(n, r), e);
      assert Attempts(n, r) + [e] == Attempts(n, r + 1);
    case PushFailed => EndsWithSnoc(log, Attempts(s.prover.block.blockNumber, 3), e);
    case _ =>
  }

  /**
   In every run: a block is given up after exactly three failed attempts in a row since it was taken up, and proven
   after fewer; it is never tried again in between.
   */
  lemma {:induction false} ThreeAttempts(root: Hash, es: seq<Event>)
    requires Run(root, es).Some?
    ensures Logged(Run(root, es).value, ProverLog(es))
  {
    hide WorkerNext;
    if es != [] {
      var n := |es| - 1;
      var before := Run(root, es[..n]).value;
      ThreeAttempts(root, es[..n]);
      CrashSafeNumbering(root, es[..n]);
      if ProverEvent(es[n]) {
        ProverLogged(before, ProverLog(es[..n]), es[n]);
      } else if !es[n].Submit? && !es[n].Crash? {
        WorkerKeepsProver(before, es[n]);
      }
    }
  }

  lemma WorkerKeepsProver(s: Sys, e: Event)
    requires WorkerNext(s, e).Some?
    ensures WorkerNext(s, e).value.prover == s.prover && WorkerNext(s, e).value.proverUp == s.proverUp
  {}

  // ---- Roots ----

  /** The root after the first `n` committed blocks. */
  function RootAt(root: Hash, blocks: seq<PendingBlock>, n: nat): Hash
    requires n <= |blocks|
  {
    if n == 0 then root else blocks[n - 1].postStateRoot
  }

  predicate LinkedBlocks(root: Hash, blocks: seq<PendingBlock>) {
    forall i :: 0 <= i < |blocks| ==> blocks[i].preStateRoot == RootAt(root, blocks, i)
  }

  /** The optimistic head continues the committed chain, through the block in flight if there is one. */
  predicate HeadLinked(root: Hash, s: Sys) {
    var last := RootAt(root, s.committed, |s.committed|);
    match s.worker
    case Based(_, _, _, pre) => s.headroot == s.optimistic == pre == last
    case Applied(b) => b.preStateRoot == s.optimistic == last && s.headroot == b.postStateRoot
    case HeadMoved(b) => b.preStateRoot == last && s.headroot == s.optimistic == b.postStateRoot
    case Drained(b) => b.preStateRoot == last && s.headroot == s.optimistic == b.postStateRoot
    case _ => s.headroot == s.optimistic == last
  }

  /** The tree's head root is set for a block that is not committed yet. */
  predicate InWindow(w: Worker) { w.Applied? || w.HeadMoved? || w.Drained? }

  lemma WorkerLinks(root: Hash, s: Sys, e: Event)
    requires LinkedBlocks(root, s.committed) && HeadLinked(root, s) && WorkerNext(s, e).Some?
    ensures LinkedBlocks(root, WorkerNext(s, e).value.committed) && HeadLinked(root, WorkerNext(s, e).value)
  {
    if e.Commit? { LinkSnoc(root, s.committed, s.worker.block); }
  }

  lemma LinkSnoc(root: Hash, blocks: seq<PendingBlock>, b: PendingBlock)
    requires LinkedBlocks(root, blocks)
    ensures LinkedBlocks(root, blocks + [b]) <==> b.preStateRoot == RootAt(root, blocks, |blocks|)
  {
    var all := blocks + [b];
    forall i | 0 <= i <= |blocks| ensures RootAt(root, all, i) == RootAt(root, blocks, i) {}
    assert all[|blocks|] == b;
  }

  lemma NextLinked(root: Hash, s: Sys, e: Event)
    requires LinkedBlocks(root, s.committed) && HeadLinked(root, s) && Next(s, e).Some?
    requires e.Crash? ==> !InWindow(s.worker)
    ensures LinkedBlocks(root, Next(s, e).value.committed) && HeadLinked(root, Next(s, e).value)
  {
    hide WorkerNext;
    if !e.Submit? && !e.Crash? && !ProverEvent(e) { WorkerLinks(root, s, e); }
  }

  /** No crash happened between setting the tree's head root and committing the block. */
  predicate QuietCrashes(s: Sys, es: seq<Event>) {
    if es == [] then true
    else
      var n := |es| - 1;
      var before := RunFrom(s, es[..n]);
      QuietCrashes(s, es[..n]) && (before.Some? && es[n].Crash? ==> !InWindow(before.value.worker))
  }

  /**
   Then the committed blocks form one chain, across restarts and stopped workers, and the next block will
   continue it.
   */
  lemma {:induction false} CommittedChain(root: Hash, es: seq<Event>)
    requires Run(root, es).Some? && QuietCrashes(Init(root), es)
    ensures var s := Run(root, es).value; LinkedBlocks(root, s.committed) && HeadLinked(root, s)
  {
    if es != [] {
      CommittedChain(root, es[..|es| - 1]);
      NextLinked(root, Run(root, es[..|es| - 1]).value, es[|es| - 1]);
    }
  }

  /** The same system with the first `n` committed blocks forgotten. */
  function Forget(s: Sys, n: nat): Sys
    requires n <= |s.committed|
  {
    s.(committed := s.committed[n..])
  }

  lemma NextForgets(s: Sys, e: Event, n: nat)
    requires n <= |s.committed| && Next(s, e).Some?
    ensures var s' := Next(s, e).value;
      n <= |s'.committed| && s'.committed[..n] == s.committed[..n] && Next(Forget(s, n), e) == Some(Forget(s', n))
  {
    if e.Commit? { assert (s.committed + [s.worker.block])[n..] == s.committed[n..] + [s.worker.block]; }
  }

  /** From any idle state on, the blocks committed later form a chain that starts at the tree's head root. */
  lemma {:induction false} LaterChain(s: Sys, es: seq<Event>)
    requires s.worker.Idle? && s.optimistic == s.headroot
    requires RunFrom(s, es).Some? && QuietCrashes(s, es)
    ensures var s', n := RunFrom(s, es).value, |s.committed|;
      && n <= |s'.committed| && s'.committed[..n] == s.committed
      && LinkedBlocks(s.headroot, s'.committed[n..]) && HeadLinked(s.headroot, Forget(s', n))
  {
    hide Next, HeadLinked, LinkedBlocks;
    if es == [] {
      LaterChainStarts(s);
    } else {
      var m := |es| - 1;
      LaterChain(s, es[..m]);
      var before := RunFrom(s, es[..m]).value;
      NextForgets(before, es[m], |s.committed|);
      NextLinked(s.headroot, Forget(before, |s.committed|), es[m]);
    }
  }

  lemma LaterChainStarts(s: Sys)
    requires s.worker.Idle? && s.optimistic == s.headroot
    ensures var n := |s.committed|;
      && s.committed[..n] == s.committed
      && LinkedBlocks(s.headroot, s.committed[n..]) && HeadLinked(s.headroot, Forget(s, n))
  {}

  lemma LinkConcat(root: Hash, before: seq<PendingBlock>, start: Hash, later: seq<PendingBlock>)
    requires LinkedBlocks(root, before) && LinkedBlocks(start, later) && later != []
    ensures LinkedBlocks(root, before + later) <==> start == RootAt(root, before, |before|)
  {
    var all, n := before + later, |before|;
    assert all[n] == later[0] && RootAt(root, all, n) == RootAt(root, before, n);
    if start == RootAt(root, before, n) {
      forall i | 0 <= i < |all| ensures all[i].preStateRoot == RootAt(root, all, i) {
        if i < n { assert all[i] == before[i] && RootAt(root, all, i) == RootAt(root, before, i); }
        else { assert all[i] == later[i - n] && RootAt(start, later, i - n) == RootAt(root, all, i); }
      }
    }
  }

  /**
   The premise is exact: after a crash with a block in flight, whether its worker was running or had
   stopped, and whatever happens then, as soon as another block is committed the chain is unbroken if and
   only if the lost block had not changed the root.
   */
  lemma CrashLinkIff(root: Hash, es: seq<Event>, later: seq<Event>)
    requires Run(root, es).Some? && QuietCrashes(Init(root), es) && InWindow(Run(root, es).value.worker)
    requires var s1 := Next(Run(root, es).value, Crash).value; RunFrom(s1, later).Some? && QuietCrashes(s1, later)
    ensures var s := Run(root, es).value;
      var s' := RunFrom(Next(s, Crash).value, later).value;
      |s'.committed| > |s.committed| ==>
        (LinkedBlocks(root, s'.committed) <==> s.worker.block.postStateRoot == s.worker.block.preStateRoot)
  {
    hide RunFrom, QuietCrashes, LinkedBlocks, WorkerNext, ProverNext;
    CommittedChain(root, es);
    var s := Run(root, es).value;
    var s1 := Next(s, Crash).value;
    LaterChain(s1, later);
    var all, n := RunFrom(s1, later).value.committed, |s.committed|;
    if |all| > n {
      LinkConcat(root, s.committed, s.headroot, all[n..]);
      assert all == s.committed + all[n..];
    }
  }

  // ---- The proven head ----

  /** The prover is done with a block, one way or the other, and its removal is due. */
  predicate RemovalDue(p: Prover) { p.Proved? || p.Moved? }

  /** The number of the first pending block when the prover is done with blocks 0 to m - 1. */
  function FirstPending(s: Sys, m: nat): int { if RemovalDue(s.prover) then m - 1 else m }

  /** The prover is done with the blocks before `m`; those from `m` on are pending, and it works at block `m`. */
  ghost predicate PendingFrom(s: Sys, m: nat) {
    && m <= |s.committed|
    && (RemovalDue(s.prover) ==> m > 0 && s.prover.block.blockNumber == m - 1)
    && (s.prover.Proving? || s.prover.GivingUp? ==> m in s.pending && s.prover.block == s.pending[m])
    && (forall n :: n in s.pending <==> FirstPending(s, m) <= n < |s.committed|)
  }

  /** A proof or a failure moves on by one block; a restart takes up a block again that was not removed yet. */
  function NextFrom(s: Sys, e: Event, m: nat): int {
    if e.ProveOk? || e.PushFailed? then m + 1 else if e.Crash? then FirstPending(s, m) else m
  }

  lemma CommitKeepsPending(s: Sys, m: nat)
    requires PendingFrom(s, m) && s.worker.Drained? && s.worker.block.blockNumber == |s.committed|
    ensures PendingFrom(WorkerNext(s, Commit).value, m)
  {
    var s' := WorkerNext(s, Commit).value;
    assert forall n :: n in s'.pending <==> n in s.pending || n == |s.committed|;
  }

  lemma WorkerKeepsPending(s: Sys, e: Event, m: nat)
    requires Numbered(s) && PendingFrom(s, m) && WorkerNext(s, e).Some?
    ensures PendingFrom(WorkerNext(s, e).value, m)
  {
    if e.Commit? {
      CommitKeepsPending(s, m);
    } else {
      WorkerKeepsQueues(s, e);
      SamePending(s, WorkerNext(s, e).value, m);
    }
  }

  lemma WorkerKeepsQueues(s: Sys, e: Event)
    requires WorkerNext(s, e).Some? && !e.Commit?
    ensures var s' := WorkerNext(s, e).value;
      s'.pending == s.pending && s'.committed == s.committed && s'.prover == s.prover
  {}

  lemma SamePending(s: Sys, s': Sys, m: nat)
    requires PendingFrom(s, m)
    requires s'.pending == s.pending && s'.committed == s.committed && s'.prover == s.prover
    ensures PendingFrom(s', m)
  {}

  lemma CrashPending(s: Sys, m: nat)
    requires PendingFrom(s, m)
    ensures FirstPending(s, m) >= 0 && PendingFrom(Next(s, Crash).value, FirstPending(s, m))
  {
    var s' := Next(s, Crash).value;
    assert s'.pending == s.pending && s'.committed == s.committed && s'.prover == Resting;
  }

  lemma ProvesPending(s: Sys, m: nat)
    requires Numbered(s) && PendingFrom(s, m) && (s.prover.Proving? || s.prover.GivingUp?)
    ensures m < |s.committed| && s.prover.block == s.committed[m] && s.prover.block.blockNumber == m
  {
    PendingIsCommitted(s, m);
  }

  lemma NextPending(s: Sys, e: Event, m: nat)
    requires Numbered(s) && PendingFrom(s, m) && Next(s, e).Some?
    ensures NextFrom(s, e, m) >= 0 && PendingFrom(Next(s, e).value, NextFrom(s, e, m))
  {
    hide Numbered, WorkerNext, ProverNext, PendingFrom;
    if e.Submit? { SamePending(s, Next(s, e).value, m); }
    else if e.Crash? { CrashPending(s, m); }
    else if ProverEvent(e) { ProverPendingNext(s, e, m); }
    else { WorkerKeepsPending(s, e, m); }
  }

  lemma ProverPendingNext(s: Sys, e: Event, m: nat)
    requires Numbered(s) && PendingFrom(s, m) && ProverNext(s, e).Some?
    ensures PendingFrom(ProverNext(s, e).value, NextFrom(s, e, m))
  {
    hide Numbered;
    var s' := ProverNext(s, e).value;
    if e.Peek? {
      assert m <= e.number < |s.committed| && m in s.pending;
    } else if e.ProveOk? || e.PushFailed? {
      ProvesPending(s, m);
    } else if e.Remove? {
      forall n ensures n in s'.pending <==> m <= n < |s.committed| {
        assert n in s.pending <==> m - 1 <= n < |s.committed|;
      }
    }
  }

  /** The proven head is the root after the first `p` blocks. */
  ghost predicate ProvenAt(root: Hash, s: Sys, p: nat) {
    p <= |s.committed| && s.proven == RootAt(root, s.committed, p)
  }

  /** Moreover the last of these was proven, and all blocks from `p` up to `m` failed. */
  ghost predicate ProvenUpTo(root: Hash, s: Sys, p: nat, m: nat) {
    && ProvenAt(root, s, p) && p <= m && (s.prover.Proved? ==> p == m) && (p > 0 ==> p - 1 in s.provenNumbers)
    && (forall n :: p <= n < m ==> n in s.failed)
  }

  function NextProven(e: Event, m: nat, p: nat): nat { if e.ProveOk? then m + 1 else p }

  /** Once a block was proven, or if the head was right before, it is right after every event but a restart. */
  lemma NextProvenUpTo(root: Hash, s: Sys, e: Event, m: nat, p: nat)
    requires Numbered(s) && PendingFrom(s, m) && Next(s, e).Some? && !e.Crash?
    ensures ProvenUpTo(root, s, p, m) || e.ProveOk? ==>
      ProvenUpTo(root, Next(s, e).value, NextProven(e, m, p), NextFrom(s, e, m))
    ensures !e.ProveOk? ==> Next(s, e).value.proven == s.proven
    ensures !e.PushFailed? && !s.prover.Moved? ==> !Next(s, e).value.prover.Moved?
  {
    hide Numbered, WorkerNext, ProverNext, PendingFrom, ProvenUpTo;
    if ProverEvent(e) {
      ProverProvenUpTo(root, s, e, m, p);
    } else {
      WorkerKeepsProven(s, e);
      if ProvenUpTo(root, s, p, m) { SameProvenUpTo(root, s, Next(s, e).value, p, m); }
    }
  }

  lemma WorkerKeepsProven(s: Sys, e: Event)
    requires Next(s, e).Some? && !e.Crash? && !ProverEvent(e)
    ensures var s' := Next(s, e).value;
      && s'.prover == s.prover && s'.proven == s.proven && s'.failed == s.failed && s.committed <= s'.committed
      && s'.provenNumbers == s.provenNumbers
  {}

  lemma SameProvenUpTo(root: Hash, s: Sys, s': Sys, p: nat, m: nat)
    requires ProvenUpTo(root, s, p, m)
    requires s'.prover == s.prover && s'.proven == s.proven && s'.failed == s.failed && s.committed <= s'.committed
    requires s'.provenNumbers == s.provenNumbers
    ensures ProvenUpTo(root, s', p, m)
  {}

  lemma ProverProvenUpTo(root: Hash, s: Sys, e: Event, m: nat, p: nat)
    requires Numbered(s) && PendingFrom(s, m) && ProverNext(s, e).Some?
    ensures ProvenUpTo(root, s, p, m) || e.ProveOk? ==>
      ProvenUpTo(root, ProverNext(s, e).value, NextProven(e, m, p), NextFrom(s, e, m))
    ensures !e.ProveOk? ==> ProverNext(s, e).value.proven == s.proven
    ensures !e.PushFailed? && !s.prover.Moved? ==> !ProverNext(s, e).value.prover.Moved?
  {
    hide Numbered;
    if e.ProveOk? || e.PushFailed? { ProvesPending(s, m); }
  }

  predicate NoFailures(es: seq<Event>) { forall i :: 0 <= i < |es| ==> !es[i].PushFailed? }

  predicate SomeProof(es: seq<Event>) { exists i :: 0 <= i < |es| && es[i].ProveOk? }

  /** With crashes and failures anywhere: the pending blocks are the last committed ones. */
  lemma {:induction false} PendingRun(root: Hash, es: seq<Event>) returns (m: nat)
    requires Run(root, es).Some?
    ensures PendingFrom(Run(root, es).value, m)
  {
    if es == [] {
      m := 0;
    } else {
      hide Next, Numbered, PendingFrom;
      m := PendingRun(root, es[..|es| - 1]);
      CrashSafeNumbering(root, es[..|es| - 1]);
      var s := Run(root, es[..|es| - 1]).value;
      NextPending(s, es[|es| - 1], m);
      m := NextFrom(s, es[|es| - 1], m);
    }
  }

  /** What holds at all times between two restarts, apart from the proven head. */
  ghost predicate Sound(root: Hash, s: Sys, m: nat) {
    Numbered(s) && PendingFrom(s, m) && LinkedBlocks(root, s.committed) && HeadLinked(root, s)
  }

  /** Between restarts, and from the first proof on the proven head is the root after the last proven block. */
  lemma {:induction false} BetweenRestarts(root: Hash, s: Sys, es: seq<Event>, m: nat, p: nat)
    returns (m': nat, p': nat)
    requires Sound(root, s, m) && RunFrom(s, es).Some? && NoCrashes(es)
    ensures var s' := RunFrom(s, es).value;
      && Sound(root, s', m')
      && (ProvenUpTo(root, s, p, m) || SomeProof(es) ==> ProvenUpTo(root, s', p', m'))
      && (!SomeProof(es) ==> s'.proven == s.proven)
      && (NoFailures(es) && (p == m || SomeProof(es)) ==> p' == m')
      && (NoFailures(es) && !s.prover.Moved? ==> !s'.prover.Moved?)
  {
    hide Next, Numbered, PendingFrom, LinkedBlocks, HeadLinked, ProvenUpTo;
    m', p' := m, p;
    if es != [] {
      var n := |es| - 1;
      m', p' := BetweenRestarts(root, s, es[..n], m, p);
      var before := RunFrom(s, es[..n]).value;
      NextNumbered(before, es[n]);
      NextLinked(root, before, es[n]);
      NextPending(before, es[n], m');
      NextProvenUpTo(root, before, es[n], m', p');
      m', p' := NextFrom(before, es[n], m'), NextProven(es[n], m', p');
      assert SomeProof(es) <==> SomeProof(es[..n]) || es[n].ProveOk?;
      assert NoFailures(es) <==> NoFailures(es[..n]) && !es[n].PushFailed?;
    }
  }

  /** Where the committed chain ends: at the block in flight, or at the optimistic head. */
  function ChainEnd(s: Sys): Hash {
    if InWindow(s.worker) then s.worker.block.preStateRoot else s.optimistic
  }

  /**
   The pending blocks are numbered `lo` up to the counter, each starts where the one before ends, and the last
   one ends at the optimistic head or where the block in flight starts.
   */
  ghost predicate PendingChained(s: Sys, lo: nat) {
    && lo <= s.stored
    && (forall n :: n in s.pending <==> lo <= n < s.stored)
    && (forall n :: lo < n < s.stored ==> s.pending[n - 1].postStateRoot == s.pending[n].preStateRoot)
    && (lo < s.stored ==> s.pending[s.stored - 1].postStateRoot == ChainEnd(s))
  }

  /**
   Moreover the first pending block starts at the proven head, or ends there while its removal is due; with no
   block pending the proven head is where the committed chain ends.
   */
  ghost predicate Chained(s: Sys, lo: nat) {
    && PendingChained(s, lo)
    && s.proven == (if lo == s.stored then ChainEnd(s)
                    else if s.prover.Proved? then s.pending[lo].postStateRoot else s.pending[lo].preStateRoot)
  }

  lemma PendingRoots(root: Hash, s: Sys, m: nat, n: nat)
    requires Numbered(s) && PendingFrom(s, m) && LinkedBlocks(root, s.committed)
    requires FirstPending(s, m) <= n < |s.committed|
    ensures n in s.pending && s.pending[n].preStateRoot == RootAt(root, s.committed, n)
    ensures s.pending[n].postStateRoot == RootAt(root, s.committed, n + 1)
  {
    hide Numbered;
    assert n in s.pending;
    PendingIsCommitted(s, n);
  }

  /** How many blocks come before the first one that is still to be proved. */
  function Ahead(s: Sys, lo: nat): nat { if s.prover.Proved? then lo + 1 else lo }

  lemma ChainedFrom(root: Hash, s: Sys, m: nat)
    requires Sound(root, s, m)
    ensures 0 <= FirstPending(s, m) <= |s.committed| && PendingChained(s, FirstPending(s, m))
    ensures Ahead(s, FirstPending(s, m)) == if s.prover.Moved? then m - 1 else m
    ensures Chained(s, FirstPending(s, m)) <==> ProvenAt(root, s, Ahead(s, FirstPending(s, m)))
  {
    hide Numbered, LinkedBlocks, RootAt;
    var lo, end := FirstPending(s, m), |s.committed|;
    HeadEnds(root, s);
    forall n | lo <= n < end
      ensures n in s.pending && s.pending[n].preStateRoot == RootAt(root, s.committed, n)
      ensures s.pending[n].postStateRoot == RootAt(root, s.committed, n + 1)
    {
      PendingRoots(root, s, m, n);
    }
  }

  lemma HeadEnds(root: Hash, s: Sys)
    requires Numbered(s) && HeadLinked(root, s)
    ensures s.stored == |s.committed| && ChainEnd(s) == RootAt(root, s.committed, |s.committed|)
    ensures s.prover.Proved? ==> s.prover.block.blockNumber < |s.committed|
  {}

  lemma PendingIsCommitted(s: Sys, n: nat)
    requires Numbered(s) && n in s.pending
    ensures n < |s.committed| && s.pending[n] == s.committed[n]
  {
    assert IsCommitted(s.committed, n, s.pending[n]);
  }

  /**
   In every run without restart: the pending blocks are a chain up to the optimistic head, the proven head is the
   root after block p - 1, which was proven, or the initial root, and all blocks from `p` up to the pending ones
   failed. The proven head is chained to the pending blocks exactly when the failed blocks between left the root
   where it was; so it is if no block failed.
   */
  lemma RootChaining(root: Hash, es: seq<Event>) returns (lo: nat, p: nat)
    requires Run(root, es).Some? && NoCrashes(es)
    ensures var s := Run(root, es).value;
      && PendingChained(s, lo) && ProvenAt(root, s, p) && (p > 0 ==> p - 1 in s.provenNumbers)
      && (forall n :: p <= n < lo ==> n in s.failed)
      && (Chained(s, lo) <==> ProvenAt(root, s, Ahead(s, lo)))
      && (NoFailures(es) ==> Chained(s, lo))
  {
    hide RunFrom, Chained;
    var m;
    m, p := BetweenRestarts(root, Init(root), es, 0, 0);
    ChainedFrom(root, Run(root, es).value, m);
    lo := FirstPending(Run(root, es).value, m);
  }

  /**
   A restart sets the proven head to the tree's head root. After a restart with no block in flight, whatever
   came before and whatever follows up to the next one, the pending blocks are a chain. Up to the next proof the
   proven head is the end of the chain at the restart, ahead of everything pending; from that proof on it is
   as in a run without restart.
   */
  lemma RestartChaining(root: Hash, es: seq<Event>, later: seq<Event>) returns (lo: nat, p: nat)
    requires Run(root, es).Some? && QuietCrashes(Init(root), es) && !InWindow(Run(root, es).value.worker)
    requires RunFrom(Next(Run(root, es).value, Crash).value, later).Some? && NoCrashes(later)
    ensures
      var s := Run(root, es).value;
      var s' := RunFrom(Next(s, Crash).value, later).value;
      && PendingChained(s', lo) && (Chained(s', lo) <==> ProvenAt(root, s', Ahead(s', lo)))
      && (!SomeProof(later) ==> s'.proven == RootAt(root, s.committed, |s.committed|))
      && (SomeProof(later) ==> ProvenAt(root, s', p) && forall n :: p <= n < lo ==> n in s'.failed)
      && (SomeProof(later) && NoFailures(later) ==> Chained(s', lo))
  {
    hide RunFrom, QuietCrashes, Chained, Numbered, LinkedBlocks, PendingFrom, WorkerNext, ProverNext;
    var s := Run(root, es).value;
    var s1 := Next(s, Crash).value;
    var m := PendingRun(root, es);
    CrashSafeNumbering(root, es);
    CommittedChain(root, es);
    NextNumbered(s, Crash);
    NextLinked(root, s, Crash);
    NextPending(s, Crash, m);
    m, p := BetweenRestarts(root, s1, later, FirstPending(s, m), 0);
    ChainedFrom(root, RunFrom(s1, later).value, m);
    lo := FirstPending(RunFrom(s1, later).value, m);
  }
}
