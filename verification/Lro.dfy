/** The whole mutation protocol as a step system: accepting requests, workers running their one
    transaction, owners cancelling, the process crashing, and the reconciler sweeping orphans.

    Operation and transaction carry the same name: a worker runs exactly one transaction. */
module Lro {
  import opened Wrappers
  import opened Domain
  import opened Database
  import opened OperationStore
  import opened Resolver
  import opened Repositories

  /** Queued: accepted, not begun. Running: its transaction was begun. Stopped: reported or gave up. Dead: the
      process ended, or the operation row was written without the use case learning of it. */
  datatype Worker = Queued | Running | Stopped | Dead

  /** Who performed the terminal write. */
  datatype Author = ByWorker | ByOwner | BySweeper

  datatype Sys = Sys(
    db: Db, ops: Ops, jobs: map<OpId, Stmt>, workers: map<OpId, Worker>,
    verdicts: map<OpId, Outcome>, author: map<OpId, Author>)

  const BOOT := Sys(INITIAL, map[], map[], map[], map[], map[])

  datatype Action =
    | Submit(op: OpId, who: Principal, req: Request, acked: bool)
    | Start(op: OpId, now: Time)
    | Database(step: Step)
    | Report(op: OpId)
    | GiveUp(op: OpId)
    | CancelOp(op: OpId, who: Principal)
    | Crash
    | Look(op: OpId, up: bool)
    | Settle(op: OpId, interruption: Status)

  predicate IsOpen(s: Sys, op: OpId) { op in s.ops && !s.ops[op].done }

  predicate HasWorker(s: Sys, op: OpId, w: Worker) { op in s.workers && s.workers[op] == w }

  /** Statements need a live worker. A commit already on the wire can still land after a crash, and the
      server may roll back at any time. The reads of a look may fail. The sweep's grace period is not assumed: a
      sweep may look at any open operation. */
  predicate Can(s: Sys, a: Action) {
    match a
    case Submit(op, _, _, _) => op !in s.ops && op !in s.db.txs
    case Start(op, _) => op in s.ops && HasWorker(s, op, Queued) && op in s.jobs && op !in s.db.txs
    case Database(step) =>
      && Enabled(s.db, step)
      && (match step
          case Begin(_, _, _, _) => false
          case Execute(t) => HasWorker(s, t, Running)
          case Emit(t) => HasWorker(s, t, Running)
          case Commit(t, _) => HasWorker(s, t, Running) || HasWorker(s, t, Dead)
          case Abort(_, _) => true)
    case Report(op) => op in s.ops && HasWorker(s, op, Running) && Finished(s.db, op)
    case GiveUp(op) => HasWorker(s, op, Running) && Finished(s.db, op)
    case CancelOp(_, _) => true
    case Crash => true
    case Look(op, _) => IsOpen(s, op)
    case Settle(op, _) => op in s.ops && op in s.verdicts
  }

  /** What a look finds when the database answers. */
  function ResolveNow(s: Sys, op: OpId): Option<Outcome>
    requires op in s.ops
  {
    Resolve(s.ops[op].metadata, Wired(s.db.table))
  }

  function CodeOf(e: Err): nat {
    match e
    case NotFound => 5
    case AlreadyExists => 6
    case FailedPrecondition => 9
    case Canceled => 1
    case DeadlineExceeded => 4
    case Internal => 13
  }

  /** What the worker stores: the projected row (Empty for a delete), or the error. A commit whose
      acknowledgement was lost is reported as an internal error. */
  function WorkerResult(tx: Tx): Result<Response, Status>
    requires tx.progress.Committed? || tx.progress.Failed?
  {
    match tx.progress
    case Committed(w, _, acked) =>
      if !acked then Err(Status(CodeOf(Err.Internal), ""))
      else Ok(if w.Put? then Project(KeyOf(tx.stmt), w.row) else Empty)
    case Failed(e) => Err(Status(CodeOf(e), ""))
  }

  /** A terminal write under the compare-and-set on done: the first one wins, later ones change nothing. */
  function Finish(s: Sys, op: OpId, result: Result<Operation, StoreErr>, who: Author): Sys {
    match result
    case Err(_) => s
    case Ok(finished) => s.(ops := s.ops[op := finished], author := s.author[op := who])
  }

  function NewOperation(op: OpId, who: Principal, st: Stmt): Operation {
    Operation(op, who, Some(MetadataOf(st)), false, None, None)
  }

  function Act(s: Sys, a: Action): Sys
    requires Can(s, a)
  {
    match a
    case Submit(op, who, req, acked) =>
      (match Plan(req)
       case None => s
       case Some(st) =>
         s.(ops := s.ops[op := NewOperation(op, who, st)],
            jobs := s.jobs[op := st],
            workers := s.workers[op := if acked then Queued else Dead]))
    case Start(op, now) =>
      s.(db := Take(s.db, Begin(op, s.jobs[op], ActorOf(s.ops[op].principal), now)),
         workers := s.workers[op := Running])
    case Database(step) => s.(db := Take(s.db, step))
    case Report(op) =>
      var result := match WorkerResult(s.db.txs[op])
                    case Ok(response) => FinishDone(s.ops[op], Some(response))
                    case Err(status) => FinishError(s.ops[op], status);
      Finish(s, op, result, ByWorker).(workers := s.workers[op := Stopped])
    case GiveUp(op) => s.(workers := s.workers[op := Stopped])
    case CancelOp(op, who) =>
      if IsOpen(s, op) && OwnerMatches(s.ops[op], who)
      then s.(ops := CancelOwnedOf(s.ops, op, who).0, author := s.author[op := ByOwner])
      else s.(ops := CancelOwnedOf(s.ops, op, who).0)
    case Crash =>
      s.(workers := map op | op in s.workers :: if s.workers[op] == Stopped then Stopped else Dead,
         verdicts := map[])
    case Look(op, up) =>
      (match Resolve(s.ops[op].metadata, if up then Wired(s.db.table) else UNREACHABLE)
       case None => s
       case Some(Skip) => s
       case Some(verdict) => s.(verdicts := s.verdicts[op := verdict]))
    case Settle(op, interruption) =>
      var result := match s.verdicts[op]
                    case Resolved(response) => FinishDone(s.ops[op], response)
                    case Interrupted => FinishError(s.ops[op], interruption)
                    case Skip => Err(OpAlreadyDone);
      Finish(s, op, result, BySweeper).(verdicts := s.verdicts - {op})
  }

  /** The step the database takes with an action, if it takes one. */
  function DbStep(s: Sys, a: Action): Option<Step>
    requires Can(s, a)
  {
    match a
    case Database(step) => Some(step)
    case Start(op, now) => Some(Begin(op, s.jobs[op], ActorOf(s.ops[op].principal), now))
    case _ => None
  }

  lemma ActDb(s: Sys, a: Action)
    requires Can(s, a)
    ensures match DbStep(s, a)
      case None => Act(s, a).db == s.db
      case Some(step) => Enabled(s.db, step) && Act(s, a).db == Take(s.db, step)
  {
  }

  // ---- Runs ----

  ghost predicate Acts(s: Sys, actions: seq<Action>)
    decreases |actions|
  {
    actions == [] || (Can(s, actions[0]) && Acts(Act(s, actions[0]), actions[1..]))
  }

  ghost function Ends(s: Sys, actions: seq<Action>): Sys
    requires Acts(s, actions)
    decreases |actions|
  {
    if actions == [] then s else Ends(Act(s, actions[0]), actions[1..])
  }

  ghost predicate Reached(s: Sys) {
    exists actions :: Acts(BOOT, actions) && Ends(BOOT, actions) == s
  }

  lemma {:induction false} ActsConcat(s: Sys, a: seq<Action>, b: seq<Action>)
    requires Acts(s, a) && Acts(Ends(s, a), b)
    ensures Acts(s, a + b) && Ends(s, a + b) == Ends(Ends(s, a), b)
    decreases |a|
  {
    if a == [] {
      assert a + b == b;
    } else {
      assert (a + b)[1..] == a[1..] + b;
      ActsConcat(Act(s, a[0]), a[1..], b);
    }
  }

  lemma ActOne(s: Sys, a: Action)
    requires Can(s, a)
    ensures Acts(s, [a]) && Ends(s, [a]) == Act(s, a)
  {
    assert [a][1..] == [];
    assert Acts(Act(s, a), []) && Ends(Act(s, a), []) == Act(s, a);
  }

  lemma ReachedStep(s: Sys, a: Action)
    requires Reached(s) && Can(s, a)
    ensures Reached(Act(s, a))
  {
    var actions :| Acts(BOOT, actions) && Ends(BOOT, actions) == s;
    ActOne(s, a);
    ActsConcat(BOOT, actions, [a]);
  }

  // ---- The invariant ----

  ghost predicate Bookkeeping(s: Sys) {
    && Reachable(s.db)
    && s.ops.Keys == s.jobs.Keys == s.workers.Keys
    && s.db.txs.Keys <= s.ops.Keys
    && s.author.Keys <= s.ops.Keys
    && (forall op | op in s.ops :: Accepted(s, op))
  }

  predicate Accepted(s: Sys, op: OpId)
    requires op in s.ops && op in s.jobs && op in s.workers
  {
    && ValidStmt(s.jobs[op])
    && s.ops[op].id == op && s.ops[op].metadata == Some(MetadataOf(s.jobs[op]))
    && (op in s.db.txs ==>
          s.db.txs[op].stmt == s.jobs[op] && s.db.txs[op].actor == ActorOf(s.ops[op].principal)
          && s.workers[op] != Queued)
    && (s.workers[op] == Running ==> op in s.db.txs)
    && (s.workers[op] == Stopped ==> Finished(s.db, op))
  }

  ghost predicate Terminals(s: Sys) {
    && (forall op | op in s.ops :: OpSound(s, op))
    && (forall op | op in s.verdicts :: s.verdicts[op] != Skip)
  }

  predicate OpSound(s: Sys, op: OpId)
    requires op in s.ops
  {
    if op in s.author then TerminalSound(s, op)
    else !s.ops[op].done && s.ops[op].error == None && s.ops[op].response == None
  }

  predicate TerminalSound(s: Sys, op: OpId)
    requires op in s.ops && op in s.author
  {
    var o := s.ops[op];
    && o.done
    && match s.author[op]
       case ByWorker =>
         Finished(s.db, op) &&
         (match WorkerResult(s.db.txs[op])
          case Ok(response) => o.response == Some(response) && o.error == None
          case Err(status) => o.response == None && o.error == Some(status))
       case ByOwner => o.error == Some(CANCELLED) && o.response == None
       case BySweeper => o.error == None || o.response == None
  }

  ghost predicate SysInv(s: Sys) { Bookkeeping(s) && Terminals(s) }

  predicate SameIdentity(a: Operation, b: Operation) {
    a.id == b.id && a.principal == b.principal && a.metadata == b.metadata
  }

  predicate MayEnd(before: Worker, after: Worker, finished: bool) {
    after == before || after == Dead || (before == Running && after == Stopped && finished)
  }

  /** Actions that only finish operations, stop workers or record verdicts. */
  lemma OutcomeKeepsBookkeeping(s: Sys, s': Sys)
    requires Bookkeeping(s) && s'.db == s.db && s'.jobs == s.jobs
    requires s'.ops.Keys == s.ops.Keys && s'.workers.Keys == s.workers.Keys && s'.author.Keys <= s.ops.Keys
    requires forall op | op in s.ops :: SameIdentity(s.ops[op], s'.ops[op])
    requires forall op | op in s.workers :: MayEnd(s.workers[op], s'.workers[op], Finished(s.db, op))
    ensures Bookkeeping(s')
  {
    forall op | op in s'.ops ensures Accepted(s', op) { AcceptedStays(s, s', op); }
  }

  lemma AcceptedStays(s: Sys, s': Sys, op: OpId)
    requires op in s.ops && op in s.jobs && op in s.workers && op in s'.ops && op in s'.jobs && op in s'.workers
    requires Accepted(s, op) && s'.db == s.db
    requires SameIdentity(s.ops[op], s'.ops[op]) && s'.jobs[op] == s.jobs[op]
    requires MayEnd(s.workers[op], s'.workers[op], Finished(s.db, op))
    ensures Accepted(s', op)
  {
  }

  lemma SubmitKeepsBookkeeping(s: Sys, a: Action)
    requires Bookkeeping(s) && Can(s, a) && a.Submit?
    ensures Bookkeeping(Act(s, a))
  {
    PlanIsValid(a.req);
    var s' := Act(s, a);
    forall op | op in s'.ops ensures Accepted(s', op) {
      if op in s.ops { AcceptedStays(s, s', op); }
    }
  }

  lemma StartKeepsBookkeeping(s: Sys, a: Action)
    requires Bookkeeping(s) && Can(s, a) && a.Start?
    ensures Bookkeeping(Act(s, a))
  {
    ReachableStep(s.db, Begin(a.op, s.jobs[a.op], ActorOf(s.ops[a.op].principal), a.now));
    var s' := Act(s, a);
    forall op | op in s'.ops ensures Accepted(s', op) { assert Accepted(s, op); }
  }

  lemma DatabaseKeepsBookkeeping(s: Sys, a: Action)
    requires Bookkeeping(s) && Can(s, a) && a.Database?
    ensures Bookkeeping(Act(s, a))
  {
    ReachableStep(s.db, a.step);
    StepFrame(s.db, a.step);
    ActorStays(s.db, a.step);
    var s' := Act(s, a);
    forall op | op in s'.ops ensures Accepted(s', op) { assert Accepted(s, op); }
  }

  lemma ActorStays(s: Db, step: Step)
    requires Enabled(s, step) && !step.Begin?
    ensures step.t in s.txs && Take(s, step).txs[step.t].actor == s.txs[step.t].actor
    ensures Take(s, step).txs.Keys == s.txs.Keys
  {
  }

  predicate IsOutcome(a: Action) { !a.Submit? && !a.Start? && !a.Database? }

  /** A terminal write, won or lost, finishes at most the operation it was computed for. */
  lemma FinishFrame(s: Sys, op: OpId, result: Result<Operation, StoreErr>, who: Author)
    requires op in s.ops && (result.Ok? ==> SameIdentity(s.ops[op], result.value))
    ensures var s' := Finish(s, op, result, who);
      && s'.db == s.db && s'.jobs == s.jobs && s'.ops.Keys == s.ops.Keys
      && (forall u | u in s.ops :: SameIdentity(s.ops[u], s'.ops[u]))
      && s'.author.Keys <= s.author.Keys + s.ops.Keys
  {
  }

  lemma OutcomeFrame(s: Sys, a: Action)
    requires Can(s, a) && IsOutcome(a)
    ensures var s' := Act(s, a);
      && s'.db == s.db && s'.jobs == s.jobs && s'.ops.Keys == s.ops.Keys
      && (forall op | op in s.ops :: SameIdentity(s.ops[op], s'.ops[op]))
      && s'.author.Keys <= s.author.Keys + s.ops.Keys
  {
    match a
    case Report(op) =>
      FinishFrame(s, op,
        match WorkerResult(s.db.txs[op])
        case Ok(response) => FinishDone(s.ops[op], Some(response))
        case Err(status) => FinishError(s.ops[op], status), ByWorker);
    case Settle(op, interruption) =>
      FinishFrame(s, op,
        match s.verdicts[op]
        case Resolved(response) => FinishDone(s.ops[op], response)
        case Interrupted => FinishError(s.ops[op], interruption)
        case Skip => Err(OpAlreadyDone), BySweeper);
    case _ =>
  }

  lemma OutcomeWorkers(s: Sys, a: Action)
    requires Can(s, a) && IsOutcome(a)
    ensures var s' := Act(s, a);
      && s'.workers.Keys == s.workers.Keys
      && forall op | op in s.workers :: MayEnd(s.workers[op], s'.workers[op], Finished(s.db, op))
  {
  }

  lemma StepKeepsBookkeeping(s: Sys, a: Action)
    requires Bookkeeping(s) && Can(s, a)
    ensures Bookkeeping(Act(s, a))
  {
    match a
    case Submit(_, _, _, _) => SubmitKeepsBookkeeping(s, a);
    case Start(_, _) => StartKeepsBookkeeping(s, a);
    case Database(_) => DatabaseKeepsBookkeeping(s, a);
    case _ =>
      OutcomeFrame(s, a);
      OutcomeWorkers(s, a);
      OutcomeKeepsBookkeeping(s, Act(s, a));
  }

  /** A finished transaction is left alone by every action. */
  lemma FinishedStays(s: Sys, a: Action, op: OpId)
    requires Can(s, a) && Finished(s.db, op)
    ensures op in Act(s, a).db.txs && Act(s, a).db.txs[op] == s.db.txs[op]
  {
    if a.Database? { StepFrame(s.db, a.step); }
    if a.Start? { StepFrame(s.db, Begin(a.op, s.jobs[a.op], ActorOf(s.ops[a.op].principal), a.now)); }
  }

  lemma ReportKeepsOp(s: Sys, a: Action, op: OpId)
    requires Can(s, a) && a.Report? && op in s.ops && OpSound(s, op)
    ensures op in Act(s, a).ops && OpSound(Act(s, a), op)
  {
    if op != a.op { assert Act(s, a).ops[op] == s.ops[op]; }
  }

  lemma SettleKeepsOp(s: Sys, a: Action, op: OpId)
    requires Can(s, a) && a.Settle? && op in s.ops && OpSound(s, op)
    ensures op in Act(s, a).ops && OpSound(Act(s, a), op)
  {
  }

  lemma CancelKeepsOp(s: Sys, a: Action, op: OpId)
    requires Can(s, a) && a.CancelOp? && op in s.ops && OpSound(s, op)
    ensures op in Act(s, a).ops && OpSound(Act(s, a), op)
  {
  }

  lemma OtherKeepsOp(s: Sys, a: Action, op: OpId)
    requires Can(s, a) && !a.Report? && !a.Settle? && !a.CancelOp? && op in s.ops && OpSound(s, op)
    ensures op in Act(s, a).ops && OpSound(Act(s, a), op)
  {
    if Finished(s.db, op) { FinishedStays(s, a, op); }
    assert Act(s, a).author == s.author;
    assert Act(s, a).ops[op] == s.ops[op];
  }

  lemma StepKeepsOp(s: Sys, a: Action, op: OpId)
    requires Can(s, a) && op in s.ops && OpSound(s, op)
    ensures op in Act(s, a).ops && OpSound(Act(s, a), op)
  {
    match a
    case Report(_) => ReportKeepsOp(s, a, op);
    case Settle(_, _) => SettleKeepsOp(s, a, op);
    case CancelOp(_, _) => CancelKeepsOp(s, a, op);
    case _ => OtherKeepsOp(s, a, op);
  }

  lemma NewOpSound(s: Sys, a: Action, op: OpId)
    requires Bookkeeping(s) && Can(s, a) && op !in s.ops && op in Act(s, a).ops
    ensures OpSound(Act(s, a), op)
  {
    if IsOutcome(a) { OutcomeFrame(s, a); }
  }

  lemma VerdictsSound(s: Sys, a: Action)
    requires Can(s, a) && forall op | op in s.verdicts :: s.verdicts[op] != Skip
    ensures forall op | op in Act(s, a).verdicts :: Act(s, a).verdicts[op] != Skip
  {
  }

  lemma StepKeepsTerminals(s: Sys, a: Action)
    requires SysInv(s) && Can(s, a)
    ensures Terminals(Act(s, a))
  {
    VerdictsSound(s, a);
    forall op | op in Act(s, a).ops ensures OpSound(Act(s, a), op) {
      if op in s.ops { StepKeepsOp(s, a, op); } else { NewOpSound(s, a, op); }
    }
  }

  lemma {:induction false} RunKeepsSysInv(s: Sys, actions: seq<Action>)
    requires SysInv(s) && Acts(s, actions)
    ensures SysInv(Ends(s, actions))
    decreases |actions|
  {
    if actions == [] {
    } else {
      StepKeepsBookkeeping(s, actions[0]);
      StepKeepsTerminals(s, actions[0]);
      RunKeepsSysInv(Act(s, actions[0]), actions[1..]);
    }
  }

  lemma ReachedInv(s: Sys)
    requires Reached(s)
    ensures SysInv(s)
  {
    var actions :| Acts(BOOT, actions) && Ends(BOOT, actions) == s;
    assert Runs(INITIAL, []) && After(INITIAL, []) == INITIAL;
    assert SysInv(BOOT);
    RunKeepsSysInv(BOOT, actions);
  }
}
