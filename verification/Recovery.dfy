/** Orphans: what the reconciler finds, what it stores, and when that is the truth. */
module Recovery {
  import opened Wrappers
  import opened Domain
  import opened Database
  import opened Consistency
  import opened Serial
  import opened OperationStore
  import opened Resolver
  import opened Repositories
  import opened Lro
  import opened LroTheorems
  import opened Sweeps

  // ---- Workers that are gone ----

  lemma StepKeepsCommitted(s: Sys, a: Action, t: TxId)
    requires Can(s, a) && Done(s.db, t)
    ensures Done(Act(s, a).db, t) && Act(s, a).db.txs[t] == s.db.txs[t]
  {
    FinishedStays(s, a, t);
  }

  lemma {:induction false} RunKeepsCommitted(s: Sys, actions: seq<Action>, t: TxId)
    requires Acts(s, actions) && Done(s.db, t)
    ensures Done(Ends(s, actions).db, t) && Ends(s, actions).db.txs[t] == s.db.txs[t]
    decreases |actions|
  {
    if actions == [] {
    } else {
      StepKeepsCommitted(s, actions[0], t);
      RunKeepsCommitted(Act(s, actions[0]), actions[1..], t);
    }
  }

  /** The worker will do nothing more: it died, or it reported or gave up its terminal write. */
  predicate Gone(s: Sys, op: OpId) { HasWorker(s, op, Dead) || HasWorker(s, op, Stopped) }

  lemma GoneStaysGone(s: Sys, a: Action, op: OpId)
    requires s.ops.Keys == s.workers.Keys && Can(s, a) && Gone(s, op)
    ensures Gone(Act(s, a), op)
  {
  }

  /** The worker is gone and has no commit under way. */
  predicate Frozen(s: Sys, op: OpId) { Gone(s, op) && !Drew(s.db, op) }

  lemma StepKeepsFrozen(s: Sys, a: Action, op: OpId)
    requires s.ops.Keys == s.workers.Keys && Can(s, a) && Frozen(s, op)
    ensures Frozen(Act(s, a), op)
    ensures Done(Act(s, a).db, op) <==> Done(s.db, op)
  {
    GoneStaysGone(s, a, op);
    ActDb(s, a);
    if DbStep(s, a).Some? {
      StepFrame(s.db, DbStep(s, a).value);
      if DbStep(s, a).value.t == op { UndrawnStaysUndone(s, a, op); }
    }
  }

  lemma UndrawnStaysUndone(s: Sys, a: Action, op: OpId)
    requires Can(s, a) && Frozen(s, op) && DbStep(s, a).Some? && DbStep(s, a).value.t == op
    ensures !Done(s.db, op) && !Done(Act(s, a).db, op) && !Drew(Act(s, a).db, op)
  {
  }

  /** Once the worker is gone and has no commit under way, whether op committed is settled for good. */
  lemma {:induction false} DeadIsSettled(s: Sys, actions: seq<Action>, op: OpId)
    requires SysInv(s) && Acts(s, actions) && Frozen(s, op)
    ensures Frozen(Ends(s, actions), op)
    ensures Done(Ends(s, actions).db, op) <==> Done(s.db, op)
    decreases |actions|
  {
    if actions == [] {
    } else {
      StepKeepsFrozen(s, actions[0], op);
      StepKeepsBookkeeping(s, actions[0]);
      StepKeepsTerminals(s, actions[0]);
      DeadIsSettled(Act(s, actions[0]), actions[1..], op);
    }
  }

  ghost predicate MayCommit(s: Sys, op: OpId) {
    exists actions :: Acts(s, actions) && Done(Ends(s, actions).db, op)
  }

  lemma DrawnMayCommit(s: Sys, op: OpId)
    requires Drew(s.db, op) && (HasWorker(s, op, Running) || HasWorker(s, op, Dead))
    ensures MayCommit(s, op)
  {
    ActOne(s, Action.Database(Commit(op, true)));
    assert Acts(s, [Action.Database(Commit(op, true))]);
  }

  /** Whether the write of a dead worker that has not committed can still come, cancelled or not: it can if and
      only if the worker had drawn its sequence number. */
  lemma DeadMayCommitIffDrew(s: Sys, op: OpId)
    requires Reached(s) && HasWorker(s, op, Dead) && !Done(s.db, op)
    ensures MayCommit(s, op) <==> Drew(s.db, op)
  {
    if Drew(s.db, op) {
      DrawnMayCommit(s, op);
    } else {
      ReachedInv(s);
      forall actions | Acts(s, actions) ensures !Done(Ends(s, actions).db, op) { DeadIsSettled(s, actions, op); }
    }
  }

  /** A live worker that executed its statement can still commit, whatever became of its operation. */
  lemma LiveMayCommit(s: Sys, op: OpId)
    requires HasWorker(s, op, Running) && Holds(s.db, op)
    ensures MayCommit(s, op)
  {
    if Drew(s.db, op) {
      DrawnMayCommit(s, op);
    } else {
      var emit := Action.Database(Emit(op));
      var commit := Action.Database(Commit(op, true));
      ActsTwo(s, emit, commit);
      assert Acts(s, [emit, commit]) && Done(Ends(s, [emit, commit]).db, op);
    }
  }

  // ---- Presence tells the fate ----

  /** No transaction but op's has committed on k between two database states. */
  ghost predicate OthersQuiet(before: Db, after: Db, op: OpId, k: Key) {
    forall u | u != op && Done(after, u) && KeyIn(after, u) == k :: Done(before, u)
  }

  /** Presence of op's resource, told from its presence before and from whether op committed. */
  predicate Tracks(s: Db, op: OpId, st: Stmt, present: bool) {
    && (op in s.txs ==> s.txs[op].stmt == st)
    && (KeyOf(st) in s.table <==> if Done(s, op) then !IsDrop(st) else present)
    && (Done(s, op) ==> (IsInsert(st) <==> !present))
  }

  /** The only action that changes which keys are present is a commit on that key. */
  lemma PresenceStep(s: Db, step: Step, k: Key)
    requires Inv(s) && Enabled(s, step)
    ensures (k in Take(s, step).table <==> k in s.table) || (step.Commit? && KeyIn(s, step.t) == k)
    ensures step.Commit? && KeyIn(s, step.t) == k ==>
      && (k in Take(s, step).table <==> !IsDrop(s.txs[step.t].stmt))
      && (k in s.table <==> !IsInsert(s.txs[step.t].stmt))
  {
    if step.Commit? { assert HolderSound(s, step.t); }
  }

  lemma TracksDbStep(s: Db, step: Step, op: OpId, st: Stmt, present: bool)
    requires Inv(s) && Enabled(s, step) && Tracks(s, op, st, present)
    requires step.Begin? && step.t == op ==> step.stmt == st
    requires OthersQuiet(s, Take(s, step), op, KeyOf(st))
    ensures Tracks(Take(s, step), op, st, present)
  {
    var s' := Take(s, step);
    StepFrame(s, step);
    PresenceStep(s, step, KeyOf(st));
    if step.Commit? && KeyIn(s, step.t) == KeyOf(st) {
      assert Done(s', step.t) && KeyIn(s', step.t) == KeyOf(st) && !Done(s, step.t);
      assert step.t == op;
    } else {
      assert Done(s', op) <==> Done(s, op);
    }
  }

  lemma JobStays(s: Sys, a: Action, op: OpId)
    requires Can(s, a) && op in s.jobs && op in s.ops
    ensures op in Act(s, a).jobs && Act(s, a).jobs[op] == s.jobs[op]
  {
  }

  lemma TracksStep(s: Sys, a: Action, op: OpId, present: bool)
    requires SysInv(s) && Can(s, a) && op in s.jobs && Tracks(s.db, op, s.jobs[op], present)
    requires OthersQuiet(s.db, Act(s, a).db, op, KeyOf(s.jobs[op]))
    ensures op in Act(s, a).jobs && Act(s, a).jobs[op] == s.jobs[op]
    ensures Tracks(Act(s, a).db, op, s.jobs[op], present)
  {
    JobStays(s, a, op);
    ActDb(s, a);
    if DbStep(s, a).Some? {
      ReachableInv(s.db);
      TracksDbStep(s.db, DbStep(s, a).value, op, s.jobs[op], present);
    }
  }

  lemma QuietHalves(s: Sys, actions: seq<Action>, op: OpId, k: Key)
    requires Acts(s, actions) && actions != [] && OthersQuiet(s.db, Ends(s, actions).db, op, k)
    ensures OthersQuiet(s.db, Act(s, actions[0]).db, op, k)
    ensures OthersQuiet(Act(s, actions[0]).db, Ends(s, actions).db, op, k)
  {
    var s1, e := Act(s, actions[0]), Ends(s, actions);
    forall u | u != op && Done(s1.db, u) && KeyIn(s1.db, u) == k ensures Done(s.db, u) {
      RunKeepsCommitted(s1, actions[1..], u);
    }
    forall u | u != op && Done(e.db, u) && KeyIn(e.db, u) == k ensures Done(s1.db, u) {
      StepKeepsCommitted(s, actions[0], u);
    }
  }

  lemma {:induction false} TracksRun(s: Sys, actions: seq<Action>, op: OpId, present: bool)
    requires SysInv(s) && Acts(s, actions) && op in s.jobs && Tracks(s.db, op, s.jobs[op], present)
    requires OthersQuiet(s.db, Ends(s, actions).db, op, KeyOf(s.jobs[op]))
    ensures op in Ends(s, actions).jobs && Ends(s, actions).jobs[op] == s.jobs[op]
    ensures Tracks(Ends(s, actions).db, op, s.jobs[op], present)
    decreases |actions|
  {
    if actions == [] {
    } else {
      QuietHalves(s, actions, op, KeyOf(s.jobs[op]));
      TracksStep(s, actions[0], op, present);
      StepKeepsBookkeeping(s, actions[0]);
      StepKeepsTerminals(s, actions[0]);
      TracksRun(Act(s, actions[0]), actions[1..], op, present);
    }
  }

  /** What the reconciler finds, told from presence at acceptance and from whether op committed. */
  lemma VerdictFromPresence(e: Sys, op: OpId, present: bool)
    requires Bookkeeping(e) && op in e.ops && op in e.jobs && Tracks(e.db, op, e.jobs[op], present)
    ensures ResolveNow(e, op).Some? && ResolveNow(e, op).value != Skip
    ensures (ResolveNow(e, op).value.Resolved? <==> Done(e.db, op)) <==>
      (if IsInsert(e.jobs[op]) then !present
       else if IsDrop(e.jobs[op]) then present
       else !present || Done(e.db, op))
  {
    assert Accepted(e, op);
    WiredResolve(e.jobs[op], e.db.table);
  }

  // ---- The verdict ----

  /** What a caller can look up before: whether the presence of the resource will tell the fate of the request. */
  predicate Telling(st: Stmt, present: bool) { if IsDrop(st) then present else !present }

  /** Accepted, and its transaction not begun. */
  ghost predicate Fresh(s: Sys, op: OpId) { Reached(s) && op in s.ops && op in s.jobs && op !in s.db.txs }

  /** Nobody but op writes its resource. */
  ghost predicate QuietRun(s: Sys, actions: seq<Action>, op: OpId) {
    op in s.jobs && Acts(s, actions) && OthersQuiet(s.db, Ends(s, actions).db, op, KeyOf(s.jobs[op]))
  }

  ghost predicate Orphaned(s: Sys, op: OpId) { Gone(s, op) && !Open(s.db, op) }

  /** The reconciler finds a verdict, and it is Done exactly when op's write committed. */
  predicate VerdictRight(s: Sys, op: OpId) {
    && op in s.ops
    && (match ResolveNow(s, op)
        case Some(Resolved(_)) => Done(s.db, op)
        case Some(Interrupted) => !Done(s.db, op)
        case _ => false)
  }

  lemma QuietRunTracks(s: Sys, actions: seq<Action>, op: OpId)
    requires Fresh(s, op) && QuietRun(s, actions, op)
    ensures var e := Ends(s, actions);
      && SysInv(e) && op in e.ops && op in e.jobs && e.jobs[op] == s.jobs[op]
      && Tracks(e.db, op, s.jobs[op], KeyOf(s.jobs[op]) in s.db.table)
  {
    ReachedInv(s);
    TracksRun(s, actions, op, KeyOf(s.jobs[op]) in s.db.table);
    RunKeepsSysInv(s, actions);
    FirstTerminalWriteWins(s, actions, op);
  }

  /** When the reconciler tells the truth about an orphan that nobody else touched: in every continuation, if and
      only if a create or an update was accepted while its id was absent, or a delete while it was present. */
  lemma VerdictIsRightIff(s: Sys, op: OpId)
    requires Fresh(s, op)
    ensures (forall actions | QuietRun(s, actions, op) && Orphaned(Ends(s, actions), op) ::
               VerdictRight(Ends(s, actions), op))
      <==> Telling(s.jobs[op], KeyOf(s.jobs[op]) in s.db.table)
  {
    var present := KeyOf(s.jobs[op]) in s.db.table;
    if Telling(s.jobs[op], present) {
      forall actions | QuietRun(s, actions, op) && Orphaned(Ends(s, actions), op)
        ensures VerdictRight(Ends(s, actions), op)
      {
        QuietRunTracks(s, actions, op);
        VerdictFromPresence(Ends(s, actions), op, present);
      }
    } else {
      CrashOrphans(s, op);
      QuietRunTracks(s, [Crash], op);
      VerdictFromPresence(Ends(s, [Crash]), op, present);
    }
  }

  lemma CrashKills(s: Sys, op: OpId)
    requires op in s.workers && s.workers[op] != Stopped
    ensures HasWorker(Act(s, Crash), op, Dead)
  {
  }

  lemma CrashOrphans(s: Sys, op: OpId)
    requires Fresh(s, op)
    ensures QuietRun(s, [Crash], op) && Ends(s, [Crash]) == Act(s, Crash) && Orphaned(Act(s, Crash), op)
    ensures Act(s, Crash).db == s.db && Act(s, Crash).ops == s.ops && op !in Act(s, Crash).verdicts
  {
    ReachedInv(s);
    assert Accepted(s, op);
    CrashKills(s, op);
    ActOne(s, Crash);
  }

  // ---- The stored outcome ----

  predicate Swept(s: Sys, op: OpId) { op in s.ops && op in s.author && s.author[op] == BySweeper }

  /** Every look the sweep takes at op finds its worker gone with no commit under way. */
  ghost predicate Careful(s: Sys, actions: seq<Action>, op: OpId)
    requires Acts(s, actions)
    decreases |actions|
  {
    actions != [] ==>
      && (actions[0] == Look(op, true) ==> Frozen(s, op))
      && Careful(Act(s, actions[0]), actions[1..], op)
  }

  predicate Holding(o: Operation, verdict: Option<Outcome>) {
    match verdict
    case Some(Resolved(response)) => o.error.None? && o.response == response
    case Some(Interrupted) => o.error.Some? && o.response.None?
    case _ => false
  }

  /** A recorded verdict is still what the sweep would find, and so is a swept outcome. */
  ghost predicate SweepSound(s: Sys, op: OpId)
    requires op in s.ops
  {
    && (op in s.verdicts ==> Frozen(s, op) && ResolveNow(s, op) == Some(s.verdicts[op]))
    && (Swept(s, op) ==> Frozen(s, op) && Holding(s.ops[op], ResolveNow(s, op)))
  }

  lemma ResolveIsLocal(s: Sys, s': Sys, op: OpId)
    requires op in s.ops && op in s.jobs && op in s'.ops && s'.ops[op].metadata == s.ops[op].metadata
    requires s.ops[op].metadata == Some(MetadataOf(s.jobs[op])) && AgreeAt(s.db.table, s'.db.table, KeyOf(s.jobs[op]))
    ensures ResolveNow(s', op) == ResolveNow(s, op)
  {
    WiredResolve(s.jobs[op], s.db.table);
    WiredResolve(s.jobs[op], s'.db.table);
  }

  lemma RowStays(s: Db, step: Step, k: Key)
    requires Enabled(s, step) && (step.Commit? ==> KeyIn(s, step.t) != k)
    ensures AgreeAt(s.table, Take(s, step).table, k)
  {
    StepFrame(s, step);
  }

  /** While op is frozen and others keep off its resource, the sweep finds the same. */
  lemma FrozenFindsTheSame(s: Sys, a: Action, op: OpId)
    requires Bookkeeping(s) && Can(s, a) && op in s.ops && op in s.jobs && Frozen(s, op)
    requires OthersQuiet(s.db, Act(s, a).db, op, KeyOf(s.jobs[op]))
    ensures op in Act(s, a).ops && ResolveNow(Act(s, a), op) == ResolveNow(s, op)
  {
    var s', k := Act(s, a), KeyOf(s.jobs[op]);
    StepKeepsDone(s, a, op);
    ActDb(s, a);
    assert Accepted(s, op);
    if DbStep(s, a).Some? {
      var step := DbStep(s, a).value;
      StepFrame(s.db, step);
      if step.Commit? {
        assert Done(s'.db, step.t) && !Done(s.db, step.t) && KeyIn(s'.db, step.t) == KeyIn(s.db, step.t);
      }
      RowStays(s.db, step, k);
    }
    ResolveIsLocal(s, s', op);
  }

  lemma VerdictsFrame(s: Sys, a: Action, op: OpId)
    requires Can(s, a) && a != Look(op, true)
    ensures op in Act(s, a).verdicts ==> op in s.verdicts && Act(s, a).verdicts[op] == s.verdicts[op]
  {
  }

  lemma ReportAuthors(s: Sys, a: Action, op: OpId)
    requires Can(s, a) && a.Report? && op in s.ops && OpSound(s, op) && Swept(Act(s, a), op)
    ensures Swept(s, op)
  {
  }

  lemma CancelAuthors(s: Sys, a: Action, op: OpId)
    requires Can(s, a) && a.CancelOp? && op in s.ops && OpSound(s, op) && Swept(Act(s, a), op)
    ensures Swept(s, op)
  {
  }

  lemma SettleAuthors(s: Sys, a: Action, op: OpId)
    requires Can(s, a) && a.Settle? && a.op != op && op in s.ops && Swept(Act(s, a), op)
    ensures Swept(s, op)
  {
  }

  lemma OtherAuthors(s: Sys, a: Action)
    requires Can(s, a) && !a.Report? && !a.CancelOp? && !a.Settle?
    ensures Act(s, a).author == s.author
  {
  }

  /** Only the sweep's own looks and settlings touch its verdicts and its outcomes. */
  lemma SweepFrame(s: Sys, a: Action, op: OpId)
    requires Can(s, a) && op in s.ops && OpSound(s, op) && a != Look(op, true) && !(a.Settle? && a.op == op)
    ensures op in Act(s, a).verdicts ==> op in s.verdicts && Act(s, a).verdicts[op] == s.verdicts[op]
    ensures Swept(Act(s, a), op) ==> Swept(s, op) && Act(s, a).ops[op] == s.ops[op]
  {
    VerdictsFrame(s, a, op);
    StepKeepsDone(s, a, op);
    if Swept(Act(s, a), op) {
      match a
      case Report(_) => ReportAuthors(s, a, op);
      case CancelOp(_, _) => CancelAuthors(s, a, op);
      case Settle(_, _) => SettleAuthors(s, a, op);
      case _ => OtherAuthors(s, a);
    }
  }

  lemma SettleStores(s: Sys, op: OpId, interruption: Status)
    requires SysInv(s) && Can(s, Settle(op, interruption)) && SweepSound(s, op)
    ensures op in Act(s, Settle(op, interruption)).ops && SweepSound(Act(s, Settle(op, interruption)), op)
  {
    var s' := Act(s, Settle(op, interruption));
    assert OpSound(s, op);
    assert s'.db == s.db && s'.ops[op].metadata == s.ops[op].metadata && s'.workers == s.workers;
    assert ResolveNow(s', op) == ResolveNow(s, op);
  }

  lemma LookRecords(s: Sys, op: OpId)
    requires Can(s, Look(op, true)) && Frozen(s, op) && SweepSound(s, op)
    ensures op in Act(s, Look(op, true)).ops && SweepSound(Act(s, Look(op, true)), op)
  {
  }

  lemma StepKeepsSweepSound(s: Sys, a: Action, op: OpId)
    requires SysInv(s) && Can(s, a) && op in s.ops && op in s.jobs && SweepSound(s, op)
    requires a == Look(op, true) ==> Frozen(s, op)
    requires OthersQuiet(s.db, Act(s, a).db, op, KeyOf(s.jobs[op]))
    ensures op in Act(s, a).ops && SweepSound(Act(s, a), op)
  {
    StepKeepsDone(s, a, op);
    if a == Look(op, true) {
      LookRecords(s, op);
    } else if a.Settle? && a.op == op {
      SettleStores(s, op, a.interruption);
    } else {
      assert OpSound(s, op);
      SweepFrame(s, a, op);
      if Frozen(s, op) {
        StepKeepsFrozen(s, a, op);
        FrozenFindsTheSame(s, a, op);
      }
    }
  }

  lemma {:induction false} RunKeepsSweepSound(s: Sys, actions: seq<Action>, op: OpId)
    requires SysInv(s) && op in s.ops && SweepSound(s, op) && QuietRun(s, actions, op) && Careful(s, actions, op)
    ensures op in Ends(s, actions).ops && SweepSound(Ends(s, actions), op)
    decreases |actions|
  {
    if actions == [] {
    } else {
      QuietHalves(s, actions, op, KeyOf(s.jobs[op]));
      StepKeepsSweepSound(s, actions[0], op);
      JobStays(s, actions[0], op);
      StepKeepsBookkeeping(s, actions[0]);
      StepKeepsTerminals(s, actions[0]);
      RunKeepsSweepSound(Act(s, actions[0]), actions[1..], op);
    }
  }

  /** The stored outcome is a success exactly when op's write committed. */
  predicate OutcomeRight(s: Sys, op: OpId) { op in s.ops && (s.ops[op].error.None? <==> Done(s.db, op)) }

  /** A fresh open operation that the sweep has not looked at yet. */
  ghost predicate Unswept(s: Sys, op: OpId) { Fresh(s, op) && IsOpen(s, op) && op !in s.verdicts }

  ghost predicate SweptRun(s: Sys, actions: seq<Action>, op: OpId) {
    QuietRun(s, actions, op) && Careful(s, actions, op) && Swept(Ends(s, actions), op)
  }

  lemma UnsweptIsSound(s: Sys, op: OpId)
    requires Unswept(s, op)
    ensures SysInv(s) && SweepSound(s, op)
  {
    ReachedInv(s);
    assert OpSound(s, op);
  }

  lemma SweptRunStores(s: Sys, actions: seq<Action>, op: OpId)
    requires Unswept(s, op) && SweptRun(s, actions, op)
    ensures Frozen(Ends(s, actions), op) && Holding(Ends(s, actions).ops[op], ResolveNow(Ends(s, actions), op))
  {
    UnsweptIsSound(s, op);
    RunKeepsSweepSound(s, actions, op);
  }

  lemma SweptRunIsRight(s: Sys, actions: seq<Action>, op: OpId)
    requires Unswept(s, op) && SweptRun(s, actions, op)
    ensures OutcomeRight(Ends(s, actions), op) <==>
      (|| Telling(s.jobs[op], KeyOf(s.jobs[op]) in s.db.table)
       || (!IsInsert(s.jobs[op]) && !IsDrop(s.jobs[op]) && Done(Ends(s, actions).db, op)))
  {
    SweptRunStores(s, actions, op);
    QuietRunTracks(s, actions, op);
    VerdictFromPresence(Ends(s, actions), op, KeyOf(s.jobs[op]) in s.db.table);
  }

  /** When the outcome the sweep stored is the truth: if it only looks at operations whose worker is gone with no
      commit under way, and nobody else writes the resource until it has settled, then in every such run, if and
      only if a create or an update was accepted while its id was absent, or a delete while it was present. */
  lemma StoredOutcomeIsRightIff(s: Sys, op: OpId, interruption: Status)
    requires Unswept(s, op)
    ensures (forall actions | SweptRun(s, actions, op) :: OutcomeRight(Ends(s, actions), op))
      <==> Telling(s.jobs[op], KeyOf(s.jobs[op]) in s.db.table)
  {
    if Telling(s.jobs[op], KeyOf(s.jobs[op]) in s.db.table) {
      forall actions | SweptRun(s, actions, op) ensures OutcomeRight(Ends(s, actions), op) {
        SweptRunIsRight(s, actions, op);
      }
    } else {
      var _ := CrashAndSweepTells(s, op, interruption);
    }
  }

  lemma CarefulPair(s: Sys, op: OpId, interruption: Status)
    requires Acts(s, [Look(op, true), Settle(op, interruption)]) && Frozen(s, op)
    ensures Careful(s, [Look(op, true), Settle(op, interruption)], op)
  {
    var actions := [Look(op, true), Settle(op, interruption)];
    assert actions[1..] == [Settle(op, interruption)] && actions[1..][1..] == [];
    assert Careful(Act(s, Look(op, true)), actions[1..], op);
  }

  lemma LookAndSettle(s: Sys, op: OpId, interruption: Status) returns (e: Sys)
    requires SysInv(s) && IsOpen(s, op) && Frozen(s, op)
    ensures var actions := [Look(op, true), Settle(op, interruption)];
      Acts(s, actions) && Careful(s, actions, op) && Ends(s, actions) == e
    ensures e.db == s.db && Swept(e, op)
  {
    LookOne(s, op);
    var s1 := Act(s, Look(op, true));
    SettleOne(s1, op, interruption);
    SweepAuthors(s1, op, interruption);
    ActsTwo(s, Look(op, true), Settle(op, interruption));
    CarefulPair(s, op, interruption);
    e := Act(s1, Settle(op, interruption));
  }

  lemma CrashThen(s: Sys, rest: seq<Action>, op: OpId)
    requires Acts(Act(s, Crash), rest) && Careful(Act(s, Crash), rest, op)
    ensures Acts(s, [Crash] + rest) && Careful(s, [Crash] + rest, op)
    ensures Ends(s, [Crash] + rest) == Ends(Act(s, Crash), rest)
  {
    assert ([Crash] + rest)[1..] == rest;
  }

  /** The sweep right after a crash. */
  lemma CrashAndSweep(s: Sys, op: OpId, interruption: Status) returns (actions: seq<Action>)
    requires Unswept(s, op)
    ensures SweptRun(s, actions, op) && Ends(s, actions).db == s.db
  {
    var rest := [Look(op, true), Settle(op, interruption)];
    CrashOrphans(s, op);
    ReachedInv(s);
    StepKeepsBookkeeping(s, Crash);
    StepKeepsTerminals(s, Crash);
    var e := LookAndSettle(Act(s, Crash), op, interruption);
    CrashThen(s, rest, op);
    actions := [Crash] + rest;
  }

  lemma CrashAndSweepTells(s: Sys, op: OpId, interruption: Status) returns (actions: seq<Action>)
    requires Unswept(s, op)
    ensures SweptRun(s, actions, op)
    ensures OutcomeRight(Ends(s, actions), op) ==> Telling(s.jobs[op], KeyOf(s.jobs[op]) in s.db.table)
  {
    actions := CrashAndSweep(s, op, interruption);
    SweptRunIsRight(s, actions, op);
  }

  lemma SweepAuthors(s: Sys, op: OpId, interruption: Status)
    requires SysInv(s) && IsOpen(s, op) && op in s.verdicts && Can(s, Settle(op, interruption))
    ensures Swept(Act(s, Settle(op, interruption)), op)
  {
    assert s.verdicts[op] != Skip;
  }

  // ---- Why the look has to be careful ----

  /** The write of op can still be committed, and can still fail. */
  predicate UnderWay(s: Sys, op: OpId) {
    (HasWorker(s, op, Dead) && Drew(s.db, op)) || (HasWorker(s, op, Running) && Holds(s.db, op))
  }

  lemma LateCommit(s: Sys, op: OpId) returns (actions: seq<Action>)
    requires UnderWay(s, op)
    ensures Acts(s, actions) && Done(Ends(s, actions).db, op)
    ensures Ends(s, actions).ops == s.ops && Ends(s, actions).author == s.author
    ensures forall u | u != op && Done(Ends(s, actions).db, u) :: Done(s.db, u)
  {
    var commit := Action.Database(Commit(op, true));
    if Drew(s.db, op) {
      ActOne(s, commit);
      StepFrame(s.db, commit.step);
      actions := [commit];
    } else {
      var emit := Action.Database(Emit(op));
      ActsTwo(s, emit, commit);
      StepFrame(s.db, emit.step);
      StepFrame(Act(s, emit).db, commit.step);
      actions := [emit, commit];
    }
  }

  lemma LateFailure(s: Sys, op: OpId) returns (actions: seq<Action>)
    requires UnderWay(s, op)
    ensures Acts(s, actions) && !Done(Ends(s, actions).db, op)
    ensures Ends(s, actions).ops == s.ops && Ends(s, actions).author == s.author
    ensures forall u | u != op && Done(Ends(s, actions).db, u) :: Done(s.db, u)
  {
    var abort := Action.Database(Abort(op, Err.Internal));
    ActOne(s, abort);
    StepFrame(s.db, abort.step);
    actions := [abort];
  }

  /** A statement that was executed and not committed leaves its traces in the table: an insert finds its row
      absent, a delete or an update present. */
  lemma HolderPresence(s: Db, t: TxId)
    requires Reachable(s) && Holds(s, t)
    ensures KeyIn(s, t) in s.table <==> !IsInsert(s.txs[t].stmt)
  {
    ReachableInv(s);
    assert HolderSound(s, t);
  }

  lemma VerdictUnderWay(s: Sys, op: OpId)
    requires Reached(s) && op in s.ops && op in s.jobs && UnderWay(s, op)
    ensures match ResolveNow(s, op)
      case Some(Resolved(_)) => !IsInsert(s.jobs[op]) && !IsDrop(s.jobs[op])
      case Some(Interrupted) => IsInsert(s.jobs[op]) || IsDrop(s.jobs[op])
      case _ => false
  {
    ReachedInv(s);
    assert Accepted(s, op);
    HolderPresence(s.db, op);
    WiredResolve(s.jobs[op], s.db.table);
  }

  lemma SettleFollowsVerdict(s: Sys, op: OpId, interruption: Status)
    requires IsOpen(s, op) && OpSound(s, op) && op in s.verdicts && s.verdicts[op] != Skip
    ensures var e := Act(s, Settle(op, interruption));
      op in e.ops && (e.ops[op].error.None? <==> s.verdicts[op].Resolved?)
  {
  }

  /** Looking at op and settling it while its write is under way: what is stored, and what may still happen. */
  lemma SweepUnderWay(s: Sys, op: OpId, interruption: Status) returns (e: Sys)
    requires Reached(s) && IsOpen(s, op) && op in s.jobs && UnderWay(s, op)
    ensures var sweep := [Look(op, true), Settle(op, interruption)]; Acts(s, sweep) && Ends(s, sweep) == e
    ensures e.db == s.db && e.workers == s.workers && Swept(e, op)
    ensures e.ops[op].error.None? <==> !IsInsert(s.jobs[op]) && !IsDrop(s.jobs[op])
  {
    ReachedInv(s);
    VerdictUnderWay(s, op);
    LookOne(s, op);
    var s1 := Act(s, Look(op, true));
    SettleOne(s1, op, interruption);
    SweepAuthors(s1, op, interruption);
    assert OpSound(s1, op);
    SettleFollowsVerdict(s1, op, interruption);
    ActsTwo(s, Look(op, true), Settle(op, interruption));
    e := Act(s1, Settle(op, interruption));
  }

  /** A run that starts with a look at op and ends with op swept, nobody else writing its resource. */
  ghost predicate FromLook(s: Sys, actions: seq<Action>, op: OpId) {
    actions != [] && actions[0] == Look(op, true) && QuietRun(s, actions, op) && Swept(Ends(s, actions), op)
  }

  /** A look while the write is under way can always store the wrong outcome, whatever was asked for: a create or
      a delete is stored as interrupted and then commits; an update is stored as done and then fails. */
  lemma EarlyLookGoesWrong(s: Sys, op: OpId, interruption: Status) returns (actions: seq<Action>)
    requires Reached(s) && IsOpen(s, op) && op in s.jobs && UnderWay(s, op)
    ensures FromLook(s, actions, op) && !OutcomeRight(Ends(s, actions), op)
  {
    var sweep := [Look(op, true), Settle(op, interruption)];
    var e := SweepUnderWay(s, op, interruption);
    var rest;
    if e.ops[op].error.None? { rest := LateFailure(e, op); } else { rest := LateCommit(e, op); }
    ActsConcat(s, sweep, rest);
    actions := sweep + rest;
  }

  lemma {:induction false} FrozenIsCareful(s: Sys, actions: seq<Action>, op: OpId)
    requires SysInv(s) && Acts(s, actions) && Frozen(s, op)
    ensures Careful(s, actions, op)
    decreases |actions|
  {
    if actions == [] {
    } else {
      StepKeepsFrozen(s, actions[0], op);
      StepKeepsBookkeeping(s, actions[0]);
      StepKeepsTerminals(s, actions[0]);
      FrozenIsCareful(Act(s, actions[0]), actions[1..], op);
    }
  }

  lemma LookIsFresh(s: Sys, op: OpId)
    requires SysInv(s) && IsOpen(s, op) && Frozen(s, op)
    ensures var s1 := Act(s, Look(op, true));
      && SysInv(s1) && op in s1.ops && Frozen(s1, op) && SweepSound(s1, op)
      && s1.jobs == s.jobs && s1.db == s.db
  {
    assert Accepted(s, op) && OpSound(s, op);
    WiredResolve(s.jobs[op], s.db.table);
    LookOne(s, op);
  }

  lemma FrozenLookStores(s: Sys, actions: seq<Action>, op: OpId)
    requires Reached(s) && IsOpen(s, op) && op in s.jobs && Frozen(s, op) && FromLook(s, actions, op)
    ensures var e := Ends(s, actions); SysInv(e) && Holding(e.ops[op], ResolveNow(e, op))
  {
    ReachedInv(s);
    LookIsFresh(s, op);
    var s1 := Act(s, actions[0]);
    QuietHalves(s, actions, op, KeyOf(s.jobs[op]));
    FrozenIsCareful(s1, actions[1..], op);
    RunKeepsSweepSound(s1, actions[1..], op);
    RunKeepsSysInv(s, actions);
  }

  /** The state s lies on a run from the acceptance of op at s0, on which nobody else wrote its resource, and the
      presence of the resource then was telling. */
  ghost predicate SinceAccepted(s0: Sys, before: seq<Action>, s: Sys, op: OpId) {
    && Fresh(s0, op) && QuietRun(s0, before, op) && Ends(s0, before) == s
    && Telling(s0.jobs[op], KeyOf(s0.jobs[op]) in s0.db.table)
  }

  lemma FrozenLookIsRight(s0: Sys, before: seq<Action>, s: Sys, actions: seq<Action>, op: OpId)
    requires SinceAccepted(s0, before, s, op) && Reached(s) && IsOpen(s, op) && Frozen(s, op)
    requires FromLook(s, actions, op)
    ensures OutcomeRight(Ends(s, actions), op)
  {
    var present := KeyOf(s0.jobs[op]) in s0.db.table;
    QuietRunTracks(s0, before, op);
    FrozenLookStores(s, actions, op);
    TracksRun(s, actions, op, present);
    VerdictFromPresence(Ends(s, actions), op, present);
  }

  lemma StoppedIsFinished(s: Sys, op: OpId)
    requires Reached(s) && Gone(s, op) && Drew(s.db, op)
    ensures HasWorker(s, op, Dead)
  {
    ReachedInv(s);
    assert Accepted(s, op);
  }

  lemma ReachedRun(s: Sys, actions: seq<Action>)
    requires Reached(s) && Acts(s, actions)
    ensures Reached(Ends(s, actions))
  {
    var past :| Acts(BOOT, past) && Ends(BOOT, past) == s;
    ActsConcat(BOOT, past, actions);
  }

  /** When a look at an open operation whose worker is gone is safe: every quiet continuation from it that ends
      swept stores the truth if and only if the worker had drawn no number, that is, no commit is under way. */
  lemma LookIsSafeIff(s0: Sys, before: seq<Action>, s: Sys, op: OpId, interruption: Status)
    requires SinceAccepted(s0, before, s, op) && IsOpen(s, op) && Gone(s, op)
    ensures (forall actions | FromLook(s, actions, op) :: OutcomeRight(Ends(s, actions), op)) <==> !Drew(s.db, op)
  {
    QuietRunTracks(s0, before, op);
    ReachedRun(s0, before);
    if Drew(s.db, op) {
      StoppedIsFinished(s, op);
      var _ := EarlyLookGoesWrong(s, op, interruption);
    } else {
      forall actions | FromLook(s, actions, op) ensures OutcomeRight(Ends(s, actions), op) {
        FrozenLookIsRight(s0, before, s, actions, op);
      }
    }
  }

  /** What was stored right stays right, whoever writes the resource afterwards. */
  lemma StoredOutcomeStaysRight(s: Sys, actions: seq<Action>, later: seq<Action>, op: OpId)
    requires Unswept(s, op) && SweptRun(s, actions, op) && Acts(Ends(s, actions), later)
    requires Telling(s.jobs[op], KeyOf(s.jobs[op]) in s.db.table)
    ensures OutcomeRight(Ends(Ends(s, actions), later), op)
  {
    var e := Ends(s, actions);
    SweptRunStores(s, actions, op);
    SweptRunIsRight(s, actions, op);
    QuietRunTracks(s, actions, op);
    assert OpSound(e, op);
    FirstTerminalWriteWins(e, later, op);
    DeadIsSettled(e, later, op);
  }
}
