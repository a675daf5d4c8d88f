/** What clients, owners and operators may rely on in every run of the mutation protocol. */
module LroTheorems {
  import opened Wrappers
  import opened Slugs
  import opened Domain
  import opened Database
  import opened Consistency
  import opened CatalogueRules
  import opened LastWriter
  import opened Serial
  import opened OperationStore
  import opened Resolver
  import opened Repositories
  import opened Lro

  // ---- Terminal state ----

  lemma StepKeepsDone(s: Sys, a: Action, op: OpId)
    requires Can(s, a) && op in s.ops
    ensures op in Act(s, a).ops && SameIdentity(s.ops[op], Act(s, a).ops[op])
    ensures s.ops[op].done ==> Act(s, a).ops[op] == s.ops[op]
  {
    if IsOutcome(a) { OutcomeFrame(s, a); }
  }

  /** The first terminal write wins: once done, an operation is never changed by any later worker, cancel,
      crash or sweep; and its owner and metadata never change at all. */
  lemma {:induction false} FirstTerminalWriteWins(s: Sys, actions: seq<Action>, op: OpId)
    requires Acts(s, actions) && op in s.ops
    ensures op in Ends(s, actions).ops && SameIdentity(s.ops[op], Ends(s, actions).ops[op])
    ensures s.ops[op].done ==> Ends(s, actions).ops[op] == s.ops[op]
    decreases |actions|
  {
    if actions == [] {
    } else {
      StepKeepsDone(s, actions[0], op);
      FirstTerminalWriteWins(Act(s, actions[0]), actions[1..], op);
    }
  }

  /** At most one of error and response is ever set, none while open, and exactly one when the worker or
      the owner finished the operation. */
  lemma TerminalShape(s: Sys, op: OpId)
    requires Reached(s) && op in s.ops
    ensures NotMixed(s.ops[op])
    ensures !s.ops[op].done ==> s.ops[op].error.None? && s.ops[op].response.None?
    ensures s.ops[op].done <==> op in s.author
    ensures op in s.author && s.author[op] != BySweeper ==> (s.ops[op].error.Some? <==> s.ops[op].response.None?)
  {
    ReachedInv(s);
    assert OpSound(s, op);
  }

  // ---- Effect accounting ----

  /** Every committed outbox row belongs to exactly one accepted operation, each operation has at most one row,
      and the row is what the requested statement does to the tables at the row's place in the log. */
  lemma RowsBelongToOperations(s: Sys, n: nat) returns (op: OpId)
    requires Reached(s) && n in s.db.log
    ensures op in s.ops && op in s.jobs && Done(s.db, op) && RowOf(s.db, op) == n
    ensures forall u | Done(s.db, u) && RowOf(s.db, u) == n :: u == op
    ensures Ledger(s.db) && RunAlone(ScriptOf(s.db), n).Ok?
    ensures var written := Perform(RunAlone(ScriptOf(s.db), n).value, s.jobs[op], s.db.txs[op].now);
      written.Ok? && s.db.log[n] == EntryOf(s.jobs[op], written.value, ActorOf(s.ops[op].principal))
    ensures match s.jobs[op]
      case InsertRegion(_, name) => s.db.log[n].image == RegionImage(name)
      case InsertZone(_, regionId, name, status) => s.db.log[n].image == ZoneImage(regionId, name, StatusName(status))
      case DropRegion(_) => s.db.log[n].image == Tombstone
      case DropZone(_) => s.db.log[n].image == Tombstone
      case _ => true
  {
    ReachedInv(s);
    op := WriterOf(s.db, n);
    assert Accepted(s, op);
    OutboxOrderIsSerial(s.db);
  }

  lemma WriterOf(s: Db, n: nat) returns (t: TxId)
    requires Reachable(s) && n in s.log
    ensures Done(s, t) && RowOf(s, t) == n && s.log[n] == EntryFor(s, t)
    ensures forall u | Done(s, u) && RowOf(s, u) == n :: u == t
  {
    ReachableInv(s);
    assert Accounted(s, n);
    t :| Done(s, t) && RowOf(s, t) == n;
  }

  /** A response the worker wrote means its row is committed and in the log; an error the worker wrote means
      it has none, except exactly when the commit happened but its acknowledgement was lost. */
  lemma WorkerReportsTruth(s: Sys, op: OpId)
    requires Reached(s) && op in s.ops && op in s.author && s.author[op] == ByWorker
    ensures s.ops[op].response.Some? ==> Done(s.db, op) && RowOf(s.db, op) in s.db.log
    ensures s.ops[op].error.Some? ==>
      (Done(s.db, op) <==> (op in s.db.txs && s.db.txs[op].progress.Committed? && !s.db.txs[op].progress.acked))
    ensures s.ops[op].error.Some? && s.ops[op].error.value.code != 13 ==> !Done(s.db, op)
  {
    ReachedInv(s);
    assert TerminalSound(s, op) by { assert OpSound(s, op); }
    if Done(s.db, op) { DoneIsLogged(s.db, op); }
  }

  lemma DoneIsLogged(s: Db, t: TxId)
    requires Reachable(s) && Done(s, t)
    ensures RowOf(s, t) in s.log
  {
    ReachableInv(s);
  }

  /** A request that fails validation leaves no trace; a valid one leaves one open operation of its caller and no
      row, with a worker waiting to run exactly when the write of the operation row was acknowledged. */
  lemma SubmitEffect(s: Sys, op: OpId, who: Principal, req: Request, acked: bool)
    requires Reached(s) && Can(s, Submit(op, who, req, acked))
    ensures var s' := Act(s, Submit(op, who, req, acked));
      && s'.db == s.db
      && (Plan(req).None? <==> s' == s)
      && (Plan(req).Some? ==>
            && s'.ops.Keys == s.ops.Keys + {op} && IsOpen(s', op) && !Done(s'.db, op) && OwnerMatches(s'.ops[op], who)
            && HasWorker(s', op, if acked then Queued else Dead))
  {
    assert op !in s.ops;
  }

  /** What a worker that finds its operation open stores: after an acknowledged commit the row it wrote, or the
      empty response of a delete; after a failure its code, and the internal one after a lost acknowledgement. */
  lemma ReportStores(s: Sys, op: OpId)
    requires Can(s, Report(op)) && IsOpen(s, op)
    ensures var o, was, p, k := Act(s, Report(op)).ops[op], s.ops[op], s.db.txs[op].progress, KeyIn(s.db, op);
      && (p.Committed? && p.acked && p.w.Put? ==>
            o == was.(done := true, response := Some(Project(k, p.w.row))))
      && (p.Committed? && p.acked && p.w.Remove? ==> o == was.(done := true, response := Some(Empty)))
      && (p.Committed? && !p.acked ==> o == was.(done := true, error := Some(Status(13, ""))))
      && (p == Failed(Err.NotFound) ==> o == was.(done := true, error := Some(Status(5, ""))))
      && (p == Failed(AlreadyExists) ==> o == was.(done := true, error := Some(Status(6, ""))))
      && (p == Failed(Err.FailedPrecondition) ==> o == was.(done := true, error := Some(Status(9, ""))))
      && (p == Failed(Canceled) ==> o == was.(done := true, error := Some(Status(1, ""))))
      && (p == Failed(DeadlineExceeded) ==> o == was.(done := true, error := Some(Status(4, ""))))
      && (p == Failed(Err.Internal) ==> o == was.(done := true, error := Some(Status(13, ""))))
  {
  }

  // ---- Stored rows ----

  lemma StatementsAreValid(s: Sys)
    requires Bookkeeping(s)
    ensures OnlyValidStatements(s.db)
  {
    forall t | t in s.db.txs ensures ValidStmt(s.db.txs[t].stmt) { assert Accepted(s, t); }
  }

  ghost predicate DatedTx(tx: Tx, times: set<Time>) {
    && tx.now in times
    && (tx.progress.Wrote? || tx.progress.Emitted? || tx.progress.Committed? ==>
          tx.progress.w.Put? ==> tx.progress.w.row.createdAt in times)
  }

  /** Every time the database knows is one of the given times. */
  ghost predicate Dated(s: Db, times: set<Time>) {
    && (forall t | t in s.txs :: DatedTx(s.txs[t], times))
    && (forall k | k in s.table :: s.table[k].createdAt in times)
  }

  lemma StepKeepsDated(s: Db, step: Step, times: set<Time>)
    requires Enabled(s, step) && Typed(s.table) && Dated(s, times) && (step.Begin? ==> step.now in times)
    ensures Dated(Take(s, step), times)
  {
    StepFrame(s, step);
    var s' := Take(s, step);
    if step.t in s.txs { assert DatedTx(s.txs[step.t], times); }
    assert DatedTx(s'.txs[step.t], times);
    forall t | t in s'.txs ensures DatedTx(s'.txs[t], times) {
      if t != step.t { assert s'.txs[t] == s.txs[t]; }
    }
  }

  ghost function StartTimes(actions: seq<Action>): set<Time> { set a | a in actions && a.Start? :: a.now }

  lemma {:induction false} RunKeepsDated(s: Sys, actions: seq<Action>, times: set<Time>)
    requires SysInv(s) && Acts(s, actions) && Dated(s.db, times)
    requires forall a | a in actions && a.Start? :: a.now in times
    ensures Dated(Ends(s, actions).db, times)
    decreases |actions|
  {
    if actions == [] {
    } else {
      assert actions[0] in actions && forall a | a in actions[1..] :: a in actions;
      ActDb(s, actions[0]);
      if DbStep(s, actions[0]).Some? {
        ReachableInv(s.db);
        StepKeepsDated(s.db, DbStep(s, actions[0]).value, times);
      }
      StepKeepsBookkeeping(s, actions[0]);
      StepKeepsTerminals(s, actions[0]);
      RunKeepsDated(Act(s, actions[0]), actions[1..], times);
    }
  }

  /** Every stored created_at is the time at which some worker of the run started. */
  lemma CreatedAtIsAStart(actions: seq<Action>, k: Key)
    requires Acts(BOOT, actions) && k in Ends(BOOT, actions).db.table
    ensures exists op :: Action.Start(op, Ends(BOOT, actions).db.table[k].createdAt) in actions
  {
    assert Acts(BOOT, []) && Ends(BOOT, []) == BOOT;
    ReachedInv(BOOT);
    RunKeepsDated(BOOT, actions, StartTimes(actions));
    var at := Ends(BOOT, actions).db.table[k].createdAt;
    assert at in StartTimes(actions);
    var a :| a in actions && a.Start? && a.now == at;
    assert a == Action.Start(a.op, at);
  }

  /** Every catalogue the service can reach holds only validated rows. */
  lemma CatalogueIsValid(s: Sys)
    requires Reached(s)
    ensures ValidTable(s.db.table)
    ensures forall k | k in s.db.table :: IsSlug(k.id) && |k.id| <= 63 && |s.db.table[k].name| <= 253
    ensures forall k | k in s.db.table && s.db.table[k].ZoneRow? ::
      && IsSlug(s.db.table[k].regionId) && |s.db.table[k].regionId| <= 63
      && (s.db.table[k].status == "UP" || s.db.table[k].status == "DOWN")
  {
    ReachedInv(s);
    StatementsAreValid(s);
    ReachableRowsAreValid(s.db);
  }

  /** The key stays in the table at every moment of the run. */
  ghost predicate Remains(s: Sys, actions: seq<Action>, k: Key)
    requires Acts(s, actions)
    decreases |actions|
  {
    k in s.db.table && (actions != [] ==> Remains(Act(s, actions[0]), actions[1..], k))
  }

  lemma RowDescends(s: Sys, a: Action, k: Key)
    requires Reached(s) && Can(s, a) && k in s.db.table && k in Act(s, a).db.table
    ensures Descends(s.db.table[k], Act(s, a).db.table[k])
  {
    ReachedInv(s);
    ReachableInv(s.db);
    CatalogueIsValid(s);
    ActDb(s, a);
    if DbStep(s, a).Some? {
      StatementsAreValid(s);
      StepKeepsRows(s.db, DbStep(s, a).value);
    }
  }

  /** As long as a resource is present, whatever the service does, its created_at is constant and a non-empty
      name never becomes empty. */
  lemma {:induction false} RowsDescendInService(s: Sys, actions: seq<Action>, k: Key)
    requires Reached(s) && Acts(s, actions) && Remains(s, actions, k)
    ensures k in Ends(s, actions).db.table && Descends(s.db.table[k], Ends(s, actions).db.table[k])
    decreases |actions|
  {
    if actions == [] {
    } else {
      ReachedStep(s, actions[0]);
      RowDescends(s, actions[0], k);
      RowsDescendInService(Act(s, actions[0]), actions[1..], k);
    }
  }

  // ---- The recovered response ----

  /** The projection shows everything of a valid row: two rows of one resource look alike on the wire exactly
      when they agree on all recorded columns and on the whole seconds of created_at. */
  lemma ProjectionFaithful(k: Key, a: Row, b: Row)
    requires ValidRow(k, a) && ValidRow(k, b) && (a.RegionRow? <==> b.RegionRow?)
    ensures Project(k, a) == Project(k, b) <==>
      ImageOf(a) == ImageOf(b) && Truncate(a.createdAt) == Truncate(b.createdAt)
  {
    assert "UP"[0] != "DOWN"[0];
  }

  /** If op's create or update committed and its row was not written since, recovery's response is the row the
      worker would have stored, field by field. */
  lemma RecoveryAgreesWithWorker(s: Sys, op: OpId)
    requires Reached(s) && op in s.ops && op in s.jobs && Done(s.db, op) && Latest(s.db, op) && !IsDrop(s.jobs[op])
    ensures s.db.txs[op].progress.w.Put?
    ensures ResolveNow(s, op) == Some(Resolved(Some(Project(KeyIn(s.db, op), s.db.txs[op].progress.w.row))))
    ensures s.db.txs[op].progress.acked ==> WorkerResult(s.db.txs[op]) == Ok(ResolveNow(s, op).value.response.value)
    ensures op in s.author && s.author[op] == ByWorker && s.ops[op].response.Some? ==>
      s.ops[op].response == ResolveNow(s, op).value.response
  {
    ReachedInv(s);
    assert Accepted(s, op) && OpSound(s, op);
    LatestIsStored(s.db, op);
    ReachableInv(s.db);
    var n := RowOf(s.db, op);
    CommittedWriteShape(s.db, op);
    WiredResolve(s.jobs[op], s.db.table);
  }

  /** A committed create or update put a row; a committed delete removed one. */
  lemma CommittedWriteShape(s: Db, t: TxId)
    requires Reachable(s) && Done(s, t)
    ensures s.txs[t].progress.w.Remove? <==> IsDrop(s.txs[t].stmt)
  {
    var steps :| Runs(INITIAL, steps) && After(INITIAL, steps) == s;
    InitialInv();
    WriteShapeRun(INITIAL, steps, t);
  }

  predicate ShapeSound(s: Db, t: TxId) {
    Done(s, t) ==> (s.txs[t].progress.w.Remove? <==> IsDrop(s.txs[t].stmt))
  }

  lemma WriteShapeStep(s: Db, step: Step, t: TxId)
    requires Inv(s) && Enabled(s, step) && ShapeSound(s, t)
    ensures ShapeSound(Take(s, step), t)
  {
    StepFrame(s, step);
    if step.Commit? && step.t == t { CommitShape(s, step); }
  }

  lemma CommitShape(s: Db, step: Step)
    requires Inv(s) && Enabled(s, step) && step.Commit?
    ensures ShapeSound(Take(s, step), step.t)
  {
    assert HolderSound(s, step.t);
  }

  lemma {:induction false} WriteShapeRun(s: Db, steps: seq<Step>, t: TxId)
    requires Inv(s) && Runs(s, steps)
    requires ShapeSound(s, t)
    ensures ShapeSound(After(s, steps), t)
    decreases |steps|
  {
    if steps == [] {
    } else {
      StepKeepsInv(s, steps[0]);
      WriteShapeStep(s, steps[0], t);
      WriteShapeRun(Take(s, steps[0]), steps[1..], t);
    }
  }
}
