/** Runs of the protocol that show what a client might expect and must not. */
module Witnesses {
  import opened Wrappers
  import opened Slugs
  import opened Domain
  import opened Database
  import opened Consistency
  import opened OperationStore
  import opened Resolver
  import opened Repositories
  import opened Lro
  import opened Sweeps

  const THE_ID: Id := ['a']

  lemma TheIdIsValid()
    ensures ValidID(THE_ID)
  {
    ValidIDIsSlug(THE_ID);
  }

  /** A create whose worker has begun its transaction. */
  lemma CreateUpToBegin(op: OpId, who: Principal, name: string) returns (s: Sys)
    requires ValidName(name)
    ensures Reached(s) && s.ops == map[op := NewOperation(op, who, InsertRegion(THE_ID, name))]
    ensures op in s.db.txs && s.db == INITIAL.(txs := map[op := s.db.txs[op]])
    ensures s.db.txs[op].stmt == InsertRegion(THE_ID, name) && s.db.txs[op].now == 0 && s.db.txs[op].progress.Begun?
    ensures HasWorker(s, op, Running)
  {
    TheIdIsValid();
    assert Acts(BOOT, []) && Ends(BOOT, []) == BOOT;
    var submit := Submit(op, who, CreateRegion(THE_ID, name), true);
    ReachedStep(BOOT, submit);
    var s1 := Act(BOOT, submit);
    ReachedStep(s1, Action.Start(op, 0));
    s := Act(s1, Action.Start(op, 0));
  }

  /** A create that is about to commit. */
  lemma CreateUpToEmit(op: OpId, who: Principal, name: string) returns (s: Sys)
    requires ValidName(name)
    ensures Reached(s) && s.ops.Keys == {op} && IsOpen(s, op) && OwnerMatches(s.ops[op], who)
    ensures op in s.db.txs && s.db.txs.Keys == {op} && s.db.txs[op].stmt == InsertRegion(THE_ID, name)
    ensures s.db.txs[op].progress.Emitted? && s.db.txs[op].progress.w == Put(RegionRow(name, 0))
    ensures HasWorker(s, op, Running) && s.db.table == map[]
  {
    var s2 := CreateUpToBegin(op, who, name);
    assert !Waits(s2.db, s2.db.txs[op].stmt);
    ReachedStep(s2, Action.Database(Execute(op)));
    var s3 := Act(s2, Action.Database(Execute(op)));
    ReachedStep(s3, Action.Database(Emit(op)));
    s := Act(s3, Action.Database(Emit(op)));
  }

  /** Cancel only marks the operation: a cancelled create can still commit its row. */
  lemma CancelledMayCommit(op: OpId, who: Principal) returns (s: Sys)
    ensures Reached(s) && op in s.ops && s.ops[op].error == Some(CANCELLED) && Done(s.db, op)
    ensures RegionKey(THE_ID) in s.db.table
  {
    var s0 := CreateUpToEmit(op, who, "");
    ReachedStep(s0, CancelOp(op, who));
    var s1 := Act(s0, CancelOp(op, who));
    ReachedStep(s1, Action.Database(Commit(op, true)));
    s := Act(s1, Action.Database(Commit(op, true)));
  }

  /** A committed region, and an update of it whose worker died before it began. */
  lemma OrphanedUpdate(create: OpId, update: OpId, who: Principal) returns (s: Sys)
    requires create != update
    ensures Reached(s) && IsOpen(s, update) && update in s.jobs && update !in s.db.txs
    ensures s.jobs[update] == PatchRegion(THE_ID, Some("new"))
    ensures s.db.table == map[RegionKey(THE_ID) := RegionRow("old", 0)]
  {
    TheIdIsValid();
    var s0 := CreateUpToEmit(create, who, "old");
    var commit := Action.Database(Commit(create, true));
    ReachedStep(s0, commit);
    var s1 := Act(s0, commit);
    assert s1.ops == s0.ops && s1.db.txs.Keys == s0.db.txs.Keys;
    var submit := Submit(update, who, UpdateRegion(THE_ID, "new"), true);
    ReachedStep(s1, submit);
    var s2 := Act(s1, submit);
    ReachedStep(s2, Crash);
    s := Act(s2, Crash);
  }

  /** A worker whose commit lost its acknowledgement reports an error although its row is there. */
  lemma LostAcknowledgement(op: OpId, who: Principal) returns (s: Sys)
    ensures Reached(s) && op in s.ops && op in s.author && s.author[op] == ByWorker
    ensures s.ops[op].error.Some? && Done(s.db, op) && RegionKey(THE_ID) in s.db.table
  {
    var s0 := CreateUpToEmit(op, who, "");
    var commit := Action.Database(Commit(op, false));
    ReachedStep(s0, commit);
    var s1 := Act(s0, commit);
    ReachedStep(s1, Report(op));
    s := Act(s1, Report(op));
  }

  /** A create whose worker died with its commit under way, and which the reconciler has looked at. */
  lemma LookedTooEarly(op: OpId, who: Principal) returns (s: Sys)
    ensures Reached(s) && IsOpen(s, op) && HasWorker(s, op, Dead) && op in s.verdicts && s.verdicts[op] == Interrupted
    ensures op in s.db.txs && s.db.txs.Keys == {op} && s.db.txs[op].stmt == InsertRegion(THE_ID, "")
    ensures s.db.txs[op].progress.Emitted? && s.db.txs[op].progress.w == Put(RegionRow("", 0))
  {
    var s0 := CreateUpToEmit(op, who, "");
    ReachedStep(s0, Crash);
    var s1 := Act(s0, Crash);
    ReachedInv(s1);
    LookOne(s1, op);
    assert Accepted(s1, op);
    WiredResolve(s1.jobs[op], s1.db.table);
    ReachedStep(s1, Look(op, true));
    s := Act(s1, Look(op, true));
  }

  /** A sweep that looks while a dead worker's commit is still under way can store the wrong outcome: the create
      of an id nobody else touched is reported as interrupted, and its row is there. */
  lemma LateCommitAfterVerdict(op: OpId, who: Principal, status: Status) returns (s: Sys)
    ensures Reached(s) && op in s.ops && op in s.author && s.author[op] == BySweeper && HasWorker(s, op, Dead)
    ensures s.ops[op].error == Some(status) && Done(s.db, op)
    ensures s.db.txs.Keys == {op} && RegionKey(THE_ID) in s.db.table
  {
    var s0 := LookedTooEarly(op, who);
    var commit := Action.Database(Commit(op, true));
    ReachedStep(s0, commit);
    var s1 := Act(s0, commit);
    ReachedStep(s1, Settle(op, status));
    s := Act(s1, Settle(op, status));
  }

  /** An orphaned update can be finished as a success although it never ran: the worker died before it began,
      the reconciler found the region present, and the client is handed the old row. */
  lemma LostUpdateReportedDone(create: OpId, update: OpId, who: Principal, status: Status) returns (s: Sys)
    requires create != update
    ensures Reached(s) && update in s.ops && update in s.jobs
    ensures s.jobs[update] == PatchRegion(THE_ID, Some("new")) && update !in s.db.txs
    ensures s.ops[update].done && s.ops[update].error == None
    ensures s.ops[update].response == Some(RegionResponse(THE_ID, "old", 0))
  {
    var s0 := OrphanedUpdate(create, update, who);
    ReachedInv(s0);
    LookOne(s0, update);
    ReachedStep(s0, Look(update, true));
    var s1 := Act(s0, Look(update, true));
    assert Accepted(s0, update) && OpSound(s0, update);
    WiredResolve(s0.jobs[update], s0.db.table);
    assert Truncate(0) == 0;
    ReachedStep(s1, Settle(update, status));
    s := Act(s1, Settle(update, status));
  }
}
