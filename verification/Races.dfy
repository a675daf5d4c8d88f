/** Outcomes of contested mutations, under every interleaving. */
module Races {
  import opened Wrappers
  import opened Domain
  import opened Database
  import opened Consistency

  // ---- A zone insert against the delete of its region ----

  predicate KeepsOff(st: Stmt, zone: Id, region: Id) {
    && KeyOf(st) != ZoneKey(zone) && (KeyOf(st) != RegionKey(region) || st.PatchRegion?)
    && (st.InsertZone? ==> st.regionId != region)
    && (st.PatchZone? ==> st.params.regionId != Some(region))
  }

  /** Two transactions, one inserting a zone into a region and one deleting that region; whatever else is open
      renames the region at most, leaves the zone alone and points no other zone at the region. */
  ghost predicate Contest(s: Db, ins: TxId, del: TxId, zone: Id, region: Id) {
    && ins != del && ins in s.txs && del in s.txs
    && s.txs[ins].stmt.InsertZone? && s.txs[ins].stmt.id == zone && s.txs[ins].stmt.regionId == region
    && s.txs[del].stmt == DropRegion(region)
    && forall u | u in s.txs && u != ins && u != del && !Finished(s, u) :: KeepsOff(s.txs[u].stmt, zone, region)
  }

  predicate Lost(s: Db, t: TxId) { t in s.txs && s.txs[t].progress == Failed(FailedPrecondition) }

  predicate Pending(s: Db, t: TxId) { t in s.txs && !Finished(s, t) }

  /** The region is there, it has no zones, and neither transaction has finished. */
  ghost predicate Undecided(s: Db, ins: TxId, del: TxId, zone: Id, region: Id) {
    && Pending(s, ins) && Pending(s, del)
    && RegionKey(region) in s.table && ZoneKey(zone) !in s.table && !Referenced(s.table, region)
  }

  ghost predicate InsertWon(s: Db, ins: TxId, del: TxId, zone: Id, region: Id) {
    && Done(s, ins) && (Pending(s, del) || Lost(s, del))
    && RegionKey(region) in s.table
    && ZoneKey(zone) in s.table && ParentOf(s.table[ZoneKey(zone)]) == Some(region)
  }

  ghost predicate DeleteWon(s: Db, ins: TxId, del: TxId, zone: Id, region: Id) {
    && Done(s, del) && (Pending(s, ins) || Lost(s, ins))
    && RegionKey(region) !in s.table && ZoneKey(zone) !in s.table && !Referenced(s.table, region)
  }

  ghost predicate RaceState(s: Db, ins: TxId, del: TxId, zone: Id, region: Id) {
    Undecided(s, ins, del, zone, region) || InsertWon(s, ins, del, zone, region) || DeleteWon(s, ins, del, zone, region)
  }

  /** No transient failure of the two; newcomers keep off their rows. */
  predicate FairStep(step: Step, ins: TxId, del: TxId, zone: Id, region: Id) {
    && (step.Begin? ==> KeepsOff(step.stmt, zone, region))
    && (step.Abort? ==> step.t != ins && step.t != del)
  }

  /** A bystander cannot make a zone point at the region unless one did already. */
  lemma BystanderTarget(s: Db, u: TxId, zone: Id, region: Id)
    requires Inv(s) && Holds(s, u) && KeepsOff(s.txs[u].stmt, zone, region)
    ensures Target(s, u) == Some(region) ==> Referenced(s.table, region)
  {
    assert HolderSound(s, u);
    var st := s.txs[u].stmt;
    if Target(s, u) == Some(region) {
      assert KeyOf(st) in s.table && ParentOf(s.table[KeyOf(st)]) == Some(region);
    }
  }

  lemma BystanderReferences(s: Db, u: TxId, acked: bool, zone: Id, region: Id)
    requires Inv(s) && Enabled(s, Commit(u, acked)) && KeepsOff(s.txs[u].stmt, zone, region)
    ensures Referenced(Take(s, Commit(u, acked)).table, region) ==> Referenced(s.table, region)
  {
    var s' := Take(s, Commit(u, acked));
    BystanderTarget(s, u, zone, region);
    if Referenced(s'.table, region) {
      var k :| k in s'.table && ParentOf(s'.table[k]) == Some(region);
      if k != KeyIn(s, u) { assert k in s.table && ParentOf(s.table[k]) == Some(region); }
    }
  }

  lemma BystanderPresence(s: Db, u: TxId, acked: bool, zone: Id, region: Id)
    requires Inv(s) && Enabled(s, Commit(u, acked)) && KeepsOff(s.txs[u].stmt, zone, region)
    ensures var s' := Take(s, Commit(u, acked));
      && (RegionKey(region) in s'.table <==> RegionKey(region) in s.table)
      && (ZoneKey(zone) in s'.table <==> ZoneKey(zone) in s.table)
      && (ZoneKey(zone) in s.table ==> s'.table[ZoneKey(zone)] == s.table[ZoneKey(zone)])
  {
    assert HolderSound(s, u);
  }

  lemma BystanderCommit(s: Db, u: TxId, acked: bool, ins: TxId, del: TxId, zone: Id, region: Id)
    requires Inv(s) && Contest(s, ins, del, zone, region) && RaceState(s, ins, del, zone, region)
    requires Enabled(s, Commit(u, acked)) && u != ins && u != del
    ensures RaceState(Take(s, Commit(u, acked)), ins, del, zone, region)
  {
    assert KeepsOff(s.txs[u].stmt, zone, region);
    BystanderReferences(s, u, acked, zone, region);
    BystanderPresence(s, u, acked, zone, region);
  }

  lemma ContestantCommit(s: Db, acked: bool, t: TxId, ins: TxId, del: TxId, zone: Id, region: Id)
    requires Inv(s) && Contest(s, ins, del, zone, region) && RaceState(s, ins, del, zone, region)
    requires Enabled(s, Commit(t, acked)) && (t == ins || t == del)
    ensures RaceState(Take(s, Commit(t, acked)), ins, del, zone, region)
  {
    var s' := Take(s, Commit(t, acked));
    assert HolderSound(s, t);
    if t == ins {
      assert Target(s, ins) == Some(region);
      assert InsertWon(s', ins, del, zone, region);
    } else {
      assert DeleteWon(s', ins, del, zone, region) by {
        assert !Referenced(s.table, region);
        assert forall k | k in s'.table :: k in s.table && s'.table[k] == s.table[k];
      }
    }
  }

  lemma InsertExecutes(s: Db, ins: TxId, del: TxId, zone: Id, region: Id)
    requires Inv(s) && Contest(s, ins, del, zone, region) && RaceState(s, ins, del, zone, region)
    requires Enabled(s, Execute(ins))
    ensures RaceState(Take(s, Execute(ins)), ins, del, zone, region)
  {
    if Undecided(s, ins, del, zone, region) {
      assert Perform(s.table, s.txs[ins].stmt, s.txs[ins].now).Ok?;
    }
  }

  lemma DeleteExecutes(s: Db, ins: TxId, del: TxId, zone: Id, region: Id)
    requires Inv(s) && Contest(s, ins, del, zone, region) && RaceState(s, ins, del, zone, region)
    requires Enabled(s, Execute(del))
    ensures RaceState(Take(s, Execute(del)), ins, del, zone, region)
  {
    if Undecided(s, ins, del, zone, region) {
      assert Perform(s.table, s.txs[del].stmt, s.txs[del].now).Ok?;
    }
  }

  lemma ContestantExecute(s: Db, t: TxId, ins: TxId, del: TxId, zone: Id, region: Id)
    requires Inv(s) && Contest(s, ins, del, zone, region) && RaceState(s, ins, del, zone, region)
    requires Enabled(s, Execute(t)) && (t == ins || t == del)
    ensures RaceState(Take(s, Execute(t)), ins, del, zone, region)
  {
    if t == ins { InsertExecutes(s, ins, del, zone, region); } else { DeleteExecutes(s, ins, del, zone, region); }
  }

  lemma ContestStep(s: Db, step: Step, ins: TxId, del: TxId, zone: Id, region: Id)
    requires Contest(s, ins, del, zone, region)
    requires Enabled(s, step) && FairStep(step, ins, del, zone, region)
    ensures Contest(Take(s, step), ins, del, zone, region)
  {
    StepFrame(s, step);
  }

  lemma QuietRace(s: Db, s': Db, ins: TxId, del: TxId, zone: Id, region: Id)
    requires RaceState(s, ins, del, zone, region) && s'.table == s.table
    requires ins in s'.txs && del in s'.txs && ins in s.txs && del in s.txs
    requires s'.txs[ins] == s.txs[ins] || (Pending(s, ins) && Pending(s', ins))
    requires s'.txs[del] == s.txs[del] || (Pending(s, del) && Pending(s', del))
    ensures RaceState(s', ins, del, zone, region)
  {
  }

  lemma RaceStep(s: Db, step: Step, ins: TxId, del: TxId, zone: Id, region: Id)
    requires Inv(s) && Contest(s, ins, del, zone, region) && RaceState(s, ins, del, zone, region)
    requires Enabled(s, step) && FairStep(step, ins, del, zone, region)
    ensures RaceState(Take(s, step), ins, del, zone, region)
  {
    StepFrame(s, step);
    match step
    case Commit(t, acked) =>
      if t == ins || t == del { ContestantCommit(s, acked, t, ins, del, zone, region); }
      else { BystanderCommit(s, t, acked, ins, del, zone, region); }
    case Execute(t) =>
      if t == ins || t == del { ContestantExecute(s, t, ins, del, zone, region); }
      else { QuietRace(s, Take(s, step), ins, del, zone, region); }
    case _ => QuietRace(s, Take(s, step), ins, del, zone, region);
  }

  lemma {:induction false} RaceRun(s: Db, steps: seq<Step>, ins: TxId, del: TxId, zone: Id, region: Id)
    requires Inv(s) && Contest(s, ins, del, zone, region) && RaceState(s, ins, del, zone, region)
    requires Runs(s, steps) && forall i | 0 <= i < |steps| :: FairStep(steps[i], ins, del, zone, region)
    ensures RaceState(After(s, steps), ins, del, zone, region)
    decreases |steps|
  {
    if steps == [] {
    } else {
      StepKeepsInv(s, steps[0]);
      ContestStep(s, steps[0], ins, del, zone, region);
      RaceStep(s, steps[0], ins, del, zone, region);
      RaceRun(Take(s, steps[0]), steps[1..], ins, del, zone, region);
    }
  }

  /** Inserting a zone into a region without zones, against deleting that region: when both have
      finished, exactly one committed, the other failed its precondition, and no zone is orphaned. */
  lemma InsertVersusDelete(s: Db, steps: seq<Step>, ins: TxId, del: TxId, zone: Id, region: Id)
    requires Reachable(s) && Contest(s, ins, del, zone, region) && Undecided(s, ins, del, zone, region)
    requires Runs(s, steps) && forall i | 0 <= i < |steps| :: FairStep(steps[i], ins, del, zone, region)
    requires Finished(After(s, steps), ins) && Finished(After(s, steps), del)
    ensures var e := After(s, steps);
      && (Done(e, ins) <==> !Done(e, del))
      && (Done(e, ins) ==> Lost(e, del) && ZoneKey(zone) in e.table && RegionKey(region) in e.table)
      && (Done(e, del) ==> Lost(e, ins) && RegionKey(region) !in e.table && !Referenced(e.table, region))
  {
    ReachableInv(s);
    RaceRun(s, steps, ins, del, zone, region);
  }

  // ---- Any number of concurrent creates of one id ----

  predicate Creates(s: Db, t: TxId, k: Key) {
    t in s.txs && KeyIn(s, t) == k && EventOf(s.txs[t].stmt) == CREATED
  }

  /** No delete of the resource has taken effect. */
  ghost predicate NeverDropped(s: Db, k: Key) {
    forall t | Done(s, t) && KeyIn(s, t) == k :: EventOf(s.txs[t].stmt) != DELETED
  }

  predicate Refused(s: Db, t: TxId) { t in s.txs && s.txs[t].progress == Failed(AlreadyExists) }

  predicate Winner(s: Db, t: TxId, k: Key) { Done(s, t) && Creates(s, t, k) }

  predicate Loser(s: Db, t: TxId, k: Key) { Refused(s, t) && Creates(s, t, k) }

  ghost predicate SingleWinner(s: Db, k: Key) {
    && (k in s.table <==> exists t :: Winner(s, t, k))
    && (forall t, u | Winner(s, t, k) && Winner(s, u, k) :: t == u)
    && (forall t | Loser(s, t, k) :: k in s.table)
  }

  lemma NeverDroppedBefore(s: Db, step: Step, k: Key)
    requires Enabled(s, step) && NeverDropped(Take(s, step), k)
    ensures NeverDropped(s, k)
  {
    StepFrame(s, step);
    forall t | Done(s, t) && KeyIn(s, t) == k ensures EventOf(s.txs[t].stmt) != DELETED {
      assert Done(Take(s, step), t) && KeyIn(Take(s, step), t) == k;
    }
  }

  lemma CommitPresence(s: Db, t: TxId, acked: bool, k: Key)
    requires Inv(s) && Enabled(s, Commit(t, acked))
    ensures var s', event := Take(s, Commit(t, acked)), EventOf(s.txs[t].stmt);
      && (KeyIn(s, t) != k ==> (k in s'.table <==> k in s.table))
      && (KeyIn(s, t) == k ==> (k in s'.table <==> event != DELETED) && (k in s.table <==> event != CREATED))
  {
    assert HolderSound(s, t);
  }

  /** Winners and losers after a step that is not the winning commit. */
  lemma SameContestants(s: Db, s': Db, k: Key)
    requires SingleWinner(s, k) && (k in s'.table <==> k in s.table)
    requires forall u :: Winner(s', u, k) <==> Winner(s, u, k)
    requires forall u | Loser(s', u, k) :: Loser(s, u, k) || k in s.table
    ensures SingleWinner(s', k)
  {
    if k in s.table {
      var t :| Winner(s, t, k);
      assert Winner(s', t, k);
    }
  }

  lemma WinningCommit(s: Db, s': Db, t: TxId, k: Key)
    requires SingleWinner(s, k) && k !in s.table && k in s'.table && Winner(s', t, k)
    requires forall u | Winner(s', u, k) :: Winner(s, u, k) || u == t
    ensures SingleWinner(s', k)
  {
    assert forall u :: !Winner(s, u, k);
  }

  lemma CreateCommit(s: Db, t: TxId, acked: bool, k: Key)
    requires Inv(s) && Enabled(s, Commit(t, acked)) && SingleWinner(s, k)
    requires NeverDropped(Take(s, Commit(t, acked)), k)
    ensures SingleWinner(Take(s, Commit(t, acked)), k)
  {
    var s' := Take(s, Commit(t, acked));
    StepFrame(s, Commit(t, acked));
    assert Done(s', t);
    CommitPresence(s, t, acked, k);
    assert forall u | u != t :: Winner(s', u, k) <==> Winner(s, u, k);
    assert forall u | Loser(s', u, k) :: Loser(s, u, k);
    if Creates(s, t, k) {
      WinningCommit(s, s', t, k);
    } else {
      SameContestants(s, s', k);
    }
  }

  lemma CreateQuiet(s: Db, step: Step, k: Key)
    requires Inv(s) && Enabled(s, step) && !step.Commit? && SingleWinner(s, k)
    ensures SingleWinner(Take(s, step), k)
  {
    var s' := Take(s, step);
    StepFrame(s, step);
    assert forall u :: Winner(s', u, k) <==> Winner(s, u, k);
    forall u | Loser(s', u, k) ensures Loser(s, u, k) || k in s.table { NewLoser(s, step, u, k); }
    SameContestants(s, s', k);
  }

  /** A create is refused only where the row already exists. */
  lemma NewLoser(s: Db, step: Step, u: TxId, k: Key)
    requires Enabled(s, step) && !step.Commit? && Loser(Take(s, step), u, k)
    ensures Loser(s, u, k) || k in s.table
  {
    StepFrame(s, step);
  }

  lemma CreateStep(s: Db, step: Step, k: Key)
    requires Inv(s) && Enabled(s, step)
    requires NeverDropped(s, k) ==> SingleWinner(s, k)
    ensures NeverDropped(Take(s, step), k) ==> SingleWinner(Take(s, step), k)
  {
    if NeverDropped(Take(s, step), k) {
      NeverDroppedBefore(s, step, k);
      if step.Commit? { CreateCommit(s, step.t, step.acked, k); } else { CreateQuiet(s, step, k); }
    }
  }

  lemma {:induction false} CreateRun(s: Db, steps: seq<Step>, k: Key)
    requires Inv(s) && Runs(s, steps)
    requires NeverDropped(s, k) ==> SingleWinner(s, k)
    ensures NeverDropped(After(s, steps), k) ==> SingleWinner(After(s, steps), k)
    decreases |steps|
  {
    if steps == [] {
    } else {
      StepKeepsInv(s, steps[0]);
      CreateStep(s, steps[0], k);
      CreateRun(Take(s, steps[0]), steps[1..], k);
    }
  }

  /** However many transactions tried to create one id of which no delete took effect: if they have
      all finished and none failed other than by already-exists, exactly one of them committed and every other
      one was refused, whatever updates and failing deletes ran in between. */
  lemma OneCreateWins(s: Db, k: Key) returns (winner: TxId)
    requires Reachable(s) && NeverDropped(s, k)
    requires exists t :: Creates(s, t, k)
    requires forall t | Creates(s, t, k) :: Done(s, t) || Refused(s, t)
    ensures Creates(s, winner, k) && Done(s, winner) && k in s.table
    ensures forall t | Creates(s, t, k) && t != winner :: Refused(s, t)
  {
    var steps :| Runs(INITIAL, steps) && After(INITIAL, steps) == s;
    InitialInv();
    CreateRun(INITIAL, steps, k);
    var t :| Creates(s, t, k);
    assert Winner(s, t, k) || Loser(s, t, k);
    winner :| Winner(s, winner, k);
    assert forall u | Creates(s, u, k) && u != winner :: !Winner(s, u, k);
  }
}
