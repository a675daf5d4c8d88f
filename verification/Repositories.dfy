/** The pgx repositories: each mutation is one transaction run step by step against a database on
    which other sessions keep working. */
module Repositories {
  import opened Wrappers
  import opened Domain
  import opened Database
  import opened Consistency

  const ACTOR_UNKNOWN := "unknown"

  /** The audit actor; a lost attribution is recorded as a visible marker. */
  function ActorOf(p: Principal): string {
    if p.id == "" then ACTOR_UNKNOWN else p.kind + ":" + p.id
  }

  lemma ColonAt(p: Principal)
    requires p.id != ""
    ensures |ActorOf(p)| == |p.kind| + 1 + |p.id| && ActorOf(p)[|p.kind|] == ':'
    ensures ActorOf(p)[..|p.kind|] == p.kind && ActorOf(p)[|p.kind| + 1..] == p.id
  {
  }

  /** The marker is recorded exactly when the id is lost: it looks like no real actor. */
  lemma LostAttributionShows(p: Principal)
    ensures ActorOf(p) == if p.id == "" then "unknown" else p.kind + ":" + p.id
    ensures ActorOf(p) == "unknown" <==> p.id == ""
  {
    if p.id != "" {
      ColonAt(p);
      assert ':' !in ACTOR_UNKNOWN;
    }
  }

  /** No other place of the actor but the separator can be read as the separator. */
  predicate Unambiguous(p: Principal) {
    ':' !in p.kind && forall i | 0 <= i < |p.id| - 1 :: p.id[i] != ':'
  }

  lemma OnlyReading(p: Principal, q: Principal)
    requires p.id != "" && q.id != "" && Unambiguous(p) && ActorOf(p) == ActorOf(q)
    ensures p == q
  {
    var actor := ActorOf(p);
    ColonAt(p);
    ColonAt(q);
    assert forall i | 0 <= i < |p.kind| :: actor[i] == p.kind[i];
    assert forall i | 0 <= i < |p.id| :: actor[|p.kind| + 1 + i] == p.id[i];
    assert |q.kind| == |p.kind|;
  }

  lemma OtherReading(p: Principal) returns (q: Principal)
    requires p.id != "" && !Unambiguous(p)
    ensures q.id != "" && ActorOf(q) == ActorOf(p) && q != p
  {
    if ':' in p.kind {
      var i :| 0 <= i < |p.kind| && p.kind[i] == ':';
      q := Principal(p.kind[..i], p.kind[i + 1..] + ":" + p.id);
      assert p.kind == p.kind[..i] + ":" + p.kind[i + 1..];
    } else {
      var i :| 0 <= i < |p.id| - 1 && p.id[i] == ':';
      q := Principal(p.kind + ":" + p.id[..i], p.id[i + 1..]);
      assert p.id == p.id[..i] + ":" + p.id[i + 1..];
    }
  }

  /** An actor names its principal and no other if and only if neither the principal's type nor its id, but for
      the last character, contains a colon. */
  lemma ActorIdentifiesIff(p: Principal)
    requires p.id != ""
    ensures (forall q: Principal :: q.id != "" && ActorOf(q) == ActorOf(p) ==> q == p) <==> Unambiguous(p)
  {
    if Unambiguous(p) {
      forall q: Principal | q.id != "" && ActorOf(q) == ActorOf(p) ensures q == p { OnlyReading(p, q); }
    } else {
      var q := OtherReading(p);
    }
  }

  /** What may go wrong on the way, chosen by the environment. A commit whose acknowledgement is lost
      has happened, but the caller is told it failed. */
  datatype Weather = Weather(
    begin: Option<Err>, statement: Option<Err>, emit: Option<Err>, commit: Option<Err>, ackLost: bool)

  const CALM := Weather(None, None, None, None, false)

  /** A cancelled or late caller is told so; any other fault is internal. */
  function Cause(fault: Option<Err>): (e: Err)
    ensures e == Canceled <==> fault == Some(Canceled)
    ensures e == DeadlineExceeded <==> fault == Some(DeadlineExceeded)
    ensures e == Canceled || e == DeadlineExceeded || e == Internal
  {
    if fault.Some? && Transient(fault.value) then fault.value else Internal
  }

  /** The tables looked like this at some moment of the history, no earlier than `from` steps in. */
  ghost predicate Observed(history: seq<Step>, from: nat, table: Table) {
    exists i | from <= i <= |history| ::
      Runs(INITIAL, history[..i]) && After(INITIAL, history[..i]).table == table
  }

  lemma ObservedLater(a: seq<Step>, b: seq<Step>, from: nat, table: Table)
    requires a <= b && Observed(a, from, table)
    ensures Observed(b, from, table)
  {
    var i :| from <= i <= |a| && Runs(INITIAL, a[..i]) && After(INITIAL, a[..i]).table == table;
    assert b[..i] == a[..i];
  }

  /** At some moment of the history, no earlier than `from` steps in, another transaction's lock was in the way. */
  ghost predicate Blocked(history: seq<Step>, from: nat, stmt: Stmt) {
    exists i | from <= i <= |history| ::
      Runs(INITIAL, history[..i]) && Waits(After(INITIAL, history[..i]), stmt)
  }

  lemma BlockedLater(a: seq<Step>, b: seq<Step>, from: nat, stmt: Stmt)
    requires a <= b && Blocked(a, from, stmt)
    ensures Blocked(b, from, stmt)
  {
    var i :| from <= i <= |a| && Runs(INITIAL, a[..i]) && Waits(After(INITIAL, a[..i]), stmt);
    assert b[..i] == a[..i];
  }

  /** The locks that can be in a statement's way: of a transaction between its statement and its end, on the same
      row; on a region it names, which that one deletes; on the region it deletes, which that one put a zone into;
      on a zone in the region it deletes, which that one deletes. */
  predicate Conflicts(s: Db, u: TxId, st: Stmt) {
    && u in s.txs && (s.txs[u].progress.Wrote? || s.txs[u].progress.Emitted?)
    && var other := s.txs[u];
      || KeyOf(other.stmt) == KeyOf(st)
      || (st.InsertZone? && other.stmt == DropRegion(st.regionId))
      || (st.PatchZone? && st.params.regionId.Some? && other.stmt == DropRegion(st.params.regionId.value))
      || (st.DropRegion? && other.progress.share == Some(st.id))
      || (st.DropRegion? && other.stmt.DropZone? && ZoneKey(other.stmt.id) in s.table
          && ParentOf(s.table[ZoneKey(other.stmt.id)]) == Some(st.id))
  }

  lemma WaitsForAConflict(s: Db, st: Stmt) returns (u: TxId)
    requires Waits(s, st)
    ensures Conflicts(s, u, st)
  {
    if (EventOf(st) == CREATED || KeyOf(st) in s.table) && RowHeld(s, KeyOf(st)) {
      u :| u in s.txs && Holds(s, u) && KeyOf(s.txs[u].stmt) == KeyOf(st);
    } else if SharedRegion(s.table, st).Some? && Dropping(s, SharedRegion(s.table, st).value) {
      u :| u in s.txs && Holds(s, u) && s.txs[u].stmt == DropRegion(SharedRegion(s.table, st).value);
    } else if SharedBySome(s, st.id) {
      u :| u in s.txs && Holds(s, u) && s.txs[u].progress.share == Some(st.id);
    } else {
      var k :| k in s.table && ParentOf(s.table[k]) == Some(st.id);
      assert ZoneLeaving(s, k);
      u :| u in s.txs && Holds(s, u) && s.txs[u].stmt.DropZone? && KeyOf(s.txs[u].stmt) == k;
    }
  }

  /** Only another transaction's lock blocks: without a conflict at any moment of the call, none was in the way. */
  lemma BlockedByAConflict(history: seq<Step>, from: nat, st: Stmt) returns (i: nat, u: TxId)
    requires Blocked(history, from, st)
    ensures from <= i <= |history| && Runs(INITIAL, history[..i]) && Conflicts(After(INITIAL, history[..i]), u, st)
  {
    i :| from <= i <= |history| && Runs(INITIAL, history[..i]) && Waits(After(INITIAL, history[..i]), st);
    u := WaitsForAConflict(After(INITIAL, history[..i]), st);
  }

  /** The only reasons for a failure, in the order they strike: a fault before the statement ran, a lock in the
      way, what the statement deserved on tables it really saw, a fault after it. */
  ghost predicate Explained(
      e: Err, w: Weather, history: seq<Step>, from: nat, seen: Table, stmt: Stmt, now: Time)
  {
    if w.begin.Some? then e == Cause(w.begin)
    else if w.statement.Some? then e == Cause(w.statement)
    else
      || (e == Internal && Blocked(history, from, stmt))
      || (Observed(history, from, seen) &&
          match Perform(seen, stmt, now)
          case Err(why) => e == why
          case Ok(_) => LateFault(e, w))
  }

  predicate LateFault(e: Err, w: Weather) {
    if w.emit.Some? then e == Cause(w.emit)
    else if w.commit.Some? then e == Cause(w.commit)
    else w.ackLost && e == Internal
  }

  class Postgres {
    var db: Db
    /** Every step any session has taken since the schema was created. */
    ghost var history: seq<Step>

    ghost predicate Valid()
      reads this
    {
      Runs(INITIAL, history) && After(INITIAL, history) == db
    }

    constructor ()
      ensures Valid() && db == INITIAL && history == []
    {
      db, history := INITIAL, [];
    }

    method Do(step: Step)
      requires Valid() && Enabled(db, step)
      modifies this
      ensures Valid() && db == Take(old(db), step) && history == old(history) + [step]
    {
      OneStep(db, step);
      RunsConcat(INITIAL, history, [step]);
      db := Take(db, step);
      history := history + [step];
    }

    /** Other sessions run between two statements of transaction t. A caller knows only this
        contract: any number of steps may have happened, none of them a step of t. */
    method Others(t: TxId)
      requires Valid()
      modifies this
      ensures Valid() && old(history) <= history
      ensures forall i | |old(history)| <= i < |history| :: history[i].t != t
      ensures (t in db.txs <==> t in old(db.txs)) && (t in db.txs ==> db.txs[t] == old(db.txs[t]))
    {
    }

    lemma ValidReachable()
      requires Valid()
      ensures Reachable(db) && Inv(db)
    {
      assert Reachable(db);
      ReachableInv(db);
    }

    lemma Now(from: nat)
      requires Valid() && from <= |history|
      ensures Observed(history, from, db.table)
    {
      assert history[..|history|] == history;
    }

    lemma NowBlocked(from: nat, stmt: Stmt)
      requires Valid() && from <= |history| && Waits(db, stmt)
      ensures Blocked(history, from, stmt)
    {
      assert history[..|history|] == history;
    }

    /** Begin the transaction and run its statement; `seen` is what the statement saw. */
    method Execute(t: TxId, stmt: Stmt, actor: string, now: Time, w: Weather)
      returns (failure: Option<Err>, ghost seen: Table)
      requires Valid() && t !in db.txs
      modifies this
      ensures Valid() && old(history) <= history
      ensures failure.None? ==>
        && w.begin.None? && w.statement.None?
        && Observed(history, |old(history)|, seen) && Perform(seen, stmt, now).Ok? && t in db.txs
        && db.txs[t] == Tx(stmt, actor, now, Wrote(Perform(seen, stmt, now).value, SharedRegion(seen, stmt)))
      ensures failure.Some? ==>
        && Explained(failure.value, w.(emit := None, commit := None, ackLost := false),
                     history, |old(history)|, seen, stmt, now)
        && (t in db.txs ==> db.txs[t].progress == Failed(failure.value))
    {
      seen := db.table;
      if w.begin.Some? {
        return Some(Cause(w.begin)), seen;
      }
      Do(Begin(t, stmt, actor, now));
      Others(t);
      if w.statement.Some? || Waits(db, stmt) {
        if w.statement.None? { NowBlocked(|old(history)|, stmt); }
        ghost var past := history;
        Do(Abort(t, Cause(w.statement)));
        if w.statement.None? { BlockedLater(past, history, |old(history)|, stmt); }
        return Some(Cause(w.statement)), seen;
      }
      seen := db.table;
      Now(|old(history)|);
      ghost var past := history;
      Do(Step.Execute(t));
      ObservedLater(past, history, |old(history)|, seen);
      failure := if db.txs[t].progress.Failed? then Some(db.txs[t].progress.err) else None;
    }

    /** Write the outbox row and commit. */
    method Finish(t: TxId, w: Weather) returns (failure: Option<Err>)
      requires Valid() && t in db.txs && db.txs[t].progress.Wrote?
      modifies this
      ensures Valid() && old(history) <= history
      ensures t in db.txs && db.txs[t] == old(db.txs[t]).(progress := db.txs[t].progress)
      ensures failure.None? ==>
        && w.emit.None? && w.commit.None? && !w.ackLost
        && Done(db, t) && db.txs[t].progress.w == old(db.txs[t].progress.w)
        && var k, write := KeyOf(db.txs[t].stmt), db.txs[t].progress.w;
           if write.Put? then k in db.table && db.table[k] == write.row else k !in db.table
      ensures failure.Some? ==>
        && LateFault(failure.value, w)
        && (Done(db, t) <==> w.emit.None? && w.commit.None? && w.ackLost)
    {
      Others(t);
      if w.emit.Some? {
        Do(Abort(t, Cause(w.emit)));
        return Some(Cause(w.emit));
      }
      Do(Emit(t));
      Others(t);
      if w.commit.Some? {
        Do(Abort(t, Cause(w.commit)));
        return Some(Cause(w.commit));
      }
      Do(Commit(t, !w.ackLost));
      failure := if w.ackLost then Some(Internal) else None;
    }

    /** pgx.BeginFunc around one statement and one outbox row. */
    method BeginFunc(t: TxId, stmt: Stmt, actor: string, now: Time, w: Weather)
      returns (r: Result<Write, Err>, ghost seen: Table)
      requires Valid() && t !in db.txs
      modifies this
      ensures Valid() && old(history) <= history
      ensures r.Ok? ==>
        && w == CALM
        && Done(db, t) && db.txs[t].stmt == stmt && db.txs[t].actor == actor && db.txs[t].progress.w == r.value
        && Observed(history, |old(history)|, seen) && Perform(seen, stmt, now) == r
        && (if r.value.Put? then KeyOf(stmt) in db.table && db.table[KeyOf(stmt)] == r.value.row
            else KeyOf(stmt) !in db.table)
      ensures r.Err? ==>
        && Explained(r.error, w, history, |old(history)|, seen, stmt, now)
        && (Done(db, t) ==> w.emit.None? && w.commit.None? && w.ackLost)
    {
      var failure;
      failure, seen := Execute(t, stmt, actor, now, w);
      if failure.Some? {
        return Err(failure.value), seen;
      }
      ghost var past := history;
      var write := db.txs[t].progress.w;
      failure := Finish(t, w);
      ObservedLater(past, history, |old(history)|, seen);
      r := if failure.Some? then Err(failure.value) else Ok(write);
    }
  }

  /** The committed log has exactly the row the statement calls for, under the number t drew. */
  ghost predicate Recorded(s: Db, t: TxId, e: OutboxRow) {
    && Done(s, t) && RowOf(s, t) in s.log && s.log[RowOf(s, t)] == e
    && forall u | Done(s, u) && u != t :: RowOf(s, u) != RowOf(s, t)
  }

  /** A failed call wrote nothing and logged nothing, unless only the commit's acknowledgement was lost. */
  ghost predicate NothingWritten(s: Db, t: TxId, w: Weather) {
    Done(s, t) ==> w.emit.None? && w.commit.None? && w.ackLost
  }

  /** A failure that the tables do not explain: some fault struck, or a lock was in the way. */
  ghost predicate Disturbed(e: Err, w: Weather, history: seq<Step>, from: nat, stmt: Stmt) {
    && (e == Canceled || e == DeadlineExceeded || e == Internal)
    && (w != Weather(None, None, None, None, false) || (e == Internal && Blocked(history, from, stmt)))
  }

  // ---- What each statement answers on the tables it sees ----

  lemma InsertRegionAnswers(seen: Table, id: Id, name: string, now: Time)
    ensures Perform(seen, InsertRegion(id, name), now) ==
      if RegionKey(id) in seen then Err(AlreadyExists) else Ok(Put(RegionRow(name, now)))
  {
  }

  lemma PatchRegionAnswers(seen: Table, id: Id, name: Option<string>, now: Time)
    requires Typed(seen)
    ensures Perform(seen, PatchRegion(id, name), now) ==
      if RegionKey(id) !in seen then Err(NotFound)
      else
        var row := seen[RegionKey(id)];
        Ok(Put(RegionRow(if name.Some? then name.value else row.name, row.createdAt)))
  {
  }

  /** Some zone lies in the region. */
  predicate HasZones(table: Table, region: Id) {
    exists k | k in table :: table[k].ZoneRow? && table[k].regionId == region
  }

  lemma DropRegionAnswers(seen: Table, id: Id, now: Time)
    ensures Perform(seen, DropRegion(id), now) ==
      if RegionKey(id) !in seen then Err(NotFound)
      else if HasZones(seen, id) then Err(FailedPrecondition)
      else Ok(Remove)
  {
    assert Referenced(seen, id) <==> HasZones(seen, id) by {
      if k :| k in seen && ParentOf(seen[k]) == Some(id) { assert seen[k].ZoneRow? && seen[k].regionId == id; }
      if k :| k in seen && seen[k].ZoneRow? && seen[k].regionId == id { assert ParentOf(seen[k]) == Some(id); }
    }
  }

  lemma InsertZoneAnswers(seen: Table, z: Zone, now: Time)
    ensures Perform(seen, InsertZone(z.id, z.regionId, z.name, z.status), now) ==
      if ZoneKey(z.id) in seen then Err(AlreadyExists)
      else if RegionKey(z.regionId) !in seen then Err(FailedPrecondition)
      else Ok(Put(ZoneRow(z.regionId, z.name, NameOfStatus(z.status), now)))
  {
  }

  /** The text the status column holds. */
  function NameOfStatus(status: ZoneStatus): string {
    if status == 1 then "UP" else if status == 2 then "DOWN" else "STATUS_UNSPECIFIED"
  }

  lemma PatchZoneAnswers(seen: Table, id: Id, p: ZoneParams, now: Time)
    requires Typed(seen) && ForeignKeysHold(seen)
    ensures Perform(seen, PatchZone(id, p), now) ==
      if ZoneKey(id) !in seen then Err(NotFound)
      else if p.regionId.Some? && RegionKey(p.regionId.value) !in seen then Err(FailedPrecondition)
      else
        var row := seen[ZoneKey(id)];
        Ok(Put(ZoneRow(
          if p.regionId.Some? then p.regionId.value else row.regionId,
          if p.name.Some? then p.name.value else row.name,
          if p.status.Some? then NameOfStatus(p.status.value) else row.status,
          row.createdAt)))
  {
    if ZoneKey(id) in seen { assert ParentOf(seen[ZoneKey(id)]) == Some(seen[ZoneKey(id)].regionId); }
  }

  lemma DropZoneAnswers(seen: Table, id: Id, now: Time)
    ensures Perform(seen, DropZone(id), now) == if ZoneKey(id) !in seen then Err(NotFound) else Ok(Remove)
  {
  }

  lemma ObservedTyped(history: seq<Step>, from: nat, table: Table)
    requires Observed(history, from, table)
    ensures Typed(table) && ForeignKeysHold(table)
  {
    var i :| from <= i <= |history| && Runs(INITIAL, history[..i]) && After(INITIAL, history[..i]).table == table;
    InitialInv();
    RunKeepsInv(INITIAL, history[..i]);
  }

  class RegionRepo {
    var pg: Postgres

    constructor (pg: Postgres)
      ensures this.pg == pg
    {
      this.pg := pg;
    }

    /** Refused as existing exactly when the tables it saw have the id. */
    method Insert(t: TxId, rg: Region, p: Principal, now: Time, w: Weather)
      returns (r: Result<Region, Err>, ghost seen: Table)
      requires pg.Valid() && t !in pg.db.txs
      modifies pg
      ensures pg.Valid() && pg == old(pg) && old(pg.history) <= pg.history
      ensures r.Ok? ==>
        && Observed(pg.history, |old(pg.history)|, seen) && RegionKey(rg.id) !in seen
        && r.value == Region(rg.id, rg.name, now)
        && RegionKey(rg.id) in pg.db.table && pg.db.table[RegionKey(rg.id)] == RegionRow(rg.name, now)
        && Recorded(pg.db, t, OutboxRow(RegionKey(rg.id), CREATED, RegionImage(rg.name), ActorOf(p)))
      ensures r == Err(AlreadyExists) ==>
        Observed(pg.history, |old(pg.history)|, seen) && RegionKey(rg.id) in seen
      ensures r.Err? ==>
        && (r.error == AlreadyExists
            || Disturbed(r.error, w, pg.history, |old(pg.history)|, InsertRegion(rg.id, rg.name)))
        && NothingWritten(pg.db, t, w)
        && Explained(r.error, w, pg.history, |old(pg.history)|, seen, InsertRegion(rg.id, rg.name), now)
    {
      var res;
      res, seen := pg.BeginFunc(t, InsertRegion(rg.id, rg.name), ActorOf(p), now, w);
      pg.ValidReachable();
      InsertRegionAnswers(seen, rg.id, rg.name, now);
      match res
      case Err(e) => r := Err(e);
      case Ok(write) => r := Ok(Region(rg.id, write.row.name, write.row.createdAt));
    }

    /** A nil name keeps the stored one; created_at is never touched. Not found exactly when the tables it saw
        lack the id. */
    method Update(t: TxId, id: Id, name: Option<string>, p: Principal, now: Time, w: Weather)
      returns (r: Result<Region, Err>, ghost seen: Table)
      requires pg.Valid() && t !in pg.db.txs
      modifies pg
      ensures pg.Valid() && pg == old(pg) && old(pg.history) <= pg.history
      ensures r.Ok? ==>
        && Observed(pg.history, |old(pg.history)|, seen) && RegionKey(id) in seen && seen[RegionKey(id)].RegionRow?
        && r.value.id == id && r.value.name == (if name.Some? then name.value else seen[RegionKey(id)].name)
        && r.value.createdAt == seen[RegionKey(id)].createdAt
        && RegionKey(id) in pg.db.table && pg.db.table[RegionKey(id)] == RegionRow(r.value.name, r.value.createdAt)
        && Recorded(pg.db, t, OutboxRow(RegionKey(id), UPDATED, RegionImage(r.value.name), ActorOf(p)))
      ensures r == Err(NotFound) ==>
        Observed(pg.history, |old(pg.history)|, seen) && RegionKey(id) !in seen
      ensures r.Err? ==>
        && (r.error == NotFound
            || Disturbed(r.error, w, pg.history, |old(pg.history)|, PatchRegion(id, name)))
        && NothingWritten(pg.db, t, w)
        && Explained(r.error, w, pg.history, |old(pg.history)|, seen, PatchRegion(id, name), now)
    {
      var res;
      res, seen := pg.BeginFunc(t, PatchRegion(id, name), ActorOf(p), now, w);
      pg.ValidReachable();
      if Observed(pg.history, |old(pg.history)|, seen) {
        ObservedTyped(pg.history, |old(pg.history)|, seen);
        PatchRegionAnswers(seen, id, name, now);
      }
      match res
      case Err(e) => r := Err(e);
      case Ok(write) => r := Ok(Region(id, write.row.name, write.row.createdAt));
    }

    /** Not found exactly when the tables it saw lack the id; refused exactly when they have zones in the region. */
    method Delete(t: TxId, id: Id, p: Principal, now: Time, w: Weather)
      returns (r: Option<Err>, ghost seen: Table)
      requires pg.Valid() && t !in pg.db.txs
      modifies pg
      ensures pg.Valid() && pg == old(pg) && old(pg.history) <= pg.history
      ensures r.None? ==>
        && Observed(pg.history, |old(pg.history)|, seen) && RegionKey(id) in seen && !HasZones(seen, id)
        && RegionKey(id) !in pg.db.table && !HasZones(pg.db.table, id)
        && Recorded(pg.db, t, OutboxRow(RegionKey(id), DELETED, Tombstone, ActorOf(p)))
      ensures r == Some(NotFound) ==>
        Observed(pg.history, |old(pg.history)|, seen) && RegionKey(id) !in seen
      ensures r == Some(FailedPrecondition) ==>
        Observed(pg.history, |old(pg.history)|, seen) && RegionKey(id) in seen && HasZones(seen, id)
      ensures r.Some? ==>
        && (r.value == NotFound || r.value == FailedPrecondition
            || Disturbed(r.value, w, pg.history, |old(pg.history)|, DropRegion(id)))
        && NothingWritten(pg.db, t, w)
        && Explained(r.value, w, pg.history, |old(pg.history)|, seen, DropRegion(id), now)
    {
      var res;
      res, seen := pg.BeginFunc(t, DropRegion(id), ActorOf(p), now, w);
      pg.ValidReachable();
      DropRegionAnswers(seen, id, now);
      if res.Ok? { NoRegionNoZones(pg.db.table, id); }
      r := if res.Ok? then None else Some(res.error);
    }
  }

  lemma NoRegionNoZones(table: Table, region: Id)
    requires ForeignKeysHold(table) && RegionKey(region) !in table
    ensures !HasZones(table, region)
  {
    forall k | k in table && table[k].ZoneRow? ensures table[k].regionId != region {
      assert ParentOf(table[k]) == Some(table[k].regionId);
    }
  }

  function ZoneOf(id: Id, row: Row): Zone
    requires row.ZoneRow?
  {
    Zone(id, row.regionId, row.name, StatusFromName(row.status), row.createdAt)
  }

  class ZoneRepo {
    var pg: Postgres

    constructor (pg: Postgres)
      ensures this.pg == pg
    {
      this.pg := pg;
    }

    /** Refused as existing exactly when the tables it saw have the id, and for its precondition exactly when they
        lack the region. */
    method Insert(t: TxId, z: Zone, p: Principal, now: Time, w: Weather)
      returns (r: Result<Zone, Err>, ghost seen: Table)
      requires pg.Valid() && t !in pg.db.txs
      modifies pg
      ensures pg.Valid() && pg == old(pg) && old(pg.history) <= pg.history
      ensures r.Ok? ==>
        && Observed(pg.history, |old(pg.history)|, seen) && ZoneKey(z.id) !in seen && RegionKey(z.regionId) in seen
        && r.value == Zone(z.id, z.regionId, z.name, if z.status == 1 || z.status == 2 then z.status else 0, now)
        && ZoneKey(z.id) in pg.db.table && RegionKey(z.regionId) in pg.db.table
        && pg.db.table[ZoneKey(z.id)] == ZoneRow(z.regionId, z.name, NameOfStatus(z.status), now)
        && Recorded(pg.db, t,
             OutboxRow(ZoneKey(z.id), CREATED, ZoneImage(z.regionId, z.name, NameOfStatus(z.status)), ActorOf(p)))
      ensures r == Err(AlreadyExists) ==>
        Observed(pg.history, |old(pg.history)|, seen) && ZoneKey(z.id) in seen
      ensures r == Err(FailedPrecondition) ==>
        && Observed(pg.history, |old(pg.history)|, seen) && ZoneKey(z.id) !in seen
        && RegionKey(z.regionId) !in seen
      ensures r.Err? ==>
        && (r.error == AlreadyExists || r.error == FailedPrecondition
            || Disturbed(r.error, w, pg.history, |old(pg.history)|, InsertZone(z.id, z.regionId, z.name, z.status)))
        && NothingWritten(pg.db, t, w)
        && Explained(r.error, w, pg.history, |old(pg.history)|, seen,
                     InsertZone(z.id, z.regionId, z.name, z.status), now)
    {
      var res;
      res, seen := pg.BeginFunc(t, InsertZone(z.id, z.regionId, z.name, z.status), ActorOf(p), now, w);
      pg.ValidReachable();
      InsertZoneAnswers(seen, z, now);
      StatusRoundTrip(z.status);
      match res
      case Err(e) => r := Err(e);
      case Ok(write) => r := Ok(ZoneOf(z.id, write.row));
    }

    /** Only the given fields change. Not found exactly when the tables it saw lack the id; refused exactly when a
        region is given that they lack. */
    method Update(t: TxId, id: Id, params: ZoneParams, p: Principal, now: Time, w: Weather)
      returns (r: Result<Zone, Err>, ghost seen: Table)
      requires pg.Valid() && t !in pg.db.txs
      modifies pg
      ensures pg.Valid() && pg == old(pg) && old(pg.history) <= pg.history
      ensures r.Ok? ==>
        && Observed(pg.history, |old(pg.history)|, seen) && ZoneKey(id) in seen && seen[ZoneKey(id)].ZoneRow?
        && (params.regionId.Some? ==> RegionKey(params.regionId.value) in seen)
        && ZoneKey(id) in pg.db.table && RegionKey(r.value.regionId) in pg.db.table
        && var was, row := seen[ZoneKey(id)], pg.db.table[ZoneKey(id)];
          && r.value.id == id && r.value.createdAt == was.createdAt
          && r.value.regionId == (if params.regionId.Some? then params.regionId.value else was.regionId)
          && r.value.name == (if params.name.Some? then params.name.value else was.name)
          && row == ZoneRow(r.value.regionId, r.value.name,
                            if params.status.Some? then NameOfStatus(params.status.value) else was.status,
                            was.createdAt)
          && r.value.status == StatusFromName(row.status)
          && Recorded(pg.db, t,
               OutboxRow(ZoneKey(id), UPDATED, ZoneImage(row.regionId, row.name, row.status), ActorOf(p)))
      ensures r == Err(NotFound) ==>
        Observed(pg.history, |old(pg.history)|, seen) && ZoneKey(id) !in seen
      ensures r == Err(FailedPrecondition) ==>
        && Observed(pg.history, |old(pg.history)|, seen) && ZoneKey(id) in seen
        && params.regionId.Some? && RegionKey(params.regionId.value) !in seen
      ensures r.Err? ==>
        && (r.error == NotFound || r.error == FailedPrecondition
            || Disturbed(r.error, w, pg.history, |old(pg.history)|, PatchZone(id, params)))
        && NothingWritten(pg.db, t, w)
        && Explained(r.error, w, pg.history, |old(pg.history)|, seen, PatchZone(id, params), now)
    {
      var res;
      res, seen := pg.BeginFunc(t, PatchZone(id, params), ActorOf(p), now, w);
      pg.ValidReachable();
      if Observed(pg.history, |old(pg.history)|, seen) {
        ObservedTyped(pg.history, |old(pg.history)|, seen);
        PatchZoneAnswers(seen, id, params, now);
      }
      match res
      case Err(e) => r := Err(e);
      case Ok(write) => r := Ok(ZoneOf(id, write.row));
    }

    /** Not found exactly when the tables it saw lack the id. */
    method Delete(t: TxId, id: Id, p: Principal, now: Time, w: Weather)
      returns (r: Option<Err>, ghost seen: Table)
      requires pg.Valid() && t !in pg.db.txs
      modifies pg
      ensures pg.Valid() && pg == old(pg) && old(pg.history) <= pg.history
      ensures r.None? ==>
        && Observed(pg.history, |old(pg.history)|, seen) && ZoneKey(id) in seen
        && ZoneKey(id) !in pg.db.table
        && Recorded(pg.db, t, OutboxRow(ZoneKey(id), DELETED, Tombstone, ActorOf(p)))
      ensures r == Some(NotFound) ==>
        Observed(pg.history, |old(pg.history)|, seen) && ZoneKey(id) !in seen
      ensures r.Some? ==>
        && (r.value == NotFound || Disturbed(r.value, w, pg.history, |old(pg.history)|, DropZone(id)))
        && NothingWritten(pg.db, t, w)
        && Explained(r.value, w, pg.history, |old(pg.history)|, seen, DropZone(id), now)
    {
      var res;
      res, seen := pg.BeginFunc(t, DropZone(id), ActorOf(p), now, w);
      pg.ValidReachable();
      DropZoneAnswers(seen, id, now);
      r := if res.Ok? then None else Some(res.error);
    }
  }
}
