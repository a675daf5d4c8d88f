/** What validated statements keep true of every stored row, and the algebra of partial updates. */
module CatalogueRules {
  import opened Wrappers
  import opened Slugs
  import opened Domain
  import opened Database
  import opened Consistency

  predicate ValidRow(k: Key, row: Row) {
    && ValidID(k.id) && ValidName(row.name)
    && (row.ZoneRow? ==> ValidID(row.regionId) && (row.status == "UP" || row.status == "DOWN"))
  }

  predicate ValidTable(table: Table) {
    forall k | k in table :: ValidRow(k, table[k])
  }

  ghost predicate OnlyValidStatements(s: Db) {
    forall t | t in s.txs :: ValidStmt(s.txs[t].stmt)
  }

  /** The same resource, later: created_at stays, a zone stays a zone, and a name once given is
      never emptied. */
  predicate Descends(older: Row, newer: Row) {
    && newer.createdAt == older.createdAt
    && (newer.RegionRow? <==> older.RegionRow?)
    && (older.name != "" ==> newer.name != "")
  }

  /** A valid statement writes a valid row, and a descendant of the one it replaces. */
  lemma EffectIsValid(table: Table, st: Stmt, now: Time)
    requires Typed(table) && ValidTable(table) && ValidStmt(st) && Effect(table, st, now).Ok?
    ensures var w := Effect(table, st, now).value;
      && (w.Put? ==> ValidRow(KeyOf(st), w.row))
      && (w.Put? && KeyOf(st) in table ==> Descends(table[KeyOf(st)], w.row))
  {
    if KeyOf(st) in table { assert ValidRow(KeyOf(st), table[KeyOf(st)]); }
  }

  lemma StepKeepsRows(s: Db, step: Step)
    requires Inv(s) && Enabled(s, step) && OnlyValidStatements(s) && ValidTable(s.table)
    ensures ValidTable(Take(s, step).table)
    ensures forall k | k in s.table && k in Take(s, step).table :: Descends(s.table[k], Take(s, step).table[k])
  {
    if step.Commit? {
      var tx := s.txs[step.t];
      assert HolderSound(s, step.t) && ValidStmt(tx.stmt);
      EffectIsValid(s.table, tx.stmt, tx.now);
    }
  }

  lemma StatementsBefore(s: Db, step: Step)
    requires Enabled(s, step) && OnlyValidStatements(Take(s, step))
    ensures OnlyValidStatements(s)
  {
    StepFrame(s, step);
    forall t | t in s.txs ensures ValidStmt(s.txs[t].stmt) {
      assert ValidStmt(Take(s, step).txs[t].stmt);
    }
  }

  lemma {:induction false} StatementsBeforeRun(s: Db, steps: seq<Step>)
    requires Runs(s, steps) && OnlyValidStatements(After(s, steps))
    ensures OnlyValidStatements(s)
    decreases |steps|
  {
    if steps == [] {
    } else {
      StatementsBeforeRun(Take(s, steps[0]), steps[1..]);
      StatementsBefore(s, steps[0]);
    }
  }

  lemma {:induction false} RunKeepsRows(s: Db, steps: seq<Step>)
    requires Inv(s) && ValidTable(s.table) && Runs(s, steps) && OnlyValidStatements(After(s, steps))
    ensures ValidTable(After(s, steps).table)
    decreases |steps|
  {
    if steps == [] {
    } else {
      StatementsBeforeRun(s, steps);
      StepKeepsRows(s, steps[0]);
      StepKeepsInv(s, steps[0]);
      RunKeepsRows(Take(s, steps[0]), steps[1..]);
    }
  }

  /** If every transaction ever begun ran a validated statement, every stored id and region id is a
      slug of at most 63 bytes, every name has at most 253 runes and every status is UP or DOWN. */
  lemma ReachableRowsAreValid(s: Db)
    requires Reachable(s) && OnlyValidStatements(s)
    ensures ValidTable(s.table)
    ensures forall k | k in s.table :: IsSlug(k.id) && |k.id| <= 63 && |s.table[k].name| <= 253
    ensures forall k | k in s.table && s.table[k].ZoneRow? ::
      && IsSlug(s.table[k].regionId) && |s.table[k].regionId| <= 63
      && (s.table[k].status == "UP" || s.table[k].status == "DOWN")
  {
    var steps :| Runs(INITIAL, steps) && After(INITIAL, steps) == s;
    InitialInv();
    RunKeepsRows(INITIAL, steps);
    forall k | k in s.table
      ensures IsSlug(k.id) && |k.id| <= 63 && |s.table[k].name| <= 253
      ensures s.table[k].ZoneRow? ==> IsSlug(s.table[k].regionId) && |s.table[k].regionId| <= 63
    {
      assert ValidRow(k, s.table[k]);
      ValidIDIsSlug(k.id);
      if s.table[k].ZoneRow? { ValidIDIsSlug(s.table[k].regionId); }
    }
  }

  // ---- The foreign key ----

  /** The locks and checks of a statement refuse exactly what would break referential integrity: on a sound
      table a statement succeeds if and only if its own row allows it and every zone's region exists afterwards. */
  lemma ForeignKeyIsExact(table: Table, st: Stmt, now: Time)
    requires Typed(table) && ForeignKeysHold(table)
    ensures Perform(table, st, now).Ok? <==>
      && Effect(table, st, now).Ok?
      && ForeignKeysHold(Store(table, KeyOf(st), Effect(table, st, now).value))
    ensures Perform(table, st, now) == Err(FailedPrecondition) <==>
      && Effect(table, st, now).Ok?
      && !ForeignKeysHold(Store(table, KeyOf(st), Effect(table, st, now).value))
  {
    var effect := Effect(table, st, now);
    if effect.Ok? {
      var after := Store(table, KeyOf(st), effect.value);
      if SharedRegion(table, st).Some? {
        assert ParentOf(after[KeyOf(st)]) == SharedRegion(table, st);
      }
      if st.DropRegion? && Referenced(table, st.id) {
        var k :| k in table && ParentOf(table[k]) == Some(st.id);
        assert k in after && ParentOf(after[k]) == Some(st.id) && RegionKey(st.id) !in after;
      }
      if ForeignKeyAllows(table, st) {
        forall k | k in after && ParentOf(after[k]).Some? ensures RegionKey(ParentOf(after[k]).value) in after {
          if k != KeyOf(st) { assert k in table && ParentOf(after[k]) == ParentOf(table[k]); }
        }
      }
    }
  }

  // ---- Partial updates ----

  function Prefer<T>(earlier: Option<T>, later: Option<T>): Option<T> {
    if later.Some? then later else earlier
  }

  function LaterParams(p: ZoneParams, q: ZoneParams): ZoneParams {
    ZoneParams(Prefer(p.regionId, q.regionId), Prefer(p.name, q.name), Prefer(p.status, q.status))
  }

  function LaterField<T(==)>(earlier: seq<T>, later: seq<T>): seq<T> {
    if later == [] then earlier else later
  }

  /** Two successful zone updates in a row leave the table one update would leave, with the later
      non-empty request fields winning. */
  lemma SuccessiveUpdates(
      table: Table, id: Id, r1: Id, n1: string, s1: ZoneStatus, r2: Id, n2: string, s2: ZoneStatus, now: Time)
    requires ZoneKey(id) in table && Typed(table)
    ensures var p, q := GivenFields(r1, n1, s1), GivenFields(r2, n2, s2);
      var both := GivenFields(LaterField(r1, r2), LaterField(n1, n2), if s2 == STATUS_UNSPECIFIED then s1 else s2);
      var once := Store(table, ZoneKey(id), Effect(table, PatchZone(id, p), now).value);
      && both == LaterParams(p, q)
      && Store(once, ZoneKey(id), Effect(once, PatchZone(id, q), now).value)
         == Store(table, ZoneKey(id), Effect(table, PatchZone(id, both), now).value)
  {
  }

  /** An update with no field given leaves the stored row as it is (and is logged like any other). */
  lemma EmptyUpdate(table: Table, id: Id, now: Time)
    requires ZoneKey(id) in table && Typed(table)
    ensures var nothing := PatchZone(id, GivenFields([], "", STATUS_UNSPECIFIED));
      Store(table, ZoneKey(id), Effect(table, nothing, now).value) == table
  {
  }
}
