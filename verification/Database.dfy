/** The catalogue tables and the audit outbox as a transaction step system.

    Every mutation of a repository is one transaction: begin, one statement (which takes its row
    locks), one outbox row (which draws the next sequence number), then commit or roll back.
    Transactions interleave freely, so sequence numbers may commit out of order and leave gaps. */
module Database {
  import opened Wrappers
  import opened Domain

  // ---- Tables ----

  datatype Key = RegionKey(id: Id) | ZoneKey(id: Id)

  datatype Row =
    | RegionRow(name: string, createdAt: Time)
    | ZoneRow(regionId: Id, name: string, status: string, createdAt: Time)

  type Table = map<Key, Row>

  predicate Typed(table: Table) {
    forall k | k in table :: k.RegionKey? <==> table[k].RegionRow?
  }

  /** The region a row refers to, if it is a zone row. */
  function ParentOf(row: Row): Option<Id> {
    if row.ZoneRow? then Some(row.regionId) else None
  }

  predicate Referenced(table: Table, region: Id) {
    exists k | k in table :: ParentOf(table[k]) == Some(region)
  }

  ghost predicate ForeignKeysHold(table: Table) {
    forall k | k in table && ParentOf(table[k]).Some? :: RegionKey(ParentOf(table[k]).value) in table
  }

  // ---- Statements ----

  datatype Err = NotFound | AlreadyExists | FailedPrecondition | Canceled | DeadlineExceeded | Internal

  predicate Transient(e: Err) { e.Canceled? || e.DeadlineExceeded? || e.Internal? }

  datatype Write = Put(row: Row) | Remove

  function KeyOf(st: Stmt): Key {
    if st.InsertRegion? || st.PatchRegion? || st.DropRegion? then RegionKey(st.id) else ZoneKey(st.id)
  }

  function PatchZoneRow(row: Row, p: ZoneParams): Row {
    match row
    case RegionRow(_, _) => row
    case ZoneRow(regionId, name, status, createdAt) =>
      ZoneRow(
        Coalesce(p.regionId, regionId),
        Coalesce(p.name, name),
        Coalesce(if p.status.Some? then Some(StatusName(p.status.value)) else None, status),
        createdAt)
  }

  /** What a statement does to its own row, before the foreign key is looked at. */
  function Effect(table: Table, st: Stmt, now: Time): Result<Write, Err> {
    var k := KeyOf(st);
    match st
    case InsertRegion(_, name) =>
      if k in table then Err(AlreadyExists) else Ok(Put(RegionRow(name, now)))
    case PatchRegion(_, name) =>
      if k in table then Ok(Put(table[k].(name := Coalesce(name, table[k].name)))) else Err(NotFound)
    case DropRegion(_) => if k in table then Ok(Remove) else Err(NotFound)
    case InsertZone(_, regionId, name, status) =>
      if k in table then Err(AlreadyExists) else Ok(Put(ZoneRow(regionId, name, StatusName(status), now)))
    case PatchZone(_, p) =>
      if k in table then Ok(Put(PatchZoneRow(table[k], p))) else Err(NotFound)
    case DropZone(_) => if k in table then Ok(Remove) else Err(NotFound)
  }

  /** The region whose key the foreign-key check locks in share mode until the transaction ends:
      that of an inserted zone, or the new one of a re-pointed zone. */
  function SharedRegion(table: Table, st: Stmt): Option<Id> {
    match st
    case InsertZone(_, regionId, _, _) => if KeyOf(st) in table then None else Some(regionId)
    case PatchZone(_, p) =>
      if KeyOf(st) in table && p.regionId.Some? && ParentOf(table[KeyOf(st)]) != p.regionId
      then p.regionId else None
    case _ => None
  }

  predicate ForeignKeyAllows(table: Table, st: Stmt) {
    && (SharedRegion(table, st).Some? ==> RegionKey(SharedRegion(table, st).value) in table)
    && (st.DropRegion? ==> !Referenced(table, st.id))
  }

  function Perform(table: Table, st: Stmt, now: Time): Result<Write, Err> {
    var effect := Effect(table, st, now);
    if effect.Ok? && !ForeignKeyAllows(table, st) then Err(FailedPrecondition) else effect
  }

  function Store(table: Table, k: Key, w: Write): Table {
    match w
    case Put(row) => table[k := row]
    case Remove => table - {k}
  }

  // ---- The audit outbox ----

  datatype EventType = CREATED | UPDATED | DELETED

  /** The resource part of an outbox payload; created_at is not recorded. */
  datatype Image =
    | RegionImage(name: string)
    | ZoneImage(regionId: Id, name: string, status: string)
    | Tombstone

  datatype OutboxRow = OutboxRow(key: Key, event: EventType, image: Image, actor: string)

  function ImageOf(row: Row): Image {
    match row
    case RegionRow(name, _) => RegionImage(name)
    case ZoneRow(regionId, name, status, _) => ZoneImage(regionId, name, status)
  }

  function EventOf(st: Stmt): EventType {
    match st
    case InsertRegion(_, _) => CREATED
    case InsertZone(_, _, _, _) => CREATED
    case PatchRegion(_, _) => UPDATED
    case PatchZone(_, _) => UPDATED
    case DropRegion(_) => DELETED
    case DropZone(_) => DELETED
  }

  function EntryOf(st: Stmt, w: Write, actor: string): OutboxRow {
    OutboxRow(KeyOf(st), EventOf(st), if w.Put? then ImageOf(w.row) else Tombstone, actor)
  }

  // ---- Transactions ----

  type TxId = string

  datatype Progress =
    | Begun
    | Wrote(w: Write, share: Option<Id>)
    | Emitted(w: Write, share: Option<Id>, seqNo: nat)
    | Committed(w: Write, seqNo: nat, acked: bool)
    | Failed(err: Err)

  datatype Tx = Tx(stmt: Stmt, actor: string, now: Time, progress: Progress)

  datatype Db = Db(table: Table, log: map<nat, OutboxRow>, nextSeq: nat, txs: map<TxId, Tx>)

  /** The catalogue starts empty. */
  const INITIAL := Db(map[], map[], 0, map[])

  /** A transaction between its statement and its end holds its row. */
  predicate Holds(s: Db, t: TxId) {
    t in s.txs && (s.txs[t].progress.Wrote? || s.txs[t].progress.Emitted?)
  }

  predicate Open(s: Db, t: TxId) {
    t in s.txs && (s.txs[t].progress.Begun? || Holds(s, t))
  }

  predicate Finished(s: Db, t: TxId) {
    t in s.txs && (s.txs[t].progress.Committed? || s.txs[t].progress.Failed?)
  }

  predicate Dropping(s: Db, region: Id) {
    exists u | u in s.txs :: Holds(s, u) && s.txs[u].stmt == DropRegion(region)
  }

  predicate SharedBySome(s: Db, region: Id) {
    exists u | u in s.txs :: Holds(s, u) && s.txs[u].progress.share == Some(region)
  }

  predicate RowHeld(s: Db, k: Key) {
    exists u | u in s.txs :: Holds(s, u) && KeyOf(s.txs[u].stmt) == k
  }

  predicate ZoneLeaving(s: Db, k: Key) {
    exists u | u in s.txs :: Holds(s, u) && s.txs[u].stmt.DropZone? && KeyOf(s.txs[u].stmt) == k
  }

  /** The region has zones, and each of them is being deleted. */
  predicate ZonesLeaving(s: Db, region: Id) {
    && Referenced(s.table, region)
    && forall k | k in s.table && ParentOf(s.table[k]) == Some(region) :: ZoneLeaving(s, k)
  }

  /** An insert, and an update or delete of a row it can see, wait for the row; a foreign-key check waits for
      a pending delete of the region; a region delete waits for every holder of a share lock on the region's
      key, and for pending deletes of the zones that are still in its way. */
  predicate Waits(s: Db, st: Stmt) {
    || ((EventOf(st) == CREATED || KeyOf(st) in s.table) && RowHeld(s, KeyOf(st)))
    || (SharedRegion(s.table, st).Some? && Dropping(s, SharedRegion(s.table, st).value))
    || (st.DropRegion? && (SharedBySome(s, st.id) || ZonesLeaving(s, st.id)))
  }

  datatype Step =
    | Begin(t: TxId, stmt: Stmt, actor: string, now: Time)
    | Execute(t: TxId)
    | Emit(t: TxId)
    | Commit(t: TxId, acked: bool)
    | Abort(t: TxId, cause: Err)

  predicate Enabled(s: Db, step: Step) {
    match step
    case Begin(t, _, _, _) => t !in s.txs
    case Execute(t) => t in s.txs && s.txs[t].progress.Begun? && !Waits(s, s.txs[t].stmt)
    case Emit(t) => t in s.txs && s.txs[t].progress.Wrote?
    case Commit(t, _) => t in s.txs && s.txs[t].progress.Emitted?
    case Abort(t, cause) => Open(s, t) && Transient(cause)
  }

  function Advance(s: Db, t: TxId, p: Progress): Db
    requires t in s.txs
  {
    s.(txs := s.txs[t := s.txs[t].(progress := p)])
  }

  function Take(s: Db, step: Step): Db
    requires Enabled(s, step)
  {
    match step
    case Begin(t, stmt, actor, now) => s.(txs := s.txs[t := Tx(stmt, actor, now, Begun)])
    case Execute(t) =>
      var tx := s.txs[t];
      (match Perform(s.table, tx.stmt, tx.now)
       case Ok(w) => Advance(s, t, Wrote(w, SharedRegion(s.table, tx.stmt)))
       case Err(e) => Advance(s, t, Failed(e)))
    case Emit(t) =>
      var p := s.txs[t].progress;
      Advance(s, t, Emitted(p.w, p.share, s.nextSeq)).(nextSeq := s.nextSeq + 1)
    case Commit(t, acked) =>
      var tx := s.txs[t];
      var p := tx.progress;
      Advance(s, t, Committed(p.w, p.seqNo, acked)).(
        table := Store(s.table, KeyOf(tx.stmt), p.w),
        log := s.log[p.seqNo := EntryOf(tx.stmt, p.w, tx.actor)])
    case Abort(t, cause) => Advance(s, t, Failed(cause))
  }

  // ---- Runs ----

  ghost predicate Runs(s: Db, steps: seq<Step>)
    decreases |steps|
  {
    steps == [] || (Enabled(s, steps[0]) && Runs(Take(s, steps[0]), steps[1..]))
  }

  ghost function After(s: Db, steps: seq<Step>): Db
    requires Runs(s, steps)
    decreases |steps|
  {
    if steps == [] then s else After(Take(s, steps[0]), steps[1..])
  }

  ghost predicate Reachable(s: Db) {
    exists steps :: Runs(INITIAL, steps) && After(INITIAL, steps) == s
  }

  lemma {:induction false} RunsConcat(s: Db, a: seq<Step>, b: seq<Step>)
    requires Runs(s, a) && Runs(After(s, a), b)
    ensures Runs(s, a + b) && After(s, a + b) == After(After(s, a), b)
    decreases |a|
  {
    if a == [] {
      assert a + b == b;
    } else {
      assert (a + b)[1..] == a[1..] + b;
      RunsConcat(Take(s, a[0]), a[1..], b);
    }
  }

  lemma OneStep(s: Db, step: Step)
    requires Enabled(s, step)
    ensures Runs(s, [step]) && After(s, [step]) == Take(s, step)
  {
    assert [step][1..] == [];
    assert Runs(Take(s, step), []) && After(Take(s, step), []) == Take(s, step);
  }

  lemma ReachableStep(s: Db, step: Step)
    requires Reachable(s) && Enabled(s, step)
    ensures Reachable(Take(s, step))
  {
    var steps :| Runs(INITIAL, steps) && After(INITIAL, steps) == s;
    OneStep(s, step);
    RunsConcat(INITIAL, steps, [step]);
  }

  /** A step changes one transaction only, never its statement, and never a finished one; only a
      commit touches the tables and the log. */
  lemma StepFrame(s: Db, step: Step)
    requires Enabled(s, step)
    ensures var s' := Take(s, step);
      && step.t in s'.txs && !Finished(s, step.t)
      && (forall u | u != step.t :: (u in s'.txs <==> u in s.txs) && (u in s.txs ==> s'.txs[u] == s.txs[u]))
      && (step.t in s.txs ==> s'.txs[step.t].stmt == s.txs[step.t].stmt)
      && (step.t !in s.txs ==> step.Begin? && s'.txs[step.t].stmt == step.stmt)
      && (step.Commit? <==> s'.txs[step.t].progress.Committed?)
      && (!step.Commit? ==> s'.table == s.table && s'.log == s.log)
  {
  }
}
