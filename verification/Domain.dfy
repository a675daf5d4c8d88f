/** Regions, zones, partial updates, request validation and the response projection. */
module Domain {
  import opened Wrappers
  import opened Slugs

  type Id = Bytes

  /** The caller as the trusted context carries it. */
  datatype Principal = Principal(kind: string, id: string)

  // ---- Zone status (int32 in Go, text in the database) ----

  newtype ZoneStatus = x: int | -0x8000_0000 <= x < 0x8000_0000

  const STATUS_UNSPECIFIED: ZoneStatus := 0
  const STATUS_UP: ZoneStatus := 1
  const STATUS_DOWN: ZoneStatus := 2

  predicate ValidStatus(s: ZoneStatus) {
    s == STATUS_UNSPECIFIED || s == STATUS_UP || s == STATUS_DOWN
  }

  function StatusName(s: ZoneStatus): string {
    if s == STATUS_UP then "UP" else if s == STATUS_DOWN then "DOWN" else "STATUS_UNSPECIFIED"
  }

  function StatusFromName(name: string): ZoneStatus {
    if name == "UP" then STATUS_UP else if name == "DOWN" then STATUS_DOWN else STATUS_UNSPECIFIED
  }

  /** Writing a status and reading it back is the identity exactly on the three known values. */
  lemma StatusRoundTrip(s: ZoneStatus)
    ensures StatusName(s) == if s == 1 then "UP" else if s == 2 then "DOWN" else "STATUS_UNSPECIFIED"
    ensures StatusFromName("UP") == 1 && StatusFromName("DOWN") == 2
    ensures forall name | name != "UP" && name != "DOWN" :: StatusFromName(name) == 0
    ensures StatusFromName(StatusName(s)) == s <==> s == 0 || s == 1 || s == 2
  {
    assert "UP"[0] != "DOWN"[0] && "UP"[0] != "STATUS_UNSPECIFIED"[0] && "DOWN"[0] != "STATUS_UNSPECIFIED"[0];
  }

  // ---- Resources ----

  const MAX_NAME_LEN := 253

  /** A display name is its sequence of runes; only their number is checked. */
  predicate ValidName(name: string) { |name| <= MAX_NAME_LEN }

  /** Time in nanoseconds since the zero time. */
  type Time = nat

  datatype Region = Region(id: Id, name: string, createdAt: Time)

  datatype Zone = Zone(id: Id, regionId: Id, name: string, status: ZoneStatus, createdAt: Time)

  predicate ValidRegion(r: Region) { ValidID(r.id) && ValidName(r.name) }

  predicate ValidZone(z: Zone) {
    ValidID(z.id) && ValidID(z.regionId) && ValidName(z.name) && ValidStatus(z.status)
  }

  // ---- The projection to the wire format (created_at cut to whole seconds) ----

  const SECOND := 1_000_000_000

  function Truncate(t: Time): (whole: Time)
    ensures whole % 1_000_000_000 == 0 && whole <= t < whole + 1_000_000_000
  {
    t - t % SECOND
  }

  datatype Response =
    | RegionResponse(id: Id, name: string, createdAt: Time)
    | ZoneResponse(id: Id, regionId: Id, status: ZoneStatus, name: string, createdAt: Time)
    | Empty

  function ProjectRegion(r: Region): Response { RegionResponse(r.id, r.name, Truncate(r.createdAt)) }

  function ProjectZone(z: Zone): Response {
    ZoneResponse(z.id, z.regionId, z.status, z.name, Truncate(z.createdAt))
  }

  // ---- Statements the repositories execute ----

  /** A nil field keeps the stored value. */
  datatype ZoneParams = ZoneParams(regionId: Option<Id>, name: Option<string>, status: Option<ZoneStatus>)

  datatype Stmt =
    | InsertRegion(id: Id, name: string)
    | PatchRegion(id: Id, newName: Option<string>)
    | DropRegion(id: Id)
    | InsertZone(id: Id, regionId: Id, name: string, status: ZoneStatus)
    | PatchZone(id: Id, params: ZoneParams)
    | DropZone(id: Id)

  // ---- Requests and their synchronous validation ----

  datatype Request =
    | CreateRegion(id: Id, name: string)
    | UpdateRegion(id: Id, name: string)
    | DeleteRegion(id: Id)
    | CreateZone(id: Id, regionId: Id, name: string, status: ZoneStatus)
    | UpdateZone(id: Id, regionId: Id, name: string, status: ZoneStatus)
    | DeleteZone(id: Id)

  function NonEmpty<T(==)>(s: seq<T>): Option<seq<T>> { if s == [] then None else Some(s) }

  function DefaultStatus(s: ZoneStatus): ZoneStatus {
    if s == STATUS_UNSPECIFIED then STATUS_UP else s
  }

  function GivenFields(regionId: Id, name: string, status: ZoneStatus): ZoneParams {
    ZoneParams(NonEmpty(regionId), NonEmpty(name), if status == STATUS_UNSPECIFIED then None else Some(status))
  }

  /** The statement an accepted request runs; None is a synchronous InvalidArgument. */
  function Plan(req: Request): Option<Stmt> {
    match req
    case CreateRegion(id, name) =>
      if ValidRegion(Region(id, name, 0)) then Some(InsertRegion(id, name)) else None
    case UpdateRegion(id, name) =>
      if ValidID(id) && ValidName(name) then Some(PatchRegion(id, NonEmpty(name))) else None
    case DeleteRegion(id) => if ValidID(id) then Some(DropRegion(id)) else None
    case CreateZone(id, regionId, name, status) =>
      var z := Zone(id, regionId, name, DefaultStatus(status), 0);
      if ValidZone(z) then Some(InsertZone(id, regionId, name, z.status)) else None
    case UpdateZone(id, regionId, name, status) =>
      if && ValidID(id)
         && (regionId == [] || ValidID(regionId))
         && ValidName(name)
         && ValidStatus(status)
      then Some(PatchZone(id, GivenFields(regionId, name, status)))
      else None
    case DeleteZone(id) => if ValidID(id) then Some(DropZone(id)) else None
  }

  predicate SettledStatus(s: ZoneStatus) { s == STATUS_UP || s == STATUS_DOWN }

  /** What every statement that passed validation guarantees about the values it may write. */
  predicate ValidStmt(st: Stmt) {
    && ValidID(st.id)
    && match st
       case InsertRegion(_, name) => ValidName(name)
       case PatchRegion(_, name) => name.Some? ==> ValidName(name.value) && name.value != []
       case InsertZone(_, regionId, name, status) =>
         ValidID(regionId) && ValidName(name) && SettledStatus(status)
       case PatchZone(_, p) =>
         && (p.regionId.Some? ==> ValidID(p.regionId.value))
         && (p.name.Some? ==> ValidName(p.name.value) && p.name.value != [])
         && (p.status.Some? ==> SettledStatus(p.status.value))
       case _ => true
  }

  lemma PlanIsValid(req: Request)
    ensures Plan(req).Some? ==> ValidStmt(Plan(req).value)
  {
  }

  function Given<T>(field: Option<seq<T>>): seq<T> { if field.Some? then field.value else [] }

  /** A request that asks for a statement. */
  function RequestFor(st: Stmt): Request {
    match st
    case InsertRegion(id, name) => CreateRegion(id, name)
    case PatchRegion(id, name) => UpdateRegion(id, Given(name))
    case DropRegion(id) => DeleteRegion(id)
    case InsertZone(id, regionId, name, status) => CreateZone(id, regionId, name, status)
    case PatchZone(id, p) =>
      UpdateZone(id, Given(p.regionId), Given(p.name), if p.status.Some? then p.status.value else STATUS_UNSPECIFIED)
    case DropZone(id) => DeleteZone(id)
  }

  /** The statements that accepted requests run are exactly the valid ones. */
  lemma PlanIsExact(st: Stmt)
    ensures ValidStmt(st) <==> exists req :: Plan(req) == Some(st)
  {
    if ValidStmt(st) {
      if st.PatchZone? && st.params.regionId.Some? { ValidIDIsSlug(st.params.regionId.value); }
      assert Plan(RequestFor(st)) == Some(st);
    }
    forall req | Plan(req) == Some(st) ensures ValidStmt(st) { PlanIsValid(req); }
  }
}
