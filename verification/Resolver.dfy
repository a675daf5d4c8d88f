/** Deciding the fate of an orphaned operation from the committed catalogue. */
module Resolver {
  import opened Wrappers
  import opened Domain
  import opened Database
  import opened OperationStore

  datatype Reading = Found(resource: Response) | Absent | ReadError

  /** The read ports; an unset one makes its operations be skipped. */
  datatype Readers = Readers(region: Option<Id -> Reading>, zone: Option<Id -> Reading>)

  datatype Outcome = Skip | Interrupted | Resolved(response: Option<Response>)

  datatype Kind = KindCreate | KindUpdate | KindDelete

  /** None is a transient read error: the orphan waits for the next sweep. */
  function ResolveExistence(kind: Kind, id: Id, reader: Option<Id -> Reading>): Option<Outcome> {
    if reader.None? then Some(Skip)
    else match reader.value(id)
      case ReadError => None
      case Found(resource) => Some(if kind == KindDelete then Interrupted else Resolved(Some(resource)))
      case Absent => Some(if kind == KindDelete then Resolved(None) else Interrupted)
  }

  function Resolve(metadata: Option<Metadata>, readers: Readers): Option<Outcome> {
    if metadata.None? then Some(Skip)
    else match metadata.value
      case CreateRegionMetadata(id) => ResolveExistence(KindCreate, id, readers.region)
      case UpdateRegionMetadata(id) => ResolveExistence(KindUpdate, id, readers.region)
      case DeleteRegionMetadata(id) => ResolveExistence(KindDelete, id, readers.region)
      case CreateZoneMetadata(id) => ResolveExistence(KindCreate, id, readers.zone)
      case UpdateZoneMetadata(id) => ResolveExistence(KindUpdate, id, readers.zone)
      case DeleteZoneMetadata(id) => ResolveExistence(KindDelete, id, readers.zone)
      case ForeignMetadata(_) => Some(Skip)
      case UndecodableMetadata => Some(Skip)
  }

  /** The one projection from a stored row to the wire resource: it serves the handlers, the worker and recovery. */
  function Project(k: Key, row: Row): Response {
    match row
    case RegionRow(name, createdAt) => ProjectRegion(Region(k.id, name, createdAt))
    case ZoneRow(regionId, name, status, createdAt) =>
      ProjectZone(Zone(k.id, regionId, name, StatusFromName(status), createdAt))
  }

  /** Which column goes into which field of the wire resource; created_at loses what is below a second. */
  lemma ProjectedFields(id: Id, regionId: Id, name: string, status: ZoneStatus, t: Time)
    ensures Project(RegionKey(id), RegionRow(name, t)) == RegionResponse(id, name, t - t % 1_000_000_000)
    ensures Project(ZoneKey(id), ZoneRow(regionId, name, StatusName(status), t)) ==
      ZoneResponse(id, regionId, if status == 1 || status == 2 then status else 0, name, t - t % 1_000_000_000)
  {
    StatusRoundTrip(status);
  }

  function ReadRow(table: Table, k: Key): Reading {
    if k in table then Found(Project(k, table[k])) else Absent
  }

  /** Recovery wires both readers to the committed tables. */
  function Wired(table: Table): Readers {
    Readers(Some(id => ReadRow(table, RegionKey(id))), Some(id => ReadRow(table, ZoneKey(id))))
  }

  /** The metadata a use case stores for the statement it starts. */
  function MetadataOf(st: Stmt): Metadata {
    match st
    case InsertRegion(id, _) => CreateRegionMetadata(id)
    case PatchRegion(id, _) => UpdateRegionMetadata(id)
    case DropRegion(id) => DeleteRegionMetadata(id)
    case InsertZone(id, _, _, _) => CreateZoneMetadata(id)
    case PatchZone(id, _) => UpdateZoneMetadata(id)
    case DropZone(id) => DeleteZoneMetadata(id)
  }

  predicate IsDrop(st: Stmt) { st.DropRegion? || st.DropZone? }

  predicate IsInsert(st: Stmt) { st.InsertRegion? || st.InsertZone? }

  /** With recovery's wiring, an operation of a use case is never skipped: it is resolved as done
      exactly when its resource is present (for a delete: absent), with the resource as response. */
  lemma WiredResolve(st: Stmt, table: Table)
    ensures var k := KeyOf(st);
      Resolve(Some(MetadataOf(st)), Wired(table)) == Some(
        if IsDrop(st) then (if k in table then Interrupted else Resolved(None))
        else (if k in table then Resolved(Some(Project(k, table[k]))) else Interrupted))
  {
  }

  /** How a reading settles an operation on the resource: an unset reader skips it and a failing read leaves it for
      the next sweep; a create or an update is done, with the resource as response, exactly when it is found and
      interrupted exactly when it is absent; a delete the other way round, with an empty response. */
  ghost predicate SettledBy(outcome: Option<Outcome>, reader: Option<Id -> Reading>, id: Id, delete: bool) {
    && (outcome == Some(Skip) <==> reader.None?)
    && (outcome == None <==> reader.Some? && reader.value(id) == ReadError)
    && (outcome == Some(Interrupted) <==>
          reader.Some? && (if delete then reader.value(id).Found? else reader.value(id) == Absent))
    && (forall response :: outcome == Some(Resolved(response)) <==>
          && reader.Some?
          && if delete then reader.value(id) == Absent && response == None
             else reader.value(id).Found? && response == Some(reader.value(id).resource))
  }

  /** Which reading settles which operation, for any readers; metadata of another kind, or none, is skipped. */
  lemma ReadingDecides(id: Id, readers: Readers, typeUrl: string)
    ensures SettledBy(Resolve(Some(CreateRegionMetadata(id)), readers), readers.region, id, false)
    ensures SettledBy(Resolve(Some(UpdateRegionMetadata(id)), readers), readers.region, id, false)
    ensures SettledBy(Resolve(Some(DeleteRegionMetadata(id)), readers), readers.region, id, true)
    ensures SettledBy(Resolve(Some(CreateZoneMetadata(id)), readers), readers.zone, id, false)
    ensures SettledBy(Resolve(Some(UpdateZoneMetadata(id)), readers), readers.zone, id, false)
    ensures SettledBy(Resolve(Some(DeleteZoneMetadata(id)), readers), readers.zone, id, true)
    ensures Resolve(None, readers) == Some(Skip) && Resolve(Some(ForeignMetadata(typeUrl)), readers) == Some(Skip)
    ensures Resolve(Some(UndecodableMetadata), readers) == Some(Skip)
  {
    ReadingSettles(KindCreate, id, readers.region);
    ReadingSettles(KindUpdate, id, readers.region);
    ReadingSettles(KindDelete, id, readers.region);
    ReadingSettles(KindCreate, id, readers.zone);
    ReadingSettles(KindUpdate, id, readers.zone);
    ReadingSettles(KindDelete, id, readers.zone);
  }

  lemma ReadingSettles(kind: Kind, id: Id, reader: Option<Id -> Reading>)
    ensures SettledBy(ResolveExistence(kind, id, reader), reader, id, kind == KindDelete)
  {
  }

  /** The readers of a database that answers no query. */
  const UNREACHABLE := Readers(Some((id: Id) => ReadError), Some((id: Id) => ReadError))

  lemma UnreachableDecidesNothing(metadata: Option<Metadata>)
    ensures Resolve(metadata, UNREACHABLE) == None || Resolve(metadata, UNREACHABLE) == Some(Skip)
  {
  }
}
