/** The use cases that accept mutations: synchronous validation, one operation row, one worker. */
module UseCases {
  import opened Wrappers
  import opened Slugs
  import opened Domain
  import opened OperationStore
  import opened Resolver
  import opened Lro

  datatype Refusal = InvalidArg | StoreFailed

  /** A worker handed to the runner, with the statement its closure will execute. */
  datatype Job = Job(op: OpId, stmt: Stmt)

  /** The fate of writing the operation row; like any commit, it may happen without being acknowledged. */
  datatype StoreWrite = Stored | Refused | Unacknowledged

  /** What accepting a planned request leaves behind: nothing when validation or the operation store refuses; one
      new open operation otherwise, with one started worker exactly when the caller is told of it. */
  ghost predicate AcceptedAs(
      plan: Option<Stmt>, ctx: Principal, freshId: OpId, store: StoreWrite, r: Result<Operation, Refusal>,
      opsBefore: Ops, opsAfter: Ops, startedBefore: seq<Job>, startedAfter: seq<Job>)
  {
    match plan
    case None => r == Err(InvalidArg) && opsAfter == opsBefore && startedAfter == startedBefore
    case Some(st) =>
      && r == (if store.Stored? then Ok(NewOperation(freshId, ctx, st)) else Err(StoreFailed))
      && opsAfter == (if store.Refused? then opsBefore else opsBefore[freshId := NewOperation(freshId, ctx, st)])
      && startedAfter == (if store.Stored? then startedBefore + [Job(freshId, st)] else startedBefore)
  }

  /** The operation store and the runner both use cases share. */
  class Intake {
    const ops: OpsRepo
    var started: seq<Job>

    constructor (ops: OpsRepo)
      ensures this.ops == ops && started == []
    {
      this.ops, started := ops, [];
    }

    /** Write the operation row, then start the worker. */
    method Launch(ctx: Principal, freshId: OpId, store: StoreWrite, st: Stmt) returns (r: Result<Operation, Refusal>)
      modifies this, ops
      ensures AcceptedAs(Some(st), ctx, freshId, store, r, old(ops.ops), ops.ops, old(started), started)
    {
      var op := Operation(freshId, ctx, Some(MetadataOf(st)), false, None, None);
      if store.Refused? {
        return Err(StoreFailed);
      }
      ops.Create(ctx, op);
      if store.Unacknowledged? {
        return Err(StoreFailed);
      }
      started := started + [Job(freshId, st)];
      return Ok(op);
    }
  }

  class RegionUseCase {
    const intake: Intake

    constructor (intake: Intake)
      ensures this.intake == intake
    {
      this.intake := intake;
    }

    method Create(ctx: Principal, freshId: OpId, store: StoreWrite, id: Id, name: string)
      returns (r: Result<Operation, Refusal>)
      modifies intake, intake.ops
      ensures r != Err(InvalidArg) <==> ValidID(id) && |name| <= 253
      ensures r.Ok? ==> intake.started == old(intake.started) + [Job(freshId, InsertRegion(id, name))]
      ensures r.Ok? ==> r.value == Operation(freshId, ctx, Some(CreateRegionMetadata(id)), false, None, None)
      ensures r.Err? ==> intake.started == old(intake.started)
      ensures r != Err(InvalidArg) ==> (r.Ok? <==> store == Stored)
      ensures AcceptedAs(Plan(CreateRegion(id, name)), ctx, freshId, store, r,
                         old(intake.ops.ops), intake.ops.ops, old(intake.started), intake.started)
    {
      var region := Region(id, name, 0);
      if !ValidRegion(region) {
        return Err(InvalidArg);
      }
      r := intake.Launch(ctx, freshId, store, InsertRegion(region.id, region.name));
    }

    method Update(ctx: Principal, freshId: OpId, store: StoreWrite, id: Id, name: string)
      returns (r: Result<Operation, Refusal>)
      modifies intake, intake.ops
      ensures r != Err(InvalidArg) <==> ValidID(id) && |name| <= 253
      ensures r.Ok? ==>
        intake.started == old(intake.started) + [Job(freshId, PatchRegion(id, if name == "" then None else Some(name)))]
      ensures r.Ok? ==> r.value == Operation(freshId, ctx, Some(UpdateRegionMetadata(id)), false, None, None)
      ensures r.Err? ==> intake.started == old(intake.started)
      ensures r != Err(InvalidArg) ==> (r.Ok? <==> store == Stored)
      ensures AcceptedAs(Plan(UpdateRegion(id, name)), ctx, freshId, store, r,
                         old(intake.ops.ops), intake.ops.ops, old(intake.started), intake.started)
    {
      if !ValidID(id) {
        return Err(InvalidArg);
      }
      var newName: Option<string> := None;
      if name != "" {
        if !ValidName(name) {
          return Err(InvalidArg);
        }
        newName := Some(name);
      }
      r := intake.Launch(ctx, freshId, store, PatchRegion(id, newName));
    }

    method Delete(ctx: Principal, freshId: OpId, store: StoreWrite, id: Id)
      returns (r: Result<Operation, Refusal>)
      modifies intake, intake.ops
      ensures r != Err(InvalidArg) <==> ValidID(id)
      ensures r.Ok? ==> intake.started == old(intake.started) + [Job(freshId, DropRegion(id))]
      ensures r.Ok? ==> r.value == Operation(freshId, ctx, Some(DeleteRegionMetadata(id)), false, None, None)
      ensures r.Err? ==> intake.started == old(intake.started)
      ensures r != Err(InvalidArg) ==> (r.Ok? <==> store == Stored)
      ensures AcceptedAs(Plan(DeleteRegion(id)), ctx, freshId, store, r,
                         old(intake.ops.ops), intake.ops.ops, old(intake.started), intake.started)
    {
      if !ValidID(id) {
        return Err(InvalidArg);
      }
      r := intake.Launch(ctx, freshId, store, DropRegion(id));
    }
  }

  class ZoneUseCase {
    const intake: Intake

    constructor (intake: Intake)
      ensures this.intake == intake
    {
      this.intake := intake;
    }

    /** An omitted status becomes UP. */
    method Create(
        ctx: Principal, freshId: OpId, store: StoreWrite, id: Id, regionId: Id, name: string, status: ZoneStatus)
      returns (r: Result<Operation, Refusal>)
      modifies intake, intake.ops
      ensures r != Err(InvalidArg) <==>
        ValidID(id) && ValidID(regionId) && |name| <= 253 && (status == 0 || status == 1 || status == 2)
      ensures r.Ok? ==>
        intake.started ==
        old(intake.started) + [Job(freshId, InsertZone(id, regionId, name, if status == 0 then 1 else status))]
      ensures r.Ok? ==> r.value == Operation(freshId, ctx, Some(CreateZoneMetadata(id)), false, None, None)
      ensures r.Err? ==> intake.started == old(intake.started)
      ensures r != Err(InvalidArg) ==> (r.Ok? <==> store == Stored)
      ensures AcceptedAs(Plan(CreateZone(id, regionId, name, status)), ctx, freshId, store, r,
                         old(intake.ops.ops), intake.ops.ops, old(intake.started), intake.started)
    {
      var st := status;
      if st == STATUS_UNSPECIFIED {
        st := STATUS_UP;
      }
      var z := Zone(id, regionId, name, st, 0);
      if !ValidZone(z) {
        return Err(InvalidArg);
      }
      r := intake.Launch(ctx, freshId, store, InsertZone(z.id, z.regionId, z.name, z.status));
    }

    /** Empty fields and an unspecified status are not updated. */
    method Update(
        ctx: Principal, freshId: OpId, store: StoreWrite, id: Id, regionId: Id, name: string, status: ZoneStatus)
      returns (r: Result<Operation, Refusal>)
      modifies intake, intake.ops
      ensures r != Err(InvalidArg) <==>
        && ValidID(id) && (regionId == [] || ValidID(regionId)) && |name| <= 253
        && (status == 0 || status == 1 || status == 2)
      ensures r.Ok? ==>
        intake.started == old(intake.started) + [Job(freshId, PatchZone(id, ZoneParams(
          if regionId == [] then None else Some(regionId),
          if name == "" then None else Some(name),
          if status == 0 then None else Some(status))))]
      ensures r.Ok? ==> r.value == Operation(freshId, ctx, Some(UpdateZoneMetadata(id)), false, None, None)
      ensures r.Err? ==> intake.started == old(intake.started)
      ensures r != Err(InvalidArg) ==> (r.Ok? <==> store == Stored)
      ensures AcceptedAs(Plan(UpdateZone(id, regionId, name, status)), ctx, freshId, store, r,
                         old(intake.ops.ops), intake.ops.ops, old(intake.started), intake.started)
    {
      if !ValidID(id) {
        return Err(InvalidArg);
      }
      var p := ZoneParams(None, None, None);
      if regionId != [] {
        if !ValidID(regionId) {
          return Err(InvalidArg);
        }
        p := p.(regionId := Some(regionId));
      }
      if name != "" {
        if !ValidName(name) {
          return Err(InvalidArg);
        }
        p := p.(name := Some(name));
      }
      if status != STATUS_UNSPECIFIED {
        if !ValidStatus(status) {
          return Err(InvalidArg);
        }
        p := p.(status := Some(status));
      }
      r := intake.Launch(ctx, freshId, store, PatchZone(id, p));
    }

    method Delete(ctx: Principal, freshId: OpId, store: StoreWrite, id: Id)
      returns (r: Result<Operation, Refusal>)
      modifies intake, intake.ops
      ensures r != Err(InvalidArg) <==> ValidID(id)
      ensures r.Ok? ==> intake.started == old(intake.started) + [Job(freshId, DropZone(id))]
      ensures r.Ok? ==> r.value == Operation(freshId, ctx, Some(DeleteZoneMetadata(id)), false, None, None)
      ensures r.Err? ==> intake.started == old(intake.started)
      ensures r != Err(InvalidArg) ==> (r.Ok? <==> store == Stored)
      ensures AcceptedAs(Plan(DeleteZone(id)), ctx, freshId, store, r,
                         old(intake.ops.ops), intake.ops.ops, old(intake.started), intake.started)
    {
      if !ValidID(id) {
        return Err(InvalidArg);
      }
      r := intake.Launch(ctx, freshId, store, DropZone(id));
    }
  }

  /** A use case call whose operation row is not refused is the Submit action of the protocol; a refused one is
      no action at all. */
  lemma AcceptanceIsSubmit(
      s: Sys, op: OpId, who: Principal, req: Request, store: StoreWrite, r: Result<Operation, Refusal>,
      opsAfter: Ops, started: seq<Job>, startedAfter: seq<Job>)
    requires Can(s, Submit(op, who, req, store.Stored?))
    requires AcceptedAs(Plan(req), who, op, store, r, s.ops, opsAfter, started, startedAfter)
    ensures store.Refused? ==> r.Err? && opsAfter == s.ops && startedAfter == started
    ensures !store.Refused? ==>
      var s' := Act(s, Submit(op, who, req, store.Stored?));
      && opsAfter == s'.ops
      && (r.Ok? <==> HasWorker(s', op, Queued) && s' != s)
      && (r.Ok? ==> startedAfter == started + [Job(op, s'.jobs[op])] && r.value == opsAfter[op] && IsOpen(s', op))
      && (r.Err? ==> startedAfter == started)
  {
    assert op !in s.ops;
  }
}
