/** The long-running-operation store and the owner-scoped view of it. */
module OperationStore {
  import opened Wrappers
  import opened Domain

  type OpId = string

  /** google.rpc codes that occur here. */
  const CODE_CANCELED := 1

  datatype Status = Status(code: nat, message: string)

  const CANCELLED := Status(CODE_CANCELED, "operation cancelled")

  datatype Metadata =
    | CreateRegionMetadata(id: Id)
    | UpdateRegionMetadata(id: Id)
    | DeleteRegionMetadata(id: Id)
    | CreateZoneMetadata(id: Id)
    | UpdateZoneMetadata(id: Id)
    | DeleteZoneMetadata(id: Id)
    | ForeignMetadata(typeUrl: string)
    | UndecodableMetadata

  datatype Operation = Operation(
    id: OpId, principal: Principal, metadata: Option<Metadata>,
    done: bool, error: Option<Status>, response: Option<Response>)

  type Ops = map<OpId, Operation>

  datatype StoreErr = OpNotFound | OpAlreadyDone

  const NOBODY := Principal("", "")

  // ---- The compare-and-set transitions of the production store ----

  function FinishDone(op: Operation, response: Option<Response>): Result<Operation, StoreErr> {
    if op.done then Err(OpAlreadyDone) else Ok(op.(done := true, response := response))
  }

  function FinishError(op: Operation, status: Status): Result<Operation, StoreErr> {
    if op.done then Err(OpAlreadyDone) else Ok(op.(done := true, error := Some(status)))
  }

  predicate OwnerMatches(op: Operation, owner: Principal) {
    op.principal.kind == owner.kind && op.principal.id == owner.id
  }

  /** Cancelling an own open operation finishes it; an own cancelled one is returned as it is. */
  function CancelOwnedOf(ops: Ops, id: OpId, owner: Principal): (Ops, Result<Operation, StoreErr>) {
    if id !in ops || !OwnerMatches(ops[id], owner) then (ops, Err(OpNotFound))
    else if ops[id].done then
      var cancelled := ops[id].error.Some? && ops[id].error.value.code == CODE_CANCELED;
      (ops, if cancelled then Ok(ops[id]) else Err(OpAlreadyDone))
    else
      var cancelled := ops[id].(done := true, error := Some(CANCELLED));
      (ops[id := cancelled], Ok(cancelled))
  }

  function GetOwnedOf(ops: Ops, id: OpId, owner: Principal): Result<Operation, StoreErr> {
    if id in ops && OwnerMatches(ops[id], owner) then Ok(ops[id]) else Err(OpNotFound)
  }

  // ---- The in-memory store ----

  function MarkedDone(op: Operation, response: Option<Response>): Operation {
    op.(done := true, response := response)
  }

  function MarkedError(op: Operation, status: Option<Status>): Operation {
    op.(done := true, error := status)
  }

  class OpsRepo {
    var ops: Ops

    constructor ()
      ensures ops == map[]
    {
      ops := map[];
    }

    /** An operation without a principal gets the one of the calling context. */
    method Create(ctx: Principal, op: Operation)
      modifies this
      ensures ops == old(ops)[op.id :=
        op.(principal := if op.principal == Principal("", "") then ctx else op.principal)]
    {
      var cp := op;
      if cp.principal == NOBODY {
        cp := cp.(principal := ctx);
      }
      ops := ops[op.id := cp];
    }

    method CreateWithPrincipal(op: Operation, p: Principal)
      modifies this
      ensures ops == old(ops)[op.id := op.(principal := p)]
      ensures forall q :: GetOwnedOf(ops, op.id, q) == if q == p then Ok(op.(principal := p)) else Err(OpNotFound)
      ensures forall id, q | id != op.id :: GetOwnedOf(ops, id, q) == GetOwnedOf(old(ops), id, q)
    {
      ops := ops[op.id := op.(principal := p)];
    }

    method Get(id: OpId) returns (r: Result<Operation, StoreErr>)
      ensures r == if id in ops then Ok(ops[id]) else Err(OpNotFound)
      ensures r.Ok? <==> exists owner :: GetOwnedOf(ops, id, owner).Ok?
      ensures r.Ok? ==> GetOwnedOf(ops, id, r.value.principal) == r
    {
      if id !in ops { return Err(OpNotFound); }
      assert GetOwnedOf(ops, id, ops[id].principal) == Ok(ops[id]);
      return Ok(ops[id]);
    }

    /** Unguarded: overwrites a finished operation. */
    method MarkDone(id: OpId, response: Option<Response>) returns (failure: Option<StoreErr>)
      modifies this
      ensures id !in old(ops) ==> failure == Some(OpNotFound) && ops == old(ops)
      ensures id in old(ops) ==> failure == None && ops == old(ops)[id := MarkedDone(old(ops)[id], response)]
      ensures id in old(ops) ==> ops[id] == old(ops)[id].(done := true, response := response)
    {
      if id !in ops { return Some(OpNotFound); }
      var op := ops[id];
      op := op.(done := true);
      op := op.(response := response);
      ops := ops[id := op];
      return None;
    }

    /** Unguarded: overwrites a finished operation. */
    method MarkError(id: OpId, status: Option<Status>) returns (failure: Option<StoreErr>)
      modifies this
      ensures id !in old(ops) ==> failure == Some(OpNotFound) && ops == old(ops)
      ensures id in old(ops) ==> failure == None && ops == old(ops)[id := MarkedError(old(ops)[id], status)]
      ensures id in old(ops) ==> ops[id] == old(ops)[id].(done := true, error := status)
    {
      if id !in ops { return Some(OpNotFound); }
      var op := ops[id];
      op := op.(done := true);
      op := op.(error := status);
      ops := ops[id := op];
      return None;
    }

    method Cancel(id: OpId) returns (failure: Option<StoreErr>)
      modifies this
      ensures id !in old(ops) ==> failure == Some(OpNotFound) && ops == old(ops)
      ensures id in old(ops) && old(ops)[id].done ==> failure == Some(OpAlreadyDone) && ops == old(ops)
      ensures id in old(ops) && !old(ops)[id].done ==>
        && failure == None
        && ops == old(ops)[id := old(ops)[id].(done := true, error := Some(Status(1, "operation cancelled")))]
    {
      if id !in ops { return Some(OpNotFound); }
      if ops[id].done { return Some(OpAlreadyDone); }
      ops := ops[id := ops[id].(done := true, error := Some(CANCELLED))];
      return None;
    }

    method GetOwned(id: OpId, owner: Principal) returns (r: Result<Operation, StoreErr>)
      ensures r == GetOwnedOf(ops, id, owner)
      ensures r == if id in ops && ops[id].principal == owner then Ok(ops[id]) else Err(OpNotFound)
    {
      if id !in ops || !OwnerMatches(ops[id], owner) { return Err(OpNotFound); }
      return Ok(ops[id]);
    }

    method CancelOwned(id: OpId, owner: Principal) returns (r: Result<Operation, StoreErr>)
      modifies this
      ensures (ops, r) == CancelOwnedOf(old(ops), id, owner)
      ensures
        if id !in old(ops) || old(ops)[id].principal != owner then r == Err(OpNotFound) && ops == old(ops)
        else if !old(ops)[id].done then
          && r == Ok(old(ops)[id].(done := true, error := Some(Status(1, "operation cancelled"))))
          && ops == old(ops)[id := r.value]
        else
          && ops == old(ops)
          && r == if old(ops)[id].error.Some? && old(ops)[id].error.value.code == 1 then Ok(old(ops)[id])
                  else Err(OpAlreadyDone)
    {
      if id !in ops || !OwnerMatches(ops[id], owner) { return Err(OpNotFound); }
      var op := ops[id];
      if op.done {
        if op.error.Some? && op.error.value.code == 1 { return Ok(op); }
        return Err(OpAlreadyDone);
      }
      op := op.(done := true, error := Some(Status(1, "operation cancelled")));
      ops := ops[id := op];
      return Ok(op);
    }
  }

  // ---- Terminal state ----

  /** A finished operation is never changed again. */
  predicate KeepsTerminal(before: Operation, after: Operation) { before.done ==> after == before }

  /** Never both an error and a response. */
  predicate NotMixed(op: Operation) { op.error.None? || op.response.None? }

  /** The in-memory MarkDone and MarkError respect terminal state exactly on operations that are still open:
      on a finished one some call overwrites what was stored. */
  lemma UnguardedMarksOverwrite(op: Operation)
    ensures (forall response :: KeepsTerminal(op, MarkedDone(op, response))) <==> !op.done
    ensures (forall status :: KeepsTerminal(op, MarkedError(op, status))) <==> !op.done
  {
    var otherResponse := if op.response.None? then Some(Empty) else None;
    var otherStatus := if op.error.None? then Some(CANCELLED) else None;
    assert MarkedDone(op, otherResponse) != op && MarkedError(op, otherStatus) != op;
    assert op.done ==> !KeepsTerminal(op, MarkedDone(op, otherResponse));
    assert op.done ==> !KeepsTerminal(op, MarkedError(op, otherStatus));
  }

  /** So a worker finishing after Cancel leaves a mixed operation in that store, although it reports success. */
  lemma CancelThenMarkDoneMixes(op: Operation, response: Response)
    requires !op.done
    ensures var cancelled := FinishError(op, CANCELLED).value; !NotMixed(MarkedDone(cancelled, Some(response)))
  {
  }

  // ---- The handler ----

  datatype Answer = Granted(op: Operation) | InvalidArgument | NotFound | FailedPrecondition | Internal

  function AnswerGet(ops: Ops, id: OpId, caller: Principal): Answer {
    if id == "" then InvalidArgument
    else match GetOwnedOf(ops, id, caller)
      case Ok(op) => Granted(op)
      case Err(_) => NotFound
  }

  function AnswerCancel(ops: Ops, id: OpId, caller: Principal): (Ops, Answer) {
    if id == "" then (ops, InvalidArgument)
    else
      var (ops', r) := CancelOwnedOf(ops, id, caller);
      (ops', match r
             case Ok(op) => Granted(op)
             case Err(e) => if e.OpAlreadyDone? then FailedPrecondition else NotFound)
  }

  class OperationHandler {
    const repo: OpsRepo
    /** Whether the wired store offers the owner-scoped calls. */
    const owned: bool

    constructor (repo: OpsRepo, owned: bool)
      ensures this.repo == repo && this.owned == owned
    {
      this.repo, this.owned := repo, owned;
    }

    /** The owner gets its operation, finished or not; a missing one and another's look the same. */
    method Get(caller: Principal, id: OpId) returns (a: Answer)
      ensures id == "" ==> a == InvalidArgument
      ensures id != "" && !owned ==> a == Internal
      ensures id != "" && owned ==>
        a == if id in repo.ops && repo.ops[id].principal == caller then Granted(repo.ops[id]) else NotFound
      ensures owned ==> a == AnswerGet(repo.ops, id, caller)
    {
      if id == "" { return InvalidArgument; }
      if !owned { return Internal; }
      var r := repo.GetOwned(id, caller);
      match r
      case Ok(op) => a := Granted(op);
      case Err(e) => a := MapOpErr(e);
    }

    /** The owner's open operation is finished as cancelled; a cancelled one is granted again as it is. */
    method Cancel(caller: Principal, id: OpId) returns (a: Answer)
      modifies repo
      ensures id == "" ==> a == InvalidArgument && repo.ops == old(repo.ops)
      ensures id != "" && !owned ==> a == Internal && repo.ops == old(repo.ops)
      ensures id != "" && owned ==>
        var ops := old(repo.ops);
        if id !in ops || ops[id].principal != caller then a == NotFound && repo.ops == ops
        else if !ops[id].done then
          && a == Granted(ops[id].(done := true, error := Some(Status(1, "operation cancelled"))))
          && repo.ops == ops[id := a.op]
        else
          && repo.ops == ops
          && a == if ops[id].error.Some? && ops[id].error.value.code == 1 then Granted(ops[id]) else FailedPrecondition
      ensures owned ==> (repo.ops, a) == AnswerCancel(old(repo.ops), id, caller)
    {
      if id == "" { return InvalidArgument; }
      if !owned { return Internal; }
      var r := repo.CancelOwned(id, caller);
      match r
      case Ok(op) => a := Granted(op);
      case Err(e) => a := if e.OpAlreadyDone? then FailedPrecondition else MapOpErr(e);
    }
  }

  function MapOpErr(e: StoreErr): Answer {
    if e.OpNotFound? then NotFound else Internal
  }

  // ---- Owner scoping over whole conversations ----

  datatype Call = CallGet(id: OpId) | CallCancel(id: OpId)

  function Serve(ops: Ops, caller: Principal, call: Call): (Ops, Answer) {
    match call
    case CallGet(id) => (ops, AnswerGet(ops, id, caller))
    case CallCancel(id) => AnswerCancel(ops, id, caller)
  }

  function Converse(ops: Ops, caller: Principal, calls: seq<Call>): (Ops, seq<Answer>)
    decreases |calls|
  {
    if calls == [] then (ops, [])
    else
      var (ops', answer) := Serve(ops, caller, calls[0]);
      var (ops'', answers) := Converse(ops', caller, calls[1..]);
      (ops'', [answer] + answers)
  }

  predicate Owns(ops: Ops, id: OpId, p: Principal) { id in ops && OwnerMatches(ops[id], p) }

  /** Two stores show the same operations to p. */
  ghost predicate Agree(a: Ops, b: Ops, p: Principal) {
    forall id :: (Owns(a, id, p) <==> Owns(b, id, p)) && (Owns(a, id, p) ==> a[id] == b[id])
  }

  ghost predicate SameForOthers(a: Ops, b: Ops, p: Principal) {
    a.Keys == b.Keys && forall id | id in a && !Owns(a, id, p) :: b[id] == a[id]
  }

  /** A caller's answers depend only on its own operations, and its calls change no one else's. */
  lemma {:induction false} OwnerScoped(a: Ops, b: Ops, p: Principal, calls: seq<Call>)
    requires Agree(a, b, p)
    ensures Converse(a, p, calls).1 == Converse(b, p, calls).1
    ensures Agree(Converse(a, p, calls).0, Converse(b, p, calls).0, p)
    ensures SameForOthers(a, Converse(a, p, calls).0, p)
    decreases |calls|
  {
    if calls == [] {
    } else {
      var id := calls[0].id;
      assert Owns(a, id, p) <==> Owns(b, id, p);
      var a', b' := Serve(a, p, calls[0]).0, Serve(b, p, calls[0]).0;
      assert forall i :: Owns(a', i, p) <==> Owns(a, i, p);
      assert forall i :: Owns(b', i, p) <==> Owns(b, i, p);
      OwnerScoped(a', b', p, calls[1..]);
    }
  }

  /** Cancelling a finished own operation is granted exactly when it carries the canceled code, and never changes it. */
  lemma CancelFinished(ops: Ops, id: OpId, p: Principal)
    requires id != "" && Owns(ops, id, p) && ops[id].done
    ensures AnswerCancel(ops, id, p).0 == ops
    ensures AnswerCancel(ops, id, p).1.Granted? <==> ops[id].error.Some? && ops[id].error.value.code == 1
    ensures !AnswerCancel(ops, id, p).1.Granted? ==> AnswerCancel(ops, id, p).1 == FailedPrecondition
  {
  }

  /** Cancel finishes an open own operation, and repeating any cancel changes nothing and gets the same answer. */
  lemma CancelTwice(ops: Ops, id: OpId, p: Principal)
    ensures var (once, answer) := AnswerCancel(ops, id, p);
      && AnswerCancel(once, id, p) == (once, answer)
      && (answer.Granted? ==> answer.op.done && once[id] == answer.op && answer.op.error.Some?)
  {
  }
}
