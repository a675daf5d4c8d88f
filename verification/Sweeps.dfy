/** The reconciler's sweep: looking at open operations and settling them. */
module Sweeps {
  import opened Wrappers
  import opened Domain
  import opened Database
  import opened OperationStore
  import opened Resolver
  import opened Lro

  ghost function OpenOps(s: Sys): set<OpId> { set op | op in s.ops && !s.ops[op].done }

  function FirstOf(ids: seq<OpId>, down: set<OpId>, interruption: Status): seq<Action>
    requires ids != []
  {
    if ids[0] in down then [Look(ids[0], false)] else [Look(ids[0], true), Settle(ids[0], interruption)]
  }

  /** One sweep over the operations, in order; the database answers no read for those in `down`. */
  function SweepOf(ids: seq<OpId>, down: set<OpId>, interruption: Status): seq<Action> {
    if ids == [] then [] else FirstOf(ids, down, interruption) + SweepOf(ids[1..], down, interruption)
  }

  /** A look whose read fails changes nothing: the operation waits for the next sweep. */
  lemma FailedLook(s: Sys, op: OpId)
    requires IsOpen(s, op)
    ensures Can(s, Look(op, false)) && Act(s, Look(op, false)) == s
  {
    UnreachableDecidesNothing(s.ops[op].metadata);
  }

  lemma LookOne(s: Sys, op: OpId)
    requires SysInv(s) && IsOpen(s, op)
    ensures Can(s, Look(op, true)) && ResolveNow(s, op).Some?
    ensures Act(s, Look(op, true)) == s.(verdicts := s.verdicts[op := ResolveNow(s, op).value])
    ensures SysInv(Act(s, Look(op, true)))
  {
    assert Accepted(s, op);
    WiredResolve(s.jobs[op], s.db.table);
    StepKeepsBookkeeping(s, Look(op, true));
    StepKeepsTerminals(s, Look(op, true));
  }

  lemma SettleWrites(s: Sys, op: OpId, interruption: Status)
    requires IsOpen(s, op) && op in s.verdicts && s.verdicts[op] != Skip
    ensures Can(s, Settle(op, interruption))
    ensures var e := Act(s, Settle(op, interruption));
      && e.db == s.db && op in e.ops && e.ops == s.ops[op := e.ops[op]]
      && e.ops[op] ==
           if s.verdicts[op].Resolved? then s.ops[op].(done := true, response := s.verdicts[op].response)
           else s.ops[op].(done := true, error := Some(interruption))
  {
  }

  lemma SettleOne(s: Sys, op: OpId, interruption: Status)
    requires SysInv(s) && IsOpen(s, op) && op in s.verdicts
    ensures Can(s, Settle(op, interruption))
    ensures var e := Act(s, Settle(op, interruption));
      && e.db == s.db && op in e.ops && e.ops == s.ops[op := e.ops[op]] && e.ops[op].done && SysInv(e)
  {
    SettleWrites(s, op, interruption);
    StepKeepsBookkeeping(s, Settle(op, interruption));
    StepKeepsTerminals(s, Settle(op, interruption));
  }

  /** Looking at one open operation and settling it is always possible, finishes exactly it, and leaves the
      catalogue alone. */
  lemma SweepOne(s: Sys, op: OpId, interruption: Status) returns (e: Sys)
    requires SysInv(s) && IsOpen(s, op)
    ensures Acts(s, [Look(op, true), Settle(op, interruption)])
    ensures Ends(s, [Look(op, true), Settle(op, interruption)]) == e
    ensures SysInv(e) && OpenOps(e) == OpenOps(s) - {op} && e.db == s.db
    ensures op in e.ops && e.ops == s.ops[op := e.ops[op]]
  {
    LookOne(s, op);
    var s1 := Act(s, Look(op, true));
    SettleOne(s1, op, interruption);
    e := Act(s1, Settle(op, interruption));
    ActsTwo(s, Look(op, true), Settle(op, interruption));
    OpenAfter(s, e, op);
  }

  lemma LookFinds(s: Sys, op: OpId)
    requires SysInv(s) && IsOpen(s, op)
    ensures op in s.jobs && s.ops[op].response == None
    ensures ResolveNow(s, op) == Some(
      var k := KeyOf(s.jobs[op]);
      if IsDrop(s.jobs[op]) then (if k in s.db.table then Interrupted else Resolved(None))
      else (if k in s.db.table then Resolved(Some(Project(k, s.db.table[k]))) else Interrupted))
  {
    assert Accepted(s, op) && OpSound(s, op);
    WiredResolve(s.jobs[op], s.db.table);
  }

  /** What a look and a settlement store: a create or an update becomes done with the projected row if there is one
      and interrupted if there is none; a delete becomes done without a response if there is none and interrupted
      if there is one. */
  lemma SweepStores(s: Sys, op: OpId, interruption: Status) returns (o: Operation)
    requires SysInv(s) && IsOpen(s, op)
    ensures Acts(s, [Look(op, true), Settle(op, interruption)])
    ensures var e := Ends(s, [Look(op, true), Settle(op, interruption)]); op in e.ops && e.ops[op] == o
    ensures op in s.jobs
    ensures
      var st, k := s.jobs[op], KeyOf(s.jobs[op]);
      o == if st.DropRegion? || st.DropZone? then
             if k in s.db.table then s.ops[op].(done := true, error := Some(interruption))
             else s.ops[op].(done := true)
           else
             if k in s.db.table then s.ops[op].(done := true, response := Some(Project(k, s.db.table[k])))
             else s.ops[op].(done := true, error := Some(interruption))
  {
    LookFinds(s, op);
    LookOne(s, op);
    var s1 := Act(s, Look(op, true));
    ActsTwo(s, Look(op, true), Settle(op, interruption));
    SettleWrites(s1, op, interruption);
    o := Act(s1, Settle(op, interruption)).ops[op];
  }

  lemma ActsTwo(s: Sys, a: Action, b: Action)
    requires Can(s, a) && Can(Act(s, a), b)
    ensures Acts(s, [a, b]) && Ends(s, [a, b]) == Act(Act(s, a), b)
  {
    ActOne(s, a);
    ActOne(Act(s, a), b);
    ActsConcat(s, [a], [b]);
    assert [a] + [b] == [a, b];
  }

  lemma OpenAfter(s: Sys, e: Sys, op: OpId)
    requires op in e.ops && e.ops == s.ops[op := e.ops[op]] && e.ops[op].done
    ensures OpenOps(e) == OpenOps(s) - {op}
  {
  }

  predicate Distinct(ids: seq<OpId>) { forall i, j | 0 <= i < j < |ids| :: ids[i] != ids[j] }

  predicate AllOpen(s: Sys, ids: seq<OpId>) { forall i | 0 <= i < |ids| :: IsOpen(s, ids[i]) }

  ghost function IdSet(ids: seq<OpId>): set<OpId> { set id | id in ids }

  lemma StillOpen(s: Sys, e: Sys, ids: seq<OpId>)
    requires ids != [] && OpenOps(s) - {ids[0]} <= OpenOps(e)
    requires AllOpen(s, ids) && Distinct(ids)
    ensures AllOpen(e, ids[1..]) && Distinct(ids[1..])
    ensures IdSet(ids) == {ids[0]} + IdSet(ids[1..])
  {
    forall i | 0 <= i < |ids[1..]| ensures IsOpen(e, ids[1..][i]) {
      assert ids[1..][i] == ids[i + 1] && ids[i + 1] in OpenOps(s);
      assert ids[1..][i] in OpenOps(e);
    }
    assert ids == [ids[0]] + ids[1..];
  }

  lemma ClosedSets(open: set<OpId>, first: OpId, rest: set<OpId>, down: set<OpId>)
    ensures open - ({first} - down) - (rest - down) == open - (({first} + rest) - down)
  {
  }

  lemma FirstRuns(s: Sys, ids: seq<OpId>, down: set<OpId>, interruption: Status) returns (e: Sys)
    requires SysInv(s) && ids != [] && IsOpen(s, ids[0])
    ensures Acts(s, FirstOf(ids, down, interruption)) && Ends(s, FirstOf(ids, down, interruption)) == e
    ensures SysInv(e) && e.db == s.db
    ensures if ids[0] in down then e == s
            else ids[0] in e.ops && e.ops == s.ops[ids[0] := e.ops[ids[0]]]
    ensures OpenOps(e) == OpenOps(s) - ({ids[0]} - down)
  {
    if ids[0] in down {
      FailedLook(s, ids[0]);
      ActOne(s, Look(ids[0], false));
      e := s;
      assert {ids[0]} - down == {};
    } else {
      e := SweepOne(s, ids[0], interruption);
      assert {ids[0]} - down == {ids[0]};
    }
  }

  lemma SweepFirst(s: Sys, ids: seq<OpId>, down: set<OpId>, interruption: Status) returns (e: Sys)
    requires SysInv(s) && ids != [] && AllOpen(s, ids) && Distinct(ids)
    ensures Acts(s, FirstOf(ids, down, interruption)) && Ends(s, FirstOf(ids, down, interruption)) == e
    ensures SysInv(e) && e.db == s.db && AllOpen(e, ids[1..]) && Distinct(ids[1..])
    ensures OpenOps(e) == OpenOps(s) - ({ids[0]} - down) && IdSet(ids) == {ids[0]} + IdSet(ids[1..])
    ensures forall id | id in down && id in s.ops :: id in e.ops && e.ops[id] == s.ops[id]
  {
    e := FirstRuns(s, ids, down, interruption);
    StillOpen(s, e, ids);
  }

  /** One sweep over any list of distinct open operations runs to its end and finishes exactly those whose reads
      are answered; over a list of all of them with every read answered, none is left open. */
  lemma {:induction false} SweepFinishes(s: Sys, ids: seq<OpId>, down: set<OpId>, interruption: Status) returns (e: Sys)
    requires SysInv(s) && AllOpen(s, ids) && Distinct(ids)
    ensures Acts(s, SweepOf(ids, down, interruption)) && Ends(s, SweepOf(ids, down, interruption)) == e
    ensures OpenOps(e) == OpenOps(s) - (IdSet(ids) - down)
    ensures forall id | id in down && id in s.ops :: id in e.ops && e.ops[id] == s.ops[id]
    ensures e.db == s.db
    decreases |ids|
  {
    if ids == [] {
      e := s;
    } else {
      var s1 := SweepFirst(s, ids, down, interruption);
      e := SweepFinishes(s1, ids[1..], down, interruption);
      ActsConcat(s, FirstOf(ids, down, interruption), SweepOf(ids[1..], down, interruption));
      ClosedSets(OpenOps(s), ids[0], IdSet(ids[1..]), down);
    }
  }
}
