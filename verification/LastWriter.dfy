/** The stored row is the one written by the transaction with the highest committed number on its key. */
module LastWriter {
  import opened Database
  import opened Consistency

  /** No other committed transaction on the same row has a higher number. */
  ghost predicate Latest(s: Db, t: TxId)
    requires Done(s, t)
  {
    forall u | Done(s, u) && KeyIn(s, u) == KeyIn(s, t) :: RowOf(s, u) <= RowOf(s, t)
  }

  predicate Stored(s: Db, t: TxId)
    requires Done(s, t)
  {
    match s.txs[t].progress.w
    case Put(row) => KeyIn(s, t) in s.table && s.table[KeyIn(s, t)] == row
    case Remove => KeyIn(s, t) !in s.table
  }

  ghost predicate LatestStored(s: Db) {
    forall t | Done(s, t) && Latest(s, t) :: Stored(s, t)
  }

  /** A commit is later than every row already committed on its key. */
  lemma Superseded(s: Db, step: Step, t: TxId)
    requires Inv(s) && Enabled(s, step) && step.Commit? && Done(s, t) && KeyIn(s, step.t) == KeyIn(s, t)
    ensures Done(Take(s, step), t) && !Latest(Take(s, step), t)
  {
    var s' := Take(s, step);
    StepFrame(s, step);
    assert PendingSound(s, step.t);
    assert RowOf(s, t) in s.log && s.log[RowOf(s, t)] == EntryFor(s, t);
    assert Done(s', step.t) && KeyIn(s', step.t) == KeyIn(s', t) && RowOf(s', step.t) > RowOf(s', t);
  }

  lemma OtherStaysLatest(s: Db, step: Step, t: TxId)
    requires Enabled(s, step) && t != step.t && Done(Take(s, step), t) && Latest(Take(s, step), t)
    ensures Done(s, t) && Latest(s, t)
  {
    var s' := Take(s, step);
    StepFrame(s, step);
    forall u | Done(s, u) && KeyIn(s, u) == KeyIn(s, t) ensures RowOf(s, u) <= RowOf(s, t) {
      assert Done(s', u) && s'.txs[u] == s.txs[u];
    }
  }

  lemma StepKeepsLatestAt(s: Db, step: Step, t: TxId)
    requires Inv(s) && Enabled(s, step) && LatestStored(s) && Done(Take(s, step), t)
    ensures Latest(Take(s, step), t) ==> Stored(Take(s, step), t)
  {
    StepFrame(s, step);
    if t != step.t {
      if step.Commit? && KeyIn(s, step.t) == KeyIn(s, t) {
        Superseded(s, step, t);
      } else if Latest(Take(s, step), t) {
        OtherStaysLatest(s, step, t);
        OtherRowStays(s, step, t);
      }
    }
  }

  lemma OtherRowStays(s: Db, step: Step, t: TxId)
    requires Enabled(s, step) && Done(s, t) && t != step.t && Stored(s, t)
    requires step.Commit? ==> KeyIn(s, step.t) != KeyIn(s, t)
    ensures Done(Take(s, step), t) && Stored(Take(s, step), t)
  {
    StepFrame(s, step);
  }

  lemma StepKeepsLatest(s: Db, step: Step)
    requires Inv(s) && Enabled(s, step) && LatestStored(s)
    ensures LatestStored(Take(s, step))
  {
    forall t | Done(Take(s, step), t) && Latest(Take(s, step), t) ensures Stored(Take(s, step), t) {
      StepKeepsLatestAt(s, step, t);
    }
  }

  lemma {:induction false} RunKeepsLatest(s: Db, steps: seq<Step>)
    requires Inv(s) && LatestStored(s) && Runs(s, steps)
    ensures LatestStored(After(s, steps))
    decreases |steps|
  {
    if steps == [] {
    } else {
      StepKeepsInv(s, steps[0]);
      StepKeepsLatest(s, steps[0]);
      RunKeepsLatest(Take(s, steps[0]), steps[1..]);
    }
  }

  /** Every column of a stored row, created_at included, is what its latest committed transaction wrote. */
  lemma LatestIsStored(s: Db, t: TxId)
    requires Reachable(s) && Done(s, t) && Latest(s, t)
    ensures Stored(s, t)
  {
    var steps :| Runs(INITIAL, steps) && After(INITIAL, steps) == s;
    InitialInv();
    RunKeepsLatest(INITIAL, steps);
  }
}
