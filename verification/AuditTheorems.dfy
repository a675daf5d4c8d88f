/** What a reader of the committed audit outbox may rely on, in every reachable state. */
module AuditTheorems {
  import opened Domain
  import opened Database
  import opened AuditLog
  import opened Consistency

  /** Folding the committed rows in sequence order rebuilds both tables except created_at, from
      whatever upper bound the reader folds up to, gaps and late commits notwithstanding. */
  lemma ReplayRebuildsTables(s: Db, n: nat)
    requires Reachable(s) && Below(s.log, n)
    ensures Replay(s.log, n) == Strip(s.table)
  {
    ReachableInv(s);
    var m := if n < s.nextSeq then n else s.nextSeq;
    ReplayStable(s.log, m, n);
    ReplayStable(s.log, m, s.nextSeq);
  }

  lemma ReplayIsLastRow(log: Log, n: nat, k: Key, m: nat)
    requires m in log && m < n && log[m].key == k && QuietAfter(log, m + 1, k)
    ensures log[m].event == DELETED ==> k !in Replay(log, n)
    ensures log[m].event != DELETED ==> k in Replay(log, n) && Replay(log, n)[k] == log[m].image
  {
    ReplayQuiet(log, m + 1, n, k);
  }

  lemma LogIsBelow(s: Db)
    requires Reachable(s)
    ensures Below(s.log, s.nextSeq)
  {
    ReachableInv(s);
  }

  /** The row says that the resource is gone, or holds its present columns but created_at. */
  predicate Tells(table: Table, k: Key, e: OutboxRow) {
    if e.event == DELETED then k !in table
    else
      && k in table
      && match table[k]
         case RegionRow(name, _) => e.image == RegionImage(name)
         case ZoneRow(regionId, name, status, _) => e.image == ZoneImage(regionId, name, status)
  }

  lemma RowTells(table: Table, log: Log, n: nat, k: Key, m: nat)
    requires Strip(table) == Replay(log, n) && Below(log, n)
    requires m in log && log[m].key == k && QuietAfter(log, m + 1, k)
    ensures Tells(table, k, log[m])
  {
    ReplayIsLastRow(log, n, k, m);
    assert k in Strip(table) <==> k in table;
  }

  lemma NoRowTells(table: Table, log: Log, n: nat, k: Key)
    requires Strip(table) == Replay(log, n) && QuietAfter(log, 0, k)
    ensures k !in table
  {
    ReplayQuiet(log, 0, n, k);
    assert k in Strip(table) <==> k in table;
  }

  /** The last committed row of a resource tells its present state: absent after DELETED and before any row, and
      otherwise present with exactly the recorded columns. */
  lemma LastRowTells(s: Db, k: Key)
    requires Reachable(s)
    ensures QuietAfter(s.log, 0, k) ==> k !in s.table
    ensures forall m | m in s.log && s.log[m].key == k && QuietAfter(s.log, m + 1, k) :: Tells(s.table, k, s.log[m])
  {
    LogIsBelow(s);
    ReplayRebuildsTables(s, s.nextSeq);
    if QuietAfter(s.log, 0, k) { NoRowTells(s.table, s.log, s.nextSeq, k); }
    forall m | m in s.log && s.log[m].key == k && QuietAfter(s.log, m + 1, k) ensures Tells(s.table, k, s.log[m]) {
      RowTells(s.table, s.log, s.nextSeq, k, m);
    }
  }

  /** Every prefix of the committed log replays to a catalogue in which each zone's region exists. */
  lemma PrefixesAreClosed(s: Db, n: nat)
    requires Reachable(s)
    ensures Closed(Replay(s.log, n))
  {
    ReachableInv(s);
  }

  /** Per resource, the log is a prefix of (CREATED UPDATED* DELETED)*, and CREATED minus DELETED
      is 1 when the row is present and 0 otherwise. */
  lemma ResourceLifecycle(s: Db, k: Key)
    requires Reachable(s)
    ensures var events := Events(s.log, s.nextSeq, k);
      && Lifecycle(events)
      && (Alive(events) <==> k in s.table)
      && Count(events, CREATED) - Count(events, DELETED) == if k in s.table then 1 else 0
  {
    ReachableInv(s);
    LegalLifecycle(s.log, s.nextSeq, k);
    assert k in Strip(s.table) <==> k in s.table;
  }

  /** Over all resources, CREATED minus DELETED is the number of rows in the two tables. */
  lemma EventsCountRows(s: Db)
    requires Reachable(s)
    ensures |s.table| == Total(s.log, s.nextSeq, CREATED) - Total(s.log, s.nextSeq, DELETED)
  {
    ReachableInv(s);
    LegalTotal(s.log, s.nextSeq);
    assert Strip(s.table).Keys == s.table.Keys;
    assert |Strip(s.table).Keys| == |Strip(s.table)| && |s.table.Keys| == |s.table|;
  }

  /** Committed transactions and committed outbox rows correspond one to one, and the row is the one
      the transaction's statement calls for. */
  lemma RowsBelongToTransactions(s: Db)
    requires Reachable(s)
    ensures forall t | Done(s, t) :: RowOf(s, t) in s.log && s.log[RowOf(s, t)] == EntryFor(s, t)
    ensures forall t, u | Done(s, t) && Done(s, u) && t != u :: RowOf(s, t) != RowOf(s, u)
    ensures forall n | n in s.log :: exists t :: Done(s, t) && RowOf(s, t) == n
  {
    ReachableInv(s);
  }

  // ---- When a reader may stop re-reading a prefix ----

  /** No open transaction has drawn a number below n, and n itself has been passed. */
  ghost predicate Settled(s: Db, n: nat) {
    n <= s.nextSeq && forall t | Drew(s, t) :: SeqOf(s, t) >= n
  }

  ghost predicate SamePrefix(a: Log, b: Log, n: nat) {
    forall m: nat | m < n :: (m in a <==> m in b) && (m in a ==> a[m] == b[m])
  }

  lemma StepKeepsSettled(s: Db, step: Step, n: nat)
    requires Inv(s) && Enabled(s, step) && Settled(s, n)
    ensures Settled(Take(s, step), n) && SamePrefix(s.log, Take(s, step).log, n)
  {
    var s' := Take(s, step);
    assert forall t :: Drew(s', t) ==> (Drew(s, t) && SeqOf(s', t) == SeqOf(s, t)) || SeqOf(s', t) == s.nextSeq;
    if step.Commit? { assert Drew(s, step.t); }
  }

  lemma {:induction false} RunKeepsSettled(s: Db, steps: seq<Step>, n: nat)
    requires Inv(s) && Runs(s, steps) && Settled(s, n)
    ensures SamePrefix(s.log, After(s, steps).log, n)
    decreases |steps|
  {
    if steps == [] {
    } else {
      StepKeepsInv(s, steps[0]);
      StepKeepsSettled(s, steps[0], n);
      RunKeepsSettled(Take(s, steps[0]), steps[1..], n);
    }
  }

  /** The rows below an already drawn number n are final exactly when no open transaction holds a
      drawn number below n; otherwise some continuation adds a row there. */
  lemma PrefixFinalIffSettled(s: Db, n: nat)
    requires Reachable(s) && n <= s.nextSeq
    ensures Settled(s, n) <==>
      forall steps | Runs(s, steps) :: SamePrefix(s.log, After(s, steps).log, n)
  {
    ReachableInv(s);
    if Settled(s, n) {
      forall steps | Runs(s, steps) ensures SamePrefix(s.log, After(s, steps).log, n) {
        RunKeepsSettled(s, steps, n);
      }
    } else {
      var t :| Drew(s, t) && SeqOf(s, t) < n;
      var steps := [Commit(t, true)];
      assert PendingSound(s, t);
      OneStep(s, steps[0]);
      assert Runs(s, steps) && !SamePrefix(s.log, After(s, steps).log, n);
    }
  }

  lemma InsertUpToWrite(s: Db, t: TxId, id: Id) returns (s': Db)
    requires Reachable(s) && t !in s.txs && RegionKey(id) !in s.table && !RowHeld(s, RegionKey(id))
    ensures Reachable(s') && s'.log == s.log && s'.table == s.table && s'.nextSeq == s.nextSeq
    ensures t in s'.txs && s'.txs == s.txs[t := s'.txs[t]]
    ensures s'.txs[t].progress.Wrote? && KeyIn(s', t) == RegionKey(id)
  {
    var begin := Begin(t, InsertRegion(id, ""), "", 0);
    var s1 := Take(s, begin);
    ReachableStep(s, begin);
    assert forall u :: Holds(s1, u) ==> Holds(s, u) && KeyIn(s1, u) == KeyIn(s, u);
    assert !RowHeld(s1, RegionKey(id));
    assert !Waits(s1, s1.txs[t].stmt);
    ReachableStep(s1, Execute(t));
    s' := Take(s1, Execute(t));
  }

  /** A region insert brought to the point where it has drawn its number. */
  lemma InsertUpToEmit(s: Db, t: TxId, id: Id) returns (s': Db)
    requires Reachable(s) && t !in s.txs && RegionKey(id) !in s.table && !RowHeld(s, RegionKey(id))
    ensures Reachable(s') && s'.log == s.log && s'.table == s.table
    ensures Drew(s', t) && SeqOf(s', t) == s.nextSeq && s'.nextSeq == s.nextSeq + 1
    ensures s'.txs == s.txs[t := s'.txs[t]] && KeyIn(s', t) == RegionKey(id)
  {
    var s1 := InsertUpToWrite(s, t, id);
    ReachableStep(s1, Emit(t));
    s' := Take(s1, Emit(t));
  }

  /** Such continuations exist: a later number can be committed while an earlier one is still open,
      so a reader that only asks for numbers above the last one it saw would miss a row. */
  lemma CommitsOutOfOrder(a: TxId, b: TxId, x: Id, y: Id) returns (s: Db)
    requires a != b && x != y
    ensures Reachable(s) && 1 in s.log && 0 !in s.log && Drew(s, a) && SeqOf(s, a) == 0
  {
    assert Runs(INITIAL, []) && After(INITIAL, []) == INITIAL;
    var s1 := InsertUpToEmit(INITIAL, a, x);
    var s2 := InsertUpToEmit(s1, b, y);
    assert Drew(s2, a) && SeqOf(s2, a) == 0;
    ReachableStep(s2, Commit(b, true));
    s := Take(s2, Commit(b, true));
  }
}
