/** What every interleaving of transactions keeps: locks, the agreement of tables and outbox,
    and the accounting of outbox rows to transactions. */
module Consistency {
  import opened Wrappers
  import opened Domain
  import opened Database
  import opened AuditLog

  // ---- The invariant ----

  function KeyIn(s: Db, t: TxId): Key
    requires t in s.txs
  {
    KeyOf(s.txs[t].stmt)
  }

  /** The region an in-flight write makes its row refer to. */
  function Target(s: Db, t: TxId): Option<Id>
    requires Holds(s, t)
  {
    var w := s.txs[t].progress.w;
    if w.Put? then ParentOf(w.row) else None
  }

  /** Two holders never hold the same row; what a holder computed is still what its statement would
      compute; the region it points at exists and nobody is deleting it; a region being deleted has
      no zones left. */
  ghost predicate Locking(s: Db) {
    && Typed(s.table)
    && ForeignKeysHold(s.table)
    && Apart(s)
    && (forall t | Holds(s, t) :: HolderSound(s, t))
  }

  ghost predicate Apart(s: Db) {
    forall t, u | Holds(s, t) && Holds(s, u) && t != u :: KeyIn(s, t) != KeyIn(s, u)
  }

  ghost predicate HolderSound(s: Db, t: TxId)
    requires Holds(s, t)
  {
    var tx := s.txs[t];
    && Effect(s.table, tx.stmt, tx.now) == Ok(tx.progress.w)
    && SharedRegion(s.table, tx.stmt) == tx.progress.share
    && (Target(s, t).Some? ==> RegionKey(Target(s, t).value) in s.table && !Dropping(s, Target(s, t).value))
    && (tx.stmt.DropRegion? ==> !Referenced(s.table, tx.stmt.id))
  }

  predicate Drew(s: Db, t: TxId) { t in s.txs && s.txs[t].progress.Emitted? }

  function SeqOf(s: Db, t: TxId): nat
    requires Drew(s, t)
  {
    s.txs[t].progress.seqNo
  }

  ghost predicate Journal(s: Db) {
    && Below(s.log, s.nextSeq)
    && Strip(s.table) == Replay(s.log, s.nextSeq)
    && AllLegal(s.log)
    && (forall n: nat :: Closed(Replay(s.log, n)))
    && (forall t, u | Drew(s, t) && Drew(s, u) && t != u :: SeqOf(s, t) != SeqOf(s, u))
    && (forall t | Drew(s, t) :: PendingSound(s, t))
  }

  /** A drawn number is still free, its row is not written at later numbers, and committing there is
      harmless to every reader that has already read past it. */
  ghost predicate PendingSound(s: Db, t: TxId)
    requires Drew(s, t)
  {
    var n := SeqOf(s, t);
    && n < s.nextSeq && n !in s.log
    && QuietAfter(s.log, n, KeyIn(s, t))
    && (Target(s, t).Some? ==> forall m | m >= n :: RegionKey(Target(s, t).value) in Replay(s.log, m))
    && (s.txs[t].stmt.DropRegion? ==> forall m | m >= n :: !ViewReferences(Replay(s.log, m), s.txs[t].stmt.id))
  }

  predicate Done(s: Db, t: TxId) { t in s.txs && s.txs[t].progress.Committed? }

  ghost predicate Ledger(s: Db) {
    && (forall t | Done(s, t) :: RowOf(s, t) in s.log && s.log[RowOf(s, t)] == EntryFor(s, t))
    && (forall t, u | Done(s, t) && Done(s, u) && t != u :: RowOf(s, t) != RowOf(s, u))
    && (forall n | n in s.log :: Accounted(s, n))
  }

  ghost predicate Accounted(s: Db, n: nat) { exists t :: Done(s, t) && RowOf(s, t) == n }

  function RowOf(s: Db, t: TxId): nat
    requires Done(s, t)
  {
    s.txs[t].progress.seqNo
  }

  function EntryFor(s: Db, t: TxId): OutboxRow
    requires Done(s, t)
  {
    EntryOf(s.txs[t].stmt, s.txs[t].progress.w, s.txs[t].actor)
  }

  ghost predicate Inv(s: Db) { Locking(s) && Journal(s) && Ledger(s) }

  // ---- Locking is kept ----

  lemma BeginKeepsLocking(s: Db, step: Step)
    requires Locking(s) && step.Begin? && Enabled(s, step)
    ensures Locking(Take(s, step))
  {
    var s' := Take(s, step);
    assert forall u :: Holds(s', u) <==> Holds(s, u);
    forall t | Holds(s', t) ensures HolderSound(s', t) { assert HolderSound(s, t); }
  }

  /** A statement that did not have to wait leaves its own transaction a sound holder. */
  lemma ExecutedIsSound(s: Db, t: TxId)
    requires Locking(s) && Enabled(s, Execute(t)) && Holds(Take(s, Execute(t)), t)
    ensures HolderSound(Take(s, Execute(t)), t)
  {
    var s' := Take(s, Execute(t));
    var tx := s.txs[t];
    if Target(s', t).Some? {
      var region := Target(s', t).value;
      var k := KeyOf(tx.stmt);
      if SharedRegion(s.table, tx.stmt) == Some(region) {
        assert !Dropping(s, region);
      } else {
        assert k in s.table && ParentOf(s.table[k]) == Some(region);
        assert forall u | Holds(s, u) && s.txs[u].stmt == DropRegion(region) ::
          HolderSound(s, u) && Referenced(s.table, region);
        assert !Dropping(s, region);
      }
      assert forall u :: Holds(s', u) && s'.txs[u].stmt == DropRegion(region) ==> Holds(s, u);
    }
  }

  lemma ExecuteKeepsHolder(s: Db, t: TxId, u: TxId)
    requires Locking(s) && Enabled(s, Execute(t)) && Holds(s, u)
    ensures u != t && Holds(Take(s, Execute(t)), u) && HolderSound(Take(s, Execute(t)), u)
  {
    var s' := Take(s, Execute(t));
    assert HolderSound(s, u);
    if Target(s, u).Some? {
      var region := Target(s, u).value;
      if s.txs[t].stmt == DropRegion(region) && Holds(s', t) {
        assert false;
      }
      assert forall d :: Holds(s', d) && d != t ==> Holds(s, d) && s'.txs[d] == s.txs[d];
      assert !Dropping(s', region);
    }
  }

  lemma ExecuteKeepsApart(s: Db, t: TxId)
    requires Apart(s) && Enabled(s, Execute(t))
    ensures Apart(Take(s, Execute(t)))
    ensures forall u | Holds(Take(s, Execute(t)), u) && u != t :: Holds(s, u)
  {
    var s' := Take(s, Execute(t));
    StepFrame(s, Execute(t));
    if Holds(s', t) {
      assert !RowHeld(s, KeyIn(s, t));
    }
    forall u, v | Holds(s', u) && Holds(s', v) && u != v ensures KeyIn(s', u) != KeyIn(s', v) {
      assert KeyIn(s', u) == KeyIn(s, u) && KeyIn(s', v) == KeyIn(s, v);
      if u != t && v != t { assert Holds(s, u) && Holds(s, v); }
    }
  }

  /** Transactions that stop holding leave the others apart. */
  lemma FewerHoldersApart(s: Db, s': Db)
    requires Apart(s) && forall u | Holds(s', u) :: Holds(s, u) && s'.txs[u].stmt == s.txs[u].stmt
    ensures Apart(s')
  {
    forall t, u | Holds(s', t) && Holds(s', u) && t != u ensures KeyIn(s', t) != KeyIn(s', u) {
      assert KeyIn(s, t) != KeyIn(s, u);
    }
  }

  lemma ExecuteKeepsLocking(s: Db, t: TxId)
    requires Locking(s) && Enabled(s, Execute(t))
    ensures Locking(Take(s, Execute(t)))
  {
    var s' := Take(s, Execute(t));
    ExecuteKeepsApart(s, t);
    assert s'.table == s.table;
    forall u | Holds(s', u) ensures HolderSound(s', u) {
      if u == t { ExecutedIsSound(s, t); } else { ExecuteKeepsHolder(s, t, u); }
    }
  }

  lemma EmitKeepsLocking(s: Db, t: TxId)
    requires Locking(s) && Enabled(s, Emit(t))
    ensures Locking(Take(s, Emit(t)))
  {
    var s' := Take(s, Emit(t));
    assert forall u :: Holds(s', u) <==> Holds(s, u);
    FewerHoldersApart(s, s');
    forall u | Holds(s', u) ensures HolderSound(s', u) { assert HolderSound(s, u); }
  }

  lemma AbortKeepsLocking(s: Db, t: TxId, cause: Err)
    requires Locking(s) && Enabled(s, Abort(t, cause))
    ensures Locking(Take(s, Abort(t, cause)))
  {
    var s' := Take(s, Abort(t, cause));
    assert forall u :: Holds(s', u) <==> Holds(s, u) && u != t;
    FewerHoldersApart(s, s');
    forall u | Holds(s', u) ensures HolderSound(s', u) { assert HolderSound(s, u); }
  }

  /** Committing a sound holder keeps the tables typed and the foreign key intact. */
  lemma CommitKeepsTable(s: Db, t: TxId)
    requires Locking(s) && Drew(s, t)
    ensures Typed(Store(s.table, KeyIn(s, t), s.txs[t].progress.w))
    ensures ForeignKeysHold(Store(s.table, KeyIn(s, t), s.txs[t].progress.w))
  {
    var tx := s.txs[t];
    var table := Store(s.table, KeyIn(s, t), tx.progress.w);
    assert HolderSound(s, t);
    forall k | k in table && ParentOf(table[k]).Some? ensures RegionKey(ParentOf(table[k]).value) in table {
      if k != KeyIn(s, t) && tx.progress.w.Remove? && KeyIn(s, t) == RegionKey(ParentOf(table[k]).value) {
        assert tx.stmt.DropRegion? && Referenced(s.table, tx.stmt.id);
      }
    }
  }

  lemma CommitKeepsHolder(s: Db, t: TxId, acked: bool, u: TxId)
    requires Locking(s) && Enabled(s, Commit(t, acked)) && Holds(s, u) && u != t
    ensures Holds(Take(s, Commit(t, acked)), u) && HolderSound(Take(s, Commit(t, acked)), u)
  {
    var s' := Take(s, Commit(t, acked));
    assert HolderSound(s, t) && HolderSound(s, u);
    assert KeyIn(s, u) != KeyIn(s, t);
    assert KeyIn(s, u) in s'.table <==> KeyIn(s, u) in s.table;
    if Target(s, u).Some? {
      var region := Target(s, u).value;
      assert s.txs[t].stmt != DropRegion(region);
    }
    if s.txs[u].stmt.DropRegion? && Referenced(s'.table, s.txs[u].stmt.id) {
      var region := s.txs[u].stmt.id;
      var k :| k in s'.table && ParentOf(s'.table[k]) == Some(region);
      if k == KeyIn(s, t) {
        assert Target(s, t) == Some(region);
        assert Dropping(s, region);
      } else {
        assert Referenced(s.table, region);
      }
      assert false;
    }
  }

  lemma CommitKeepsLocking(s: Db, t: TxId, acked: bool)
    requires Locking(s) && Enabled(s, Commit(t, acked))
    ensures Locking(Take(s, Commit(t, acked)))
  {
    var s' := Take(s, Commit(t, acked));
    CommitKeepsTable(s, t);
    StepFrame(s, Commit(t, acked));
    assert forall u :: Holds(s', u) ==> Holds(s, u) && u != t;
    FewerHoldersApart(s, s');
    forall u | Holds(s', u) ensures HolderSound(s', u) { CommitKeepsHolder(s, t, acked, u); }
  }

  // ---- The journal is kept ----

  /** Steps that touch neither the tables, the log nor any drawn number. */
  lemma QuietKeepsJournal(s: Db, s': Db)
    requires Journal(s)
    requires s'.table == s.table && s'.log == s.log && s'.nextSeq == s.nextSeq
    requires forall u :: Drew(s', u) ==> Drew(s, u) && s'.txs[u] == s.txs[u]
    ensures Journal(s')
  {
    forall u | Drew(s', u) ensures PendingSound(s', u) { assert PendingSound(s, u); }
  }

  lemma StripReference(table: Table, region: Id)
    ensures ViewReferences(Strip(table), region) <==> Referenced(table, region)
  {
    if Referenced(table, region) {
      var k :| k in table && ParentOf(table[k]) == Some(region);
      assert k in Strip(table) && ParentOfImage(Strip(table)[k]) == Some(region);
    }
  }

  lemma EmitKeepsJournal(s: Db, t: TxId)
    requires Locking(s) && Journal(s) && Enabled(s, Emit(t))
    ensures Journal(Take(s, Emit(t)))
  {
    var s' := Take(s, Emit(t));
    ReplayStable(s.log, s.nextSeq, s'.nextSeq);
    assert HolderSound(s, t);
    forall u | Drew(s', u) ensures PendingSound(s', u) {
      if u == t {
        forall m | m >= s.nextSeq ensures Replay(s.log, m) == Strip(s.table) { ReplayStable(s.log, s.nextSeq, m); }
        if s.txs[t].stmt.DropRegion? { StripReference(s.table, s.txs[t].stmt.id); }
      } else {
        assert PendingSound(s, u);
      }
    }
    forall u, v | Drew(s', u) && Drew(s', v) && u != v ensures SeqOf(s', u) != SeqOf(s', v) {
      assert u != t ==> Drew(s, u) && PendingSound(s, u);
      assert v != t ==> Drew(s, v) && PendingSound(s, v);
    }
  }

  /** The image an entry of a sound holder carries is the image of the row it stores. */
  lemma FoldIsStore(s: Db, t: TxId)
    requires Locking(s) && Drew(s, t)
    ensures var tx := s.txs[t];
      var e := EntryOf(tx.stmt, tx.progress.w, tx.actor);
      && (e.event == DELETED <==> tx.progress.w.Remove?)
      && (tx.progress.w.Put? ==> ParentOfImage(e.image) == Target(s, t))
      && Fold(Strip(s.table), e) == Strip(Store(s.table, KeyIn(s, t), tx.progress.w))
      && ((e.event == CREATED) == (KeyIn(s, t) !in s.table))
  {
    assert HolderSound(s, t);
  }

  /** What each reader of the log sees after a late commit. */
  lemma CommitView(s: Db, t: TxId, acked: bool, n: nat)
    requires Locking(s) && Journal(s) && Enabled(s, Commit(t, acked))
    ensures var e := EntryOf(s.txs[t].stmt, s.txs[t].progress.w, s.txs[t].actor);
      Replay(Take(s, Commit(t, acked)).log, n) ==
      if n <= SeqOf(s, t) then Replay(s.log, n) else Fold(Replay(s.log, n), e)
  {
    assert PendingSound(s, t);
    ReplayLateCommit(s.log, SeqOf(s, t), EntryOf(s.txs[t].stmt, s.txs[t].progress.w, s.txs[t].actor), n);
  }

  lemma CommitKeepsClosed(s: Db, t: TxId, acked: bool, n: nat)
    requires Locking(s) && Journal(s) && Enabled(s, Commit(t, acked))
    ensures Closed(Replay(Take(s, Commit(t, acked)).log, n))
  {
    CommitView(s, t, acked, n);
    FoldIsStore(s, t);
    assert HolderSound(s, t) && PendingSound(s, t);
    var e := EntryOf(s.txs[t].stmt, s.txs[t].progress.w, s.txs[t].actor);
    var v := Replay(s.log, n);
    assert Closed(v);
    if n > SeqOf(s, t) {
      var w := Fold(v, e);
      forall k | k in w && ParentOfImage(w[k]).Some? ensures RegionKey(ParentOfImage(w[k]).value) in w {
        if k == e.key {
          assert ParentOfImage(w[k]) == Target(s, t);
        } else if e.event == DELETED && e.key == RegionKey(ParentOfImage(w[k]).value) {
          assert s.txs[t].stmt.DropRegion? && ViewReferences(v, s.txs[t].stmt.id);
        }
      }
    }
  }

  lemma CommitKeepsLegal(s: Db, t: TxId, acked: bool)
    requires Locking(s) && Journal(s) && Enabled(s, Commit(t, acked))
    ensures AllLegal(Take(s, Commit(t, acked)).log)
  {
    var log := Take(s, Commit(t, acked)).log;
    assert PendingSound(s, t);
    FoldIsStore(s, t);
    forall n | n in log ensures Legal(Replay(log, n), log[n]) {
      CommitView(s, t, acked, n);
      if n == SeqOf(s, t) {
        ReplayQuiet(s.log, n, s.nextSeq, KeyIn(s, t));
        assert KeyIn(s, t) in Strip(s.table) <==> KeyIn(s, t) in s.table;
      } else {
        assert Legal(Replay(s.log, n), s.log[n]);
      }
    }
  }

  lemma CommitKeepsPending(s: Db, t: TxId, acked: bool, u: TxId)
    requires Locking(s) && Journal(s) && Enabled(s, Commit(t, acked)) && Drew(s, u) && u != t
    ensures Drew(Take(s, Commit(t, acked)), u) && PendingSound(Take(s, Commit(t, acked)), u)
  {
    var s' := Take(s, Commit(t, acked));
    var n := SeqOf(s, u);
    assert Holds(s, t) && Holds(s, u) && n != SeqOf(s, t);
    assert HolderSound(s, t) && HolderSound(s, u) && PendingSound(s, u);
    FoldIsStore(s, t);
    assert QuietAfter(s'.log, n, KeyIn(s, u));
    if Target(s, u).Some? {
      forall m | m >= n ensures RegionKey(Target(s, u).value) in Replay(s'.log, m) {
        assert s.txs[t].stmt != DropRegion(Target(s, u).value);
        CommitView(s, t, acked, m);
      }
    }
    if s.txs[u].stmt.DropRegion? {
      var region := s.txs[u].stmt.id;
      forall m | m >= n ensures !ViewReferences(Replay(s'.log, m), region) {
        assert Target(s, t) != Some(region);
        CommitView(s, t, acked, m);
        assert forall k | k in Replay(s'.log, m) && k != KeyIn(s, t) :: k in Replay(s.log, m);
      }
    }
  }

  lemma CommitKeepsJournal(s: Db, t: TxId, acked: bool)
    requires Locking(s) && Journal(s) && Enabled(s, Commit(t, acked))
    ensures Journal(Take(s, Commit(t, acked)))
  {
    var s' := Take(s, Commit(t, acked));
    assert PendingSound(s, t);
    FoldIsStore(s, t);
    CommitView(s, t, acked, s.nextSeq);
    CommitKeepsLegal(s, t, acked);
    forall n: nat ensures Closed(Replay(s'.log, n)) { CommitKeepsClosed(s, t, acked, n); }
    assert forall u :: Drew(s', u) ==> Drew(s, u) && u != t && s'.txs[u] == s.txs[u];
    forall u | Drew(s', u) ensures PendingSound(s', u) { CommitKeepsPending(s, t, acked, u); }
  }

  // ---- The ledger is kept ----

  /** Committing one transaction: the others keep their rows, and the new row is theirs to none. */
  lemma CommitKeepsLedger(s: Db, t: TxId, acked: bool)
    requires Inv(s) && Enabled(s, Commit(t, acked))
    ensures Ledger(Take(s, Commit(t, acked)))
  {
    var s' := Take(s, Commit(t, acked));
    StepFrame(s, Commit(t, acked));
    assert PendingSound(s, t);
    AddToLedger(s, s', t, SeqOf(s, t));
  }

  lemma AddToLedger(s: Db, s': Db, t: TxId, n: nat)
    requires Ledger(s) && n !in s.log && !Done(s, t) && Done(s', t) && RowOf(s', t) == n
    requires s'.log == s.log[n := EntryFor(s', t)]
    requires forall u | u != t :: (Done(s', u) <==> Done(s, u)) && (Done(s, u) ==> s'.txs[u] == s.txs[u])
    ensures Ledger(s')
  {
    forall u | Done(s', u) ensures RowOf(s', u) in s'.log && s'.log[RowOf(s', u)] == EntryFor(s', u) {
      if u != t { assert RowOf(s, u) in s.log; }
    }
    forall u, v | Done(s', u) && Done(s', v) && u != v ensures RowOf(s', u) != RowOf(s', v) {
      if u != t { assert RowOf(s, u) in s.log; }
      if v != t { assert RowOf(s, v) in s.log; }
    }
    forall m | m in s'.log ensures Accounted(s', m) {
      if m != n { AccountedStays(s, s', m); }
    }
  }

  lemma AccountedStays(s: Db, s': Db, n: nat)
    requires Accounted(s, n) && forall u | Done(s, u) :: Done(s', u) && s'.txs[u] == s.txs[u]
    ensures Accounted(s', n)
  {
    var u :| Done(s, u) && RowOf(s, u) == n;
    assert Done(s', u) && RowOf(s', u) == n;
  }

  lemma QuietKeepsLedger(s: Db, s': Db)
    requires Ledger(s) && s'.log == s.log
    requires forall u :: (Done(s', u) <==> Done(s, u)) && (Done(s, u) ==> s'.txs[u] == s.txs[u])
    ensures Ledger(s')
  {
    forall n | n in s'.log ensures Accounted(s', n) { AccountedStays(s, s', n); }
  }

  // ---- The invariant is kept by every step and every run ----

  lemma InitialInv()
    ensures Inv(INITIAL)
  {
    forall n: nat ensures Replay(INITIAL.log, n) == map[] { ReplayStable(INITIAL.log, 0, n); }
  }

  lemma QuietKeepsInv(s: Db, s': Db)
    requires Inv(s) && Locking(s')
    requires s'.table == s.table && s'.log == s.log && s'.nextSeq == s.nextSeq
    requires forall u :: Drew(s', u) ==> Drew(s, u) && s'.txs[u] == s.txs[u]
    requires forall u :: (Done(s', u) <==> Done(s, u)) && (Done(s, u) ==> s'.txs[u] == s.txs[u])
    ensures Inv(s')
  {
    QuietKeepsJournal(s, s');
    QuietKeepsLedger(s, s');
  }

  lemma EmitKeepsInv(s: Db, t: TxId)
    requires Inv(s) && Enabled(s, Emit(t))
    ensures Inv(Take(s, Emit(t)))
  {
    EmitKeepsLocking(s, t);
    EmitKeepsJournal(s, t);
    QuietKeepsLedger(s, Take(s, Emit(t)));
  }

  lemma CommitKeepsInv(s: Db, t: TxId, acked: bool)
    requires Inv(s) && Enabled(s, Commit(t, acked))
    ensures Inv(Take(s, Commit(t, acked)))
  {
    CommitKeepsLocking(s, t, acked);
    CommitKeepsJournal(s, t, acked);
    CommitKeepsLedger(s, t, acked);
  }

  lemma QuietFrame(s: Db, step: Step)
    requires Enabled(s, step) && (step.Begin? || step.Execute? || step.Abort?)
    ensures var s' := Take(s, step);
      && s'.table == s.table && s'.log == s.log && s'.nextSeq == s.nextSeq
      && (forall u :: Drew(s', u) ==> Drew(s, u) && s'.txs[u] == s.txs[u])
      && (forall u :: (Done(s', u) <==> Done(s, u)) && (Done(s, u) ==> s'.txs[u] == s.txs[u]))
  {
    StepFrame(s, step);
  }

  lemma QuietStepKeepsInv(s: Db, step: Step)
    requires Inv(s) && Enabled(s, step) && (step.Begin? || step.Execute? || step.Abort?)
    ensures Inv(Take(s, step))
  {
    match step {
      case Begin(_, _, _, _) => BeginKeepsLocking(s, step);
      case Execute(t) => ExecuteKeepsLocking(s, t);
      case Abort(t, cause) => AbortKeepsLocking(s, t, cause);
    }
    QuietFrame(s, step);
    QuietKeepsInv(s, Take(s, step));
  }

  /** Every step of every transaction keeps the invariant. */
  lemma StepKeepsInv(s: Db, step: Step)
    requires Inv(s) && Enabled(s, step)
    ensures Inv(Take(s, step))
  {
    match step
    case Emit(t) => EmitKeepsInv(s, t);
    case Commit(t, acked) => CommitKeepsInv(s, t, acked);
    case _ => QuietStepKeepsInv(s, step);
  }

  lemma {:induction false} RunKeepsInv(s: Db, steps: seq<Step>)
    requires Inv(s) && Runs(s, steps)
    ensures Inv(After(s, steps))
    decreases |steps|
  {
    if steps == [] {
    } else {
      StepKeepsInv(s, steps[0]);
      RunKeepsInv(Take(s, steps[0]), steps[1..]);
    }
  }

  lemma ReachableInv(s: Db)
    requires Reachable(s)
    ensures Inv(s)
  {
    var steps :| Runs(INITIAL, steps) && After(INITIAL, steps) == s;
    InitialInv();
    RunKeepsInv(INITIAL, steps);
  }
}
