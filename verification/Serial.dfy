/** Sequence numbers order the committed transactions: running their statements one after another in that
    order does what the interleaved transactions did. */
module Serial {
  import opened Wrappers
  import opened Domain
  import opened Database
  import opened AuditLog
  import opened Consistency

  /** The committed transactions by the sequence number they drew. */
  type Script = map<nat, Tx>

  predicate AllCommitted(script: Script) { forall n | n in script :: script[n].progress.Committed? }

  ghost function Writer(s: Db, n: nat): (t: TxId)
    requires Accounted(s, n)
    ensures Done(s, t) && RowOf(s, t) == n
  {
    var t :| Done(s, t) && RowOf(s, t) == n;
    t
  }

  ghost function ScriptOf(s: Db): (script: Script)
    requires Ledger(s)
    ensures AllCommitted(script) && script.Keys == s.log.Keys
  {
    map n | n in s.log :: s.txs[Writer(s, n)]
  }

  /** The tables after the recorded writes of all transactions numbered below n. */
  function TableAt(script: Script, n: nat): Table
    requires AllCommitted(script)
  {
    if n == 0 then map[]
    else
      var table := TableAt(script, n - 1);
      if n - 1 in script then Store(table, KeyOf(script[n - 1].stmt), script[n - 1].progress.w) else table
  }

  /** Run again on the tables of its place in the order, the statement does what it did. */
  predicate Repeats(script: Script, m: nat)
    requires AllCommitted(script) && m in script
  {
    Perform(TableAt(script, m), script[m].stmt, script[m].now) == Ok(script[m].progress.w)
  }

  ghost predicate Repeatable(script: Script)
    requires AllCommitted(script)
  {
    forall m | m in script :: Repeats(script, m)
  }

  ghost predicate Matches(script: Script, log: Log) {
    && AllCommitted(script) && script.Keys == log.Keys
    && forall n | n in script :: log[n] == EntryOf(script[n].stmt, script[n].progress.w, script[n].actor)
  }

  ghost predicate SerialInv(s: Db) {
    && Ledger(s)
    && Repeatable(ScriptOf(s))
    && TableAt(ScriptOf(s), s.nextSeq) == s.table
  }

  // ---- Statements depend on their own row and on references only ----

  predicate AgreeAt(a: Table, b: Table, k: Key) { (k in a <==> k in b) && (k in a ==> a[k] == b[k]) }

  lemma EffectIsLocal(a: Table, b: Table, st: Stmt, now: Time)
    requires AgreeAt(a, b, KeyOf(st))
    ensures Effect(a, st, now) == Effect(b, st, now) && SharedRegion(a, st) == SharedRegion(b, st)
  {
  }

  /** A region taken in share mode is the one the written row refers to. */
  lemma SharedIsWritten(table: Table, st: Stmt, now: Time)
    requires Typed(table) && Effect(table, st, now).Ok? && SharedRegion(table, st).Some?
    ensures Effect(table, st, now).value.Put?
    ensures ParentOf(Effect(table, st, now).value.row) == SharedRegion(table, st)
  {
  }

  lemma PerformedShape(table: Table, st: Stmt, now: Time)
    requires Typed(table) && Perform(table, st, now).Ok?
    ensures Typed(Store(table, KeyOf(st), Perform(table, st, now).value))
    ensures Perform(table, st, now).value.Remove? <==> EventOf(st) == DELETED
  {
  }

  lemma StoresCommute(table: Table, k: Key, v: Write, l: Key, w: Write)
    requires k != l
    ensures Store(Store(table, k, v), l, w) == Store(Store(table, l, w), k, v)
  {
  }

  // ---- The tables of a script ----

  lemma {:induction false} TableStable(script: Script, m: nat, n: nat)
    requires AllCommitted(script) && m <= n && forall i | i in script :: i < m
    ensures TableAt(script, n) == TableAt(script, m)
  {
    if m == n {
    } else {
      TableStable(script, m, n - 1);
    }
  }

  lemma {:induction false} QuietKeyStays(script: Script, m: nat, n: nat, k: Key)
    requires AllCommitted(script) && m <= n && forall i | i in script && i >= m :: KeyOf(script[i].stmt) != k
    ensures AgreeAt(TableAt(script, m), TableAt(script, n), k)
  {
    if m == n {
    } else {
      QuietKeyStays(script, m, n - 1, k);
    }
  }

  /** A transaction that comes late into a gap, on a row nobody writes afterwards, acts as if it came last. */
  lemma {:induction false} LateTransaction(script: Script, n: nat, tx: Tx, m: nat)
    requires AllCommitted(script) && n !in script && tx.progress.Committed?
    requires forall i | i in script && i >= n :: KeyOf(script[i].stmt) != KeyOf(tx.stmt)
    ensures TableAt(script[n := tx], m) ==
      if m <= n then TableAt(script, m) else Store(TableAt(script, m), KeyOf(tx.stmt), tx.progress.w)
  {
    if m == 0 {
    } else {
      LateTransaction(script, n, tx, m - 1);
      if m - 1 in script && m - 1 > n {
        var other := script[m - 1];
        StoresCommute(TableAt(script, m - 1), KeyOf(tx.stmt), tx.progress.w, KeyOf(other.stmt), other.progress.w);
      }
    }
  }

  /** What the script does to the tables is what the log shows its readers. */
  lemma {:induction false} ScriptView(script: Script, log: Log, n: nat)
    requires Matches(script, log) && Repeatable(script)
    ensures Typed(TableAt(script, n)) && Strip(TableAt(script, n)) == Replay(log, n)
  {
    if n == 0 {
    } else {
      ScriptView(script, log, n - 1);
      if n - 1 in script {
        assert Repeats(script, n - 1);
        PerformedShape(TableAt(script, n - 1), script[n - 1].stmt, script[n - 1].now);
        StoredView(TableAt(script, n - 1), script[n - 1]);
      }
    }
  }

  lemma StoredView(table: Table, tx: Tx)
    requires tx.progress.Committed? && (tx.progress.w.Remove? <==> EventOf(tx.stmt) == DELETED)
    ensures Strip(Store(table, KeyOf(tx.stmt), tx.progress.w))
         == Fold(Strip(table), EntryOf(tx.stmt, tx.progress.w, tx.actor))
  {
  }

  // ---- Steps ----

  lemma ScriptMatches(s: Db)
    requires Ledger(s)
    ensures Matches(ScriptOf(s), s.log)
  {
  }

  lemma WriterIs(s: Db, t: TxId)
    requires Ledger(s) && Done(s, t)
    ensures Accounted(s, RowOf(s, t)) && Writer(s, RowOf(s, t)) == t
  {
    assert RowOf(s, t) in s.log;
  }

  /** A step that commits nothing leaves the script. */
  lemma SameScript(s: Db, s': Db)
    requires Ledger(s) && Ledger(s') && s'.log == s.log
    requires forall u | Done(s, u) :: Done(s', u) && s'.txs[u] == s.txs[u]
    ensures ScriptOf(s') == ScriptOf(s)
  {
    forall n | n in s.log ensures s'.txs[Writer(s', n)] == s.txs[Writer(s, n)] {
      WriterIs(s', Writer(s, n));
    }
  }

  lemma QuietKeepsSerial(s: Db, step: Step)
    requires SerialInv(s) && Below(s.log, s.nextSeq) && Enabled(s, step) && !step.Commit? && Ledger(Take(s, step))
    ensures SerialInv(Take(s, step))
  {
    var s' := Take(s, step);
    StepFrame(s, step);
    SameScript(s, s');
    TableStable(ScriptOf(s), s.nextSeq, s'.nextSeq);
  }

  lemma ExtendScript(s: Db, s': Db, t: TxId, n: nat)
    requires Ledger(s) && Ledger(s') && Done(s', t) && RowOf(s', t) == n
    requires n !in s.log && s'.log.Keys == s.log.Keys + {n}
    requires forall u | Done(s, u) :: Done(s', u) && s'.txs[u] == s.txs[u]
    ensures ScriptOf(s') == ScriptOf(s)[n := s'.txs[t]]
  {
    WriterIs(s', t);
    forall m | m in s.log ensures s'.txs[Writer(s', m)] == s.txs[Writer(s, m)] { WriterIs(s', Writer(s, m)); }
  }

  lemma CommitExtendsScript(s: Db, t: TxId, acked: bool)
    requires Inv(s) && Enabled(s, Commit(t, acked))
    ensures var s' := Take(s, Commit(t, acked));
      Ledger(s') && ScriptOf(s') == ScriptOf(s)[SeqOf(s, t) := s'.txs[t]]
  {
    StepFrame(s, Commit(t, acked));
    CommitKeepsLedger(s, t, acked);
    assert PendingSound(s, t);
    ExtendScript(s, Take(s, Commit(t, acked)), t, SeqOf(s, t));
  }

  /** A transaction about to commit would do the same at the place of its number. */
  lemma CommitterRepeats(s: Db, t: TxId)
    requires Inv(s) && SerialInv(s) && Drew(s, t)
    ensures var table := TableAt(ScriptOf(s), SeqOf(s, t));
      Perform(table, s.txs[t].stmt, s.txs[t].now) == Ok(s.txs[t].progress.w)
  {
    var script, n, tx := ScriptOf(s), SeqOf(s, t), s.txs[t];
    var table := TableAt(script, n);
    assert HolderSound(s, t) && PendingSound(s, t);
    ScriptMatches(s);
    QuietKeyStays(script, n, s.nextSeq, KeyOf(tx.stmt));
    EffectIsLocal(table, s.table, tx.stmt, tx.now);
    ScriptView(script, s.log, n);
    if SharedRegion(table, tx.stmt).Some? {
      SharedIsWritten(s.table, tx.stmt, tx.now);
      assert RegionKey(Target(s, t).value) in Strip(table);
    }
    if tx.stmt.DropRegion? { StripReference(table, tx.stmt.id); }
  }

  /** What the transaction numbered m did, seen in the log right after it. */
  lemma SeenAfter(script: Script, log: Log, m: nat)
    requires Matches(script, log) && Repeatable(script) && m in script
    ensures var before, st, after := TableAt(script, m), script[m].stmt, Replay(log, m + 1);
      && Typed(before)
      && (SharedRegion(before, st).Some? ==> ViewReferences(after, SharedRegion(before, st).value))
      && (st.DropRegion? ==> RegionKey(st.id) !in after)
  {
    var before, st := TableAt(script, m), script[m].stmt;
    ScriptView(script, log, m);
    ScriptView(script, log, m + 1);
    assert Repeats(script, m);
    if SharedRegion(before, st).Some? {
      SharedIsWritten(before, st, script[m].now);
      WrittenIsReferenced(before, script[m], SharedRegion(before, st).value);
    }
  }

  lemma WrittenIsReferenced(table: Table, tx: Tx, region: Id)
    requires tx.progress.Committed? && tx.progress.w.Put? && ParentOf(tx.progress.w.row) == Some(region)
    ensures ViewReferences(Strip(Store(table, KeyOf(tx.stmt), tx.progress.w)), region)
  {
    var after := Store(table, KeyOf(tx.stmt), tx.progress.w);
    assert KeyOf(tx.stmt) in after && ParentOf(after[KeyOf(tx.stmt)]) == Some(region);
    StripReference(after, region);
  }

  /** A statement stays allowed when another row is written, unless that write drops the region it needs or
      refers to the region it drops. */
  lemma OtherWriteAllows(table: Table, st: Stmt, k: Key, w: Write)
    requires ForeignKeyAllows(table, st) && KeyOf(st) != k
    requires SharedRegion(table, st).Some? ==> w.Put? || k != RegionKey(SharedRegion(table, st).value)
    requires st.DropRegion? ==> w.Remove? || ParentOf(w.row) != Some(st.id)
    ensures ForeignKeyAllows(Store(table, k, w), st)
  {
  }

  /** Nobody after a late committer could have been in its way, so the later ones still do what they did. */
  lemma LaterRepeats(s: Db, t: TxId, script: Script, m: nat)
    requires Drew(s, t) && PendingSound(s, t) && Matches(script, s.log) && Repeatable(script)
    requires m in script && m > SeqOf(s, t)
    requires s.txs[t].progress.w.Remove? ==> EventOf(s.txs[t].stmt) == DELETED
    ensures var table := Store(TableAt(script, m), KeyIn(s, t), s.txs[t].progress.w);
      Perform(table, script[m].stmt, script[m].now) == Ok(script[m].progress.w)
  {
    var before, tx, later := TableAt(script, m), s.txs[t], script[m];
    assert Repeats(script, m);
    SeenAfter(script, s.log, m);
    assert s.log[m].key == KeyOf(later.stmt);
    EffectIsLocal(before, Store(before, KeyIn(s, t), tx.progress.w), later.stmt, later.now);
    OtherWriteAllows(before, later.stmt, KeyIn(s, t), tx.progress.w);
  }

  /** One more transaction that would do the same at its place, in the way of nobody later, keeps a script
      repeatable. */
  lemma StaysRepeatable(script: Script, n: nat, tx: Tx)
    requires AllCommitted(script) && Repeatable(script) && n !in script && tx.progress.Committed?
    requires forall i | i in script && i >= n :: KeyOf(script[i].stmt) != KeyOf(tx.stmt)
    requires Perform(TableAt(script, n), tx.stmt, tx.now) == Ok(tx.progress.w)
    requires forall m | m in script && m > n ::
      Perform(Store(TableAt(script, m), KeyOf(tx.stmt), tx.progress.w), script[m].stmt, script[m].now)
      == Ok(script[m].progress.w)
    ensures Repeatable(script[n := tx])
  {
    var longer := script[n := tx];
    forall m | m in longer ensures Repeats(longer, m) {
      LateTransaction(script, n, tx, m);
      if m != n { assert Repeats(script, m); }
    }
  }

  lemma CommitKeepsSerial(s: Db, t: TxId, acked: bool)
    requires Inv(s) && SerialInv(s) && Enabled(s, Commit(t, acked))
    ensures SerialInv(Take(s, Commit(t, acked)))
  {
    var s', n, script := Take(s, Commit(t, acked)), SeqOf(s, t), ScriptOf(s);
    CommitExtendsScript(s, t, acked);
    var tx := s'.txs[t];
    assert tx.stmt == s.txs[t].stmt && tx.now == s.txs[t].now && tx.progress.w == s.txs[t].progress.w;
    assert PendingSound(s, t) && HolderSound(s, t);
    ScriptMatches(s);
    CommitterRepeats(s, t);
    forall m | m in script && m > n
      ensures Perform(Store(TableAt(script, m), KeyOf(tx.stmt), tx.progress.w), script[m].stmt, script[m].now)
              == Ok(script[m].progress.w)
    {
      LaterRepeats(s, t, script, m);
    }
    QuietScript(script, s.log, n, KeyOf(tx.stmt));
    StaysRepeatable(script, n, tx);
    LateTransaction(script, n, tx, s.nextSeq);
  }

  lemma QuietScript(script: Script, log: Log, n: nat, k: Key)
    requires Matches(script, log) && QuietAfter(log, n, k)
    ensures forall i | i in script && i >= n :: KeyOf(script[i].stmt) != k
  {
    forall i | i in script && i >= n ensures KeyOf(script[i].stmt) != k { assert log[i].key == KeyOf(script[i].stmt); }
  }

  lemma {:induction false} RunKeepsSerial(s: Db, steps: seq<Step>)
    requires Inv(s) && SerialInv(s) && Runs(s, steps)
    ensures SerialInv(After(s, steps))
    decreases |steps|
  {
    if steps == [] {
    } else {
      StepKeepsInv(s, steps[0]);
      if steps[0].Commit? { CommitKeepsSerial(s, steps[0].t, steps[0].acked); } else { QuietKeepsSerial(s, steps[0]); }
      RunKeepsSerial(Take(s, steps[0]), steps[1..]);
    }
  }

  lemma ReachableSerial(s: Db)
    requires Reachable(s)
    ensures SerialInv(s)
  {
    var steps :| Runs(INITIAL, steps) && After(INITIAL, steps) == s;
    InitialInv();
    assert ScriptOf(INITIAL) == map[];
    RunKeepsSerial(INITIAL, steps);
  }

  // ---- The serial run ----

  /** Running the statements numbered below n, alone and in order, from empty tables. */
  function RunAlone(script: Script, n: nat): Result<Table, Err> {
    if n == 0 then Ok(map[])
    else match RunAlone(script, n - 1)
      case Err(e) => Err(e)
      case Ok(table) =>
        if n - 1 !in script then Ok(table)
        else match Perform(table, script[n - 1].stmt, script[n - 1].now)
          case Err(e) => Err(e)
          case Ok(w) => Ok(Store(table, KeyOf(script[n - 1].stmt), w))
  }

  lemma {:induction false} RepeatableRunsAlone(script: Script, n: nat)
    requires AllCommitted(script) && Repeatable(script)
    ensures RunAlone(script, n) == Ok(TableAt(script, n))
  {
    if n == 0 {
    } else {
      RepeatableRunsAlone(script, n - 1);
      if n - 1 in script { assert Repeats(script, n - 1); }
    }
  }

  /** The sequence numbers are a serialization order: in every reachable state, the statements of exactly the
      committed transactions, run one after another in that order from empty tables, all succeed, each writing
      what it wrote, and give the present tables, created_at included. */
  lemma OutboxOrderIsSerial(s: Db)
    requires Reachable(s)
    ensures Ledger(s) && ScriptOf(s).Keys == s.log.Keys
    ensures forall t | Done(s, t) :: RowOf(s, t) in s.log && ScriptOf(s)[RowOf(s, t)] == s.txs[t]
    ensures forall n :: RunAlone(ScriptOf(s), n).Ok?
    ensures forall t | Done(s, t) ::
      Perform(RunAlone(ScriptOf(s), RowOf(s, t)).value, s.txs[t].stmt, s.txs[t].now) == Ok(s.txs[t].progress.w)
    ensures RunAlone(ScriptOf(s), s.nextSeq) == Ok(s.table)
  {
    ReachableInv(s);
    ReachableSerial(s);
    var script := ScriptOf(s);
    forall n ensures RunAlone(script, n) == Ok(TableAt(script, n)) { RepeatableRunsAlone(script, n); }
    forall t | Done(s, t)
      ensures RowOf(s, t) in s.log && script[RowOf(s, t)] == s.txs[t] && Repeats(script, RowOf(s, t))
    {
      WriterIs(s, t);
    }
  }
}
