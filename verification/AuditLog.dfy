/** Reading the audit outbox: folding its rows in sequence order rebuilds a catalogue. */
module AuditLog {
  import opened Wrappers
  import opened Domain
  import opened Database

  /** A catalogue without created_at, the column the outbox does not record. */
  type View = map<Key, Image>

  type Log = map<nat, OutboxRow>

  function Strip(table: Table): View { map k | k in table :: ImageOf(table[k]) }

  function Fold(v: View, e: OutboxRow): View {
    if e.event == DELETED then v - {e.key} else v[e.key := e.image]
  }

  /** Fold the committed rows with sequence number below n, in order, skipping gaps. */
  function Replay(log: Log, n: nat): View {
    if n == 0 then map[]
    else
      var v := Replay(log, n - 1);
      if n - 1 in log then Fold(v, log[n - 1]) else v
  }

  function ParentOfImage(i: Image): Option<Id> {
    if i.ZoneImage? then Some(i.regionId) else None
  }

  ghost predicate ViewReferences(v: View, region: Id) {
    exists k :: k in v && ParentOfImage(v[k]) == Some(region)
  }

  /** Every zone a reader of the log knows lies in a region the reader knows. */
  ghost predicate Closed(v: View) {
    forall k | k in v && ParentOfImage(v[k]).Some? :: RegionKey(ParentOfImage(v[k]).value) in v
  }

  /** An event that makes sense after v: CREATED of an absent resource, or UPDATED or DELETED of a present one. */
  predicate Legal(v: View, e: OutboxRow) {
    (e.event == CREATED) == (e.key !in v)
  }

  ghost predicate AllLegal(log: Log) {
    forall n | n in log :: Legal(Replay(log, n), log[n])
  }

  /** No row for key k at or after sequence number n. */
  predicate QuietAfter(log: Log, n: nat, k: Key) {
    forall m | m in log && m >= n :: log[m].key != k
  }

  ghost predicate Below(log: Log, n: nat) {
    forall m | m in log :: m < n
  }

  lemma {:induction false} ReplayStable(log: Log, m: nat, n: nat)
    requires Below(log, m) && m <= n
    ensures Replay(log, n) == Replay(log, m)
  {
    if m == n {
    } else {
      ReplayStable(log, m, n - 1);
    }
  }

  /** What a key looks like in a replay does not change where the key is not written. */
  lemma {:induction false} ReplayQuiet(log: Log, m: nat, n: nat, k: Key)
    requires QuietAfter(log, m, k) && m <= n
    ensures k in Replay(log, n) <==> k in Replay(log, m)
    ensures k in Replay(log, n) ==> Replay(log, n)[k] == Replay(log, m)[k]
  {
    if m == n {
    } else {
      ReplayQuiet(log, m, n - 1, k);
    }
  }

  /** Committing late: a row put into a gap acts as if it had been folded last, provided its key is
      not written after the gap. */
  lemma {:induction false} ReplayLateCommit(log: Log, seqNo: nat, e: OutboxRow, n: nat)
    requires seqNo !in log && QuietAfter(log, seqNo, e.key)
    ensures Replay(log[seqNo := e], n) == if n <= seqNo then Replay(log, n) else Fold(Replay(log, n), e)
  {
    if n == 0 {
    } else {
      ReplayLateCommit(log, seqNo, e, n - 1);
    }
  }

  // ---- The life of one resource in the log ----

  function Events(log: Log, n: nat, k: Key): seq<EventType> {
    if n == 0 then []
    else
      var events := Events(log, n - 1, k);
      if n - 1 in log && log[n - 1].key == k then events + [log[n - 1].event] else events
  }

  /** CREATED first, and after each DELETED and nowhere else. */
  predicate Lifecycle(events: seq<EventType>) {
    && (events != [] ==> events[0] == CREATED)
    && (forall i | 0 <= i < |events| - 1 :: events[i + 1] == CREATED <==> events[i] == DELETED)
  }

  // CREATED UPDATED* DELETED, with n updates.
  function Updates(n: nat): seq<EventType> { if n == 0 then [] else [UPDATED] + Updates(n - 1) }

  function Life(n: nat): seq<EventType> { [CREATED] + Updates(n) + [DELETED] }

  /** One life after another: a word of (CREATED UPDATED* DELETED)*. */
  function Lives(ns: seq<nat>): seq<EventType> { if ns == [] then [] else Life(ns[0]) + Lives(ns[1..]) }

  lemma {:induction false} UpdatesAt(n: nat)
    ensures |Updates(n)| == n && forall i | 0 <= i < n :: Updates(n)[i] == UPDATED
  {
    if n == 0 {
    } else {
      UpdatesAt(n - 1);
    }
  }

  lemma {:induction false} LivesAreLifecycles(ns: seq<nat>)
    ensures Lifecycle(Lives(ns)) && (ns != [] ==> Lives(ns) != [] && Lives(ns)[|Lives(ns)| - 1] == DELETED)
  {
    if ns == [] {
    } else {
      LivesAreLifecycles(ns[1..]);
      UpdatesAt(ns[0]);
      var life, rest, all := Life(ns[0]), Lives(ns[1..]), Lives(ns);
      assert |life| == ns[0] + 2 && life[0] == CREATED && life[|life| - 1] == DELETED;
      assert forall i | 0 < i < |life| - 1 :: life[i] == UPDATED;
      forall i | 0 <= i < |all| - 1 ensures all[i + 1] == CREATED <==> all[i] == DELETED {
        if i >= |life| { assert all[i] == rest[i - |life|] && all[i + 1] == rest[i - |life| + 1]; }
      }
      if rest != [] { assert all[|all| - 1] == rest[|rest| - 1]; }
    }
  }

  lemma PrefixIsLifecycle(events: seq<EventType>, longer: seq<EventType>)
    requires events <= longer && Lifecycle(longer)
    ensures Lifecycle(events)
  {
    forall i | 0 <= i < |events| - 1 ensures events[i + 1] == CREATED <==> events[i] == DELETED {
      assert events[i] == longer[i] && events[i + 1] == longer[i + 1];
    }
  }

  /** The number of updates at the front. */
  function Run(events: seq<EventType>): (n: nat)
    ensures n <= |events| && events[..n] == Updates(n) && (n < |events| ==> events[n] != UPDATED)
  {
    if events == [] || events[0] != UPDATED then 0
    else
      var n := Run(events[1..]);
      assert events[..n + 1] == [UPDATED] + events[1..][..n];
      n + 1
  }

  lemma {:induction false} LifecycleIsPrefix(events: seq<EventType>) returns (ns: seq<nat>)
    requires Lifecycle(events)
    ensures events <= Lives(ns)
    decreases |events|
  {
    if events == [] {
      ns := [];
    } else {
      var n := Run(events[1..]);
      var head := [CREATED] + Updates(n);
      assert events[..n + 1] == head by { assert events[..n + 1] == [events[0]] + events[1..][..n]; }
      UpdatesAt(n);
      if n + 1 == |events| {
        ns := [n];
        assert Lives(ns) == Life(n) + Lives([]);
        assert Life(n) == events + [DELETED];
      } else {
        NextIsDeleted(events, n);
        var rest := events[n + 2..];
        forall i | 0 <= i < |rest| - 1 ensures rest[i + 1] == CREATED <==> rest[i] == DELETED {
          assert rest[i] == events[n + 2 + i] && rest[i + 1] == events[n + 2 + i + 1];
        }
        assert rest != [] ==> rest[0] == events[n + 1 + 1];
        var ms := LifecycleIsPrefix(rest);
        ns := [n] + ms;
        assert ns[1..] == ms;
        assert events == Life(n) + rest;
        PrefixAfter(Life(n), rest, Lives(ms));
      }
    }
  }

  lemma PrefixAfter(front: seq<EventType>, a: seq<EventType>, b: seq<EventType>)
    requires a <= b
    ensures front + a <= front + b
  {
  }

  /** After a creation and its updates comes a deletion or nothing. */
  lemma NextIsDeleted(events: seq<EventType>, n: nat)
    requires Lifecycle(events) && n + 1 < |events| && events[..n + 1] == [CREATED] + Updates(n)
    requires events[n + 1] != UPDATED
    ensures events[n + 1] == DELETED
  {
    UpdatesAt(n);
    assert events[n] == events[..n + 1][n] && events[n] != DELETED;
  }

  /** The local conditions describe exactly the prefixes of (CREATED UPDATED* DELETED)*. */
  lemma LifecycleLanguage(events: seq<EventType>)
    ensures Lifecycle(events) <==> exists ns :: events <= Lives(ns)
  {
    if Lifecycle(events) {
      var ns := LifecycleIsPrefix(events);
    }
    if ns :| events <= Lives(ns) {
      LivesAreLifecycles(ns);
      PrefixIsLifecycle(events, Lives(ns));
    }
  }

  function Count(events: seq<EventType>, e: EventType): nat {
    if events == [] then 0
    else Count(events[..|events| - 1], e) + if events[|events| - 1] == e then 1 else 0
  }

  predicate Alive(events: seq<EventType>) { events != [] && events[|events| - 1] != DELETED }

  /** One more legal event keeps the life a legal one. */
  lemma OneMoreEvent(before: seq<EventType>, event: EventType)
    requires Lifecycle(before) && ((event == CREATED) == !Alive(before))
    ensures Lifecycle(before + [event])
    ensures Alive(before + [event]) <==> event != DELETED
    ensures forall e :: Count(before + [event], e) == Count(before, e) + if e == event then 1 else 0
  {
    var events := before + [event];
    assert events[..|events| - 1] == before;
    forall i | 0 <= i < |events| - 1 ensures events[i + 1] == CREATED <==> events[i] == DELETED {
      if i + 1 < |before| { assert events[i] == before[i] && events[i + 1] == before[i + 1]; }
    }
  }

  lemma {:induction false} LegalLifecycle(log: Log, n: nat, k: Key)
    requires AllLegal(log)
    ensures Lifecycle(Events(log, n, k))
    ensures Alive(Events(log, n, k)) <==> k in Replay(log, n)
    ensures var events := Events(log, n, k);
      Count(events, CREATED) - Count(events, DELETED) == if k in Replay(log, n) then 1 else 0
  {
    if n == 0 {
    } else {
      LegalLifecycle(log, n - 1, k);
      if n - 1 in log && log[n - 1].key == k {
        assert Legal(Replay(log, n - 1), log[n - 1]);
        OneMoreEvent(Events(log, n - 1, k), log[n - 1].event);
      }
    }
  }

  /** All events of the log, over all resources. */
  function Total(log: Log, n: nat, e: EventType): nat {
    if n == 0 then 0 else Total(log, n - 1, e) + if n - 1 in log && log[n - 1].event == e then 1 else 0
  }

  lemma {:induction false} LegalTotal(log: Log, n: nat)
    requires AllLegal(log)
    ensures |Replay(log, n)| == Total(log, n, CREATED) - Total(log, n, DELETED)
  {
    if n == 0 {
    } else {
      LegalTotal(log, n - 1);
      if n - 1 in log {
        var v, e := Replay(log, n - 1), log[n - 1];
        assert Legal(v, e);
        var w := Fold(v, e);
        assert w.Keys == if e.event == DELETED then v.Keys - {e.key} else v.Keys + {e.key};
        assert |v.Keys| == |v| && |w.Keys| == |w|;
      }
    }
  }
}
