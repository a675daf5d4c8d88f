/** How the process ends: the main goroutine serving the public listener, the goroutine serving the internal
    one, and the shutdown goroutine, joined by a cancellable context, a closed channel and a one-slot channel. */
module Shutdown {
  import opened Wrappers

  /** What a listener's Serve returns: nil, the error for a stopped server, or any other error. */
  datatype Err = Nil | ServerStopped | Fatal(code: nat)

  // ---- The three goroutines, by program counter ----

  datatype Main =
    | Starting                     // about to call the public Serve
    | Serving
    | Cancelling(serveErr: Err)
    | Joining(serveErr: Err)       // waiting for the shutdown goroutine's channel to close
    | Receiving(serveErr: Err)     // waiting for the internal listener's error
    | Returned(result: Err)

  datatype Internal =
    | StartingInternal
    | ServingInternal
    | TearingDown(err: Err)        // about to call cancel
    | Sending(err: Err)
    | Sent

  /** What the shutdown goroutine has still to do next; a GracefulStop has begun while its end is awaited. */
  datatype Stopper =
    | AwaitCancel | StopDiagnostics | StopInternal | AwaitInternal | StopPublic | AwaitPublic | Drain | Closed

  /** `publicEarly` and `internalEarly` record, once a Serve was entered, whether that was before the stop of
      its server began; `publicReturned` and `internalReturned` record what the two calls returned. `performed` records
      what the shutdown goroutine has done. */
  datatype State = State(
    cancelled: bool, main: Main, internal: Internal, stopper: Stopper, errCh: Option<Err>,
    publicEarly: Option<bool>, internalEarly: Option<bool>,
    publicReturned: Option<Err>, internalReturned: Option<Err>, performed: seq<Stopper>)

  const INITIAL := State(false, Starting, StartingInternal, AwaitCancel, None, None, None, None, None, [])

  /** The public error comes first. */
  function ServeResult(publicErr: Err, internalErr: Err): Err {
    if publicErr != Nil then publicErr else internalErr
  }

  // ---- Steps ----

  datatype Step =
    | Signal                       // SIGTERM or SIGINT cancels the root context
    | PublicServeEnters
    | PublicServeReturns(err: Err)
    | MainCancels
    | MainJoins
    | MainReceives
    | InternalServeEnters
    | InternalServeReturns(err: Err)
    | InternalCancels
    | InternalSends
    | StopperMoves

  predicate InternalBegun(s: State) { s.stopper in {AwaitInternal, StopPublic, AwaitPublic, Drain, Closed} }

  predicate InternalStopped(s: State) { s.stopper in {StopPublic, AwaitPublic, Drain, Closed} }

  predicate PublicBegun(s: State) { s.stopper in {AwaitPublic, Drain, Closed} }

  predicate PublicStopped(s: State) { s.stopper in {Drain, Closed} }

  /** A Serve entered once the stop of its server has begun returns the stopped-server error. One entered
      before is released with nil when the stop has ended, or returns a failure of its listener at any time. */
  predicate MayReturn(early: bool, stopped: bool, err: Err) {
    match err
    case Nil => early && stopped
    case ServerStopped => !early
    case Fatal(_) => early
  }

  predicate Enabled(s: State, step: Step) {
    match step
    case Signal => !s.cancelled
    case PublicServeEnters => s.main.Starting?
    case PublicServeReturns(err) =>
      && s.main.Serving? && s.publicEarly.Some?
      && MayReturn(s.publicEarly.value, PublicStopped(s), err)
    case MainCancels => s.main.Cancelling?
    case MainJoins => s.main.Joining? && s.stopper == Closed
    case MainReceives => s.main.Receiving? && s.errCh.Some?
    case InternalServeEnters => s.internal.StartingInternal?
    case InternalServeReturns(err) =>
      && s.internal.ServingInternal? && s.internalEarly.Some?
      && MayReturn(s.internalEarly.value, InternalStopped(s), err)
    case InternalCancels => s.internal.TearingDown?
    case InternalSends => s.internal.Sending? && s.errCh.None?
    case StopperMoves => s.stopper != Closed && (s.stopper == AwaitCancel ==> s.cancelled)
  }

  function NextStop(p: Stopper): Stopper {
    match p
    case AwaitCancel => StopDiagnostics
    case StopDiagnostics => StopInternal
    case StopInternal => AwaitInternal
    case AwaitInternal => StopPublic
    case StopPublic => AwaitPublic
    case AwaitPublic => Drain
    case Drain => Closed
    case Closed => Closed
  }

  function Take(s: State, step: Step): State
    requires Enabled(s, step)
  {
    match step
    case Signal => s.(cancelled := true)
    case PublicServeEnters => s.(main := Serving, publicEarly := Some(!PublicBegun(s)))
    case PublicServeReturns(err) => s.(main := Cancelling(err), publicReturned := Some(err))
    case MainCancels => s.(cancelled := true, main := Joining(s.main.serveErr))
    case MainJoins => s.(main := Receiving(s.main.serveErr))
    case MainReceives => s.(main := Returned(ServeResult(s.main.serveErr, s.errCh.value)), errCh := None)
    case InternalServeEnters => s.(internal := ServingInternal, internalEarly := Some(!InternalBegun(s)))
    case InternalServeReturns(err) =>
      s.(internal := if err.Fatal? then TearingDown(err) else Sending(Nil), internalReturned := Some(err))
    case InternalCancels => s.(cancelled := true, internal := Sending(s.internal.err))
    case InternalSends => s.(internal := Sent, errCh := Some(s.internal.err))
    case StopperMoves => s.(stopper := NextStop(s.stopper), performed := s.performed + [s.stopper])
  }

  /** Steps the process takes on its own: no signal has to come and no listener has to fail. */
  predicate OwnStep(step: Step) {
    match step
    case Signal => false
    case PublicServeReturns(err) => !err.Fatal?
    case InternalServeReturns(err) => !err.Fatal?
    case _ => true
  }

  ghost predicate Runs(s: State, steps: seq<Step>)
    decreases |steps|
  {
    steps == [] || (Enabled(s, steps[0]) && Runs(Take(s, steps[0]), steps[1..]))
  }

  ghost function After(s: State, steps: seq<Step>): State
    requires Runs(s, steps)
    decreases |steps|
  {
    if steps == [] then s else After(Take(s, steps[0]), steps[1..])
  }

  ghost predicate Reachable(s: State) {
    exists steps :: Runs(INITIAL, steps) && After(INITIAL, steps) == s
  }

  // ---- The invariant ----

  /** What runInternalListener passes on of the error its Serve returned. */
  function Passed(err: Err): Err { if err.Fatal? then err else Nil }

  ghost predicate MainSound(s: State) {
    match s.main
    case Starting => s.publicReturned.None? && s.publicEarly.None?
    case Serving => s.publicReturned.None? && s.publicEarly.Some?
    case Cancelling(e) => s.publicReturned == Some(e)
    case Joining(e) => s.publicReturned == Some(e) && s.cancelled
    case Receiving(e) => s.publicReturned == Some(e) && s.cancelled && s.stopper == Closed
    case Returned(r) =>
      && s.stopper == Closed && s.cancelled
      && s.publicReturned.Some? && s.internalReturned.Some? && s.internal == Sent
      && r == ServeResult(s.publicReturned.value, Passed(s.internalReturned.value))
  }

  ghost predicate InternalSound(s: State) {
    match s.internal
    case StartingInternal => s.internalReturned.None? && s.internalEarly.None? && s.errCh.None?
    case ServingInternal => s.internalReturned.None? && s.internalEarly.Some? && s.errCh.None?
    case TearingDown(e) => e.Fatal? && s.internalReturned == Some(e) && s.errCh.None?
    case Sending(e) => s.cancelled && s.internalReturned.Some? && e == Passed(s.internalReturned.value) && s.errCh.None?
    case Sent =>
      && s.cancelled && s.internalReturned.Some?
      && s.errCh == if s.main.Returned? then None else Some(Passed(s.internalReturned.value))
  }

  /** What the shutdown goroutine has done before it comes to p. */
  function Until(p: Stopper): seq<Stopper> {
    match p
    case AwaitCancel => []
    case StopDiagnostics => [AwaitCancel]
    case StopInternal => [AwaitCancel, StopDiagnostics]
    case AwaitInternal => [AwaitCancel, StopDiagnostics, StopInternal]
    case StopPublic => [AwaitCancel, StopDiagnostics, StopInternal, AwaitInternal]
    case AwaitPublic => [AwaitCancel, StopDiagnostics, StopInternal, AwaitInternal, StopPublic]
    case Drain => [AwaitCancel, StopDiagnostics, StopInternal, AwaitInternal, StopPublic, AwaitPublic]
    case Closed => [AwaitCancel, StopDiagnostics, StopInternal, AwaitInternal, StopPublic, AwaitPublic, Drain]
  }

  ghost predicate Inv(s: State) {
    && MainSound(s)
    && InternalSound(s)
    && (s.stopper != AwaitCancel ==> s.cancelled)
    && s.performed == Until(s.stopper)
    && ServeSound(s.publicEarly, PublicBegun(s), PublicStopped(s), s.publicReturned)
    && ServeSound(s.internalEarly, InternalBegun(s), InternalStopped(s), s.internalReturned)
  }

  /** What a Serve returned tells when it was entered. */
  ghost predicate ServeSound(early: Option<bool>, begun: bool, stopped: bool, returned: Option<Err>) {
    && (early == Some(false) ==> begun)
    && (returned.Some? ==> early.Some? && (returned == Some(ServerStopped) <==> early == Some(false)))
    && (returned == Some(Nil) ==> stopped)
  }

  lemma StepKeepsInv(s: State, step: Step)
    requires Inv(s) && Enabled(s, step)
    ensures Inv(Take(s, step))
  {
  }

  lemma {:induction false} RunKeepsInv(s: State, steps: seq<Step>)
    requires Inv(s) && Runs(s, steps)
    ensures Inv(After(s, steps))
    decreases |steps|
  {
    if steps == [] {
    } else {
      StepKeepsInv(s, steps[0]);
      RunKeepsInv(Take(s, steps[0]), steps[1..]);
    }
  }

  lemma ReachableInv(s: State)
    requires Reachable(s)
    ensures Inv(s)
  {
    var steps :| Runs(INITIAL, steps) && After(INITIAL, steps) == s;
    RunKeepsInv(INITIAL, steps);
  }

  // ---- Ending ----

  function MainRank(m: Main): nat {
    match m
    case Starting => 5
    case Serving => 4
    case Cancelling(_) => 3
    case Joining(_) => 2
    case Receiving(_) => 1
    case Returned(_) => 0
  }

  function InternalRank(i: Internal): nat {
    match i
    case StartingInternal => 4
    case ServingInternal => 3
    case TearingDown(_) => 2
    case Sending(_) => 1
    case Sent => 0
  }

  function StopperRank(p: Stopper): nat {
    match p
    case AwaitCancel => 7
    case StopDiagnostics => 6
    case StopInternal => 5
    case AwaitInternal => 4
    case StopPublic => 3
    case AwaitPublic => 2
    case Drain => 1
    case Closed => 0
  }

  function Rank(s: State): nat {
    (if s.cancelled then 0 else 1) + MainRank(s.main) + InternalRank(s.internal) + StopperRank(s.stopper)
  }

  /** Every step, of whichever goroutine, uses up some of what is left to do. */
  lemma {:induction false} RunsAreBounded(s: State, steps: seq<Step>)
    requires Runs(s, steps)
    ensures |steps| + Rank(After(s, steps)) <= Rank(s)
    decreases |steps|
  {
    if steps == [] {
    } else {
      assert Rank(Take(s, steps[0])) < Rank(s);
      RunsAreBounded(Take(s, steps[0]), steps[1..]);
    }
  }

  /** The root context is cancelled, or a Serve has returned (as it does when its listener fails). */
  predicate Triggered(s: State) { s.cancelled || s.publicReturned.Some? || s.internalReturned.Some? }

  /** Once triggered, and until main returns, some goroutine can take a step on its own. */
  lemma NoDeadlock(s: State)
    requires Inv(s) && Triggered(s) && !s.main.Returned?
    ensures exists step :: OwnStep(step) && Enabled(s, step)
  {
    if Enabled(s, StopperMoves) {
      assert OwnStep(StopperMoves);
    } else if s.internal.TearingDown? {
      assert OwnStep(InternalCancels) && Enabled(s, InternalCancels);
    } else if s.main.Cancelling? {
      assert OwnStep(MainCancels) && Enabled(s, MainCancels);
    } else if s.main.Starting? {
      assert OwnStep(PublicServeEnters) && Enabled(s, PublicServeEnters);
    } else if s.main.Serving? {
      var err := if s.publicEarly.value then Nil else ServerStopped;
      assert OwnStep(PublicServeReturns(err)) && Enabled(s, PublicServeReturns(err));
    } else if s.main.Joining? {
      assert OwnStep(MainJoins) && Enabled(s, MainJoins);
    } else if s.internal.StartingInternal? {
      assert OwnStep(InternalServeEnters) && Enabled(s, InternalServeEnters);
    } else if s.internal.ServingInternal? {
      var err := if s.internalEarly.value then Nil else ServerStopped;
      assert OwnStep(InternalServeReturns(err)) && Enabled(s, InternalServeReturns(err));
    } else if s.internal.Sending? {
      assert OwnStep(InternalSends) && Enabled(s, InternalSends);
    } else {
      assert OwnStep(MainReceives) && Enabled(s, MainReceives);
    }
  }

  /** Nothing takes the trigger back. */
  lemma {:induction false} StaysTriggered(s: State, steps: seq<Step>)
    requires Triggered(s) && Runs(s, steps)
    ensures Triggered(After(s, steps))
    decreases |steps|
  {
    if steps == [] {
    } else {
      StaysTriggered(Take(s, steps[0]), steps[1..]);
    }
  }

  /** From a triggered state no interleaving takes more than Rank(s) steps, and one that cannot be continued
      by the process itself has main returned: the process always ends. */
  lemma EveryInterleavingEnds(s: State, steps: seq<Step>)
    requires Reachable(s) && Triggered(s) && Runs(s, steps)
    requires forall step | OwnStep(step) :: !Enabled(After(s, steps), step)
    ensures After(s, steps).main.Returned?
    ensures |steps| <= Rank(s) <= 17
  {
    ReachableInv(s);
    RunKeepsInv(s, steps);
    RunsAreBounded(s, steps);
    StaysTriggered(s, steps);
    if !After(s, steps).main.Returned? { NoDeadlock(After(s, steps)); }
  }

  // ---- The exit result ----

  /** When main has returned: both servers were stopped and the workers drained; the result is nil exactly when
      the public Serve returned nil and the internal one did not fail; a failed internal listener always shows;
      and a public error is the one that is reported. */
  lemma ExitResult(s: State)
    requires Reachable(s) && s.main.Returned?
    ensures s.performed == [AwaitCancel, StopDiagnostics, StopInternal, AwaitInternal, StopPublic, AwaitPublic, Drain]
    ensures s.stopper == Closed && s.publicReturned.Some? && s.internalReturned.Some?
    ensures s.main.result == Nil <==> s.publicReturned == Some(Nil) && !s.internalReturned.value.Fatal?
    ensures s.internalReturned.value.Fatal? ==> s.main.result != Nil
    ensures s.publicReturned.value != Nil ==> s.main.result == s.publicReturned.value
    ensures s.main.result.Fatal? ==> s.main.result in {s.publicReturned.value, s.internalReturned.value}
  {
    ReachableInv(s);
  }

  /** The process ends with nil if and only if no listener failed and the public Serve was entered before the
      stop of its server began; entered later, the process ends with the stopped-server error whatever the
      internal listener did. */
  lemma CleanExitIff(s: State)
    requires Reachable(s) && s.main.Returned?
    ensures s.publicEarly.Some? && s.publicReturned.Some? && s.internalReturned.Some?
    ensures s.main.result == Nil <==>
      && s.publicEarly.value && !s.publicReturned.value.Fatal? && !s.internalReturned.value.Fatal?
    ensures s.main.result == ServerStopped <==> !s.publicEarly.value
  {
    ReachableInv(s);
  }

  lemma {:induction false} OneMore(s: State, steps: seq<Step>, step: Step)
    requires Runs(s, steps) && Enabled(After(s, steps), step)
    ensures Runs(s, steps + [step]) && After(s, steps + [step]) == Take(After(s, steps), step)
    decreases |steps|
  {
    if steps == [] {
      assert Runs(Take(s, step), []);
    } else {
      OneMore(Take(s, steps[0]), steps[1..], step);
      assert (steps + [step])[1..] == steps[1..] + [step];
    }
  }

  lemma ReachableStep(s: State, step: Step)
    requires Reachable(s) && Enabled(s, step)
    ensures Reachable(Take(s, step))
  {
    var steps :| Runs(INITIAL, steps) && After(INITIAL, steps) == s;
    OneMore(INITIAL, steps, step);
  }

  /** The shutdown goroutine runs to its end. */
  lemma {:induction false} StopperRuns(s: State)
    requires Reachable(s) && s.cancelled
    ensures Reachable(s.(stopper := Closed, performed := Until(Closed)))
    decreases StopperRank(s.stopper)
  {
    if s.stopper != Closed {
      ReachableStep(s, StopperMoves);
      StopperRuns(Take(s, StopperMoves));
    } else {
      ReachableInv(s);
      assert s.(stopper := Closed, performed := Until(Closed)) == s;
    }
  }

  /** From a stopped process: the public Serve returns, then main cancels, joins and receives. */
  lemma MainRuns(s: State)
    requires Reachable(s) && s.main.Serving? && s.stopper == Closed && s.cancelled
    requires s.errCh.Some? && s.publicEarly.Some?
    ensures var err := if s.publicEarly.value then Nil else ServerStopped;
      Reachable(s.(main := Returned(ServeResult(err, s.errCh.value)), publicReturned := Some(err), errCh := None))
  {
    var err := if s.publicEarly.value then Nil else ServerStopped;
    ReachableStep(s, PublicServeReturns(err));
    var s1 := Take(s, PublicServeReturns(err));
    ReachableStep(s1, MainCancels);
    var s2 := Take(s1, MainCancels);
    ReachableStep(s2, MainJoins);
    ReachableStep(Take(s2, MainJoins), MainReceives);
  }

  lemma InitialReachable()
    ensures Reachable(INITIAL)
  {
    assert Runs(INITIAL, []) && After(INITIAL, []) == INITIAL;
  }

  /** So a shutdown without a failing listener can end with an error: the signal comes and the servers are
      stopped before main calls the public Serve. */
  lemma StoppedServerErrorIsReported()
    ensures exists s :: Reachable(s) && s.main == Returned(ServerStopped) && s.internalReturned == Some(Nil)
  {
    InitialReachable();
    ReachableStep(INITIAL, InternalServeEnters);
    var s0 := Take(INITIAL, InternalServeEnters);
    ReachableStep(s0, Signal);
    var s1 := Take(s0, Signal);
    StopperRuns(s1);
    var s2 := s1.(stopper := Closed, performed := Until(Closed));
    ReachableStep(s2, InternalServeReturns(Nil));
    var s3 := Take(s2, InternalServeReturns(Nil));
    ReachableStep(s3, InternalSends);
    var s4 := Take(s3, InternalSends);
    ReachableStep(s4, PublicServeEnters);
    MainRuns(Take(s4, PublicServeEnters));
  }

  /** The crash of the internal listener is the case the error channel is for: the public Serve returns nil,
      yet the process exits with the internal error. */
  lemma InternalCrashIsReported(code: nat)
    ensures exists s :: Reachable(s) && s.publicReturned == Some(Nil) && s.main == Returned(Fatal(code))
  {
    InitialReachable();
    ReachableStep(INITIAL, PublicServeEnters);
    var s0 := Take(INITIAL, PublicServeEnters);
    ReachableStep(s0, InternalServeEnters);
    var s1 := Take(s0, InternalServeEnters);
    ReachableStep(s1, InternalServeReturns(Fatal(code)));
    var s2 := Take(s1, InternalServeReturns(Fatal(code)));
    ReachableStep(s2, InternalCancels);
    var s3 := Take(s2, InternalCancels);
    ReachableStep(s3, InternalSends);
    var s4 := Take(s3, InternalSends);
    StopperRuns(s4);
    MainRuns(s4.(stopper := Closed, performed := Until(Closed)));
  }
}
