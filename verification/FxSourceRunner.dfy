/** runFxSourceCheckOnce and startFxSourceTicker of apps/api/src/fx-source-runner.ts.
    Checks come from the ticker, which is single-flight, and from the internal
    route, which is not; both are recorded. */
module FxSourceRunner {
  import opened Results
  import opened GuardedTicker
  import opened WorkerLiveness

  /** A check that awaits the service, one whose outcome is recorded, and one
      whose tick has also run its finally block. */
  datatype CheckPhase = Checking | Reported | Returned

  datatype Check = Check(byTicker: bool, phase: CheckPhase, outcome: Option<Outcome>)

  datatype FxState = FxState(running: bool, stopped: bool, firstTimer: bool, timer: bool, checks: seq<Check>)

  datatype FxEvent =
    | FirstFires
    | TimerFires
    | RouteCalls
    | CheckSettles(k: nat, resolved: bool)
    | TickReturns(k: nat)
    | FxStopCalled

  const FX_INITIAL: FxState := FxState(false, false, true, true, [])

  predicate FxEnabled(s: FxState, e: FxEvent) {
    match e
    case FirstFires => s.firstTimer
    case TimerFires => s.timer
    case RouteCalls => true
    case CheckSettles(k, _) => k < |s.checks| && s.checks[k].phase == Checking
    case TickReturns(k) => k < |s.checks| && s.checks[k].phase == Reported && s.checks[k].byTicker
    case FxStopCalled => true
  }

  function TickStep(s: FxState): FxState {
    if s.stopped || s.running then s
    else s.(running := true, checks := s.checks + [Check(true, Checking, None)])
  }

  function FxStep(s: FxState, e: FxEvent): FxState
    requires FxEnabled(s, e)
  {
    match e
    case FirstFires => TickStep(s.(firstTimer := false))
    case TimerFires => TickStep(s)
    case RouteCalls => s.(checks := s.checks + [Check(false, Checking, None)])
    case CheckSettles(k, ok) =>
      s.(checks := s.checks[k := s.checks[k].(phase := Reported, outcome := Some(if ok then Success else Failure))])
    case TickReturns(k) => s.(running := false, checks := s.checks[k := s.checks[k].(phase := Returned)])
    case FxStopCalled => s.(stopped := true, firstTimer := false, timer := false)
  }

  predicate FxStarts(s: FxState, e: FxEvent) {
    e.RouteCalls? || ((e.FirstFires? || e.TimerFires?) && !s.stopped && !s.running)
  }

  function FxRecorded(r: Record, s: FxState, e: FxEvent, err: Thrown, nowMs: int): Record {
    if FxStarts(s, e) then Started(r)
    else if e.CheckSettles? then if e.resolved then Succeeded(r, nowMs) else Failed(r, err, nowMs)
    else r
  }

  predicate TickPending(s: FxState, k: nat) {
    k < |s.checks| && s.checks[k].byTicker && s.checks[k].phase != Returned
  }

  /** `running` says exactly that a tick is pending, and at most one is. */
  predicate FxInv(s: FxState) {
    && (forall k | 0 <= k < |s.checks| :: s.checks[k].outcome.None? <==> s.checks[k].phase == Checking)
    && (s.running <==> exists k | 0 <= k < |s.checks| :: TickPending(s, k))
    && (forall j, k | 0 <= j < |s.checks| && 0 <= k < |s.checks| :: TickPending(s, j) && TickPending(s, k) ==> j == k)
    && (s.timer <==> !s.stopped) && (s.firstTimer ==> !s.stopped)
  }

  function TickerChecks(checks: seq<Check>): nat {
    if checks == [] then 0
    else TickerChecks(checks[..|checks| - 1]) + if checks[|checks| - 1].byTicker then 1 else 0
  }

  // -------------------------------------------------------------------- FX single flight

  lemma FxStepKeepsInv(s: FxState, e: FxEvent)
    requires FxInv(s) && FxEnabled(s, e)
    ensures FxInv(FxStep(s, e))
  {
    var t := FxStep(s, e);
    var n := |s.checks|;
    forall k | 0 <= k < |t.checks|
      ensures TickPending(t, k) <==>
              if k == n then e != RouteCalls else TickPending(s, k) && e != TickReturns(k)
    {
    }
    if FxStarts(s, e) && e != RouteCalls {
      assert TickPending(t, n);
    } else if s.running && !e.TickReturns? {
      var k :| 0 <= k < n && TickPending(s, k);
      assert TickPending(t, k);
    } else if e.TickReturns? {
      assert TickPending(s, e.k);
      assert forall k | 0 <= k < |t.checks| :: !TickPending(t, k);
    } else {
      assert forall k | 0 <= k < |t.checks| :: !TickPending(t, k);
    }
  }

  // ------------------------------------------------------------ the FX ticker on its own

  function FxAfter(events: seq<FxEvent>): Option<FxState> {
    if events == [] then Some(FX_INITIAL)
    else
      var before := FxAfter(events[..|events| - 1]);
      var e := events[|events| - 1];
      if before.Some? && FxEnabled(before.value, e) then Some(FxStep(before.value, e)) else None
  }

  lemma {:induction false} FxInvHolds(events: seq<FxEvent>)
    requires FxAfter(events).Some?
    ensures FxInv(FxAfter(events).value)
  {
    if events != [] {
      FxInvHolds(events[..|events| - 1]);
      FxStepKeepsInv(FxAfter(events[..|events| - 1]).value, events[|events| - 1]);
    }
  }

  lemma {:induction false} TickerChecksUpdate(checks: seq<Check>, k: nat, c: Check)
    requires k < |checks| && c.byTicker == checks[k].byTicker
    ensures TickerChecks(checks[k := c]) == TickerChecks(checks)
  {
    var n := |checks| - 1;
    if k == n {
      assert checks[k := c][..n] == checks[..n];
    } else {
      assert checks[k := c][..n] == checks[..n][k := c];
      TickerChecksUpdate(checks[..n], k, c);
    }
  }

  lemma FxStoppedStep(s: FxState, e: FxEvent)
    requires FxInv(s) && FxEnabled(s, e) && s.stopped
    ensures FxStep(s, e).stopped && TickerChecks(FxStep(s, e).checks) == TickerChecks(s.checks)
  {
    match e {
      case CheckSettles(k, _) => TickerChecksUpdate(s.checks, k, FxStep(s, e).checks[k]);
      case TickReturns(k) => TickerChecksUpdate(s.checks, k, FxStep(s, e).checks[k]);
      case RouteCalls => assert FxStep(s, e).checks[..|s.checks|] == s.checks;
      case _ =>
    }
  }

  lemma InvIsSingle(s: FxState)
    requires FxInv(s)
    ensures forall j: nat, k: nat :: TickPending(s, j) && TickPending(s, k) ==> j == k
    ensures s.running <==> exists k: nat :: TickPending(s, k)
  {
  }

  lemma {:induction false} NoTickAfterStop(events: seq<FxEvent>, more: seq<FxEvent>)
    requires FxAfter(events).Some? && FxAfter(events + more).Some? && FxAfter(events).value.stopped
    ensures var s, t := FxAfter(events).value, FxAfter(events + more).value;
      t.stopped && TickerChecks(t.checks) == TickerChecks(s.checks)
    decreases |more|
  {
    if more == [] {
      assert events + more == events;
    } else {
      var init, e := more[..|more| - 1], more[|more| - 1];
      assert (events + more)[..|events + more| - 1] == events + init;
      NoTickAfterStop(events, init);
      FxInvHolds(events + init);
      FxStoppedStep(FxAfter(events + init).value, e);
    }
  }

  /** At most one ticker check is ever in progress; after stop() no tick starts
      another, although one already running is left to finish. */
  lemma FxTickerIsSingleFlight(events: seq<FxEvent>, more: seq<FxEvent>)
    requires FxAfter(events).Some? && FxAfter(events + more).Some?
    ensures var s, t := FxAfter(events).value, FxAfter(events + more).value;
      && (forall j: nat, k: nat :: TickPending(t, j) && TickPending(t, k) ==> j == k)
      && (t.running <==> exists k: nat :: TickPending(t, k))
      && (s.stopped ==> t.stopped && TickerChecks(t.checks) == TickerChecks(s.checks))
  {
    FxInvHolds(events + more);
    InvIsSingle(FxAfter(events + more).value);
    if FxAfter(events).value.stopped {
      NoTickAfterStop(events, more);
    }
  }

  // --------------------------------------------------- what the events say about checks

  /** The outcome of a check is how the service answered it, and its tick has returned
      when its finally block has run. */
  predicate CheckFollows(c: Check, k: nat, events: seq<FxEvent>) {
    && (c.outcome == Some(Success) <==> CheckSettles(k, true) in events)
    && (c.outcome == Some(Failure) <==> CheckSettles(k, false) in events)
    && (c.phase == Returned <==> TickReturns(k) in events)
  }

  predicate CheckIsTold(s: FxState, k: nat, events: seq<FxEvent>) {
    if k < |s.checks| then CheckFollows(s.checks[k], k, events)
    else CheckSettles(k, true) !in events && CheckSettles(k, false) !in events && TickReturns(k) !in events
  }

  lemma FxMember(events: seq<FxEvent>, e: FxEvent, x: FxEvent)
    ensures x in events + [e] <==> x in events || x == e
  {
  }

  lemma CheckStep(s: FxState, k: nat, events: seq<FxEvent>, e: FxEvent)
    requires FxInv(s) && FxEnabled(s, e) && CheckIsTold(s, k, events)
    ensures CheckIsTold(FxStep(s, e), k, events + [e])
  {
    FxMember(events, e, CheckSettles(k, true));
    FxMember(events, e, CheckSettles(k, false));
    FxMember(events, e, TickReturns(k));
  }

  lemma {:induction false} CheckStory(events: seq<FxEvent>, k: nat)
    requires FxAfter(events).Some?
    ensures CheckIsTold(FxAfter(events).value, k, events)
  {
    if events == [] {
    } else {
      var before, e := events[..|events| - 1], events[|events| - 1];
      CheckStory(before, k);
      FxInvHolds(before);
      CheckStep(FxAfter(before).value, k, before, e);
      assert events == before + [e];
    }
  }

  /** The service answers each check once, and then its tick returns. */
  lemma NextForCheck(events: seq<FxEvent>, k: nat, ok: bool)
    requires FxAfter(events).Some?
    ensures var s := FxAfter(events).value;
      var settled := CheckSettles(k, true) in events || CheckSettles(k, false) in events;
      && (FxEnabled(s, CheckSettles(k, ok)) <==> k < |s.checks| && !settled)
      && (FxEnabled(s, TickReturns(k)) <==>
          k < |s.checks| && s.checks[k].byTicker && settled && TickReturns(k) !in events)
  {
    CheckStory(events, k);
    FxInvHolds(events);
  }

  predicate FxIsArmed(s: FxState, events: seq<FxEvent>) {
    && (s.stopped <==> FxStopCalled in events)
    && (s.timer <==> FxStopCalled !in events) && (FxEnabled(s, TimerFires) <==> FxStopCalled !in events)
    && (FxEnabled(s, FirstFires) <==> FxStopCalled !in events && FirstFires !in events)
  }

  /** The timers can fire exactly until stop() is called, the first one once. */
  lemma {:induction false} FxTimersByHistory(events: seq<FxEvent>)
    requires FxAfter(events).Some?
    ensures FxIsArmed(FxAfter(events).value, events)
  {
    if events == [] {
    } else {
      var before, e := events[..|events| - 1], events[|events| - 1];
      FxTimersByHistory(before);
      assert events == before + [e];
      FxMember(before, e, FxStopCalled);
      FxMember(before, e, FirstFires);
    }
  }

  /** A timer starts a check exactly when no tick is pending, the route always. */
  lemma FxFiresStartChecks(events: seq<FxEvent>, e: FxEvent)
    requires FxAfter(events + [e]).Some?
    ensures FxAfter(events).Some?
    ensures var s, t := FxAfter(events).value, FxAfter(events + [e]).value;
      var n := |s.checks|;
      && |t.checks| == (if e == RouteCalls || (e in [FirstFires, TimerFires] && !s.running) then n + 1 else n)
      && (|t.checks| == n + 1 ==>
            t.checks[n].phase == Checking && (t.checks[n].byTicker <==> e != RouteCalls))
  {
    assert (events + [e])[..|events|] == events;
    FxInvHolds(events);
  }

  /** `s` is the state after `events`, with all that holds of such states. */
  predicate FxReached(events: seq<FxEvent>, s: FxState) {
    FxAfter(events) == Some(s) && FxInv(s)
  }

  lemma FxReachedNext(events: seq<FxEvent>, s: FxState, e: FxEvent)
    requires FxReached(events, s) && FxEnabled(s, e)
    ensures FxReached(events + [e], FxStep(s, e))
  {
    assert (events + [e])[..|events|] == events;
    FxStepKeepsInv(s, e);
  }

  /** Valid while its fields are the state the events so far lead to. */
  class FxSourceTicker {
    const live: Liveness
    var running: bool
    var stopped: bool
    var firstTimer: bool
    var timer: bool
    /** The async frames of the checks started by this ticker and by the route. */
    var checks: seq<Check>
    ghost var history: seq<FxEvent>

    ghost function Model(): FxState
      reads this
    {
      FxState(running, stopped, firstTimer, timer, checks)
    }

    ghost predicate Valid()
      reads this, live
    {
      live.Valid() && FxReached(history, Model())
    }

    constructor (live: Liveness)
      requires live.Valid()
      ensures Valid() && this.live == live && history == [] && Model() == FX_INITIAL
    {
      this.live := live;
      running, stopped, firstTimer, timer, checks, history := false, false, true, true, [], [];
    }

    /** `runFxSourceCheckOnce` up to its await. */
    method BeginCheck(byTicker: bool)
      requires live.Valid()
      modifies this`checks, live
      ensures live.Valid() && checks == old(checks) + [Check(byTicker, Checking, None)]
      ensures live.records == old(live.records)[FxSource := Started(old(live.records)[FxSource])]
    {
      live.RecordWorkerStart(FxSource);
      checks := checks + [Check(byTicker, Checking, None)];
    }

    method Tick()
      requires live.Valid()
      modifies this`running, this`checks, live
      ensures live.Valid() && Model() == TickStep(old(Model()))
      ensures live.records ==
              if old(stopped || running) then old(live.records)
              else old(live.records)[FxSource := Started(old(live.records)[FxSource])]
    {
      if stopped || running {
        return;
      }
      running := true;
      BeginCheck(true);
    }

    method TimerFire(first: bool, err: Thrown, nowMs: int)
      requires Valid() && FxEnabled(Model(), if first then FirstFires else TimerFires)
      modifies this, live
      ensures var e := if first then FirstFires else TimerFires;
        && Valid() && history == old(history) + [e] && Model() == FxStep(old(Model()), e)
        && live.records == old(live.records)[FxSource :=
             FxRecorded(old(live.records)[FxSource], old(Model()), e, err, nowMs)]
      ensures old(running) ==> checks == old(checks)
    {
      ghost var e := if first then FirstFires else TimerFires;
      FxReachedNext(history, Model(), e);
      if first {
        firstTimer := false;
      }
      Tick();
      history := history + [e];
    }

    method RouteCall(err: Thrown, nowMs: int)
      requires Valid()
      modifies this, live
      ensures Valid() && history == old(history) + [RouteCalls] && Model() == FxStep(old(Model()), RouteCalls)
      ensures live.records == old(live.records)[FxSource :=
                FxRecorded(old(live.records)[FxSource], old(Model()), RouteCalls, err, nowMs)]
    {
      FxReachedNext(history, Model(), RouteCalls);
      BeginCheck(false);
      history := history + [RouteCalls];
    }

    method CheckSettle(k: nat, resolved: bool, err: Thrown, nowMs: int)
      requires Valid() && FxEnabled(Model(), CheckSettles(k, resolved))
      modifies this`checks, this`history, live
      ensures var e := CheckSettles(k, resolved);
        && Valid() && history == old(history) + [e] && Model() == FxStep(old(Model()), e)
        && live.records == old(live.records)[FxSource :=
             FxRecorded(old(live.records)[FxSource], old(Model()), e, err, nowMs)]
    {
      FxReachedNext(history, Model(), CheckSettles(k, resolved));
      if resolved {
        live.RecordWorkerSuccess(FxSource, nowMs);
        checks := checks[k := checks[k].(phase := Reported, outcome := Some(Success))];
      } else {
        live.RecordWorkerFailure(FxSource, err, nowMs);
        checks := checks[k := checks[k].(phase := Reported, outcome := Some(Failure))];
      }
      history := history + [CheckSettles(k, resolved)];
    }

    /** The returning tick was the only one, so none is pending now. */
    method TickReturn(k: nat)
      requires Valid() && FxEnabled(Model(), TickReturns(k))
      modifies this
      ensures Valid() && history == old(history) + [TickReturns(k)] && Model() == FxStep(old(Model()), TickReturns(k))
      ensures forall j: nat :: !TickPending(Model(), j)
    {
      FxReachedNext(history, Model(), TickReturns(k));
      checks := checks[k := checks[k].(phase := Returned)];
      running := false;
      history := history + [TickReturns(k)];
    }

    method Stop()
      requires Valid()
      modifies this
      ensures Valid() && history == old(history) + [FxStopCalled] && Model() == FxStep(old(Model()), FxStopCalled)
      ensures !FxEnabled(Model(), FirstFires) && !FxEnabled(Model(), TimerFires)
    {
      FxReachedNext(history, Model(), FxStopCalled);
      stopped := true;
      firstTimer := false;
      if timer {
        timer := false;
      }
      history := history + [FxStopCalled];
    }
  }
}
