/** The overlap-guarded ticker both startScannerWorkerTicker
    (apps/api/src/scanner-worker.ts) and startDeliveryWorkerTicker
    (apps/api/src/delivery-worker.ts) run: a transition system whose steps are
    the stretches of code between two awaits. Timers fire and the awaited
    worker calls settle in any order the guards below allow. */
module GuardedTicker {
  import opened Results
  import opened Text

  /** `maintenanceEvery` is what the source keeps, at least 1. The delivery ticker
      has no cache warming, no service to await and no delayed first tick. */
  datatype Config = Config(
    maintenanceEvery: nat, warms: bool, awaitsService: bool, runImmediately: bool, initialDelayMs: int)

  predicate IsConfig(cfg: Config) {
    cfg.maintenanceEvery >= 1
  }

  /** What a cycle is awaiting; `Settling` while only its finally handler is pending. */
  datatype Phase = Maintaining | Warming | Working | Settling | Done

  datatype Outcome = Success | Failure

  /** One invocation of the guarded body, with what it has done so far. */
  datatype Cycle = Cycle(phase: Phase, maintenances: nat, works: nat, outcome: Option<Outcome>)

  /** One call of stop(): waiting for a tick, for the service, or resolved. */
  datatype Stop = AwaitingTick(cycle: nat) | AwaitingService | Resolved

  datatype State = State(
    timer: bool, initialTimer: bool, stopped: bool, inFlight: Option<nat>, runs: nat,
    cycles: seq<Cycle>, stops: seq<Stop>, skips: nat, fires: nat)

  datatype Event =
    | IntervalFires
    | InitialFires
    | MaintenanceResolves(k: nat)
    | MaintenanceRejects(k: nat)
    | WarmSettles(k: nat)
    | WorkResolves(k: nat)
    | WorkRejects(k: nat)
    | FinallyRuns(k: nat)
    | StopCalled
    | TickAwaited(i: nat)
    | ServiceAwaited(i: nat)

  // ------------------------------------------------------------------------ steps

  predicate AwaitsAt(s: State, k: nat, phase: Phase) {
    k < |s.cycles| && s.cycles[k].phase == phase
  }

  /** Which events can happen: a cleared timer never fires, an awaited call settles once. */
  predicate Enabled(s: State, e: Event) {
    match e
    case IntervalFires => s.timer
    case InitialFires => s.initialTimer
    case MaintenanceResolves(k) => AwaitsAt(s, k, Maintaining)
    case MaintenanceRejects(k) => AwaitsAt(s, k, Maintaining)
    case WarmSettles(k) => AwaitsAt(s, k, Warming)
    case WorkResolves(k) => AwaitsAt(s, k, Working)
    case WorkRejects(k) => AwaitsAt(s, k, Working)
    case FinallyRuns(k) => AwaitsAt(s, k, Settling)
    case StopCalled => true
    case TickAwaited(i) => i < |s.stops| && s.stops[i].AwaitingTick? && AwaitsAt(s, s.stops[i].cycle, Done)
    case ServiceAwaited(i) => i < |s.stops| && s.stops[i] == AwaitingService
  }

  /** The body from its maintenance on: warm the cache first where configured, then work. */
  function Proceed(cfg: Config, maintenances: nat): Cycle {
    if cfg.warms then Cycle(Warming, maintenances, 0, None) else Cycle(Working, maintenances, 1, None)
  }

  function NewCycle(cfg: Config, run: nat): Cycle
    requires IsConfig(cfg)
  {
    if run % cfg.maintenanceEvery == 0 then Cycle(Maintaining, 1, 0, None) else Proceed(cfg, 0)
  }

  /** `runOnce`: refused after stop, skipped while a cycle is in flight. */
  function RunOnce(cfg: Config, s: State): State
    requires IsConfig(cfg)
  {
    if s.stopped || s.inFlight.Some? then s.(fires := s.fires + 1, skips := s.skips + 1)
    else s.(
      fires := s.fires + 1,
      runs := s.runs + 1,
      cycles := s.cycles + [NewCycle(cfg, s.runs + 1)],
      inFlight := Some(|s.cycles|))
  }

  function Initial(cfg: Config): State
    requires IsConfig(cfg)
  {
    var s := State(true, false, false, None, 0, [], [], 0, 0);
    if !cfg.runImmediately then s
    else if cfg.initialDelayMs > 0 then s.(initialTimer := true)
    else RunOnce(cfg, s)
  }

  function AfterTick(cfg: Config): Stop {
    if cfg.awaitsService then AwaitingService else Resolved
  }

  function SetCycle(s: State, k: nat, c: Cycle): State
    requires k < |s.cycles|
  {
    s.(cycles := s.cycles[k := c])
  }

  function SetStop(s: State, i: nat, stop: Stop): State
    requires i < |s.stops|
  {
    s.(stops := s.stops[i := stop])
  }

  function Step(cfg: Config, s: State, e: Event): State
    requires IsConfig(cfg) && Enabled(s, e)
  {
    match e
    case IntervalFires => RunOnce(cfg, s)
    case InitialFires => RunOnce(cfg, s.(initialTimer := false))
    case MaintenanceResolves(k) => SetCycle(s, k, Proceed(cfg, s.cycles[k].maintenances))
    case MaintenanceRejects(k) => SetCycle(s, k, s.cycles[k].(phase := Settling, outcome := Some(Failure)))
    case WarmSettles(k) => SetCycle(s, k, s.cycles[k].(phase := Working, works := s.cycles[k].works + 1))
    case WorkResolves(k) => SetCycle(s, k, s.cycles[k].(phase := Settling, outcome := Some(Success)))
    case WorkRejects(k) => SetCycle(s, k, s.cycles[k].(phase := Settling, outcome := Some(Failure)))
    case FinallyRuns(k) => SetCycle(s, k, s.cycles[k].(phase := Done)).(inFlight := None)
    case StopCalled =>
      var first := if s.inFlight.Some? then AwaitingTick(s.inFlight.value) else AfterTick(cfg);
      s.(stopped := true, timer := false, initialTimer := false, stops := s.stops + [first])
    case TickAwaited(i) => SetStop(s, i, AfterTick(cfg))
    case ServiceAwaited(i) => SetStop(s, i, Resolved)
  }

  /** The state after a sequence of events, if each of them could happen. */
  function After(cfg: Config, events: seq<Event>): Option<State>
    requires IsConfig(cfg)
  {
    if events == [] then Some(Initial(cfg))
    else
      var before := After(cfg, events[..|events| - 1]);
      var e := events[|events| - 1];
      if before.Some? && Enabled(before.value, e) then Some(Step(cfg, before.value, e)) else None
  }

  // ------------------------------------------------------------------- invariants

  /** What one cycle has done is what its phase and its number say. */
  predicate IsCycle(cfg: Config, k: nat, c: Cycle)
    requires IsConfig(cfg)
  {
    && c.maintenances == (if (k + 1) % cfg.maintenanceEvery == 0 then 1 else 0)
    && (c.outcome.Some? <==> c.phase == Settling || c.phase == Done)
    && match c.phase
       case Maintaining => c.maintenances == 1 && c.works == 0
       case Warming => cfg.warms && c.works == 0
       case Working => c.works == 1
       case _ => c.works == 1 || (c.works == 0 && c.maintenances == 1 && c.outcome == Some(Failure))
  }

  predicate Inv(cfg: Config, s: State)
    requires IsConfig(cfg)
  {
    && s.runs == |s.cycles|
    && s.fires == s.runs + s.skips
    && (s.inFlight.Some? ==> s.inFlight.value == |s.cycles| - 1)
    && (forall k | 0 <= k < |s.cycles| :: IsCycle(cfg, k, s.cycles[k]))
    && (forall k | 0 <= k < |s.cycles| :: s.cycles[k].phase != Done <==> s.inFlight == Some(k))
    && (s.stopped <==> s.stops != [])
    && (s.timer <==> !s.stopped)
    && (s.initialTimer ==> !s.stopped)
    && (forall i | 0 <= i < |s.stops| ::
          if s.stops[i].AwaitingTick? then s.stops[i].cycle == |s.cycles| - 1
          else s.inFlight == None && (s.stops[i] == AwaitingService ==> cfg.awaitsService))
  }

  lemma InitialHolds(cfg: Config)
    requires IsConfig(cfg)
    ensures Inv(cfg, Initial(cfg))
  {
  }

  lemma RunOnceKeepsInv(cfg: Config, s: State)
    requires IsConfig(cfg) && Inv(cfg, s)
    ensures Inv(cfg, RunOnce(cfg, s))
  {
  }

  lemma ProgressKeepsInv(cfg: Config, s: State, k: nat, c: Cycle)
    requires IsConfig(cfg) && Inv(cfg, s) && k < |s.cycles| && s.cycles[k].phase != Done
    requires IsCycle(cfg, k, c) && c.phase != Done
    ensures Inv(cfg, SetCycle(s, k, c))
  {
  }

  lemma FinallyKeepsInv(cfg: Config, s: State, k: nat)
    requires IsConfig(cfg) && Inv(cfg, s) && AwaitsAt(s, k, Settling)
    ensures Inv(cfg, Step(cfg, s, FinallyRuns(k)))
  {
  }

  lemma StopKeepsInv(cfg: Config, s: State, e: Event)
    requires IsConfig(cfg) && Inv(cfg, s) && Enabled(s, e)
    requires e.StopCalled? || e.TickAwaited? || e.ServiceAwaited?
    ensures Inv(cfg, Step(cfg, s, e))
  {
  }

  lemma StepKeepsInv(cfg: Config, s: State, e: Event)
    requires IsConfig(cfg) && Inv(cfg, s) && Enabled(s, e)
    ensures Inv(cfg, Step(cfg, s, e))
  {
    match e
    case IntervalFires => RunOnceKeepsInv(cfg, s);
    case InitialFires => RunOnceKeepsInv(cfg, s.(initialTimer := false));
    case MaintenanceResolves(k) => ProgressKeepsInv(cfg, s, k, Proceed(cfg, s.cycles[k].maintenances));
    case MaintenanceRejects(k) =>
      ProgressKeepsInv(cfg, s, k, s.cycles[k].(phase := Settling, outcome := Some(Failure)));
    case WarmSettles(k) => ProgressKeepsInv(cfg, s, k, s.cycles[k].(phase := Working, works := s.cycles[k].works + 1));
    case WorkResolves(k) => ProgressKeepsInv(cfg, s, k, s.cycles[k].(phase := Settling, outcome := Some(Success)));
    case WorkRejects(k) => ProgressKeepsInv(cfg, s, k, s.cycles[k].(phase := Settling, outcome := Some(Failure)));
    case FinallyRuns(k) => FinallyKeepsInv(cfg, s, k);
    case StopCalled => StopKeepsInv(cfg, s, e);
    case TickAwaited(_) => StopKeepsInv(cfg, s, e);
    case ServiceAwaited(_) => StopKeepsInv(cfg, s, e);
  }

  lemma {:induction false} InvHolds(cfg: Config, events: seq<Event>)
    requires IsConfig(cfg) && After(cfg, events).Some?
    ensures Inv(cfg, After(cfg, events).value)
  {
    if events == [] {
      InitialHolds(cfg);
    } else {
      InvHolds(cfg, events[..|events| - 1]);
      StepKeepsInv(cfg, After(cfg, events[..|events| - 1]).value, events[|events| - 1]);
    }
  }

  lemma OneMoreEvent(cfg: Config, events: seq<Event>, e: Event)
    requires IsConfig(cfg) && After(cfg, events).Some? && Enabled(After(cfg, events).value, e)
    ensures After(cfg, events + [e]) == Some(Step(cfg, After(cfg, events).value, e))
  {
    assert (events + [e])[..|events|] == events;
  }

  /** `s` is the state after `events`, with all that holds of such states. */
  predicate Reached(cfg: Config, events: seq<Event>, s: State)
    requires IsConfig(cfg)
  {
    After(cfg, events) == Some(s) && Inv(cfg, s)
  }

  lemma ReachedInitially(cfg: Config)
    requires IsConfig(cfg)
    ensures Reached(cfg, [], Initial(cfg))
  {
    InitialHolds(cfg);
  }

  lemma ReachedNext(cfg: Config, events: seq<Event>, s: State, e: Event)
    requires IsConfig(cfg) && Reached(cfg, events, s) && Enabled(s, e)
    ensures Reached(cfg, events + [e], Step(cfg, s, e))
  {
    OneMoreEvent(cfg, events, e);
    StepKeepsInv(cfg, s, e);
  }

  // ------------------------------------------------------------------ single flight

  predicate InProgress(s: State, k: nat) {
    k < |s.cycles| && s.cycles[k].phase != Done
  }

  /** In every reachable state at most one cycle is in progress, and `inFlight`
      names it exactly while its body or its finally handler is pending. */
  lemma SingleFlight(cfg: Config, events: seq<Event>)
    requires IsConfig(cfg) && After(cfg, events).Some?
    ensures var s := After(cfg, events).value;
      && (forall k: nat :: InProgress(s, k) <==> s.inFlight == Some(k))
      && (forall j: nat, k: nat :: InProgress(s, j) && InProgress(s, k) ==> j == k)
  {
    InvHolds(cfg, events);
  }

  // ------------------------------------------------------------------------- stop

  predicate IsResolved(s: State, i: nat) {
    i < |s.stops| && s.stops[i] == Resolved
  }

  /** From a stopped state `s` no cycle has been started on the way to `t`. */
  predicate NothingStarted(s: State, t: State) {
    && t.stopped && t.runs == s.runs && |t.cycles| == |s.cycles|
    && (s.inFlight == None ==> t.inFlight == None && t.cycles == s.cycles)
    && (forall i | 0 <= i < |s.stops| :: IsResolved(s, i) ==> IsResolved(t, i))
  }

  lemma StoppedStep(cfg: Config, s: State, e: Event)
    requires IsConfig(cfg) && Inv(cfg, s) && Enabled(s, e) && s.stopped
    ensures NothingStarted(s, Step(cfg, s, e))
  {
  }

  lemma NothingStartedTransitive(s: State, t: State, u: State)
    requires NothingStarted(s, t) && NothingStarted(t, u)
    ensures NothingStarted(s, u)
  {
  }

  /** After stop() is called no cycle ever starts, whatever happens next. */
  lemma {:induction false} NoStartAfterStop(cfg: Config, events: seq<Event>, more: seq<Event>)
    requires IsConfig(cfg) && After(cfg, events).Some? && After(cfg, events + more).Some?
    requires After(cfg, events).value.stopped
    ensures NothingStarted(After(cfg, events).value, After(cfg, events + more).value)
    decreases |more|
  {
    if more == [] {
      assert events + more == events;
    } else {
      var init, e := more[..|more| - 1], more[|more| - 1];
      assert (events + more)[..|events + more| - 1] == events + init;
      assert (events + more)[|events + more| - 1] == e;
      NoStartAfterStop(cfg, events, init);
      var t := After(cfg, events + init).value;
      InvHolds(cfg, events + init);
      StoppedStep(cfg, t, e);
      NothingStartedTransitive(After(cfg, events).value, t, Step(cfg, t, e));
    }
  }

  /** Once stop() has resolved no cycle is running, and whatever happens next none will be. */
  lemma StopIsFinal(cfg: Config, events: seq<Event>, more: seq<Event>, i: nat)
    requires IsConfig(cfg) && After(cfg, events).Some? && After(cfg, events + more).Some?
    requires IsResolved(After(cfg, events).value, i)
    ensures var s, t := After(cfg, events).value, After(cfg, events + more).value;
      && t.cycles == s.cycles && (forall k: nat :: !InProgress(t, k))
      && !t.timer && !t.initialTimer && IsResolved(t, i)
  {
    InvHolds(cfg, events);
    InvHolds(cfg, events + more);
    NoStartAfterStop(cfg, events, more);
  }

  function PhaseRank(p: Phase): nat {
    match p
    case Maintaining => 4
    case Warming => 3
    case Working => 2
    case Settling => 1
    case Done => 0
  }

  function StopRank(stops: seq<Stop>): nat {
    if stops == [] then 0
    else
      StopRank(stops[..|stops| - 1]) +
      match stops[|stops| - 1]
      case AwaitingTick(_) => 2
      case AwaitingService => 1
      case Resolved => 0
  }

  /** How far a stopped ticker is from rest. */
  function Rank(s: State): nat {
    StopRank(s.stops) + if s.cycles == [] then 0 else PhaseRank(s.cycles[|s.cycles| - 1].phase)
  }

  lemma {:induction false} StopRankDrops(stops: seq<Stop>, i: nat, to: Stop)
    requires i < |stops|
    requires (stops[i].AwaitingTick? && !to.AwaitingTick?) || (stops[i] == AwaitingService && to == Resolved)
    ensures StopRank(stops[i := to]) < StopRank(stops)
  {
    var n := |stops| - 1;
    var moved := stops[i := to];
    if i == n {
      assert moved[..n] == stops[..n];
    } else {
      assert moved[..n] == stops[..n][i := to];
      StopRankDrops(stops[..n], i, to);
    }
  }

  /** Once stopped, every event but a further stop() brings the ticker closer to rest. */
  lemma StoppedEventsSettle(cfg: Config, s: State, e: Event)
    requires IsConfig(cfg) && Inv(cfg, s) && s.stopped && Enabled(s, e) && e != StopCalled
    ensures Rank(Step(cfg, s, e)) < Rank(s)
  {
    match e {
      case TickAwaited(i) => StopRankDrops(s.stops, i, AfterTick(cfg));
      case ServiceAwaited(i) => StopRankDrops(s.stops, i, Resolved);
      case _ =>
    }
  }

  /** And while some stop() has not resolved, one of them can happen: a pending
      worker call settles, a finally handler runs or a waiting stop() resumes.
      With the previous lemma, shutdown completes as soon as the worker calls do. */
  lemma PendingStopCanProceed(cfg: Config, s: State, i: nat) returns (e: Event)
    requires IsConfig(cfg) && Inv(cfg, s) && i < |s.stops| && s.stops[i] != Resolved
    ensures Enabled(s, e) && e != StopCalled
  {
    if s.inFlight.Some? {
      var k := s.inFlight.value;
      match s.cycles[k].phase {
        case Maintaining => e := MaintenanceRejects(k);
        case Warming => e := WarmSettles(k);
        case Working => e := WorkRejects(k);
        case Settling => e := FinallyRuns(k);
      }
    } else if s.stops[i].AwaitingTick? {
      e := TickAwaited(i);
    } else {
      e := ServiceAwaited(i);
    }
  }

  // ----------------------------------------------------------------------- cadence

  function Maintenances(cycles: seq<Cycle>): nat {
    if cycles == [] then 0
    else Maintenances(cycles[..|cycles| - 1]) + cycles[|cycles| - 1].maintenances
  }

  lemma NextQuotient(n: nat, every: nat)
    requires every >= 1
    ensures (n + 1) / every == n / every + if (n + 1) % every == 0 then 1 else 0
  {
    var q, r := n / every, n % every;
    assert n == q * every + r;
    if r + 1 == every {
      assert n + 1 == (q + 1) * every;
      QuotientUnique(n + 1, q + 1, 0, every);
    } else {
      QuotientUnique(n + 1, q, r + 1, every);
    }
  }

  lemma {:induction false} MaintenancesByNumber(cfg: Config, cycles: seq<Cycle>)
    requires IsConfig(cfg) && forall k | 0 <= k < |cycles| :: IsCycle(cfg, k, cycles[k])
    ensures Maintenances(cycles) == |cycles| / cfg.maintenanceEvery
  {
    if cycles != [] {
      var n := |cycles| - 1;
      MaintenancesByNumber(cfg, cycles[..n]);
      NextQuotient(n, cfg.maintenanceEvery);
      assert IsCycle(cfg, n, cycles[n]);
    } else {
      QuotientUnique(0, 0, 0, cfg.maintenanceEvery);
    }
  }

  /** Of k started cycles exactly floor(k / N) attempted maintenance, whatever
      number of ticks the guard skipped; and every finished cycle called its
      worker exactly once, unless its own maintenance threw. */
  lemma CadenceIsExact(cfg: Config, events: seq<Event>)
    requires IsConfig(cfg) && After(cfg, events).Some?
    ensures var s := After(cfg, events).value;
      && s.fires == s.runs + s.skips && |s.cycles| == s.runs
      && Maintenances(s.cycles) == s.runs / cfg.maintenanceEvery
      && forall k | 0 <= k < s.runs ::
           var c := s.cycles[k];
           && (c.maintenances == 1 <==> (k + 1) % cfg.maintenanceEvery == 0)
           && c.works <= 1
           && (c.phase == Done && c.works == 0 ==> c.maintenances == 1 && c.outcome == Some(Failure))
  {
    InvHolds(cfg, events);
    MaintenancesByNumber(cfg, After(cfg, events).value.cycles);
  }
}
