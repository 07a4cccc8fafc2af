/** The whole background process: the delivery ticker, any number of heartbeat drains
    and of batches run by the internal route, and the FX checks, interleaved in any
    order over shared counters. */
module LivenessConservation {
  import opened Results
  import opened GuardedTicker
  import opened WorkerLiveness
  import opened DeliveryWorker
  import opened DeliveryRoute
  import opened NotificationHeartbeat
  import opened FxSourceRunner

  datatype System = System(
    ticker: State, drains: seq<Drain>, routeRuns: seq<Option<Outcome>>, fx: FxState,
    notifications: Record, fxSource: Record)

  datatype SystemEvent =
    | TickerEvent(te: Event, err: Thrown, nowMs: int)
    | DrainBegins(requested: Requested, bound: Bound, threw: bool, err: Thrown, nowMs: int)
    | DrainMoves(i: nat, de: DrainEvent, err: Thrown, nowMs: int)
    | RouteRunBegins
    | RouteRunSettles(k: nat, resolved: bool, err: Thrown, nowMs: int)
    | FxMoves(fe: FxEvent, err: Thrown, nowMs: int)

  predicate SystemEnabled(s: System, e: SystemEvent) {
    match e
    case TickerEvent(te, _, _) => Enabled(s.ticker, te)
    case DrainBegins(_, _, _, _, _) => true
    case DrainMoves(i, de, _, _) => i < |s.drains| && DrainEnabled(s.drains[i], de)
    case RouteRunBegins => true
    case RouteRunSettles(k, _, _, _) => k < |s.routeRuns| && s.routeRuns[k] == None
    case FxMoves(fe, _, _) => FxEnabled(s.fx, fe)
  }

  function SystemStep(cfg: Config, s: System, e: SystemEvent): System
    requires IsDeliveryConfig(cfg) && SystemEnabled(s, e)
  {
    match e
    case TickerEvent(te, err, now) =>
      s.(ticker := Step(cfg, s.ticker, te),
         notifications := DeliveryWorker.Recorded(s.notifications, s.ticker, te, err, now))
    case DrainBegins(requested, bound, threw, err, now) =>
      s.(drains := s.drains + [Begin(BatchSize(requested), TimeoutMs(bound), threw)],
         notifications := BeginRecorded(s.notifications, threw, err, now))
    case DrainMoves(i, de, err, now) =>
      s.(drains := s.drains[i := DrainStep(s.drains[i], de)],
         notifications := DrainRecorded(s.notifications, s.drains[i], de, err, now))
    case RouteRunBegins =>
      s.(routeRuns := s.routeRuns + [None], notifications := Started(s.notifications))
    case RouteRunSettles(k, resolved, err, now) =>
      s.(routeRuns := s.routeRuns[k := Some(if resolved then Success else Failure)],
         notifications := RunRecorded(s.notifications, resolved, err, now))
    case FxMoves(fe, err, now) =>
      s.(fx := FxStep(s.fx, fe), fxSource := FxRecorded(s.fxSource, s.fx, fe, err, now))
  }

  function SystemInitial(cfg: Config): System
    requires IsDeliveryConfig(cfg)
  {
    var notifications := if cfg.runImmediately then Started(EMPTY_RECORD) else EMPTY_RECORD;
    System(Initial(cfg), [], [], FX_INITIAL, notifications, EMPTY_RECORD)
  }

  function SystemAfter(cfg: Config, events: seq<SystemEvent>): Option<System>
    requires IsDeliveryConfig(cfg)
  {
    if events == [] then Some(SystemInitial(cfg))
    else
      var before := SystemAfter(cfg, events[..|events| - 1]);
      var e := events[|events| - 1];
      if before.Some? && SystemEnabled(before.value, e) then Some(SystemStep(cfg, before.value, e)) else None
  }

  // ------------------------------------------------------- counting recorded outcomes

  /** How many of the invocations have this outcome; `None` counts the pending ones. */
  function Tally(outcomes: seq<Option<Outcome>>, o: Option<Outcome>): nat {
    if outcomes == [] then 0
    else Tally(outcomes[..|outcomes| - 1], o) + if outcomes[|outcomes| - 1] == o then 1 else 0
  }

  lemma TallyAppend(outcomes: seq<Option<Outcome>>, x: Option<Outcome>, o: Option<Outcome>)
    ensures Tally(outcomes + [x], o) == Tally(outcomes, o) + if x == o then 1 else 0
  {
    assert (outcomes + [x])[..|outcomes|] == outcomes;
  }

  lemma {:induction false} TallyUpdate(outcomes: seq<Option<Outcome>>, k: nat, x: Option<Outcome>, o: Option<Outcome>)
    requires k < |outcomes|
    ensures Tally(outcomes[k := x], o) + (if outcomes[k] == o then 1 else 0) ==
            Tally(outcomes, o) + if x == o then 1 else 0
  {
    var n := |outcomes| - 1;
    if k == n {
      assert outcomes[k := x][..n] == outcomes[..n];
    } else {
      assert outcomes[k := x][..n] == outcomes[..n][k := x];
      TallyUpdate(outcomes[..n], k, x, o);
    }
  }

  lemma {:induction false} TallyTotal(outcomes: seq<Option<Outcome>>)
    ensures Tally(outcomes, None) + Tally(outcomes, Some(Success)) + Tally(outcomes, Some(Failure)) == |outcomes|
  {
    if outcomes != [] {
      TallyTotal(outcomes[..|outcomes| - 1]);
      match outcomes[|outcomes| - 1] {
        case None =>
        case Some(Success) =>
        case Some(Failure) =>
      }
    }
  }

  /** The counters are those of these invocations of three kinds, the pending ones in flight. */
  predicate Accounts(r: Record, a: seq<Option<Outcome>>, b: seq<Option<Outcome>>, c: seq<Option<Outcome>>) {
    && r.inFlight == Tally(a, None) + Tally(b, None) + Tally(c, None)
    && r.successes == Tally(a, Some(Success)) + Tally(b, Some(Success)) + Tally(c, Some(Success))
    && r.failures == Tally(a, Some(Failure)) + Tally(b, Some(Failure)) + Tally(c, Some(Failure))
  }

  /** What one event does to the outcomes of the invocations of one kind. */
  datatype Change = Nothing | Opened | OpenedAndFailed | Closed(k: nat, o: Outcome)

  /** An outcome is only ever given to a pending invocation. */
  predicate CanChange(outcomes: seq<Option<Outcome>>, c: Change) {
    c.Closed? ==> c.k < |outcomes| && outcomes[c.k] == None
  }

  function Changed(outcomes: seq<Option<Outcome>>, c: Change): seq<Option<Outcome>>
    requires CanChange(outcomes, c)
  {
    match c
    case Nothing => outcomes
    case Opened => outcomes + [None]
    case OpenedAndFailed => outcomes + [Some(Failure)]
    case Closed(k, o) => outcomes[k := Some(o)]
  }

  /** How the three counters answer a change; an outcome uses the clamped decrement. */
  predicate IsCounted(r: Record, c: Change, r': Record) {
    match c
    case Nothing => r' == r
    case Opened => r'.inFlight == r.inFlight + 1 && r'.successes == r.successes && r'.failures == r.failures
    case OpenedAndFailed => r'.inFlight == r.inFlight && r'.successes == r.successes && r'.failures == r.failures + 1
    case Closed(_, Success) =>
      r'.inFlight == Decremented(r.inFlight) && r'.successes == r.successes + 1 && r'.failures == r.failures
    case Closed(_, Failure) =>
      r'.inFlight == Decremented(r.inFlight) && r'.successes == r.successes && r'.failures == r.failures + 1
  }

  lemma {:induction false} PendingIsTallied(outcomes: seq<Option<Outcome>>, k: nat)
    requires k < |outcomes|
    ensures Tally(outcomes, outcomes[k]) >= 1
  {
    if k < |outcomes| - 1 {
      PendingIsTallied(outcomes[..|outcomes| - 1], k);
    }
  }

  lemma ChangeKeepsAccounts(
    r: Record, a: seq<Option<Outcome>>, b: seq<Option<Outcome>>, c: seq<Option<Outcome>>, change: Change, r': Record)
    requires Accounts(r, a, b, c) && CanChange(a, change) && IsCounted(r, change, r')
    ensures Accounts(r', Changed(a, change), b, c)
    ensures change.Closed? ==> r.inFlight >= 1
  {
    var ok, bad := Some(Success), Some(Failure);
    match change
    case Nothing =>
    case Opened =>
      TallyAppend(a, None, None);
      TallyAppend(a, None, ok);
      TallyAppend(a, None, bad);
    case OpenedAndFailed =>
      TallyAppend(a, bad, None);
      TallyAppend(a, bad, ok);
      TallyAppend(a, bad, bad);
    case Closed(k, o) =>
      PendingIsTallied(a, k);
      TallyUpdate(a, k, Some(o), None);
      TallyUpdate(a, k, Some(o), ok);
      TallyUpdate(a, k, Some(o), bad);
  }

  // ----------------------------------------------------- the three kinds of invocation

  function CycleOutcomes(cycles: seq<Cycle>): (outcomes: seq<Option<Outcome>>)
    ensures |outcomes| == |cycles|
  {
    seq(|cycles|, k requires 0 <= k < |cycles| => cycles[k].outcome)
  }

  function DrainOutcomes(drains: seq<Drain>): (outcomes: seq<Option<Outcome>>)
    ensures |outcomes| == |drains|
  {
    seq(|drains|, k requires 0 <= k < |drains| => OutcomeOf(drains[k]))
  }

  function CheckOutcomes(checks: seq<Check>): (outcomes: seq<Option<Outcome>>)
    ensures |outcomes| == |checks|
  {
    seq(|checks|, k requires 0 <= k < |checks| => checks[k].outcome)
  }

  function TickerChange(s: State, e: Event): Change {
    if Starts(s, e) then Opened
    else
      match e
      case WorkResolves(k) => Closed(k, Success)
      case WorkRejects(k) => Closed(k, Failure)
      case MaintenanceRejects(k) => Closed(k, Failure)
      case _ => Nothing
  }

  lemma TickerStepChanges(cfg: Config, s: State, e: Event)
    requires IsDeliveryConfig(cfg) && Inv(cfg, s) && Enabled(s, e)
    ensures CanChange(CycleOutcomes(s.cycles), TickerChange(s, e))
    ensures CycleOutcomes(Step(cfg, s, e).cycles) == Changed(CycleOutcomes(s.cycles), TickerChange(s, e))
  {
    var t := Step(cfg, s, e);
    if Starts(s, e) {
      assert CycleOutcomes(t.cycles) == CycleOutcomes(s.cycles) + [None];
    } else if e.MaintenanceResolves? || e.MaintenanceRejects? || e.WarmSettles?
              || e.WorkResolves? || e.WorkRejects? || e.FinallyRuns? {
      assert IsCycle(cfg, e.k, s.cycles[e.k]);
    }
  }

  function DrainChange(d: Drain, i: nat, e: DrainEvent): Change {
    if e != Continues then Nothing
    else if d.race == BatchWon(true) then Closed(i, Success)
    else Closed(i, Failure)
  }

  function FxChange(s: FxState, e: FxEvent): Change {
    if FxStarts(s, e) then Opened
    else if e.CheckSettles? then Closed(e.k, if e.resolved then Success else Failure)
    else Nothing
  }

  lemma FxStepChanges(s: FxState, e: FxEvent)
    requires FxInv(s) && FxEnabled(s, e)
    ensures CanChange(CheckOutcomes(s.checks), FxChange(s, e))
    ensures CheckOutcomes(FxStep(s, e).checks) == Changed(CheckOutcomes(s.checks), FxChange(s, e))
  {
  }

  function RouteChange(e: SystemEvent): Change {
    match e
    case RouteRunBegins => Opened
    case RouteRunSettles(k, resolved, _, _) => Closed(k, if resolved then Success else Failure)
    case _ => Nothing
  }

  // --------------------------------------------------------------------- the invariant

  predicate SystemInv(cfg: Config, s: System)
    requires IsDeliveryConfig(cfg)
  {
    && Inv(cfg, s.ticker) && FxInv(s.fx)
    && Accounts(s.notifications, CycleOutcomes(s.ticker.cycles), DrainOutcomes(s.drains), s.routeRuns)
    && Accounts(s.fxSource, CheckOutcomes(s.fx.checks), [], [])
  }

  lemma OneStartAccounts(first: seq<Option<Outcome>>)
    requires first == [None]
    ensures Accounts(Started(EMPTY_RECORD), first, [], [])
  {
    assert first == [] + [None];
    TallyAppend([], None, None);
    TallyAppend([], None, Some(Success));
    TallyAppend([], None, Some(Failure));
  }

  lemma NothingAccounts()
    ensures Accounts(EMPTY_RECORD, [], [], [])
  {
  }

  lemma InitialOutcomes(cfg: Config)
    requires IsDeliveryConfig(cfg)
    ensures CycleOutcomes(Initial(cfg).cycles) == if cfg.runImmediately then [None] else []
  {
  }

  lemma SystemInitialHolds(cfg: Config)
    requires IsDeliveryConfig(cfg)
    ensures SystemInv(cfg, SystemInitial(cfg))
  {
    InitialHolds(cfg);
    InitialOutcomes(cfg);
    var outcomes := CycleOutcomes(Initial(cfg).cycles);
    NothingAccounts();
    if cfg.runImmediately {
      OneStartAccounts(outcomes);
    }
    assert DrainOutcomes([]) == [] && CheckOutcomes([]) == [];
  }

  lemma TickerEventKeepsInv(cfg: Config, s: System, e: SystemEvent)
    requires IsDeliveryConfig(cfg) && SystemInv(cfg, s) && SystemEnabled(s, e) && e.TickerEvent?
    ensures SystemInv(cfg, SystemStep(cfg, s, e))
    ensures TickerChange(s.ticker, e.te).Closed? ==> s.notifications.inFlight >= 1
  {
    StepKeepsInv(cfg, s.ticker, e.te);
    TickerStepChanges(cfg, s.ticker, e.te);
    ChangeKeepsAccounts(s.notifications, CycleOutcomes(s.ticker.cycles), DrainOutcomes(s.drains), s.routeRuns,
                        TickerChange(s.ticker, e.te), SystemStep(cfg, s, e).notifications);
  }

  function DrainEventChange(s: System, e: SystemEvent): Change
    requires SystemEnabled(s, e) && (e.DrainBegins? || e.DrainMoves?)
  {
    if e.DrainMoves? then DrainChange(s.drains[e.i], e.i, e.de)
    else if e.threw then OpenedAndFailed else Opened
  }

  lemma DrainEventChanges(cfg: Config, s: System, e: SystemEvent)
    requires IsDeliveryConfig(cfg) && SystemEnabled(s, e) && (e.DrainBegins? || e.DrainMoves?)
    ensures CanChange(DrainOutcomes(s.drains), DrainEventChange(s, e))
    ensures DrainOutcomes(SystemStep(cfg, s, e).drains) == Changed(DrainOutcomes(s.drains), DrainEventChange(s, e))
  {
  }

  lemma DrainKeepsAccounts(cfg: Config, s: System, e: SystemEvent)
    requires IsDeliveryConfig(cfg) && SystemInv(cfg, s) && SystemEnabled(s, e) && (e.DrainBegins? || e.DrainMoves?)
    ensures SystemInv(cfg, SystemStep(cfg, s, e))
    ensures DrainEventChange(s, e).Closed? ==> s.notifications.inFlight >= 1
  {
    DrainEventChanges(cfg, s, e);
    ChangeKeepsAccounts(s.notifications, DrainOutcomes(s.drains), CycleOutcomes(s.ticker.cycles), s.routeRuns,
                        DrainEventChange(s, e), SystemStep(cfg, s, e).notifications);
  }

  lemma RouteEventKeepsInv(cfg: Config, s: System, e: SystemEvent)
    requires IsDeliveryConfig(cfg) && SystemInv(cfg, s) && SystemEnabled(s, e)
    requires e.RouteRunBegins? || e.RouteRunSettles?
    ensures SystemInv(cfg, SystemStep(cfg, s, e))
    ensures RouteChange(e).Closed? ==> s.notifications.inFlight >= 1
  {
    ChangeKeepsAccounts(s.notifications, s.routeRuns, CycleOutcomes(s.ticker.cycles), DrainOutcomes(s.drains),
                        RouteChange(e), SystemStep(cfg, s, e).notifications);
  }

  lemma FxEventKeepsInv(cfg: Config, s: System, e: SystemEvent)
    requires IsDeliveryConfig(cfg) && SystemInv(cfg, s) && SystemEnabled(s, e) && e.FxMoves?
    ensures SystemInv(cfg, SystemStep(cfg, s, e))
    ensures FxChange(s.fx, e.fe).Closed? ==> s.fxSource.inFlight >= 1
  {
    FxStepKeepsInv(s.fx, e.fe);
    FxStepChanges(s.fx, e.fe);
    ChangeKeepsAccounts(s.fxSource, CheckOutcomes(s.fx.checks), [], [], FxChange(s.fx, e.fe),
                        SystemStep(cfg, s, e).fxSource);
  }

  lemma SystemStepKeepsInv(cfg: Config, s: System, e: SystemEvent)
    requires IsDeliveryConfig(cfg) && SystemInv(cfg, s) && SystemEnabled(s, e)
    ensures SystemInv(cfg, SystemStep(cfg, s, e))
  {
    match e
    case TickerEvent(_, _, _) => TickerEventKeepsInv(cfg, s, e);
    case DrainBegins(_, _, _, _, _) => DrainKeepsAccounts(cfg, s, e);
    case DrainMoves(_, _, _, _) => DrainKeepsAccounts(cfg, s, e);
    case RouteRunBegins => RouteEventKeepsInv(cfg, s, e);
    case RouteRunSettles(_, _, _, _) => RouteEventKeepsInv(cfg, s, e);
    case FxMoves(_, _, _) => FxEventKeepsInv(cfg, s, e);
  }

  lemma {:induction false} SystemInvHolds(cfg: Config, events: seq<SystemEvent>)
    requires IsDeliveryConfig(cfg) && SystemAfter(cfg, events).Some?
    ensures SystemInv(cfg, SystemAfter(cfg, events).value)
  {
    if events == [] {
      SystemInitialHolds(cfg);
    } else {
      SystemInvHolds(cfg, events[..|events| - 1]);
      SystemStepKeepsInv(cfg, SystemAfter(cfg, events[..|events| - 1]).value, events[|events| - 1]);
    }
  }

  // ------------------------------------------------------------------------ theorems

  /** Conservation, in every reachable state of the process: each invocation ever
      started is a success, a failure or in flight, and counted as exactly one of them. */
  lemma EveryStartIsAccountedFor(cfg: Config, events: seq<SystemEvent>)
    requires IsDeliveryConfig(cfg) && SystemAfter(cfg, events).Some?
    ensures var s := SystemAfter(cfg, events).value;
      && |s.ticker.cycles| + |s.drains| + |s.routeRuns| ==
         s.notifications.successes + s.notifications.failures + s.notifications.inFlight
      && |s.fx.checks| == s.fxSource.successes + s.fxSource.failures + s.fxSource.inFlight
      && s.notifications.inFlight ==
         Tally(CycleOutcomes(s.ticker.cycles), None) + Tally(DrainOutcomes(s.drains), None) + Tally(s.routeRuns, None)
      && s.fxSource.inFlight == Tally(CheckOutcomes(s.fx.checks), None)
  {
    SystemInvHolds(cfg, events);
    var s := SystemAfter(cfg, events).value;
    TallyTotal(CycleOutcomes(s.ticker.cycles));
    TallyTotal(DrainOutcomes(s.drains));
    TallyTotal(s.routeRuns);
    TallyTotal(CheckOutcomes(s.fx.checks));
  }

  /** Which events record an outcome, and for which worker. */
  predicate RecordsNotification(s: System, e: SystemEvent)
    requires SystemEnabled(s, e)
  {
    match e
    case TickerEvent(te, _, _) => TickerChange(s.ticker, te).Closed?
    case DrainMoves(i, de, _, _) => DrainChange(s.drains[i], i, de).Closed?
    case RouteRunSettles(_, _, _, _) => true
    case _ => false
  }

  /** An outcome takes exactly one off the invocations in flight. */
  predicate TakesOne(s: System, e: SystemEvent, t: System)
    requires SystemEnabled(s, e)
  {
    && (RecordsNotification(s, e) ==> t.notifications.inFlight + 1 == s.notifications.inFlight)
    && (e.FxMoves? && FxChange(s.fx, e.fe).Closed? ==> t.fxSource.inFlight + 1 == s.fxSource.inFlight)
  }

  lemma StepTakesOne(cfg: Config, s: System, e: SystemEvent)
    requires IsDeliveryConfig(cfg) && SystemInv(cfg, s) && SystemEnabled(s, e)
    ensures TakesOne(s, e, SystemStep(cfg, s, e))
  {
    match e
    case TickerEvent(_, _, _) => TickerEventKeepsInv(cfg, s, e);
    case DrainBegins(_, _, _, _, _) =>
    case DrainMoves(_, _, _, _) => DrainKeepsAccounts(cfg, s, e);
    case RouteRunBegins =>
    case RouteRunSettles(_, _, _, _) => RouteEventKeepsInv(cfg, s, e);
    case FxMoves(_, _, _) => FxEventKeepsInv(cfg, s, e);
  }

  /** The clamp at zero never changes a value: an outcome is recorded only while
      its own start is counted in flight, so it takes exactly one off. */
  lemma ClampNeverBites(cfg: Config, events: seq<SystemEvent>, e: SystemEvent)
    requires IsDeliveryConfig(cfg) && SystemAfter(cfg, events).Some?
    requires SystemEnabled(SystemAfter(cfg, events).value, e)
    ensures var s := SystemAfter(cfg, events).value; TakesOne(s, e, SystemStep(cfg, s, e))
  {
    SystemInvHolds(cfg, events);
    StepTakesOne(cfg, SystemAfter(cfg, events).value, e);
  }

  // ------------------------------------------------------------ outcomes are final

  /** Nothing in `a` that has an outcome has another one in `b`. */
  predicate Keeps(a: seq<Option<Outcome>>, b: seq<Option<Outcome>>) {
    |a| <= |b| && forall k | 0 <= k < |a| && a[k].Some? :: b[k] == a[k]
  }

  /** A timeout that has won a race has won it for good. */
  predicate KeepsRaces(a: seq<Drain>, b: seq<Drain>) {
    |a| <= |b| && forall i | 0 <= i < |a| ::
      && (a[i].race.Recorded? ==> b[i].race == a[i].race)
      && (a[i].race.TimeoutWon? ==> b[i].race == TimeoutWon || b[i].race == Recorded(Failure, true))
  }

  predicate KeepsOutcomes(s: System, t: System) {
    && Keeps(CycleOutcomes(s.ticker.cycles), CycleOutcomes(t.ticker.cycles))
    && Keeps(DrainOutcomes(s.drains), DrainOutcomes(t.drains)) && KeepsRaces(s.drains, t.drains)
    && Keeps(s.routeRuns, t.routeRuns)
    && Keeps(CheckOutcomes(s.fx.checks), CheckOutcomes(t.fx.checks))
  }

  lemma ChangeKeeps(outcomes: seq<Option<Outcome>>, c: Change)
    requires CanChange(outcomes, c)
    ensures Keeps(outcomes, Changed(outcomes, c))
  {
  }

  lemma DrainEventKeepsRaces(cfg: Config, s: System, e: SystemEvent)
    requires IsDeliveryConfig(cfg) && SystemEnabled(s, e) && (e.DrainBegins? || e.DrainMoves?)
    ensures KeepsRaces(s.drains, SystemStep(cfg, s, e).drains)
  {
  }

  lemma StepKeepsOutcomes(cfg: Config, s: System, e: SystemEvent)
    requires IsDeliveryConfig(cfg) && SystemInv(cfg, s) && SystemEnabled(s, e)
    ensures KeepsOutcomes(s, SystemStep(cfg, s, e))
  {
    match e {
      case TickerEvent(te, _, _) =>
        TickerStepChanges(cfg, s.ticker, te);
        ChangeKeeps(CycleOutcomes(s.ticker.cycles), TickerChange(s.ticker, te));
      case FxMoves(fe, _, _) =>
        FxStepChanges(s.fx, fe);
        ChangeKeeps(CheckOutcomes(s.fx.checks), FxChange(s.fx, fe));
      case RouteRunBegins =>
        ChangeKeeps(s.routeRuns, RouteChange(e));
      case RouteRunSettles(_, _, _, _) =>
        ChangeKeeps(s.routeRuns, RouteChange(e));
      case _ =>
        DrainEventChanges(cfg, s, e);
        ChangeKeeps(DrainOutcomes(s.drains), DrainEventChange(s, e));
        DrainEventKeepsRaces(cfg, s, e);
    }
  }

  lemma KeepsTransitive(s: System, t: System, u: System)
    requires KeepsOutcomes(s, t) && KeepsOutcomes(t, u)
    ensures KeepsOutcomes(s, u)
  {
  }

  /** Whatever happens next, a recorded outcome is never recorded again or replaced: in
      particular a drain whose timeout has won ends as one timed-out failure, also when
      its batch settles later. */
  lemma {:induction false} OutcomesAreFinal(cfg: Config, events: seq<SystemEvent>, more: seq<SystemEvent>)
    requires IsDeliveryConfig(cfg) && SystemAfter(cfg, events).Some? && SystemAfter(cfg, events + more).Some?
    ensures KeepsOutcomes(SystemAfter(cfg, events).value, SystemAfter(cfg, events + more).value)
    decreases |more|
  {
    if more == [] {
      assert events + more == events;
    } else {
      var init, e := more[..|more| - 1], more[|more| - 1];
      assert (events + more)[..|events + more| - 1] == events + init;
      assert (events + more)[|events + more| - 1] == e;
      OutcomesAreFinal(cfg, events, init);
      SystemInvHolds(cfg, events + init);
      var t := SystemAfter(cfg, events + init).value;
      StepKeepsOutcomes(cfg, t, e);
      KeepsTransitive(SystemAfter(cfg, events).value, t, SystemStep(cfg, t, e));
    }
  }
}
