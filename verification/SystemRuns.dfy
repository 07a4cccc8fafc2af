/** What a run of the whole background process says about each drain and about the two
    records: outcomes and counters, told by the events so far. */
module SystemRuns {
  import opened Results
  import opened GuardedTicker
  import opened WorkerLiveness
  import opened DeliveryWorker
  import opened DeliveryRoute
  import opened NotificationHeartbeat
  import opened FxSourceRunner
  import opened LivenessConservation

  // -------------------------------------------------------------- one drain's events

  /** The calls that began a drain, in order: drain `i` is the one of call `i`. */
  function Begun(events: seq<SystemEvent>): (calls: seq<SystemEvent>)
    ensures forall c | c in calls :: c.DrainBegins?
  {
    if events == [] then []
    else
      var e := events[|events| - 1];
      Begun(events[..|events| - 1]) + if e.DrainBegins? then [e] else []
  }

  /** What has happened to drain `i`, in order. */
  function DrainEvents(events: seq<SystemEvent>, i: nat): seq<DrainEvent> {
    if events == [] then []
    else
      var e := events[|events| - 1];
      DrainEvents(events[..|events| - 1], i) + if e.DrainMoves? && e.i == i then [e.de] else []
  }

  /** The race of a drain that has begun, by what settled it first. */
  predicate RaceFollows(race: Race, own: seq<DrainEvent>) {
    if own == [] then race == Racing
    else
      match own[0]
      case BatchSettles(ok) =>
        race == if own == [own[0]] then BatchWon(ok) else Recorded(if ok then Success else Failure, false)
      case TimeoutFires =>
        race == if Continues in own then Recorded(Failure, true) else TimeoutWon
      case Continues => false
  }

  /** A batch that has won the race is followed by the continuation alone; one that has
      lost it may settle before or after that. */
  predicate IsDrainRun(own: seq<DrainEvent>) {
    own != [] ==>
      match own[0]
      case BatchSettles(_) => own == [own[0]] || own == [own[0], Continues]
      case TimeoutFires =>
        || own == [own[0]] || own == [own[0], Continues]
        || (|own| == 2 && own[1].BatchSettles?)
        || (|own| == 3 && own[1].BatchSettles? && own[2] == Continues)
        || (|own| == 3 && own[1] == Continues && own[2].BatchSettles?)
      case Continues => false
  }

  predicate DrainFollows(d: Drain, threw: bool, own: seq<DrainEvent>) {
    if threw then own == [] && d.race == Recorded(Failure, false) && !d.batchRunning
    else
      && RaceFollows(d.race, own) && IsDrainRun(own)
      && (d.batchRunning <==> BatchSettles(true) !in own && BatchSettles(false) !in own)
  }

  lemma DrainStepFollows(d: Drain, threw: bool, own: seq<DrainEvent>, e: DrainEvent)
    requires DrainFollows(d, threw, own) && DrainEnabled(d, e)
    ensures DrainFollows(DrainStep(d, e), threw, own + [e])
  {
    if own != [] {
      assert (own + [e])[0] == own[0];
    }
  }

  /** The drain of one call: its bounds, and what its own events have made of it. */
  predicate IsDrainOf(d: Drain, call: SystemEvent, own: seq<DrainEvent>)
    requires call.DrainBegins?
  {
    && d.batchSize == BatchSize(call.requested) && d.timeoutMs == TimeoutMs(call.bound)
    && DrainFollows(d, call.threw, own)
  }

  predicate DrainIsTold(i: nat, drains: seq<Drain>, calls: seq<SystemEvent>, own: seq<DrainEvent>)
    requires forall c | c in calls :: c.DrainBegins?
  {
    && |drains| == |calls|
    && if i < |drains| then IsDrainOf(drains[i], calls[i], own) else own == []
  }

  lemma SystemStepIsTold(cfg: Config, s: System, e: SystemEvent, i: nat, calls: seq<SystemEvent>, own: seq<DrainEvent>)
    requires IsDeliveryConfig(cfg) && SystemEnabled(s, e) && forall c | c in calls :: c.DrainBegins?
    requires DrainIsTold(i, s.drains, calls, own)
    ensures DrainIsTold(i, SystemStep(cfg, s, e).drains, calls + if e.DrainBegins? then [e] else [],
                        own + if e.DrainMoves? && e.i == i then [e.de] else [])
  {
    if e.DrainMoves? && e.i == i {
      DrainStepFollows(s.drains[i], calls[i].threw, own, e.de);
    }
  }

  /** Each call that began a drain has its drain, and what settled the race first decides
      how it ends: a batch that settles before any timeout is recorded as it settled, a
      drain whose timeout has fired first as one timed-out failure, and a worker that threw
      at once as a failure. */
  lemma {:induction false} DrainStory(cfg: Config, events: seq<SystemEvent>, i: nat)
    requires IsDeliveryConfig(cfg) && SystemAfter(cfg, events).Some?
    ensures DrainIsTold(i, SystemAfter(cfg, events).value.drains, Begun(events), DrainEvents(events, i))
  {
    if events == [] {
    } else {
      var before, e := events[..|events| - 1], events[|events| - 1];
      DrainStory(cfg, before, i);
      SystemStepIsTold(cfg, SystemAfter(cfg, before).value, e, i, Begun(before), DrainEvents(before, i));
    }
  }

  /** What can happen to a drain next: its batch settles once, its timeout may fire while
      nothing has happened, and what comes first is continued once. */
  predicate NextOfDrain(d: Drain, threw: bool, own: seq<DrainEvent>) {
    && (forall ok :: DrainEnabled(d, BatchSettles(ok)) <==>
          !threw && BatchSettles(true) !in own && BatchSettles(false) !in own)
    && (DrainEnabled(d, TimeoutFires) <==> !threw && own == [] && d.timeoutMs > 0)
    && (DrainEnabled(d, Continues) <==> own != [] && Continues !in own)
  }

  lemma FollowedIsNext(d: Drain, threw: bool, own: seq<DrainEvent>)
    requires DrainFollows(d, threw, own)
    ensures NextOfDrain(d, threw, own)
  {
  }

  lemma NextForDrain(cfg: Config, events: seq<SystemEvent>, i: nat)
    requires IsDeliveryConfig(cfg) && SystemAfter(cfg, events).Some? && i < |Begun(events)|
    ensures i < |SystemAfter(cfg, events).value.drains|
    ensures NextOfDrain(SystemAfter(cfg, events).value.drains[i], Begun(events)[i].threw, DrainEvents(events, i))
  {
    DrainStory(cfg, events, i);
    var d := SystemAfter(cfg, events).value.drains[i];
    assert IsDrainOf(d, Begun(events)[i], DrainEvents(events, i));
    FollowedIsNext(d, Begun(events)[i].threw, DrainEvents(events, i));
  }

  // --------------------------------------------------------- the tickers in the process

  function TickerEvents(events: seq<SystemEvent>): seq<Event> {
    if events == [] then []
    else
      var e := events[|events| - 1];
      TickerEvents(events[..|events| - 1]) + if e.TickerEvent? then [e.te] else []
  }

  function FxEvents(events: seq<SystemEvent>): seq<FxEvent> {
    if events == [] then []
    else
      var e := events[|events| - 1];
      FxEvents(events[..|events| - 1]) + if e.FxMoves? then [e.fe] else []
  }

  lemma TickerStepsAlone(cfg: Config, s: System, e: SystemEvent, own: seq<Event>)
    requires IsDeliveryConfig(cfg) && SystemEnabled(s, e) && After(cfg, own) == Some(s.ticker)
    ensures After(cfg, own + if e.TickerEvent? then [e.te] else []) == Some(SystemStep(cfg, s, e).ticker)
  {
    if e.TickerEvent? {
      OneMoreEvent(cfg, own, e.te);
    } else {
      assert own + [] == own;
    }
  }

  lemma FxStepsAlone(cfg: Config, s: System, e: SystemEvent, own: seq<FxEvent>)
    requires IsDeliveryConfig(cfg) && SystemEnabled(s, e) && FxAfter(own) == Some(s.fx)
    ensures FxAfter(own + if e.FxMoves? then [e.fe] else []) == Some(SystemStep(cfg, s, e).fx)
  {
    if e.FxMoves? {
      assert (own + [e.fe])[..|own|] == own;
    } else {
      assert own + [] == own;
    }
  }

  /** Within the process the ticker and the FX checks run as they do on their own. */
  lemma {:induction false} TickersRunAlone(cfg: Config, events: seq<SystemEvent>)
    requires IsDeliveryConfig(cfg) && SystemAfter(cfg, events).Some?
    ensures After(cfg, TickerEvents(events)) == Some(SystemAfter(cfg, events).value.ticker)
    ensures FxAfter(FxEvents(events)) == Some(SystemAfter(cfg, events).value.fx)
  {
    if events == [] {
    } else {
      var before, e := events[..|events| - 1], events[|events| - 1];
      TickersRunAlone(cfg, before);
      TickerStepsAlone(cfg, SystemAfter(cfg, before).value, e, TickerEvents(before));
      FxStepsAlone(cfg, SystemAfter(cfg, before).value, e, FxEvents(before));
    }
  }

  // ------------------------------------------------------------------- the two records

  /** What one event reports: nothing, a start, an outcome, or a start and its failure at once. */
  datatype Report =
    | Silent
    | Starts
    | Succeeds(nowMs: int)
    | Fails(err: Thrown, nowMs: int)
    | StartsAndFails(err: Thrown, nowMs: int)

  predicate BatchWonFirst(own: seq<DrainEvent>) {
    own != [] && own[0] == BatchSettles(true)
  }

  /** What an event reports on the notification record after the events before it; `grown`
      says whether the ticker has a cycle more. */
  function Reported(before: seq<SystemEvent>, e: SystemEvent, grown: bool): Report {
    match e
    case TickerEvent(WorkResolves(_), _, now) => Succeeds(now)
    case TickerEvent(WorkRejects(_), err, now) => Fails(err, now)
    case TickerEvent(MaintenanceRejects(_), err, now) => Fails(err, now)
    case TickerEvent(_, _, _) => if grown then Report.Starts else Silent
    case DrainBegins(_, _, threw, err, now) => if threw then StartsAndFails(err, now) else Report.Starts
    case DrainMoves(i, Continues, err, now) =>
      if BatchWonFirst(DrainEvents(before, i)) then Succeeds(now) else Fails(err, now)
    case RouteRunBegins => Report.Starts
    case RouteRunSettles(_, resolved, err, now) => if resolved then Succeeds(now) else Fails(err, now)
    case _ => Silent
  }

  /** The same for the record of the FX checks. */
  function FxReported(e: SystemEvent, grown: bool): Report {
    match e
    case FxMoves(CheckSettles(_, resolved), err, now) => if resolved then Succeeds(now) else Fails(err, now)
    case FxMoves(_, _, _) => if grown then Report.Starts else Silent
    case _ => Silent
  }

  /** How a record answers a report, field by field. */
  predicate IsAnswer(r: Record, report: Report, r': Record) {
    match report
    case Silent => r' == r
    case Starts => r' == r.(inFlight := r.inFlight + 1)
    case Succeeds(now) =>
      && r.inFlight >= 1
      && r' == r.(inFlight := r.inFlight - 1, successes := r.successes + 1, lastSuccessAtMs := Some(now))
    case Fails(err, now) =>
      && r.inFlight >= 1
      && r' == r.(inFlight := r.inFlight - 1, failures := r.failures + 1,
                  lastFailureAtMs := Some(now), lastFailureCode := Some(FailureCode(err)))
    case StartsAndFails(err, now) =>
      r' == r.(failures := r.failures + 1, lastFailureAtMs := Some(now), lastFailureCode := Some(FailureCode(err)))
  }

  lemma StartsGrow(cfg: Config, s: State, te: Event)
    requires IsConfig(cfg) && Enabled(s, te)
    ensures |Step(cfg, s, te).cycles| > |s.cycles| <==> DeliveryWorker.Starts(s, te)
  {
  }

  lemma TickerRecordAnswers(r: Record, s: State, e: SystemEvent, before: seq<SystemEvent>)
    requires e.TickerEvent? && (TickerChange(s, e.te).Closed? ==> r.inFlight >= 1)
    ensures IsAnswer(r, Reported(before, e, DeliveryWorker.Starts(s, e.te)),
                     DeliveryWorker.Recorded(r, s, e.te, e.err, e.nowMs))
  {
  }

  lemma TickerAnswers(cfg: Config, s: System, e: SystemEvent, before: seq<SystemEvent>)
    requires IsDeliveryConfig(cfg) && SystemInv(cfg, s) && SystemEnabled(s, e) && e.TickerEvent?
    ensures var t := SystemStep(cfg, s, e);
      IsAnswer(s.notifications, Reported(before, e, |t.ticker.cycles| > |s.ticker.cycles|), t.notifications)
  {
    TickerEventKeepsInv(cfg, s, e);
    StartsGrow(cfg, s.ticker, e.te);
    TickerRecordAnswers(s.notifications, s.ticker, e, before);
  }

  lemma ContinuedAnswers(r: Record, d: Drain, own: seq<DrainEvent>, err: Thrown, nowMs: int)
    requires r.inFlight >= 1 && DrainFollows(d, false, own) && DrainEnabled(d, Continues)
    ensures IsAnswer(r, if BatchWonFirst(own) then Succeeds(nowMs) else Fails(err, nowMs),
                     DrainRecorded(r, d, Continues, err, nowMs))
  {
  }

  lemma BeginAnswers(cfg: Config, s: System, e: SystemEvent, before: seq<SystemEvent>)
    requires IsDeliveryConfig(cfg) && e.DrainBegins?
    ensures IsAnswer(s.notifications, Reported(before, e, false), SystemStep(cfg, s, e).notifications)
  {
  }

  lemma DrainIsFollowed(cfg: Config, s: System, before: seq<SystemEvent>, i: nat)
    requires IsDeliveryConfig(cfg) && SystemAfter(cfg, before) == Some(s) && i < |s.drains|
    requires DrainEnabled(s.drains[i], Continues)
    ensures DrainFollows(s.drains[i], false, DrainEvents(before, i))
  {
    DrainStory(cfg, before, i);
  }

  lemma DrainAnswers(cfg: Config, s: System, e: SystemEvent, before: seq<SystemEvent>)
    requires IsDeliveryConfig(cfg) && SystemAfter(cfg, before) == Some(s) && SystemInv(cfg, s)
    requires SystemEnabled(s, e) && e.DrainMoves?
    ensures IsAnswer(s.notifications, Reported(before, e, false), SystemStep(cfg, s, e).notifications)
  {
    if e.de == Continues {
      DrainKeepsAccounts(cfg, s, e);
      DrainIsFollowed(cfg, s, before, e.i);
      ContinuedAnswers(s.notifications, s.drains[e.i], DrainEvents(before, e.i), e.err, e.nowMs);
    }
  }

  lemma RouteAnswers(cfg: Config, s: System, e: SystemEvent, before: seq<SystemEvent>)
    requires IsDeliveryConfig(cfg) && SystemInv(cfg, s) && SystemEnabled(s, e)
    requires e.RouteRunBegins? || e.RouteRunSettles?
    ensures IsAnswer(s.notifications, Reported(before, e, false), SystemStep(cfg, s, e).notifications)
  {
    RouteEventKeepsInv(cfg, s, e);
  }

  lemma FxStartsGrow(s: FxState, fe: FxEvent)
    requires FxEnabled(s, fe)
    ensures |FxStep(s, fe).checks| > |s.checks| <==> FxStarts(s, fe)
  {
  }

  lemma FxRecordAnswers(r: Record, s: FxState, e: SystemEvent)
    requires e.FxMoves? && (FxChange(s, e.fe).Closed? ==> r.inFlight >= 1)
    ensures IsAnswer(r, FxReported(e, FxStarts(s, e.fe)), FxRecorded(r, s, e.fe, e.err, e.nowMs))
  {
  }

  lemma FxAnswers(cfg: Config, s: System, e: SystemEvent)
    requires IsDeliveryConfig(cfg) && SystemInv(cfg, s) && SystemEnabled(s, e) && e.FxMoves?
    ensures var t := SystemStep(cfg, s, e);
      IsAnswer(s.fxSource, FxReported(e, |t.fx.checks| > |s.fx.checks|), t.fxSource)
  {
    FxEventKeepsInv(cfg, s, e);
    FxStartsGrow(s.fx, e.fe);
    FxRecordAnswers(s.fxSource, s.fx, e);
  }

  /** After every run, whatever happens next, each record answers exactly what that event
      reports: a worker that answered counts as it answered, a drain as its race was
      first settled, with the time and the error of the event, and nothing else moves. */
  lemma RecordsFollowEvents(cfg: Config, events: seq<SystemEvent>, e: SystemEvent)
    requires IsDeliveryConfig(cfg) && SystemAfter(cfg, events + [e]).Some?
    ensures SystemAfter(cfg, events).Some?
    ensures var s, t := SystemAfter(cfg, events).value, SystemAfter(cfg, events + [e]).value;
      && IsAnswer(s.notifications, Reported(events, e, |t.ticker.cycles| > |s.ticker.cycles|), t.notifications)
      && IsAnswer(s.fxSource, FxReported(e, |t.fx.checks| > |s.fx.checks|), t.fxSource)
  {
    assert (events + [e])[..|events|] == events;
    SystemInvHolds(cfg, events);
    var s := SystemAfter(cfg, events).value;
    match e
    case TickerEvent(_, _, _) => TickerAnswers(cfg, s, e, events);
    case DrainBegins(_, _, _, _, _) => BeginAnswers(cfg, s, e, events);
    case DrainMoves(_, _, _, _) => DrainAnswers(cfg, s, e, events);
    case RouteRunBegins => RouteAnswers(cfg, s, e, events);
    case RouteRunSettles(_, _, _, _) => RouteAnswers(cfg, s, e, events);
    case FxMoves(_, _, _) => FxAnswers(cfg, s, e);
  }

  /** A drain whose batch settles before any timeout fires is one success exactly when the
      batch resolved, once its continuation has run; otherwise it is one failure. */
  lemma FirstSettledDecides(cfg: Config, events: seq<SystemEvent>, i: nat, ok: bool, err: Thrown, nowMs: int)
    requires IsDeliveryConfig(cfg) && DrainEvents(events, i) == [BatchSettles(ok)]
    requires SystemAfter(cfg, events + [DrainMoves(i, Continues, err, nowMs)]).Some?
    ensures SystemAfter(cfg, events).Some?
    ensures var e := DrainMoves(i, Continues, err, nowMs);
      var s, t := SystemAfter(cfg, events).value, SystemAfter(cfg, events + [e]).value;
      && i < |t.drains| && t.drains[i].race == Recorded(if ok then Success else Failure, false)
      && t.notifications.successes == s.notifications.successes + (if ok then 1 else 0)
      && t.notifications.failures == s.notifications.failures + (if ok then 0 else 1)
  {
    var e := DrainMoves(i, Continues, err, nowMs);
    RecordsFollowEvents(cfg, events, e);
    DrainStory(cfg, events, i);
    assert (events + [e])[..|events|] == events;
  }

  /** A time is kept exactly once something has happened to be timed. */
  predicate IsTimed(r: Record) {
    && (r.lastSuccessAtMs.Some? <==> r.successes > 0)
    && (r.lastFailureAtMs.Some? <==> r.failures > 0)
    && (r.lastFailureCode.Some? <==> r.failures > 0)
  }

  lemma AnswerIsTimed(r: Record, report: Report, r': Record)
    requires IsTimed(r) && IsAnswer(r, report, r')
    ensures IsTimed(r')
  {
  }

  lemma {:induction false} RecordsAreTimed(cfg: Config, events: seq<SystemEvent>)
    requires IsDeliveryConfig(cfg) && SystemAfter(cfg, events).Some?
    ensures IsTimed(SystemAfter(cfg, events).value.notifications)
    ensures IsTimed(SystemAfter(cfg, events).value.fxSource)
  {
    if events == [] {
    } else {
      var before, e := events[..|events| - 1], events[|events| - 1];
      RecordsAreTimed(cfg, before);
      assert before + [e] == events;
      RecordsFollowEvents(cfg, before, e);
      var s, t := SystemAfter(cfg, before).value, SystemAfter(cfg, events).value;
      AnswerIsTimed(s.notifications, Reported(before, e, |t.ticker.cycles| > |s.ticker.cycles|), t.notifications);
      AnswerIsTimed(s.fxSource, FxReported(e, |t.fx.checks| > |s.fx.checks|), t.fxSource);
    }
  }
}
