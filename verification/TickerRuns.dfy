/** What a run of the ticker says about its cycles and its stops: the events so far,
    told without the transition system's steps, determine what each of them is at. */
module TickerRuns {
  import opened Results
  import opened GuardedTicker

  predicate About(e: Event, k: nat) {
    match e
    case MaintenanceResolves(j) => j == k
    case MaintenanceRejects(j) => j == k
    case WarmSettles(j) => j == k
    case WorkResolves(j) => j == k
    case WorkRejects(j) => j == k
    case FinallyRuns(j) => j == k
    case _ => false
  }

  /** The events of one cycle, in order. */
  function Own(events: seq<Event>, k: nat): seq<Event> {
    if events == [] then []
    else
      var e := events[|events| - 1];
      Own(events[..|events| - 1], k) + if About(e, k) then [e] else []
  }

  lemma {:induction false} OwnAreEvents(events: seq<Event>, k: nat)
    ensures forall e | About(e, k) :: e in Own(events, k) <==> e in events
  {
    if events != [] {
      var n := |events| - 1;
      OwnAreEvents(events[..n], k);
      assert events == events[..n] + [events[n]];
    }
  }

  // --------------------------------------------------------------- one cycle's events

  predicate IsDue(cfg: Config, k: nat)
    requires IsConfig(cfg)
  {
    (k + 1) % cfg.maintenanceEvery == 0
  }

  function Maintained(cfg: Config, k: nat): seq<Event>
    requires IsConfig(cfg)
  {
    if IsDue(cfg, k) then [MaintenanceResolves(k)] else []
  }

  /** What has to happen before a cycle calls its worker. */
  function Opening(cfg: Config, k: nat): seq<Event>
    requires IsConfig(cfg)
  {
    Maintained(cfg, k) + if cfg.warms then [WarmSettles(k)] else []
  }

  /** The body has ended: the worker's answer is its outcome, or its maintenance threw. */
  predicate HasEnded(cfg: Config, k: nat, c: Cycle, own: seq<Event>)
    requires IsConfig(cfg)
  {
    || (c.outcome == Some(Success) && c.works == 1 && own == Opening(cfg, k) + [WorkResolves(k)])
    || (c.outcome == Some(Failure) && c.works == 1 && own == Opening(cfg, k) + [WorkRejects(k)])
    || (c.outcome == Some(Failure) && c.works == 0 && IsDue(cfg, k) && own == [MaintenanceRejects(k)])
  }

  /** What cycle `k` is at after its own events. */
  predicate Follows(cfg: Config, k: nat, c: Cycle, own: seq<Event>)
    requires IsConfig(cfg)
  {
    && c.maintenances == (if IsDue(cfg, k) then 1 else 0)
    && match c.phase
       case Maintaining => c.outcome == None && c.works == 0 && IsDue(cfg, k) && own == []
       case Warming => c.outcome == None && c.works == 0 && cfg.warms && own == Maintained(cfg, k)
       case Working => c.outcome == None && c.works == 1 && own == Opening(cfg, k)
       case Settling => HasEnded(cfg, k, c, own)
       case Done => own != [] && own[|own| - 1] == FinallyRuns(k) && HasEnded(cfg, k, c, own[..|own| - 1])
  }

  lemma FinallyFollows(cfg: Config, k: nat, c: Cycle, own: seq<Event>)
    requires IsConfig(cfg) && Follows(cfg, k, c, own) && c.phase == Settling
    ensures Follows(cfg, k, c.(phase := Done), own + [FinallyRuns(k)])
  {
    assert (own + [FinallyRuns(k)])[..|own|] == own;
  }

  lemma OwnEventFollows(cfg: Config, s: State, e: Event, k: nat, own: seq<Event>)
    requires IsConfig(cfg) && k < |s.cycles| && About(e, k) && Enabled(s, e)
    requires Follows(cfg, k, s.cycles[k], own)
    ensures |Step(cfg, s, e).cycles| == |s.cycles| && Follows(cfg, k, Step(cfg, s, e).cycles[k], own + [e])
  {
    if e.FinallyRuns? {
      FinallyFollows(cfg, k, s.cycles[k], own);
    }
  }

  lemma OtherEventKeeps(cfg: Config, s: State, e: Event, k: nat)
    requires IsConfig(cfg) && k < |s.cycles| && !About(e, k) && Enabled(s, e)
    ensures k < |Step(cfg, s, e).cycles| && Step(cfg, s, e).cycles[k] == s.cycles[k]
  {
  }

  lemma NewCycleFollows(cfg: Config, s: State, e: Event)
    requires IsConfig(cfg) && Inv(cfg, s) && Enabled(s, e)
    ensures var t := Step(cfg, s, e);
      && |s.cycles| <= |t.cycles| <= |s.cycles| + 1
      && (|t.cycles| > |s.cycles| ==> Follows(cfg, |s.cycles|, t.cycles[|s.cycles|], []))
      && forall k: nat | |s.cycles| <= k :: !About(e, k)
  {
  }

  /** Cycle `k` is at what its own events say; before it starts nothing happens to it. */
  predicate IsTold(cfg: Config, k: nat, s: State, own: seq<Event>)
    requires IsConfig(cfg)
  {
    if k < |s.cycles| then Follows(cfg, k, s.cycles[k], own) else own == []
  }

  lemma StepIsTold(cfg: Config, s: State, e: Event, k: nat, own: seq<Event>)
    requires IsConfig(cfg) && Inv(cfg, s) && Enabled(s, e) && IsTold(cfg, k, s, own)
    ensures IsTold(cfg, k, Step(cfg, s, e), own + if About(e, k) then [e] else [])
  {
    NewCycleFollows(cfg, s, e);
    if k < |s.cycles| {
      if About(e, k) {
        OwnEventFollows(cfg, s, e, k, own);
      } else {
        OtherEventKeeps(cfg, s, e, k);
        assert own + [] == own;
      }
    }
  }

  /** Every cycle has seen the events its phase says, in this order and no other: its
      maintenance where it is due, the cache warmed where that is configured, the
      worker's answer, the finally handler. */
  lemma {:induction false} CycleStory(cfg: Config, events: seq<Event>, k: nat)
    requires IsConfig(cfg) && After(cfg, events).Some?
    ensures IsTold(cfg, k, After(cfg, events).value, Own(events, k))
  {
    if events == [] {
    } else {
      var before, e := events[..|events| - 1], events[|events| - 1];
      CycleStory(cfg, before, k);
      InvHolds(cfg, before);
      StepIsTold(cfg, After(cfg, before).value, e, k, Own(before, k));
    }
  }

  lemma {:induction false} PrefixRuns(cfg: Config, a: seq<Event>, b: seq<Event>)
    requires IsConfig(cfg) && After(cfg, a + b).Some?
    ensures After(cfg, a).Some?
    decreases |b|
  {
    if b == [] {
      assert a + b == a;
    } else {
      assert (a + b)[..|a + b| - 1] == a + b[..|b| - 1];
      PrefixRuns(cfg, a, b[..|b| - 1]);
    }
  }

  lemma LastHappened(cfg: Config, events: seq<Event>, e: Event)
    requires IsConfig(cfg) && After(cfg, events + [e]).Some?
    ensures After(cfg, events).Some? && Enabled(After(cfg, events).value, e)
  {
    assert (events + [e])[..|events|] == events;
  }

  lemma PrefixHappened(cfg: Config, events: seq<Event>, j: nat)
    requires IsConfig(cfg) && After(cfg, events).Some? && j < |events|
    ensures After(cfg, events[..j]).Some? && Enabled(After(cfg, events[..j]).value, events[j])
  {
    assert events == (events[..j] + [events[j]]) + events[j + 1..];
    PrefixRuns(cfg, events[..j] + [events[j]], events[j + 1..]);
    LastHappened(cfg, events[..j], events[j]);
  }

  lemma WorksAfterWarming(cfg: Config, k: nat, c: Cycle, own: seq<Event>)
    requires IsConfig(cfg) && Follows(cfg, k, c, own)
    ensures c.works == 1 ==> (WarmSettles(k) in own <==> cfg.warms)
    ensures WarmSettles(k) in own ==> c.works == 1
  {
    if c.phase == Done {
      assert own == own[..|own| - 1] + [FinallyRuns(k)];
    }
  }

  /** A cycle has called its worker only after warming the cache, exactly where that is configured. */
  lemma WarmsBeforeItWorks(cfg: Config, events: seq<Event>, k: nat)
    requires IsConfig(cfg) && After(cfg, events).Some? && k < |After(cfg, events).value.cycles|
    ensures After(cfg, events).value.cycles[k].works == 1 ==> (WarmSettles(k) in events <==> cfg.warms)
    ensures WarmSettles(k) in events ==> After(cfg, events).value.cycles[k].works == 1
  {
    CycleStory(cfg, events, k);
    OwnAreEvents(events, k);
    WorksAfterWarming(cfg, k, After(cfg, events).value.cycles[k], Own(events, k));
  }

  /** And when the worker answers, the cache has been warmed before. */
  lemma WarmsBeforeItAnswers(cfg: Config, events: seq<Event>, k: nat, j: nat)
    requires IsConfig(cfg) && After(cfg, events).Some?
    requires j < |events| && (events[j] == WorkResolves(k) || events[j] == WorkRejects(k))
    ensures WarmSettles(k) in events[..j] <==> cfg.warms
  {
    PrefixHappened(cfg, events, j);
    InvHolds(cfg, events[..j]);
    WarmsBeforeItWorks(cfg, events[..j], k);
  }

  /** The body of a cycle has ended, but not its finally handler. */
  predicate EndsWithAnswer(own: seq<Event>, k: nat) {
    own != [] && own[|own| - 1] in [WorkResolves(k), WorkRejects(k), MaintenanceRejects(k)]
  }

  predicate NextOf(cfg: Config, k: nat, s: State, own: seq<Event>)
    requires IsConfig(cfg)
  {
    && (Enabled(s, MaintenanceResolves(k)) <==> k < |s.cycles| && IsDue(cfg, k) && own == [])
    && (Enabled(s, MaintenanceRejects(k)) <==> k < |s.cycles| && IsDue(cfg, k) && own == [])
    && (Enabled(s, WarmSettles(k)) <==> k < |s.cycles| && cfg.warms && own == Maintained(cfg, k))
    && (Enabled(s, WorkResolves(k)) <==> k < |s.cycles| && own == Opening(cfg, k))
    && (Enabled(s, WorkRejects(k)) <==> k < |s.cycles| && own == Opening(cfg, k))
    && (Enabled(s, FinallyRuns(k)) <==> EndsWithAnswer(own, k))
  }

  lemma ToldIsNext(cfg: Config, k: nat, s: State, own: seq<Event>)
    requires IsConfig(cfg) && IsTold(cfg, k, s, own)
    ensures NextOf(cfg, k, s, own)
  {
  }

  /** What can happen to a cycle next, by what has happened to it: each awaited call may
      settle, exactly when it is the one awaited. */
  lemma NextForCycle(cfg: Config, events: seq<Event>, k: nat)
    requires IsConfig(cfg) && After(cfg, events).Some?
    ensures NextOf(cfg, k, After(cfg, events).value, Own(events, k))
  {
    CycleStory(cfg, events, k);
    ToldIsNext(cfg, k, After(cfg, events).value, Own(events, k));
  }

  // ------------------------------------------------------------ which fires start cycles

  predicate StartsAtOnce(cfg: Config) {
    cfg.runImmediately && cfg.initialDelayMs <= 0
  }

  /** How often one of the two timers has fired. */
  function Fired(events: seq<Event>): nat {
    if events == [] then 0
    else
      Fired(events[..|events| - 1]) +
      if events[|events| - 1] in [IntervalFires, InitialFires] then 1 else 0
  }

  /** Which timers are armed, by what has happened. */
  predicate IsArmed(cfg: Config, events: seq<Event>, s: State) {
    && (s.stopped <==> StopCalled in events)
    && (s.timer <==> StopCalled !in events) && (Enabled(s, IntervalFires) <==> StopCalled !in events)
    && (Enabled(s, InitialFires) <==>
        cfg.runImmediately && cfg.initialDelayMs > 0 && StopCalled !in events && InitialFires !in events)
    && s.fires == Fired(events) + if StartsAtOnce(cfg) then 1 else 0
  }

  lemma MemberOfAppended(events: seq<Event>, e: Event, x: Event)
    ensures x in events + [e] <==> x in events || x == e
  {
  }

  lemma FiredAppended(events: seq<Event>, e: Event)
    ensures Fired(events + [e]) == Fired(events) + if e in [IntervalFires, InitialFires] then 1 else 0
  {
    assert (events + [e])[..|events|] == events;
  }

  lemma StepTimers(cfg: Config, s: State, e: Event)
    requires IsConfig(cfg) && Enabled(s, e)
    ensures var t := Step(cfg, s, e);
      && (t.stopped <==> s.stopped || e == StopCalled)
      && (t.timer <==> s.timer && e != StopCalled)
      && (t.initialTimer <==> s.initialTimer && e != StopCalled && e != InitialFires)
      && t.fires == s.fires + if e in [IntervalFires, InitialFires] then 1 else 0
  {
  }

  lemma ArmedStep(cfg: Config, events: seq<Event>, s: State, e: Event, t: State)
    requires IsConfig(cfg) && IsArmed(cfg, events, s) && Enabled(s, e) && t == Step(cfg, s, e)
    ensures IsArmed(cfg, events + [e], t)
  {
    StepTimers(cfg, s, e);
    FiredAppended(events, e);
    MemberOfAppended(events, e, StopCalled);
    MemberOfAppended(events, e, InitialFires);
  }

  /** The interval can fire exactly until stop() is called, the delayed first tick once
      and only where it is configured with a positive delay. */
  lemma {:induction false} TimersByHistory(cfg: Config, events: seq<Event>)
    requires IsConfig(cfg) && After(cfg, events).Some?
    ensures IsArmed(cfg, events, After(cfg, events).value)
  {
    if events == [] {
    } else {
      var before, e := events[..|events| - 1], events[|events| - 1];
      var s := After(cfg, before).value;
      TimersByHistory(cfg, before);
      ArmedStep(cfg, before, s, e, Step(cfg, s, e));
      assert before + [e] == events;
    }
  }

  lemma DoneIsTold(cfg: Config, events: seq<Event>, k: nat)
    requires IsConfig(cfg) && After(cfg, events).Some? && k < |After(cfg, events).value.cycles|
    ensures FinallyRuns(k) in events <==> After(cfg, events).value.cycles[k].phase == Done
  {
    CycleStory(cfg, events, k);
    OwnAreEvents(events, k);
    var c, own := After(cfg, events).value.cycles[k], Own(events, k);
    assert Follows(cfg, k, c, own);
  }

  /** All `n` cycles so far have run their finally handlers. */
  predicate AllHaveEnded(events: seq<Event>, n: nat) {
    forall k: nat | k < n :: FinallyRuns(k) in events
  }

  lemma EndedIsIdle(cfg: Config, events: seq<Event>, s: State)
    requires IsConfig(cfg) && After(cfg, events) == Some(s)
    ensures AllHaveEnded(events, |s.cycles|) <==> s.inFlight == None
  {
    InvHolds(cfg, events);
    forall k: nat | k < |s.cycles|
      ensures FinallyRuns(k) in events <==> s.cycles[k].phase == Done
    {
      DoneIsTold(cfg, events, k);
    }
  }

  /** A fire starts a cycle exactly when each cycle before it has run its finally handler;
      nothing else starts one, but an immediate start. */
  lemma FiresStartCycles(cfg: Config, events: seq<Event>, e: Event)
    requires IsConfig(cfg) && After(cfg, events + [e]).Some?
    ensures |Initial(cfg).cycles| == if StartsAtOnce(cfg) then 1 else 0
    ensures After(cfg, events).Some?
    ensures var n := |After(cfg, events).value.cycles|;
      |After(cfg, events + [e]).value.cycles| ==
      if e in [IntervalFires, InitialFires] && AllHaveEnded(events, n) then n + 1 else n
  {
    assert (events + [e])[..|events|] == events;
    var s := After(cfg, events).value;
    InvHolds(cfg, events);
    EndedIsIdle(cfg, events, s);
  }

  // ------------------------------------------------------------------- what stop waits for

  function Stops(events: seq<Event>): nat {
    if events == [] then 0
    else Stops(events[..|events| - 1]) + if events[|events| - 1] == StopCalled then 1 else 0
  }

  /** Call `i` of stop() has not resolved before the cycle it met has ended, nor before the
      service has, where there is one to await. */
  predicate StopFollows(cfg: Config, events: seq<Event>, i: nat, stop: Stop) {
    match stop
    case AwaitingTick(_) => TickAwaited(i) !in events && ServiceAwaited(i) !in events
    case AwaitingService => cfg.awaitsService && ServiceAwaited(i) !in events
    case Resolved => cfg.awaitsService <==> ServiceAwaited(i) in events
  }

  lemma StopStep(cfg: Config, events: seq<Event>, s: State, e: Event, i: nat)
    requires IsConfig(cfg) && Enabled(s, e) && i < |Step(cfg, s, e).stops|
    requires if i < |s.stops| then StopFollows(cfg, events, i, s.stops[i])
             else TickAwaited(i) !in events && ServiceAwaited(i) !in events
    ensures StopFollows(cfg, events + [e], i, Step(cfg, s, e).stops[i])
  {
  }

  lemma {:induction false} StopStory(cfg: Config, events: seq<Event>, i: nat)
    requires IsConfig(cfg) && After(cfg, events).Some?
    ensures var s := After(cfg, events).value;
      && |s.stops| == Stops(events)
      && if i < |s.stops| then StopFollows(cfg, events, i, s.stops[i])
         else TickAwaited(i) !in events && ServiceAwaited(i) !in events
  {
    if events != [] {
      var n := |events| - 1;
      var e, s := events[n], After(cfg, events[..n]).value;
      StopStory(cfg, events[..n], i);
      assert events == events[..n] + [e];
      if i < |Step(cfg, s, e).stops| {
        StopStep(cfg, events[..n], s, e, i);
      }
    }
  }

  /** stop() waits for the cycle whose finally handler has not run, if there is one. */
  lemma StopMeets(cfg: Config, events: seq<Event>, k: nat)
    requires IsConfig(cfg) && After(cfg, events).Some?
    ensures var s := After(cfg, events).value;
      var t := Step(cfg, s, StopCalled);
      && After(cfg, events + [StopCalled]) == Some(t) && |t.stops| == |s.stops| + 1
      && (t.stops[|s.stops|] == AwaitingTick(k) <==> k < |s.cycles| && FinallyRuns(k) !in events)
  {
    OneMoreEvent(cfg, events, StopCalled);
    InvHolds(cfg, events);
    if k < |After(cfg, events).value.cycles| {
      DoneIsTold(cfg, events, k);
    }
  }
}
