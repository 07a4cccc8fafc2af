/** startDeliveryWorkerTicker of apps/api/src/delivery-worker.ts: the same guarded
    ticker, without cache warming, with each cycle recorded in the liveness counters. The
    object is valid while its fields are the state the events so far lead to. */
module DeliveryWorker {
  import opened Results
  import opened GuardedTicker
  import opened WorkerLiveness

  /** `maintenanceEveryRuns ?? 10`, at least 1. */
  function ConfigOf(maintenanceEveryRuns: Option<int>, runImmediately: Option<bool>): (cfg: Config)
    ensures IsDeliveryConfig(cfg)
    ensures maintenanceEveryRuns == None ==> cfg.maintenanceEvery == 10
    ensures maintenanceEveryRuns.Some? ==>
              if maintenanceEveryRuns.value >= 1 then maintenanceEveryRuns == Some(cfg.maintenanceEvery)
              else cfg.maintenanceEvery == 1
    ensures !cfg.runImmediately <==> runImmediately == Some(false)
  {
    var every := if maintenanceEveryRuns.Some? then maintenanceEveryRuns.value else 10;
    Config(if every >= 1 then every else 1, false, false, runImmediately != Some(false), 0)
  }

  predicate IsDeliveryConfig(cfg: Config) {
    IsConfig(cfg) && !cfg.warms && !cfg.awaitsService && cfg.initialDelayMs == 0
  }

  predicate Starts(s: State, e: Event) {
    (e.IntervalFires? || e.InitialFires?) && !s.stopped && s.inFlight.None?
  }

  /** What an event records: a start, the outcome of the cycle it ends, or nothing. */
  function Recorded(r: Record, s: State, e: Event, err: Thrown, nowMs: int): Record {
    if Starts(s, e) then Started(r)
    else if e.WorkResolves? then Succeeded(r, nowMs)
    else if e.MaintenanceRejects? || e.WorkRejects? then Failed(r, err, nowMs)
    else r
  }

  class DeliveryTicker {
    const cfg: Config
    const live: Liveness
    var timer: bool
    var stopped: bool
    var inFlight: Option<nat>
    var runs: nat
    /** The async frames: what each started cycle and each stop() call is at. */
    var cycles: seq<Cycle>
    var stops: seq<Stop>
    ghost var skips: nat
    ghost var fires: nat
    /** What has happened since the ticker was started. */
    ghost var history: seq<Event>

    ghost function Model(): State
      reads this
    {
      State(timer, false, stopped, inFlight, runs, cycles, stops, skips, fires)
    }

    ghost predicate Valid()
      reads this, live
    {
      IsDeliveryConfig(cfg) && live.Valid() && Reached(cfg, history, Model())
    }

    constructor (cfg: Config, live: Liveness)
      requires IsDeliveryConfig(cfg) && live.Valid()
      modifies live
      ensures Valid() && this.cfg == cfg && this.live == live && history == [] && Model() == Initial(cfg)
      ensures live.records ==
              if cfg.runImmediately
              then old(live.records)[Notifications := Started(old(live.records)[Notifications])]
              else old(live.records)
    {
      this.cfg, this.live := cfg, live;
      timer, stopped, inFlight, runs := true, false, None, 0;
      cycles, stops, skips, fires, history := [], [], 0, 0, [];
      new;
      if cfg.runImmediately {
        RunOnce();
      }
      ReachedInitially(cfg);
    }

    method RunOnce()
      requires IsDeliveryConfig(cfg) && live.Valid()
      modifies this, live
      ensures live.Valid() && Model() == GuardedTicker.RunOnce(cfg, old(Model())) && history == old(history)
      ensures live.records ==
              if old(stopped || inFlight.Some?) then old(live.records)
              else old(live.records)[Notifications := Started(old(live.records)[Notifications])]
    {
      fires := fires + 1;
      if stopped {
        skips := skips + 1;
        return;
      }
      if inFlight.Some? {
        skips := skips + 1;
        return;
      }
      var k := |cycles|;
      live.RecordWorkerStart(Notifications);
      runs := runs + 1;
      if runs % cfg.maintenanceEvery == 0 {
        cycles := cycles + [Cycle(Maintaining, 1, 0, None)];
      } else {
        cycles := cycles + [Cycle(Working, 0, 1, None)];
      }
      inFlight := Some(k);
    }

    method IntervalFire(err: Thrown, nowMs: int)
      requires Valid() && Enabled(Model(), IntervalFires)
      modifies this, live
      ensures Valid() && history == old(history) + [IntervalFires]
      ensures Model() == Step(cfg, old(Model()), IntervalFires)
      ensures live.records == old(live.records)[Notifications :=
                Recorded(old(live.records)[Notifications], old(Model()), IntervalFires, err, nowMs)]
      ensures old(inFlight.Some?) ==> cycles == old(cycles) && inFlight == old(inFlight)
    {
      ReachedNext(cfg, history, Model(), IntervalFires);
      RunOnce();
      history := history + [IntervalFires];
    }

    method MaintenanceSettles(k: nat, resolved: bool, err: Thrown, nowMs: int)
      requires Valid() && AwaitsAt(Model(), k, Maintaining)
      modifies this`cycles, this`history, live
      ensures var e := if resolved then MaintenanceResolves(k) else MaintenanceRejects(k);
        && Valid() && history == old(history) + [e] && Model() == Step(cfg, old(Model()), e)
        && live.records == old(live.records)[Notifications :=
             Recorded(old(live.records)[Notifications], old(Model()), e, err, nowMs)]
    {
      ghost var e := if resolved then MaintenanceResolves(k) else MaintenanceRejects(k);
      ReachedNext(cfg, history, Model(), e);
      if resolved {
        cycles := cycles[k := Cycle(Working, cycles[k].maintenances, 1, None)];
      } else {
        live.RecordWorkerFailure(Notifications, err, nowMs);
        cycles := cycles[k := cycles[k].(phase := Settling, outcome := Some(Failure))];
      }
      history := history + [e];
    }

    method BatchSettles(k: nat, resolved: bool, err: Thrown, nowMs: int)
      requires Valid() && AwaitsAt(Model(), k, Working)
      modifies this`cycles, this`history, live
      ensures var e := if resolved then WorkResolves(k) else WorkRejects(k);
        && Valid() && history == old(history) + [e] && Model() == Step(cfg, old(Model()), e)
        && live.records == old(live.records)[Notifications :=
             Recorded(old(live.records)[Notifications], old(Model()), e, err, nowMs)]
    {
      ghost var e := if resolved then WorkResolves(k) else WorkRejects(k);
      ReachedNext(cfg, history, Model(), e);
      if resolved {
        live.RecordWorkerSuccess(Notifications, nowMs);
        cycles := cycles[k := cycles[k].(phase := Settling, outcome := Some(Success))];
      } else {
        live.RecordWorkerFailure(Notifications, err, nowMs);
        cycles := cycles[k := cycles[k].(phase := Settling, outcome := Some(Failure))];
      }
      history := history + [e];
    }

    /** No other cycle was in progress, so none is now. */
    method Finally(k: nat)
      requires Valid() && AwaitsAt(Model(), k, Settling)
      modifies this`cycles, this`inFlight, this`history
      ensures Valid() && history == old(history) + [FinallyRuns(k)]
      ensures Model() == Step(cfg, old(Model()), FinallyRuns(k))
      ensures old(inFlight) == Some(k) && forall j | 0 <= j < |cycles| :: cycles[j].phase == Done
    {
      ReachedNext(cfg, history, Model(), FinallyRuns(k));
      inFlight := None;
      cycles := cycles[k := cycles[k].(phase := Done)];
      history := history + [FinallyRuns(k)];
    }

    method StopCall()
      requires Valid()
      modifies this
      ensures Valid() && history == old(history) + [StopCalled]
      ensures Model() == Step(cfg, old(Model()), StopCalled)
      ensures !Enabled(Model(), IntervalFires)
    {
      ReachedNext(cfg, history, Model(), StopCalled);
      stopped := true;
      if timer {
        timer := false;
      }
      if inFlight.Some? {
        stops := stops + [AwaitingTick(inFlight.value)];
      } else {
        stops := stops + [Resolved];
      }
      history := history + [StopCalled];
    }

    /** The awaited cycle was the last, so none is in progress when stop() resolves. */
    method TickAwait(i: nat)
      requires Valid() && Enabled(Model(), TickAwaited(i))
      modifies this`stops, this`history
      ensures Valid() && history == old(history) + [TickAwaited(i)]
      ensures Model() == Step(cfg, old(Model()), TickAwaited(i))
      ensures inFlight == None && forall j | 0 <= j < |cycles| :: cycles[j].phase == Done
    {
      ReachedNext(cfg, history, Model(), TickAwaited(i));
      stops := stops[i := Resolved];
      history := history + [TickAwaited(i)];
    }
  }
}
