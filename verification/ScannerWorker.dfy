/** startScannerWorkerTicker of apps/api/src/scanner-worker.ts as an object whose
    fields are the closure's variables. Each method is the code that one event
    runs. The object is valid while its fields are the state the transition
    system reaches by the events so far, so the methods keep the overlap guard. */
module ScannerWorker {
  import opened Results
  import opened GuardedTicker

  function Max(a: int, b: int): int {
    if a >= b then a else b
  }

  /** `maintenanceEveryRuns ?? 6`, at least 1; the delay counts only where positive. */
  function ConfigOf(
    maintenanceEveryRuns: Option<int>, ingestion: bool, hasWaitForInFlight: bool,
    runImmediately: Option<bool>, initialDelayMs: Option<int>): (cfg: Config)
    ensures IsConfig(cfg)
    ensures maintenanceEveryRuns == None ==> cfg.maintenanceEvery == 6
    ensures maintenanceEveryRuns.Some? ==>
              if maintenanceEveryRuns.value >= 1 then maintenanceEveryRuns == Some(cfg.maintenanceEvery)
              else cfg.maintenanceEvery == 1
    ensures (cfg.warms <==> ingestion) && (cfg.awaitsService <==> hasWaitForInFlight)
    ensures !cfg.runImmediately <==> runImmediately == Some(false)
    ensures cfg.initialDelayMs >= 0
    ensures cfg.initialDelayMs > 0 <==> initialDelayMs.Some? && initialDelayMs.value > 0
    ensures cfg.initialDelayMs > 0 ==> initialDelayMs == Some(cfg.initialDelayMs)
  {
    Config(
      Max(1, if maintenanceEveryRuns.Some? then maintenanceEveryRuns.value else 6),
      ingestion, hasWaitForInFlight,
      runImmediately != Some(false),
      if initialDelayMs.Some? then Max(0, initialDelayMs.value) else 0)
  }

  class ScannerTicker {
    const cfg: Config
    var timer: bool
    var initialTimer: bool
    var stopped: bool
    var inFlight: Option<nat>
    var runs: nat
    /** The async frames: what each started cycle and each stop() call is at. */
    var cycles: seq<Cycle>
    var stops: seq<Stop>
    ghost var skips: nat
    ghost var fires: nat
    /** What has happened since the ticker was started. */
    ghost var history: seq<Event>

    ghost function Model(): State
      reads this
    {
      State(timer, initialTimer, stopped, inFlight, runs, cycles, stops, skips, fires)
    }

    ghost predicate Valid()
      reads this
    {
      IsConfig(cfg) && Reached(cfg, history, Model())
    }

    constructor (cfg: Config)
      requires IsConfig(cfg)
      ensures Valid() && this.cfg == cfg && history == [] && Model() == Initial(cfg)
    {
      this.cfg := cfg;
      timer, initialTimer, stopped, inFlight, runs := true, false, false, None, 0;
      cycles, stops, skips, fires, history := [], [], 0, 0, [];
      new;
      if cfg.runImmediately {
        if cfg.initialDelayMs > 0 {
          initialTimer := true;
        } else {
          RunOnce();
        }
      }
      ReachedInitially(cfg);
    }

    method RunOnce()
      requires IsConfig(cfg)
      modifies this
      ensures Model() == GuardedTicker.RunOnce(cfg, old(Model())) && history == old(history)
      ensures old(stopped || inFlight.Some?) ==> cycles == old(cycles) && inFlight == old(inFlight)
    {
      fires := fires + 1;
      if stopped {
        skips := skips + 1;
        return;
      }
      if inFlight.Some? {
        skips := skips + 1;
        return;
      }
      var k := |cycles|;
      runs := runs + 1;
      if runs % cfg.maintenanceEvery == 0 {
        cycles := cycles + [Cycle(Maintaining, 1, 0, None)];
      } else {
        cycles := cycles + [Cycle(Working, 0, 0, None)];
        RunScannerWorkerCycle(k);
      }
      inFlight := Some(k);
    }

    /** The start of `runScannerWorkerCycle`: warms the cache where ingestion is configured. */
    method RunScannerWorkerCycle(k: nat)
      requires k < |cycles|
      modifies this`cycles
      ensures cycles == old(cycles)[k := Proceed(cfg, old(cycles)[k].maintenances)]
      ensures cfg.warms ==> cycles[k].phase == Warming && cycles[k].works == 0
      ensures !cfg.warms ==> cycles[k].phase == Working && cycles[k].works == 1
    {
      var c := cycles[k];
      if cfg.warms {
        cycles := cycles[k := Cycle(Warming, c.maintenances, 0, None)];
      } else {
        cycles := cycles[k := Cycle(Working, c.maintenances, 1, None)];
      }
    }

    method IntervalFire()
      requires Valid() && Enabled(Model(), IntervalFires)
      modifies this
      ensures Valid() && history == old(history) + [IntervalFires]
      ensures Model() == Step(cfg, old(Model()), IntervalFires)
      ensures old(inFlight.Some?) ==> cycles == old(cycles) && inFlight == old(inFlight)
    {
      ReachedNext(cfg, history, Model(), IntervalFires);
      RunOnce();
      history := history + [IntervalFires];
    }

    method InitialFire()
      requires Valid() && Enabled(Model(), InitialFires)
      modifies this
      ensures Valid() && history == old(history) + [InitialFires]
      ensures Model() == Step(cfg, old(Model()), InitialFires)
      ensures old(inFlight.Some?) ==> cycles == old(cycles) && inFlight == old(inFlight)
    {
      ReachedNext(cfg, history, Model(), InitialFires);
      initialTimer := false;
      RunOnce();
      history := history + [InitialFires];
    }

    method MaintenanceSettles(k: nat, resolved: bool)
      requires Valid() && AwaitsAt(Model(), k, Maintaining)
      modifies this`cycles, this`history
      ensures var e := if resolved then MaintenanceResolves(k) else MaintenanceRejects(k);
        Valid() && history == old(history) + [e] && Model() == Step(cfg, old(Model()), e)
    {
      ghost var e := if resolved then MaintenanceResolves(k) else MaintenanceRejects(k);
      ReachedNext(cfg, history, Model(), e);
      if resolved {
        RunScannerWorkerCycle(k);
      } else {
        cycles := cycles[k := cycles[k].(phase := Settling, outcome := Some(Failure))];
      }
      history := history + [e];
    }

    /** A warm failure is logged and the scan continues. */
    method WarmSettle(k: nat)
      requires Valid() && AwaitsAt(Model(), k, Warming)
      modifies this`cycles, this`history
      ensures Valid() && history == old(history) + [WarmSettles(k)]
      ensures Model() == Step(cfg, old(Model()), WarmSettles(k))
    {
      ReachedNext(cfg, history, Model(), WarmSettles(k));
      cycles := cycles[k := cycles[k].(phase := Working, works := cycles[k].works + 1)];
      history := history + [WarmSettles(k)];
    }

    method ScanSettles(k: nat, resolved: bool)
      requires Valid() && AwaitsAt(Model(), k, Working)
      modifies this`cycles, this`history
      ensures var e := if resolved then WorkResolves(k) else WorkRejects(k);
        Valid() && history == old(history) + [e] && Model() == Step(cfg, old(Model()), e)
    {
      ghost var e := if resolved then WorkResolves(k) else WorkRejects(k);
      ReachedNext(cfg, history, Model(), e);
      cycles := cycles[k := cycles[k].(phase := Settling, outcome := Some(if resolved then Success else Failure))];
      history := history + [e];
    }

    /** No other cycle was in progress, so none is now. */
    method Finally(k: nat)
      requires Valid() && AwaitsAt(Model(), k, Settling)
      modifies this`cycles, this`inFlight, this`history
      ensures Valid() && history == old(history) + [FinallyRuns(k)]
      ensures Model() == Step(cfg, old(Model()), FinallyRuns(k))
      ensures old(inFlight) == Some(k) && forall j | 0 <= j < |cycles| :: cycles[j].phase == Done
    {
      ReachedNext(cfg, history, Model(), FinallyRuns(k));
      inFlight := None;
      cycles := cycles[k := cycles[k].(phase := Done)];
      history := history + [FinallyRuns(k)];
    }

    /** `stop()` up to its first await. */
    method StopCall()
      requires Valid()
      modifies this
      ensures Valid() && history == old(history) + [StopCalled]
      ensures Model() == Step(cfg, old(Model()), StopCalled)
      ensures !Enabled(Model(), IntervalFires) && !Enabled(Model(), InitialFires)
    {
      ReachedNext(cfg, history, Model(), StopCalled);
      stopped := true;
      if initialTimer {
        initialTimer := false;
      }
      if timer {
        timer := false;
      }
      if inFlight.Some? {
        stops := stops + [AwaitingTick(inFlight.value)];
      } else if cfg.awaitsService {
        stops := stops + [AwaitingService];
      } else {
        stops := stops + [Resolved];
      }
      history := history + [StopCalled];
    }

    /** The awaited cycle was the last, so none is in progress when stop() resumes. */
    method TickAwait(i: nat)
      requires Valid() && Enabled(Model(), TickAwaited(i))
      modifies this`stops, this`history
      ensures Valid() && history == old(history) + [TickAwaited(i)]
      ensures Model() == Step(cfg, old(Model()), TickAwaited(i))
      ensures inFlight == None && forall j | 0 <= j < |cycles| :: cycles[j].phase == Done
    {
      ReachedNext(cfg, history, Model(), TickAwaited(i));
      stops := stops[i := if cfg.awaitsService then AwaitingService else Resolved];
      history := history + [TickAwaited(i)];
    }

    method ServiceAwait(i: nat)
      requires Valid() && Enabled(Model(), ServiceAwaited(i))
      modifies this`stops, this`history
      ensures Valid() && history == old(history) + [ServiceAwaited(i)]
      ensures Model() == Step(cfg, old(Model()), ServiceAwaited(i))
      ensures inFlight == None && forall j | 0 <= j < |cycles| :: cycles[j].phase == Done
    {
      ReachedNext(cfg, history, Model(), ServiceAwaited(i));
      stops := stops[i := Resolved];
      history := history + [ServiceAwaited(i)];
    }
  }
}
