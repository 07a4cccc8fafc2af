/** drainNotificationOutbox of apps/api/src/notification-heartbeat.ts: one bounded
    batch raced against a timeout, with one recorded outcome. */
module NotificationHeartbeat {
  import opened Results
  import opened GuardedTicker
  import opened Text
  import opened WorkerLiveness

  const HEARTBEAT_MAX_BATCH: int := 5
  const HEARTBEAT_TIMEOUT_MS: int := 10_000

  /** A number a caller may pass: absent, not finite, or an integer part. */
  datatype Requested = Absent | NotFinite | Number(truncated: int)

  function BatchSize(requested: Requested): (size: int)
    ensures 1 <= size <= 5
    ensures requested.Number? && 1 <= requested.truncated <= 5 ==> size == requested.truncated
    ensures requested.Number? && requested.truncated < 1 ==> size == 1
    ensures !requested.Number? || requested.truncated > 5 ==> size == 5
  {
    var n := match requested
      case Absent => HEARTBEAT_MAX_BATCH
      case NotFinite => HEARTBEAT_MAX_BATCH
      case Number(t) => t;
    var atMost := if n < HEARTBEAT_MAX_BATCH then n else HEARTBEAT_MAX_BATCH;
    if atMost > 1 then atMost else 1
  }

  /** The bound a caller may pass, as `Math.trunc` leaves it. */
  datatype Bound = Default | NaN | Infinite(positive: bool) | Milliseconds(truncated: int)

  /** The bound the drain waits for; `setTimeout` is used only for a positive one, so 0
      stands for none. That is what becomes of a bound that is not a number, which no
      comparison finds positive; and the timer turns an infinite delay into one millisecond. */
  function TimeoutMs(requested: Bound): (ms: int)
    ensures ms >= 0
    ensures ms > 0 <==>
      requested.Default? || requested == Infinite(true) || (requested.Milliseconds? && requested.truncated > 0)
    ensures requested.Milliseconds? && requested.truncated > 0 ==> ms == requested.truncated
    ensures requested.Default? ==> ms == 10_000
    ensures requested == Infinite(true) ==> ms == 1
  {
    match requested
    case Default => HEARTBEAT_TIMEOUT_MS
    case NaN => 0
    case Infinite(positive) => if positive then 1 else 0
    case Milliseconds(n) => if n > 0 then n else 0
  }

  /** Where the race is: undecided, decided with the continuation still pending, or recorded. */
  datatype Race = Racing | BatchWon(ok: bool) | TimeoutWon | Recorded(outcome: Outcome, timedOut: bool)

  /** One drain. The batch may still be running after the timeout has won. */
  datatype Drain = Drain(batchSize: int, timeoutMs: int, batchRunning: bool, race: Race)

  datatype DrainEvent = BatchSettles(resolved: bool) | TimeoutFires | Continues

  function OutcomeOf(d: Drain): Option<Outcome> {
    if d.race.Recorded? then Some(d.race.outcome) else None
  }

  /** The first half, up to the await; a synchronous throw of `runOnce` fails at once. */
  function Begin(size: int, timeoutMs: int, threw: bool): Drain {
    if threw then Drain(size, timeoutMs, false, Recorded(Failure, false))
    else Drain(size, timeoutMs, true, Racing)
  }

  /** The timer is cleared as soon as the batch settles, so it can fire only in an undecided race. */
  predicate DrainEnabled(d: Drain, e: DrainEvent) {
    match e
    case BatchSettles(_) => d.batchRunning
    case TimeoutFires => d.race.Racing? && d.timeoutMs > 0
    case Continues => d.race.BatchWon? || d.race.TimeoutWon?
  }

  function DrainStep(d: Drain, e: DrainEvent): Drain
    requires DrainEnabled(d, e)
  {
    match e
    case BatchSettles(ok) => d.(batchRunning := false, race := if d.race.Racing? then BatchWon(ok) else d.race)
    case TimeoutFires => d.(race := TimeoutWon)
    case Continues =>
      if d.race == BatchWon(true) then d.(race := Recorded(Success, false))
      else d.(race := Recorded(Failure, d.race.TimeoutWon?))
  }

  /** The race is undecided exactly while neither side has settled it, and a batch
      that is still running after its race has lost to the timeout. */
  predicate DrainInv(d: Drain) {
    && 1 <= d.batchSize <= HEARTBEAT_MAX_BATCH && d.timeoutMs >= 0
    && match d.race
       case Racing => d.batchRunning
       case BatchWon(_) => !d.batchRunning
       case TimeoutWon => d.timeoutMs > 0
       case Recorded(o, timedOut) => if timedOut then o == Failure && d.timeoutMs > 0 else !d.batchRunning
  }

  /** What the steps of a drain record. */
  function BeginRecorded(r: Record, threw: bool, err: Thrown, nowMs: int): Record {
    if threw then Failed(Started(r), err, nowMs) else Started(r)
  }

  function DrainRecorded(r: Record, d: Drain, e: DrainEvent, err: Thrown, nowMs: int): Record
    requires DrainEnabled(d, e)
  {
    if e != Continues then r
    else if d.race == BatchWon(true) then Succeeded(r, nowMs)
    else Failed(r, err, nowMs)
  }

  /** The error class of a timeout, reduced to a code, is `notificationheartbeattimeout`. */
  const TIMEOUT_ERROR: Thrown := Object(None, Some("NotificationHeartbeatTimeout"))

  lemma TimeoutCode()
    ensures FailureCode(TIMEOUT_ERROR) == Lower("NotificationHeartbeatTimeout")
  {
    assert IsNameText("NotificationHeartbeatTimeout");
  }

  class HeartbeatDrain {
    const live: Liveness
    var batchSize: int
    var timeoutMs: int
    var batchRunning: bool
    var race: Race
    /** The rejection the batch won the race with. */
    var reason: Thrown

    ghost function Model(): Drain
      reads this
    {
      Drain(batchSize, timeoutMs, batchRunning, race)
    }

    ghost predicate Valid()
      reads this, live
    {
      live.Valid() && DrainInv(Model())
    }

    constructor (live: Liveness, requested: Requested, bound: Bound, threw: bool, err: Thrown, nowMs: int)
      requires live.Valid()
      modifies live
      ensures Valid() && this.live == live
      ensures Model() == Begin(BatchSize(requested), TimeoutMs(bound), threw)
      ensures live.records ==
              old(live.records)[Notifications := BeginRecorded(old(live.records)[Notifications], threw, err, nowMs)]
    {
      this.live := live;
      batchSize, timeoutMs := BatchSize(requested), TimeoutMs(bound);
      batchRunning, race, reason := !threw, if threw then Recorded(Failure, false) else Racing, err;
      new;
      live.RecordWorkerStart(Notifications);
      if threw {
        live.RecordWorkerFailure(Notifications, err, nowMs);
      }
    }

    method BatchSettle(resolved: bool, err: Thrown)
      requires Valid() && DrainEnabled(Model(), BatchSettles(resolved))
      modifies this
      ensures Valid() && Model() == DrainStep(old(Model()), BatchSettles(resolved))
      ensures race == if old(race.Racing?) then BatchWon(resolved) else old(race)
      ensures reason == if old(race.Racing?) then err else old(reason)
    {
      batchRunning := false;
      if race.Racing? {
        race, reason := BatchWon(resolved), err;
      }
    }

    method TimeoutFire()
      requires Valid() && DrainEnabled(Model(), TimeoutFires)
      modifies this
      ensures Valid() && Model() == DrainStep(old(Model()), TimeoutFires) && reason == TIMEOUT_ERROR
    {
      race, reason := TimeoutWon, TIMEOUT_ERROR;
    }

    /** The continuation after the await: records, and returns what the caller gets. */
    method Continue(nowMs: int) returns (ok: bool, code: string, timedOut: bool)
      requires Valid() && DrainEnabled(Model(), Continues)
      modifies this, live
      ensures Valid() && Model() == DrainStep(old(Model()), Continues)
      ensures live.records == old(live.records)[Notifications :=
                DrainRecorded(old(live.records)[Notifications], old(Model()), Continues, old(reason), nowMs)]
      ensures race == Recorded(if ok then Success else Failure, timedOut)
      ensures (ok <==> old(race) == BatchWon(true)) && (timedOut <==> old(race) == TimeoutWon)
      ensures !ok ==> code == FailureCode(old(reason))
      ensures batchRunning ==> timedOut && !ok
    {
      if race == BatchWon(true) {
        live.RecordWorkerSuccess(Notifications, nowMs);
        ok, code, timedOut := true, "", false;
      } else {
        code := FailureCode(reason);
        live.RecordWorkerFailure(Notifications, reason, nowMs);
        ok, timedOut := false, race.TimeoutWon?;
      }
      race := Recorded(if ok then Success else Failure, timedOut);
    }
  }
}
