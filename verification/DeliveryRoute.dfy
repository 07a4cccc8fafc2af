/** The internal route of apps/api/src/routes/notifications.ts that delivers one batch
    on request: it records on the same counters as the ticker and the heartbeat. */
module DeliveryRoute {
  import opened Results
  import opened GuardedTicker
  import opened WorkerLiveness

  function RunRecorded(r: Record, resolved: bool, err: Thrown, nowMs: int): Record {
    if resolved then Succeeded(r, nowMs) else Failed(r, err, nowMs)
  }

  /** One request: its batch is pending until it has an outcome. */
  class DeliveryRun {
    const live: Liveness
    var outcome: Option<Outcome>

    constructor (live: Liveness)
      requires live.Valid()
      modifies live
      ensures this.live == live && live.Valid() && outcome == None
      ensures live.records == old(live.records)[Notifications := Started(old(live.records)[Notifications])]
    {
      this.live, outcome := live, None;
      new;
      live.RecordWorkerStart(Notifications);
    }

    method Settle(resolved: bool, err: Thrown, nowMs: int)
      requires live.Valid() && outcome == None
      modifies this, live
      ensures live.Valid() && outcome == Some(if resolved then Success else Failure)
      ensures live.records == old(live.records)[Notifications :=
                RunRecorded(old(live.records)[Notifications], resolved, err, nowMs)]
    {
      if resolved {
        live.RecordWorkerSuccess(Notifications, nowMs);
        outcome := Some(Success);
      } else {
        live.RecordWorkerFailure(Notifications, err, nowMs);
        outcome := Some(Failure);
      }
    }
  }
}
