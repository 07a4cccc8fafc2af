/** Worker liveness of apps/api/src/worker-liveness.ts: process-local counters
    updated in place at the start and at the end of every invocation. */
module WorkerLiveness {
  import opened Results
  import opened Text

  datatype Worker = Scanner | Notifications | FxSource

  datatype Record = Record(
    lastSuccessAtMs: Option<int>, lastFailureAtMs: Option<int>, lastFailureCode: Option<string>,
    successes: nat, failures: nat, inFlight: nat)

  const EMPTY_RECORD: Record := Record(None, None, None, 0, 0, 0)

  function Decremented(inFlight: nat): nat {
    if inFlight == 0 then 0 else inFlight - 1
  }

  function Started(r: Record): Record {
    r.(inFlight := r.inFlight + 1)
  }

  function Succeeded(r: Record, nowMs: int): Record {
    r.(inFlight := Decremented(r.inFlight), successes := r.successes + 1, lastSuccessAtMs := Some(nowMs))
  }

  function Failed(r: Record, err: Thrown, nowMs: int): Record {
    r.(inFlight := Decremented(r.inFlight), failures := r.failures + 1,
       lastFailureAtMs := Some(nowMs), lastFailureCode := Some(FailureCode(err)))
  }

  /** What is read of a thrown value: the `code` and `name` of an object where
      they are strings, or the value itself where it is one. */
  datatype Thrown = Object(code: Option<string>, name: Option<string>) | Text(text: string) | Other

  predicate IsCodeChar(c: char) {
    'A' <= c <= 'Z' || 'a' <= c <= 'z' || '0' <= c <= '9' || c == '_' || c == '.' || c == '-'
  }

  predicate IsCodeText(s: string) {
    1 <= |s| <= 32 && forall i | 0 <= i < |s| :: IsCodeChar(s[i])
  }

  predicate IsNameText(s: string) {
    1 <= |s| <= 32 && forall i | 0 <= i < |s| :: 'A' <= s[i] <= 'Z' || 'a' <= s[i] <= 'z'
  }

  /** The codes read of a thrown value, the first one that is a code or a name being kept. */
  predicate HasCode(err: Thrown) {
    err.Object? && err.code.Some? && IsCodeText(err.code.value)
  }

  predicate HasName(err: Thrown) {
    err.Object? && err.name.Some? && IsNameText(err.name.value)
  }

  /** Always a bounded machine code: what is served without a credential never
      carries other characters or more of them. */
  function FailureCode(err: Thrown): (code: string)
    ensures IsCodeText(code) && forall i | 0 <= i < |code| :: !('A' <= code[i] <= 'Z')
    ensures HasCode(err) ==> code == Lower(err.code.value)
    ensures HasName(err) && !HasCode(err) ==> code == Lower(err.name.value)
    ensures err.Text? && IsCodeText(err.text) ==> code == Lower(err.text)
    ensures !HasCode(err) && !HasName(err) && !(err.Text? && IsCodeText(err.text)) ==> code == "unknown"
  {
    match err
    case Object(Some(code), _) =>
      if IsCodeText(code) then Lower(code)
      else if err.name.Some? && IsNameText(err.name.value) then Lower(err.name.value)
      else "unknown"
    case Object(None, Some(name)) => if IsNameText(name) then Lower(name) else "unknown"
    case Text(text) => if IsCodeText(text) then Lower(text) else "unknown"
    case _ => "unknown"
  }

  /** The module-level state. */
  class Liveness {
    var records: map<Worker, Record>

    predicate Valid()
      reads this
    {
      records.Keys == {Scanner, Notifications, FxSource}
    }

    constructor ()
      ensures Valid() && forall w | w in records :: records[w] == EMPTY_RECORD
    {
      records := map[Scanner := EMPTY_RECORD, Notifications := EMPTY_RECORD, FxSource := EMPTY_RECORD];
    }

    method RecordWorkerStart(worker: Worker)
      requires Valid()
      modifies this
      ensures Valid() && records == old(records)[worker := Started(old(records)[worker])]
    {
      var record := records[worker];
      records := records[worker := record.(inFlight := record.inFlight + 1)];
    }

    method RecordWorkerSuccess(worker: Worker, nowMs: int)
      requires Valid()
      modifies this
      ensures Valid() && records == old(records)[worker := Succeeded(old(records)[worker], nowMs)]
    {
      var record := records[worker];
      record := record.(inFlight := if record.inFlight >= 1 then record.inFlight - 1 else 0);
      record := record.(successes := record.successes + 1);
      record := record.(lastSuccessAtMs := Some(nowMs));
      records := records[worker := record];
    }

    method RecordWorkerFailure(worker: Worker, err: Thrown, nowMs: int)
      requires Valid()
      modifies this
      ensures Valid() && records == old(records)[worker := Failed(old(records)[worker], err, nowMs)]
    {
      var record := records[worker];
      record := record.(inFlight := if record.inFlight >= 1 then record.inFlight - 1 else 0);
      record := record.(failures := record.failures + 1);
      record := record.(lastFailureAtMs := Some(nowMs));
      record := record.(lastFailureCode := Some(FailureCode(err)));
      records := records[worker := record];
    }
  }
}
