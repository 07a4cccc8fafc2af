/** The `<slot>=<value>` pairs of scripts/billing/provision-live.ts and the choice
    of where the live plan codes come from. */
module LivePlanSlots {
  import opened Results
  import opened Text
  import opened Flags

  datatype Pair = Pair(slot: string, value: string)

  datatype UsageError =
    | NotAPair(entry: string)
    | UnknownSlot(slot: string)
    | EmptyValue(slot: string)
    | SuppliedTwice(slot: string)
    | PartialPlans
    | MissingPlans
    | BadConfiguration

  const LIVE_PLAN_CODE_KEYS: set<string> := {"pro-monthly", "pro-annual", "elite-monthly", "elite-annual"}

  /** One entry on its own. */
  function PairOf(slots: set<string>, entry: string): Result<Pair, UsageError> {
    var equals := IndexOf(entry, '=');
    if equals <= 0 then Err(NotAPair(entry))
    else
      var slot, value := Trim(entry[..equals]), Trim(entry[equals + 1..]);
      if slot !in slots then Err(UnknownSlot(slot))
      else if value == "" then Err(EmptyValue(slot))
      else Ok(Pair(slot, value))
  }

  /** A slot and a value written as `slot=value` are read back; the value may itself hold `=`. */
  lemma WrittenPairIsRead(slots: set<string>, slot: string, value: string)
    requires slot in slots && slot != "" && Free(slot, '=') && Trim(slot) == slot
    requires value != "" && Trim(value) == value
    ensures PairOf(slots, slot + "=" + value) == Ok(Pair(slot, value))
  {
    IndexOfAfter(slot, '=', value);
    var entry := slot + ['='] + value;
    assert entry[..|slot|] == slot && entry[|slot| + 1..] == value;
  }

  /** Every entry is told apart at its first `=`: without a slot before it there is no
      pair; otherwise the slot has to be known and the value has to hold more than space. */
  lemma EntryIsReadAtFirstEquals(slots: set<string>, entry: string, left: string, right: string)
    ensures Free(entry, '=') || entry[0] == '=' ==> PairOf(slots, entry) == Err(NotAPair(entry))
    ensures left != "" && Free(left, '=') && entry == left + "=" + right ==>
              PairOf(slots, entry) ==
              if Trim(left) !in slots then Err(UnknownSlot(Trim(left)))
              else if Trim(right) == "" then Err(EmptyValue(Trim(left)))
              else Ok(Pair(Trim(left), Trim(right)))
  {
    IndexOfIsFirst(entry, '=');
    if left != "" && Free(left, '=') && entry == left + "=" + right {
      IndexOfAfter(left, '=', right);
      assert left + ['='] + right == entry;
      assert entry[..|left|] == left && entry[|left| + 1..] == right;
    }
  }

  /** What each entry reads as. */
  function Outcomes(slots: set<string>, entries: seq<string>): (outcomes: seq<Result<Pair, UsageError>>)
    ensures |outcomes| == |entries|
  {
    seq(|entries|, i requires 0 <= i < |entries| => PairOf(slots, entries[i]))
  }

  /** The first `n` entries are pairs with different slots. */
  predicate Accepted(outcomes: seq<Result<Pair, UsageError>>, n: nat)
    requires n <= |outcomes|
  {
    && (forall i | 0 <= i < n :: outcomes[i].Ok?)
    && (forall i, j | 0 <= i < j < n :: outcomes[i].value.slot != outcomes[j].value.slot)
  }

  predicate Gives(outcomes: seq<Result<Pair, UsageError>>, n: nat, pair: Pair)
    requires n <= |outcomes|
  {
    exists i | 0 <= i < n :: outcomes[i] == Ok(pair)
  }

  /** `codes` holds exactly the pairs of the first `n` entries. */
  ghost predicate Collects(outcomes: seq<Result<Pair, UsageError>>, n: nat, codes: map<string, string>)
    requires n <= |outcomes|
  {
    forall slot, value ::
      slot in codes && codes[slot] == value <==> Gives(outcomes, n, Pair(slot, value))
  }

  /** Entry `i` is the first that is wrong: on its own, or because its slot is taken. */
  predicate RefusedAt(outcomes: seq<Result<Pair, UsageError>>, i: nat, error: UsageError) {
    && i < |outcomes| && Accepted(outcomes, i) && !Accepted(outcomes, i + 1)
    && error == if outcomes[i].Err? then outcomes[i].error else SuppliedTwice(outcomes[i].value.slot)
  }

  method ParseSlotPairs(slots: set<string>, entries: seq<string>)
    returns (r: Result<map<string, string>, UsageError>)
    ensures r.Ok? <==> Accepted(Outcomes(slots, entries), |entries|)
    ensures r.Ok? ==> Collects(Outcomes(slots, entries), |entries|, r.value)
    ensures r.Err? ==> exists i :: RefusedAt(Outcomes(slots, entries), i, r.error)
  {
    ghost var outcomes := Outcomes(slots, entries);
    var codes: map<string, string> := map[];
    for n := 0 to |entries|
      invariant Accepted(outcomes, n) && Collects(outcomes, n, codes)
    {
      var pair := PairOf(slots, entries[n]);
      assert outcomes[n] == pair;
      if pair.Err? {
        assert RefusedAt(outcomes, n, pair.error);
        return Err(pair.error);
      }
      var slot := pair.value.slot;
      if slot in codes {
        Repeated(outcomes, n, codes);
        assert RefusedAt(outcomes, n, SuppliedTwice(slot));
        return Err(SuppliedTwice(slot));
      }
      Extended(outcomes, n, codes);
      codes := codes[slot := pair.value.value];
    }
    r := Ok(codes);
  }

  lemma Repeated(outcomes: seq<Result<Pair, UsageError>>, n: nat, codes: map<string, string>)
    requires n < |outcomes| && outcomes[n].Ok?
    requires Accepted(outcomes, n) && Collects(outcomes, n, codes)
    requires outcomes[n].value.slot in codes
    ensures !Accepted(outcomes, n + 1)
  {
    var slot := outcomes[n].value.slot;
    assert Gives(outcomes, n, Pair(slot, codes[slot]));
  }

  lemma GivesOneMore(outcomes: seq<Result<Pair, UsageError>>, n: nat, pair: Pair)
    requires n < |outcomes|
    ensures Gives(outcomes, n + 1, pair) <==> Gives(outcomes, n, pair) || outcomes[n] == Ok(pair)
  {
  }

  lemma Extended(outcomes: seq<Result<Pair, UsageError>>, n: nat, codes: map<string, string>)
    requires n < |outcomes| && outcomes[n].Ok?
    requires Accepted(outcomes, n) && Collects(outcomes, n, codes)
    requires outcomes[n].value.slot !in codes
    ensures var pair := outcomes[n].value;
      && Accepted(outcomes, n + 1)
      && Collects(outcomes, n + 1, codes[pair.slot := pair.value])
  {
    var pair := outcomes[n].value;
    forall i | 0 <= i < n ensures outcomes[i].value.slot != pair.slot {
      var p := outcomes[i].value;
      assert Gives(outcomes, n, Pair(p.slot, p.value));
    }
    var more := codes[pair.slot := pair.value];
    forall slot, value
      ensures slot in more && more[slot] == value <==> Gives(outcomes, n + 1, Pair(slot, value))
    {
      GivesOneMore(outcomes, n, Pair(slot, value));
    }
  }

  // --------------------------------------------------------------- order of the entries

  predicate OccursTwice(s: seq<string>, x: string) {
    exists i, j | 0 <= i < j < |s| :: s[i] == x && s[j] == x
  }

  lemma {:induction false} TwiceIsMultiplicity(s: seq<string>, x: string)
    ensures OccursTwice(s, x) <==> multiset(s)[x] >= 2
  {
    if s != [] {
      var init, last := s[..|s| - 1], s[|s| - 1];
      assert s == init + [last];
      TwiceIsMultiplicity(init, x);
      assert OccursTwice(init, x) ==> OccursTwice(s, x);
      if OccursTwice(s, x) && last != x {
        assert OccursTwice(init, x);
      }
      if OccursTwice(s, x) && last == x {
        assert x in init;
      }
      if last == x && x in init {
        var i :| 0 <= i < |init| && init[i] == x;
        assert s[i] == x && s[|init|] == x;
      }
    }
  }

  /** Whatever `b` holds, `a` holds too, and no fewer times. */
  lemma Elsewhere(a: seq<string>, b: seq<string>, i: nat, j: nat) returns (k: nat, l: nat)
    requires multiset(a) == multiset(b) && i < j < |b|
    ensures k < |a| && l < |a| && k != l && a[k] == b[i] && a[l] == b[j]
  {
    assert b[i] in multiset(a) && b[j] in multiset(a);
    if b[i] == b[j] {
      TwiceIsMultiplicity(a, b[i]);
      TwiceIsMultiplicity(b, b[i]);
      assert OccursTwice(b, b[i]);
      var m, n :| 0 <= m < n < |a| && a[m] == b[i] && a[n] == b[i];
      k, l := m, n;
    } else {
      var m :| 0 <= m < |a| && a[m] == b[i];
      var n :| 0 <= n < |a| && a[n] == b[j];
      k, l := m, n;
    }
  }

  /** The order of the entries decides nothing: a permutation of accepted entries is
      accepted and gives the same map. */
  lemma OrderIsIrrelevant(slots: set<string>, a: seq<string>, b: seq<string>, codes: map<string, string>)
    requires multiset(a) == multiset(b)
    requires Accepted(Outcomes(slots, a), |a|) && Collects(Outcomes(slots, a), |a|, codes)
    ensures Accepted(Outcomes(slots, b), |b|) && Collects(Outcomes(slots, b), |b|, codes)
  {
    var x, y := Outcomes(slots, a), Outcomes(slots, b);
    forall i | 0 <= i < |b| ensures y[i].Ok? {
      assert b[i] in multiset(a);
      var k :| 0 <= k < |a| && a[k] == b[i];
      assert y[i] == x[k];
    }
    forall i, j | 0 <= i < j < |b| ensures y[i].value.slot != y[j].value.slot {
      var k, l := Elsewhere(a, b, i, j);
      assert y[i] == x[k] && y[j] == x[l];
    }
    forall pair ensures Gives(x, |a|, pair) <==> Gives(y, |b|, pair) {
      SamePairs(slots, a, b, pair);
      SamePairs(slots, b, a, pair);
    }
  }

  lemma SamePairs(slots: set<string>, a: seq<string>, b: seq<string>, pair: Pair)
    requires multiset(a) == multiset(b)
    ensures Gives(Outcomes(slots, a), |a|, pair) ==> Gives(Outcomes(slots, b), |b|, pair)
  {
    var x, y := Outcomes(slots, a), Outcomes(slots, b);
    if i :| 0 <= i < |a| && x[i] == Ok(pair) {
      assert a[i] in multiset(b);
      var k :| 0 <= k < |b| && b[k] == a[i];
      assert y[k] == x[i];
    }
  }

  /** The map of accepted entries is determined by them. */
  lemma MapIsUnique(outcomes: seq<Result<Pair, UsageError>>, a: map<string, string>, b: map<string, string>)
    requires Collects(outcomes, |outcomes|, a) && Collects(outcomes, |outcomes|, b)
    ensures a == b
  {
    forall slot ensures slot in a <==> slot in b {
      assert slot in a ==> Gives(outcomes, |outcomes|, Pair(slot, a[slot]));
      assert slot in b ==> Gives(outcomes, |outcomes|, Pair(slot, b[slot]));
    }
    forall slot | slot in a ensures a[slot] == b[slot] {
      assert Gives(outcomes, |outcomes|, Pair(slot, a[slot]));
    }
  }

  // ------------------------------------------------------------------ four of four

  /** Accepted entries fill as many slots as there are entries. */
  lemma {:induction false} OneSlotEach(outcomes: seq<Result<Pair, UsageError>>, n: nat, codes: map<string, string>)
    requires n <= |outcomes| && Accepted(outcomes, n) && Collects(outcomes, n, codes)
    ensures |codes| == n
  {
    if n == 0 {
      forall slot ensures slot !in codes {
        assert slot in codes ==> Gives(outcomes, n, Pair(slot, codes[slot]));
      }
      assert codes == map[];
    } else {
      var pair := outcomes[n - 1].value;
      var before := codes - {pair.slot};
      LastRemoved(outcomes, n, codes);
      OneSlotEach(outcomes, n - 1, before);
      assert Gives(outcomes, n, pair);
      assert codes.Keys == before.Keys + {pair.slot};
    }
  }

  lemma LastRemoved(outcomes: seq<Result<Pair, UsageError>>, n: nat, codes: map<string, string>)
    requires 0 < n <= |outcomes| && Accepted(outcomes, n) && Collects(outcomes, n, codes)
    ensures Collects(outcomes, n - 1, codes - {outcomes[n - 1].value.slot})
  {
    var pair := outcomes[n - 1].value;
    var before := codes - {pair.slot};
    forall slot, value
      ensures slot in before && before[slot] == value <==> Gives(outcomes, n - 1, Pair(slot, value))
    {
      GivesOneMore(outcomes, n - 1, Pair(slot, value));
    }
  }

  lemma OnlyKnownSlots(slots: set<string>, entries: seq<string>, codes: map<string, string>)
    requires Collects(Outcomes(slots, entries), |entries|, codes)
    ensures codes.Keys <= slots
  {
    forall slot | slot in codes ensures slot in slots {
      assert Gives(Outcomes(slots, entries), |entries|, Pair(slot, codes[slot]));
    }
  }

  /** Pigeonhole: as many accepted entries as slots leave no slot without a code, and
      more entries than slots are always refused. */
  lemma AllSlotsFilled(slots: set<string>, entries: seq<string>, codes: map<string, string>)
    requires Accepted(Outcomes(slots, entries), |entries|) && Collects(Outcomes(slots, entries), |entries|, codes)
    ensures |entries| <= |slots|
    ensures |entries| == |slots| <==> codes.Keys == slots
  {
    OneSlotEach(Outcomes(slots, entries), |entries|, codes);
    OnlyKnownSlots(slots, entries, codes);
    var missing := slots - codes.Keys;
    assert slots == codes.Keys + missing;
    assert |missing| == 0 <==> missing == {};
  }

  /** The configured codes, where there are any and they can be read. `parsed` is the
      outcome of reading the configured JSON. */
  function FromConfiguration(configured: Option<string>, parsed: Option<map<string, string>>)
    : (r: Result<map<string, string>, UsageError>)
    ensures r == Err(MissingPlans) <==>
            configured.None? || IsBlank(configured.value)
    ensures r.Ok? ==> parsed == Some(r.value)
    ensures r == Err(BadConfiguration) ==> parsed == None
    ensures r.Ok? || r == Err(MissingPlans) || r == Err(BadConfiguration)
  {
    assert configured.Some? ==> (Trim(configured.value) == "" <==> IsBlank(configured.value)) by {
      if configured.Some? {
        BlankExactly(configured.value);
      }
    }
    if configured.None? || Trim(configured.value) == "" then Err(MissingPlans)
    else if parsed.Some? then Ok(parsed.value) else Err(BadConfiguration)
  }

  /** Where the codes come from: all flags, or none and the configuration. */
  method ResolvePlanCodes(
    slots: set<string>, plans: seq<string>, configured: Option<string>, parsed: Option<map<string, string>>)
    returns (r: Result<map<string, string>, UsageError>)
    requires slots != {}
    ensures !Accepted(Outcomes(slots, plans), |plans|) ==>
      r.Err? && exists i :: RefusedAt(Outcomes(slots, plans), i, r.error)
    ensures r.Ok? && plans != [] ==> r.value.Keys == slots && Collects(Outcomes(slots, plans), |plans|, r.value)
    ensures plans == [] ==> r == FromConfiguration(configured, parsed)
    ensures Accepted(Outcomes(slots, plans), |plans|) && plans != [] ==>
      (r.Ok? <==> |plans| == |slots|) && (r.Err? <==> r == Err(PartialPlans))
  {
    var read := ParseSlotPairs(slots, plans);
    if read.Err? {
      return read;
    }
    var fromFlags := read.value;
    OneSlotEach(Outcomes(slots, plans), |plans|, fromFlags);
    AllSlotsFilled(slots, plans, fromFlags);
    if 0 < |fromFlags| < |slots| {
      return Err(PartialPlans);
    }
    if |fromFlags| == |slots| {
      return Ok(fromFlags);
    }
    if configured.None? || Trim(configured.value) == "" {
      return Err(MissingPlans);
    }
    r := if parsed.Some? then Ok(parsed.value) else Err(BadConfiguration);
  }

  // ------------------------------------------------------------ the tool's own slots

  lemma FourSlots()
    ensures |LIVE_PLAN_CODE_KEYS| == 4
  {
    assert |"pro-monthly"| == 11 && |"pro-annual"| == 10 && |"elite-monthly"| == 13 && |"elite-annual"| == 12;
  }

  /** Accepted `--plan` flags define all four slots exactly when there are four of them;
      five are never accepted. */
  lemma FourPlansFillEverySlot(entries: seq<string>, codes: map<string, string>)
    requires Accepted(Outcomes(LIVE_PLAN_CODE_KEYS, entries), |entries|)
    requires Collects(Outcomes(LIVE_PLAN_CODE_KEYS, entries), |entries|, codes)
    ensures |entries| <= 4
    ensures |entries| == 4 <==> codes.Keys == LIVE_PLAN_CODE_KEYS
  {
    FourSlots();
    AllSlotsFilled(LIVE_PLAN_CODE_KEYS, entries, codes);
  }

  /** The slot and the code of `--plan slot=code` are read back. */
  predicate IsRead(slot: string, code: string) {
    PairOf(LIVE_PLAN_CODE_KEYS, slot + "=" + code) == Ok(Pair(slot, code))
  }

  lemma SlotIsRead(slot: string, code: string)
    requires slot in LIVE_PLAN_CODE_KEYS && IsPlainSlot(slot)
    requires code != "" && HasBareEnds(code)
    ensures IsRead(slot, code)
  {
    FreeByIndex(slot, '=');
    TrimKeepsExactly(slot);
    TrimKeepsExactly(code);
    WrittenPairIsRead(LIVE_PLAN_CODE_KEYS, slot, code);
  }

  predicate IsPlainSlot(slot: string) {
    slot != "" && HasBareEnds(slot) && forall i | 0 <= i < |slot| :: slot[i] != '='
  }

  lemma SlotsArePlain()
    ensures forall slot | slot in LIVE_PLAN_CODE_KEYS :: IsPlainSlot(slot)
  {
    assert IsPlainSlot("pro-monthly");
    assert IsPlainSlot("pro-annual");
    assert IsPlainSlot("elite-monthly");
    assert IsPlainSlot("elite-annual");
  }

  /** The four pairs of the tool's usage text, for any code. */
  lemma UsagePairsAreRead(code: string, slot: string)
    requires code != "" && HasBareEnds(code)
    requires slot in {"pro-monthly", "pro-annual", "elite-monthly", "elite-annual"}
    ensures IsRead(slot, code)
  {
    SlotsArePlain();
    assert IsPlainSlot(slot);
    SlotIsRead(slot, code);
  }

  /** The tool's choice: four flags and a code for every slot, or no flag and the configuration. */
  method ResolveLivePlanCodes(
    plans: seq<string>, configured: Option<string>, parsed: Option<map<string, string>>)
    returns (r: Result<map<string, string>, UsageError>)
    ensures r.Ok? && plans != [] ==> |plans| == 4 && r.value.Keys == LIVE_PLAN_CODE_KEYS
    ensures Accepted(Outcomes(LIVE_PLAN_CODE_KEYS, plans), |plans|) && plans != [] ==> (r.Ok? <==> |plans| == 4)
    ensures !Accepted(Outcomes(LIVE_PLAN_CODE_KEYS, plans), |plans|) ==>
      r.Err? && exists i :: RefusedAt(Outcomes(LIVE_PLAN_CODE_KEYS, plans), i, r.error)
    ensures plans == [] ==> r == FromConfiguration(configured, parsed)
  {
    FourSlots();
    r := ResolvePlanCodes(LIVE_PLAN_CODE_KEYS, plans, configured, parsed);
  }
}
