/** The backtest form of apps/web/lib/backtest-form.ts: validation and the request that
    is built from a form. */
module BacktestForm {
  import opened Results
  import opened Text

  /** Form fields hold what was typed. */
  datatype Form = Form(
    strategyId: string, versionId: string, assetClass: string, symbol: string,
    fromValue: string, toValue: string, maxHoldCandles: string,
    feePerSide: string, slippagePerSide: string, spread: string, riskPerTrade: string)

  /** How the platform reads numbers and local dates (`None` when not finite), and the
      symbol under which the contract's schema knows an instrument, if it does. */
  datatype Platform = Platform(
    number: string -> Option<real>, date: string -> Option<int>, instrument: (string, string) -> Option<string>)

  datatype Field =
    StrategyVersion | Instrument | From | To | MaxHold | FeePerSide | SlippagePerSide | Spread | RiskPerTrade

  datatype Complaint =
    | ChooseStrategy | ChooseInstrument | ChooseStart | ChooseEnd | StartNotBeforeEnd | RangeTooLong
    | EndInFuture | StartInFuture | NotWhole | HoldOutOfRange | NotNonNegative | RiskNotPositive
    | RefusedBySchema

  const MAX_BACKTEST_RANGE_MS := 10 * 365 * 24 * 3600 * 1000
  const COSTS: set<Field> := {FeePerSide, SlippagePerSide, Spread, RiskPerTrade}

  const MAX_HOLD := 5000
  const MAX_RISK := 1000000000000.0
  const MAX_TIMESTAMP := 9_999_999_999_999

  // ------------------------------------------------------------------ reading fields

  function ReadDate(p: Platform, value: string): Option<int> {
    if value == "" then None else p.date(value)
  }

  function ParseNonNegative(p: Platform, value: string): Option<real> {
    var trimmed := Trim(value);
    if trimmed == "" then Some(0.0)
    else
      var n := p.number(trimmed);
      if n.None? || n.value < 0.0 then None else n
  }

  /** `Ok(None)` is a field left blank. */
  function ParseRiskPerTrade(p: Platform, value: string): Result<Option<real>, Complaint> {
    var trimmed := Trim(value);
    if trimmed == "" then Ok(None)
    else
      var n := p.number(trimmed);
      if n.None? || n.value <= 0.0 || n.value > MAX_RISK then Err(RiskNotPositive) else Ok(n)
  }

  predicate IsWhole(s: string) {
    s != "" && forall i | 0 <= i < |s| :: IsDigit(s[i])
  }

  lemma WholeIsNumeral(s: string)
    requires IsWhole(s)
    ensures IsNumeral(s, 10)
  {
  }

  function Hold(value: string): Option<nat> {
    var hold := Trim(value);
    if IsWhole(hold) then (WholeIsNumeral(hold); Some(Value(hold, 10))) else None
  }

  // ------------------------------------------------------------------------ the rules

  /** What every accepted form satisfies. */
  predicate Acceptable(p: Platform, form: Form, now: int) {
    var from, to := ReadDate(p, form.fromValue), ReadDate(p, form.toValue);
    && form.strategyId != "" && form.versionId != "" && form.assetClass != "" && Trim(form.symbol) != ""
    && from.Some? && to.Some? && from.value < to.value <= now && to.value - from.value <= MAX_BACKTEST_RANGE_MS
    && Hold(form.maxHoldCandles).Some? && 1 <= Hold(form.maxHoldCandles).value <= MAX_HOLD
    && ParseNonNegative(p, form.feePerSide).Some?
    && ParseNonNegative(p, form.slippagePerSide).Some?
    && ParseNonNegative(p, form.spread).Some?
    && ParseRiskPerTrade(p, form.riskPerTrade).Ok?
  }

  /** Which complaint wins for the start of the range: the last one written. */
  function StartComplaint(from: Option<int>, to: Option<int>, now: int): Option<Complaint> {
    if from.None? then Some(ChooseStart)
    else if from.value > now then Some(StartInFuture)
    else if to.Some? && from.value >= to.value then Some(StartNotBeforeEnd)
    else None
  }

  function EndComplaint(from: Option<int>, to: Option<int>, now: int): Option<Complaint> {
    if to.None? then Some(ChooseEnd)
    else if to.value > now then Some(EndInFuture)
    else if from.Some? && from.value < to.value && to.value - from.value > MAX_BACKTEST_RANGE_MS then Some(RangeTooLong)
    else None
  }

  function HoldComplaint(value: string): Option<Complaint> {
    var hold := Hold(value);
    if hold.None? then Some(NotWhole)
    else if hold.value < 1 || hold.value > MAX_HOLD then Some(HoldOutOfRange)
    else None
  }

  function Unless(fine: bool, complaint: Complaint): Option<Complaint> {
    if fine then None else Some(complaint)
  }

  function ComplaintAbout(p: Platform, form: Form, now: int, field: Field): Option<Complaint> {
    var from, to := ReadDate(p, form.fromValue), ReadDate(p, form.toValue);
    match field
    case StrategyVersion => Unless(form.strategyId != "" && form.versionId != "", ChooseStrategy)
    case Instrument => Unless(form.assetClass != "" && Trim(form.symbol) != "", ChooseInstrument)
    case From => StartComplaint(from, to, now)
    case To => EndComplaint(from, to, now)
    case MaxHold => HoldComplaint(form.maxHoldCandles)
    case FeePerSide => Unless(ParseNonNegative(p, form.feePerSide).Some?, NotNonNegative)
    case SlippagePerSide => Unless(ParseNonNegative(p, form.slippagePerSide).Some?, NotNonNegative)
    case Spread => Unless(ParseNonNegative(p, form.spread).Some?, NotNonNegative)
    case RiskPerTrade => Unless(ParseRiskPerTrade(p, form.riskPerTrade).Ok?, RiskNotPositive)
  }

  /** `errors` holds, field by field, exactly the complaints. */
  predicate Reports(errors: map<Field, Complaint>, field: Field, complaint: Option<Complaint>) {
    if complaint.None? then field !in errors else field in errors && errors[field] == complaint.value
  }

  lemma AcceptableHasNoComplaints(p: Platform, form: Form, now: int)
    ensures Acceptable(p, form, now) <==> forall field :: ComplaintAbout(p, form, now, field).None?
  {
    if forall field :: ComplaintAbout(p, form, now, field).None? {
      assert ComplaintAbout(p, form, now, StrategyVersion).None?;
      assert ComplaintAbout(p, form, now, Instrument).None?;
      assert ComplaintAbout(p, form, now, From).None?;
      assert ComplaintAbout(p, form, now, To).None?;
      assert ComplaintAbout(p, form, now, MaxHold).None?;
      assert ComplaintAbout(p, form, now, FeePerSide).None?;
      assert ComplaintAbout(p, form, now, SlippagePerSide).None?;
      assert ComplaintAbout(p, form, now, Spread).None?;
      assert ComplaintAbout(p, form, now, RiskPerTrade).None?;
    }
  }

  // ------------------------------------------------- what is typed and what is shown

  /** A blank cost is zero; any other is the number that was typed. */
  predicate IsCost(p: Platform, typed: string, n: real) {
    if Trim(typed) == "" then n == 0.0 else p.number(Trim(typed)) == Some(n)
  }

  predicate IsBadCost(p: Platform, typed: string) {
    Trim(typed) != "" && (p.number(Trim(typed)).None? || p.number(Trim(typed)).value < 0.0)
  }

  /** A blank risk is none; any other is the number that was typed. */
  predicate IsRisk(p: Platform, typed: string, n: Option<real>) {
    n == if Trim(typed) == "" then None else p.number(Trim(typed))
  }

  predicate IsBadRisk(p: Platform, typed: string) {
    var n := p.number(Trim(typed));
    Trim(typed) != "" && (n.None? || n.value <= 0.0 || n.value > MAX_RISK)
  }

  predicate IsDate(p: Platform, typed: string, ms: int) {
    typed != "" && p.date(typed) == Some(ms)
  }

  predicate IsNoDate(p: Platform, typed: string) {
    typed == "" || p.date(typed).None?
  }

  /** The typed hold is a plain decimal numeral of `n`. */
  predicate IsHold(typed: string, n: nat) {
    Trim(typed) != "" && IsNumeral(Trim(typed), 10) && Value(Trim(typed), 10) == n
  }

  predicate IsNoHold(typed: string) {
    Trim(typed) == "" || !IsNumeral(Trim(typed), 10)
  }

  /** The complaints about the two dates, from what was typed. */
  predicate ShowsDates(p: Platform, form: Form, now: int, errors: map<Field, Complaint>) {
    var noFrom, noTo := IsNoDate(p, form.fromValue), IsNoDate(p, form.toValue);
    && ((From in errors && errors[From] == ChooseStart) <==> noFrom)
    && ((From in errors && errors[From] == StartInFuture) <==> !noFrom && p.date(form.fromValue).value > now)
    && ((From in errors && errors[From] == StartNotBeforeEnd) <==>
          !noFrom && !noTo && p.date(form.fromValue).value <= now
          && p.date(form.fromValue).value >= p.date(form.toValue).value)
    && ((To in errors && errors[To] == ChooseEnd) <==> noTo)
    && ((To in errors && errors[To] == EndInFuture) <==> !noTo && p.date(form.toValue).value > now)
    && ((To in errors && errors[To] == RangeTooLong) <==>
          !noFrom && !noTo && p.date(form.toValue).value <= now
          && p.date(form.toValue).value - p.date(form.fromValue).value > MAX_BACKTEST_RANGE_MS)
  }

  /** The complaints about the costs and the risk, from what was typed. */
  predicate ShowsCosts(p: Platform, form: Form, errors: map<Field, Complaint>) {
    && (FeePerSide in errors <==> IsBadCost(p, form.feePerSide))
    && (SlippagePerSide in errors <==> IsBadCost(p, form.slippagePerSide))
    && (Spread in errors <==> IsBadCost(p, form.spread))
    && (RiskPerTrade in errors <==> IsBadRisk(p, form.riskPerTrade))
  }

  /** The complaints about the selections and the hold, from what was typed. */
  predicate ShowsOthers(form: Form, errors: map<Field, Complaint>) {
    && (StrategyVersion in errors <==> form.strategyId == "" || form.versionId == "")
    && (Instrument in errors <==> form.assetClass == "" || Trim(form.symbol) == "")
    && ((MaxHold in errors && errors[MaxHold] == NotWhole) <==> IsNoHold(form.maxHoldCandles))
    && ((MaxHold in errors && errors[MaxHold] == HoldOutOfRange) <==>
          !IsNoHold(form.maxHoldCandles) && !(1 <= Value(Trim(form.maxHoldCandles), 10) <= MAX_HOLD))
  }

  /** What is shown, field by field, in terms of what was typed. */
  predicate Shows(p: Platform, form: Form, now: int, errors: map<Field, Complaint>) {
    ShowsDates(p, form, now, errors) && ShowsCosts(p, form, errors) && ShowsOthers(form, errors)
  }

  lemma WholeIsDecimal(s: string)
    ensures IsWhole(s) <==> s != "" && IsNumeral(s, 10)
  {
  }

  lemma HoldIsTyped(typed: string)
    ensures Hold(typed).None? <==> IsNoHold(typed)
    ensures Hold(typed).Some? ==> IsHold(typed, Hold(typed).value)
  {
    WholeIsDecimal(Trim(typed));
  }

  lemma CostIsTyped(p: Platform, typed: string)
    ensures ParseNonNegative(p, typed).None? <==> IsBadCost(p, typed)
    ensures ParseNonNegative(p, typed).Some? ==> IsCost(p, typed, ParseNonNegative(p, typed).value)
  {
  }

  lemma RiskIsTyped(p: Platform, typed: string)
    ensures ParseRiskPerTrade(p, typed).Err? <==> IsBadRisk(p, typed)
    ensures ParseRiskPerTrade(p, typed).Ok? ==> IsRisk(p, typed, ParseRiskPerTrade(p, typed).value)
  {
  }

  lemma DatesShow(p: Platform, form: Form, now: int, errors: map<Field, Complaint>)
    requires Settles(p, form, now, errors, From) && Settles(p, form, now, errors, To)
    ensures ShowsDates(p, form, now, errors)
  {
  }

  lemma CostsShow(p: Platform, form: Form, now: int, errors: map<Field, Complaint>)
    requires Settles(p, form, now, errors, FeePerSide) && Settles(p, form, now, errors, SlippagePerSide)
    requires Settles(p, form, now, errors, Spread) && Settles(p, form, now, errors, RiskPerTrade)
    ensures ShowsCosts(p, form, errors)
  {
    CostIsTyped(p, form.feePerSide);
    CostIsTyped(p, form.slippagePerSide);
    CostIsTyped(p, form.spread);
    RiskIsTyped(p, form.riskPerTrade);
  }

  lemma OthersShow(p: Platform, form: Form, now: int, errors: map<Field, Complaint>)
    requires Settles(p, form, now, errors, StrategyVersion) && Settles(p, form, now, errors, Instrument)
    requires Settles(p, form, now, errors, MaxHold)
    ensures ShowsOthers(form, errors)
  {
    HoldIsTyped(form.maxHoldCandles);
  }

  // -------------------------------------------------------------------- the validator

  datatype Validation = Validation(errors: map<Field, Complaint>, valid: bool, from: Option<int>, to: Option<int>)

  /** Other fields than these keep what is said about them. */
  predicate Keeps(before: map<Field, Complaint>, after: map<Field, Complaint>, fields: set<Field>) {
    forall field | field !in fields ::
      (field in before <==> field in after) && (field in before ==> after[field] == before[field])
  }

  /** `errors` says what is to be said of `field`. */
  predicate Settles(p: Platform, form: Form, now: int, errors: map<Field, Complaint>, field: Field) {
    Reports(errors, field, ComplaintAbout(p, form, now, field))
  }

  method CheckSelections(p: Platform, form: Form, now: int) returns (errors: map<Field, Complaint>)
    ensures Settles(p, form, now, errors, StrategyVersion) && Settles(p, form, now, errors, Instrument)
    ensures forall field | field in errors :: field == StrategyVersion || field == Instrument
  {
    errors := map[];
    if form.strategyId == "" || form.versionId == "" {
      errors := errors[StrategyVersion := ChooseStrategy];
    }
    if form.assetClass == "" || Trim(form.symbol) == "" {
      errors := errors[Instrument := ChooseInstrument];
    }
  }

  method CheckRange(
    errors: map<Field, Complaint>, p: Platform, form: Form, from: Option<int>, to: Option<int>, now: int)
    returns (checked: map<Field, Complaint>)
    requires From !in errors && To !in errors
    requires from == ReadDate(p, form.fromValue) && to == ReadDate(p, form.toValue)
    ensures Settles(p, form, now, checked, From) && Settles(p, form, now, checked, To)
    ensures Keeps(errors, checked, {From, To})
  {
    checked := errors;
    if from.None? {
      checked := checked[From := ChooseStart];
    }
    if to.None? {
      checked := checked[To := ChooseEnd];
    }
    if from.Some? && to.Some? {
      if from.value >= to.value {
        checked := checked[From := StartNotBeforeEnd];
      } else if to.value - from.value > MAX_BACKTEST_RANGE_MS {
        checked := checked[To := RangeTooLong];
      }
    }
    if to.Some? && to.value > now {
      checked := checked[To := EndInFuture];
    }
    if from.Some? && from.value > now {
      checked := checked[From := StartInFuture];
    }
  }

  method CheckHold(errors: map<Field, Complaint>, p: Platform, form: Form, now: int)
    returns (checked: map<Field, Complaint>)
    requires MaxHold !in errors
    ensures Settles(p, form, now, checked, MaxHold)
    ensures Keeps(errors, checked, {MaxHold})
  {
    var hold := Hold(form.maxHoldCandles);
    checked := errors;
    if hold.None? {
      checked := checked[MaxHold := NotWhole];
    } else if hold.value < 1 || hold.value > MAX_HOLD {
      checked := checked[MaxHold := HoldOutOfRange];
    }
  }

  method CheckCosts(errors: map<Field, Complaint>, p: Platform, form: Form, now: int)
    returns (checked: map<Field, Complaint>)
    requires forall field | field in COSTS :: field !in errors
    ensures forall field | field in COSTS :: Settles(p, form, now, checked, field)
    ensures Keeps(errors, checked, COSTS)
  {
    checked := errors;
    if ParseNonNegative(p, form.feePerSide).None? {
      checked := checked[FeePerSide := NotNonNegative];
    }
    if ParseNonNegative(p, form.slippagePerSide).None? {
      checked := checked[SlippagePerSide := NotNonNegative];
    }
    if ParseNonNegative(p, form.spread).None? {
      checked := checked[Spread := NotNonNegative];
    }
    if ParseRiskPerTrade(p, form.riskPerTrade).Err? {
      checked := checked[RiskPerTrade := RiskNotPositive];
    }
  }

  lemma StaysSettled(
    before: map<Field, Complaint>, after: map<Field, Complaint>, fields: set<Field>, field: Field,
    complaint: Option<Complaint>)
    requires Keeps(before, after, fields) && field !in fields
    ensures Reports(before, field, complaint) <==> Reports(after, field, complaint)
  {
  }

  /** Each check settles its own fields and the later ones leave them alone. */
  lemma SettledInTurn(
    selections: map<Field, Complaint>, range: map<Field, Complaint>, hold: map<Field, Complaint>,
    errors: map<Field, Complaint>, field: Field, complaint: Option<Complaint>)
    requires Keeps(selections, range, {From, To}) && Keeps(range, hold, {MaxHold}) && Keeps(hold, errors, COSTS)
    requires field == StrategyVersion || field == Instrument ==> Reports(selections, field, complaint)
    requires field == From || field == To ==> Reports(range, field, complaint)
    requires field == MaxHold ==> Reports(hold, field, complaint)
    requires field in COSTS ==> Reports(errors, field, complaint)
    ensures Reports(errors, field, complaint)
  {
    if field !in COSTS {
      StaysSettled(hold, errors, COSTS, field, complaint);
      if field != MaxHold {
        StaysSettled(range, hold, {MaxHold}, field, complaint);
        if field != From && field != To {
          StaysSettled(selections, range, {From, To}, field, complaint);
        }
      }
    }
  }

  lemma AllSettled(
    p: Platform, form: Form, now: int, selections: map<Field, Complaint>, range: map<Field, Complaint>,
    hold: map<Field, Complaint>, errors: map<Field, Complaint>)
    requires Keeps(selections, range, {From, To}) && Keeps(range, hold, {MaxHold}) && Keeps(hold, errors, COSTS)
    requires Settles(p, form, now, selections, StrategyVersion) && Settles(p, form, now, selections, Instrument)
    requires Settles(p, form, now, range, From) && Settles(p, form, now, range, To)
    requires Settles(p, form, now, hold, MaxHold)
    requires forall field | field in COSTS :: Settles(p, form, now, errors, field)
    ensures forall field :: Settles(p, form, now, errors, field)
  {
    forall field ensures Settles(p, form, now, errors, field) {
      SettledInTurn(selections, range, hold, errors, field, ComplaintAbout(p, form, now, field));
    }
  }

  lemma ValidExactly(p: Platform, form: Form, now: int, errors: map<Field, Complaint>)
    requires forall field :: Settles(p, form, now, errors, field)
    ensures errors == map[] <==> Acceptable(p, form, now)
  {
    AcceptableHasNoComplaints(p, form, now);
    NoErrorsMeansNoComplaints(p, form, now, errors);
  }

  lemma NoErrorsMeansNoComplaints(p: Platform, form: Form, now: int, errors: map<Field, Complaint>)
    requires forall field :: Settles(p, form, now, errors, field)
    ensures errors == map[] <==> forall field :: ComplaintAbout(p, form, now, field).None?
  {
    forall field ensures field in errors <==> ComplaintAbout(p, form, now, field).Some? {
      assert Settles(p, form, now, errors, field);
    }
    if forall field :: ComplaintAbout(p, form, now, field).None? {
      assert forall field :: field !in errors;
    }
  }

  lemma AllShown(p: Platform, form: Form, now: int, errors: map<Field, Complaint>)
    requires forall field :: Settles(p, form, now, errors, field)
    ensures Shows(p, form, now, errors)
  {
    DatesShow(p, form, now, errors);
    CostsShow(p, form, now, errors);
    OthersShow(p, form, now, errors);
  }

  method CheckAll(p: Platform, form: Form, from: Option<int>, to: Option<int>, now: int)
    returns (errors: map<Field, Complaint>)
    requires from == ReadDate(p, form.fromValue) && to == ReadDate(p, form.toValue)
    ensures forall field :: Settles(p, form, now, errors, field)
  {
    var selections := CheckSelections(p, form, now);
    var range := CheckRange(selections, p, form, from, to, now);
    var hold := CheckHold(range, p, form, now);
    errors := CheckCosts(hold, p, form, now);
    AllSettled(p, form, now, selections, range, hold, errors);
  }

  method ValidateBacktestForm(p: Platform, form: Form, now: int) returns (v: Validation)
    ensures forall field :: Settles(p, form, now, v.errors, field)
    ensures Shows(p, form, now, v.errors)
    ensures v.valid <==> Acceptable(p, form, now)
    ensures v.valid <==> v.errors == map[]
    ensures v.from == ReadDate(p, form.fromValue) && v.to == ReadDate(p, form.toValue)
  {
    var from, to := ReadDate(p, form.fromValue), ReadDate(p, form.toValue);
    var errors := CheckAll(p, form, from, to, now);
    AllShown(p, form, now, errors);
    ValidExactly(p, form, now, errors);
    v := Validation(errors, errors == map[], from, to);
  }

  // ---------------------------------------------------------------------- the request

  datatype Request = Request(
    strategyId: string, versionId: string, assetClass: string, symbol: string, from: int, to: int,
    maxHoldCandles: nat, feePerSide: real, slippagePerSide: real, spread: real, riskPerTrade: Option<real>)

  function Issue(broken: bool, field: Field): seq<Field> {
    if broken then [field] else []
  }

  /** The form fields that the issues of the shared request schema are shown at, in order. */
  function SchemaIssues(p: Platform, r: Request): seq<Field> {
    Issue(p.instrument(r.assetClass, r.symbol).None?, Instrument)
    + Issue(!(0 < r.from <= MAX_TIMESTAMP), From)
    + Issue(!(0 < r.to <= MAX_TIMESTAMP), To)
    + Issue(!(1 <= r.maxHoldCandles <= MAX_HOLD), MaxHold)
    + Issue(r.feePerSide < 0.0, FeePerSide)
    + Issue(r.slippagePerSide < 0.0, SlippagePerSide)
    + Issue(r.spread < 0.0, Spread)
    + Issue(r.riskPerTrade.Some? && !(0.0 < r.riskPerTrade.value <= MAX_RISK), RiskPerTrade)
    + Issue(r.from >= r.to, From)
  }

  /** What the form asks for, with its symbol spelled `symbol`. */
  predicate Asks(p: Platform, form: Form, r: Request, symbol: string) {
    && r.strategyId == form.strategyId && r.versionId == form.versionId
    && r.assetClass == form.assetClass && r.symbol == symbol
    && Some(r.from) == ReadDate(p, form.fromValue) && Some(r.to) == ReadDate(p, form.toValue)
    && Some(r.maxHoldCandles) == Hold(form.maxHoldCandles)
    && Some(r.feePerSide) == ParseNonNegative(p, form.feePerSide)
    && Some(r.slippagePerSide) == ParseNonNegative(p, form.slippagePerSide)
    && Some(r.spread) == ParseNonNegative(p, form.spread)
    && Ok(r.riskPerTrade) == ParseRiskPerTrade(p, form.riskPerTrade)
  }

  /** A request well inside the limits. */
  predicate IsWithinLimits(r: Request, now: int) {
    && 0 < r.from < r.to <= now && r.to - r.from <= MAX_BACKTEST_RANGE_MS
    && 1 <= r.maxHoldCandles <= MAX_HOLD
    && r.feePerSide >= 0.0 && r.slippagePerSide >= 0.0 && r.spread >= 0.0
    && (r.riskPerTrade.Some? ==> 0.0 < r.riskPerTrade.value <= MAX_RISK)
  }

  /** The request holds exactly what was typed. */
  predicate IsTyped(p: Platform, form: Form, r: Request) {
    && IsCost(p, form.feePerSide, r.feePerSide) && IsCost(p, form.slippagePerSide, r.slippagePerSide)
    && IsCost(p, form.spread, r.spread) && IsRisk(p, form.riskPerTrade, r.riskPerTrade)
    && IsDate(p, form.fromValue, r.from) && IsDate(p, form.toValue, r.to)
    && IsHold(form.maxHoldCandles, r.maxHoldCandles)
  }

  lemma AskedIsTyped(p: Platform, form: Form, r: Request, symbol: string)
    requires Asks(p, form, r, symbol)
    ensures IsTyped(p, form, r)
  {
    CostIsTyped(p, form.feePerSide);
    CostIsTyped(p, form.slippagePerSide);
    CostIsTyped(p, form.spread);
    RiskIsTyped(p, form.riskPerTrade);
    HoldIsTyped(form.maxHoldCandles);
  }

  /** What the schema knows beyond the validator: the instrument, and dates of our era. */
  predicate SchemaAccepts(p: Platform, form: Form) {
    var from, to := ReadDate(p, form.fromValue), ReadDate(p, form.toValue);
    && from.Some? && to.Some? && 0 < from.value && to.value <= MAX_TIMESTAMP
    && p.instrument(form.assetClass, Trim(form.symbol)).Some?
  }

  /** After a valid form the schema can only complain about the instrument and the dates. */
  lemma SchemaAddsLittle(p: Platform, form: Form, now: int, r: Request)
    requires Acceptable(p, form, now) && Asks(p, form, r, Trim(form.symbol))
    ensures SchemaIssues(p, r) == [] <==> SchemaAccepts(p, form)
    ensures forall field | field in SchemaIssues(p, r) :: field == Instrument || field == From || field == To
  {
  }

  lemma AskedIsWithinLimits(p: Platform, form: Form, now: int, r: Request, symbol: string)
    requires Acceptable(p, form, now) && SchemaAccepts(p, form) && Asks(p, form, r, symbol)
    ensures IsWithinLimits(r, now)
  {
  }

  /** Never refuses silently, and accepts exactly the acceptable forms whose instrument and
      dates the contract knows; the body is what the form asks for and keeps all limits. */
  method BuildBacktestRequest(p: Platform, form: Form, now: int) returns (r: Result<Request, map<Field, Complaint>>)
    ensures r.Ok? <==> Acceptable(p, form, now) && SchemaAccepts(p, form)
    ensures r.Err? ==> r.error != map[]
    ensures r.Ok? ==> Asks(p, form, r.value, p.instrument(form.assetClass, Trim(form.symbol)).value)
    ensures r.Ok? ==> IsTyped(p, form, r.value) && IsWithinLimits(r.value, now)
    ensures r.Err? && !Acceptable(p, form, now) ==>
      && (forall field :: Settles(p, form, now, r.error, field))
      && Shows(p, form, now, r.error)
    ensures r.Err? && Acceptable(p, form, now) ==> r.error.Keys <= {Instrument, From, To}
  {
    var v := ValidateBacktestForm(p, form, now);
    if !v.valid || v.from.None? || v.to.None? {
      return Err(v.errors);
    }
    var risk := ParseRiskPerTrade(p, form.riskPerTrade);
    if risk.Err? {
      return Err(v.errors);
    }
    var request := Request(
      form.strategyId, form.versionId, form.assetClass, Trim(form.symbol), v.from.value, v.to.value,
      Hold(form.maxHoldCandles).value, OrZero(ParseNonNegative(p, form.feePerSide)),
      OrZero(ParseNonNegative(p, form.slippagePerSide)), OrZero(ParseNonNegative(p, form.spread)), risk.value);
    var issues := SchemaIssues(p, request);
    SchemaAddsLittle(p, form, now, request);
    if issues != [] {
      var mapped := MapIssues(issues);
      return Err(mapped);
    }
    AskedIsWithinLimits(p, form, now, request, request.symbol);
    AskedIsTyped(p, form, request, request.symbol);
    r := Ok(request.(symbol := p.instrument(form.assetClass, Trim(form.symbol)).value));
  }

  function OrZero(n: Option<real>): real {
    if n.Some? then n.value else 0.0
  }

  /** The first issue of a field is the one shown. */
  method MapIssues(issues: seq<Field>) returns (mapped: map<Field, Complaint>)
    ensures forall field :: field in mapped <==> field in issues
    ensures issues != [] ==> mapped != map[]
  {
    mapped := map[];
    for i := 0 to |issues|
      invariant forall field :: field in mapped <==> field in issues[..i]
    {
      if issues[i] !in mapped {
        mapped := mapped[issues[i] := RefusedBySchema];
      }
      assert issues[..i + 1] == issues[..i] + [issues[i]];
    }
    assert issues[..|issues|] == issues;
    assert issues != [] ==> issues[0] in mapped;
  }
}
