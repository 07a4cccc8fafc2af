/** The checkout projection of packages/contracts/src/billing-checkout.ts: an internal
    session becomes the one shape that is disclosed, or nothing is. */
module Checkout {
  import opened Results
  import opened Text
  import opened Money

  datatype Status = Initialized | Unavailable | Failed

  datatype Amount = Amount(currency: string, minor: nat, exponent: nat)

  datatype Fx = Fx(
    baseCurrency: string, quoteCurrency: string, rateScaled: nat, rateScale: nat, versionId: string,
    effectiveFrom: string, capturedAt: string, source: string, roundingMode: string)

  datatype Snapshot = Snapshot(
    commercialCurrency: string, commercialAmountMinor: nat, cataloguePlan: string, interval: string,
    payment: Amount, fx: Fx)

  datatype Session = Session(
    status: Status, authorizationUrl: Option<string>, amountMinor: nat, currency: string,
    payment: Option<Amount>, pricing: Option<Snapshot>, initializedAt: string)

  datatype Price = Price(cataloguePlan: string, interval: string, currency: string, amountMinor: nat, display: string)

  datatype FxDisclosure = FxDisclosure(fx: Fx, rateDisplay: string)

  /** What is disclosed; the fields pinned to `false` by type are left out. */
  datatype Dto = Dto(
    status: Status, authorizationUrl: Option<string>, price: Option<Price>, payment: Option<Amount>,
    paymentDisplay: Option<string>, fx: Option<FxDisclosure>, initializedAt: string)

  /** The cross-field rules of the disclosed shape. */
  datatype Rule =
    | NeedsUrl | NeedsPrice | NeedsPayment | NeedsFx | UrlNotAllowed
    | FxNeedsPayment | QuoteIsPaymentCurrency | BaseIsCommercialCurrency | PriceNeedsPaymentAndFx

  datatype Refusal =
    | CommercialAmountDisagrees
    | PaymentDisagrees
    | NoSnapshot
    | BadField
    | Broken(rules: seq<Rule>)

  function When(broken: bool, rule: Rule): seq<Rule> {
    if broken then [rule] else []
  }

  function UrlRules(d: Dto): seq<Rule> {
    if d.status.Initialized? then
      When(d.authorizationUrl.None?, NeedsUrl)
      + When(d.price.None?, NeedsPrice)
      + When(d.payment.None? || d.paymentDisplay.None?, NeedsPayment)
      + When(d.fx.None?, NeedsFx)
    else When(d.authorizationUrl.Some?, UrlNotAllowed)
  }

  function FxRules(d: Dto): seq<Rule> {
    if d.fx.None? then []
    else
      (if d.payment.None? || d.paymentDisplay.None? then [FxNeedsPayment]
       else When(d.payment.value.currency != d.fx.value.fx.quoteCurrency, QuoteIsPaymentCurrency))
      + When(d.price.Some? && d.price.value.currency != d.fx.value.fx.baseCurrency, BaseIsCommercialCurrency)
  }

  function BrokenRules(d: Dto): seq<Rule> {
    UrlRules(d) + FxRules(d) + When(d.price.Some? && (d.payment.None? || d.fx.None?), PriceNeedsPaymentAndFx)
  }

  /** The session agrees with its own snapshot. */
  function Disagreement(s: Session): Option<Refusal> {
    if s.pricing.Some? && (s.pricing.value.commercialAmountMinor != s.amountMinor
                           || s.pricing.value.commercialCurrency != s.currency)
    then Some(CommercialAmountDisagrees)
    else if s.pricing.Some? && s.payment.Some?
            && (s.payment.value.minor != s.pricing.value.payment.minor
                || s.payment.value.currency != s.pricing.value.payment.currency)
    then Some(PaymentDisagrees)
    else if s.status.Initialized? && s.pricing.None? then Some(NoSnapshot)
    else None
  }

  function PriceOf(snapshot: Snapshot): Price {
    Price(snapshot.cataloguePlan, snapshot.interval, snapshot.commercialCurrency, snapshot.commercialAmountMinor,
          UsdAmountDisplay(snapshot.commercialAmountMinor))
  }

  function FxOf(fx: Fx): FxDisclosure {
    FxDisclosure(fx, FxRateDisplay(fx.baseCurrency, fx.quoteCurrency, fx.rateScaled, fx.rateScale))
  }

  function Draft(s: Session): Dto {
    var payment := if s.pricing.Some? then Some(s.pricing.value.payment) else s.payment;
    Dto(
      s.status,
      if s.status.Initialized? then s.authorizationUrl else None,
      if s.pricing.None? then None else Some(PriceOf(s.pricing.value)),
      payment,
      if payment.None? then None
      else Some(PaymentAmountDisplay(payment.value.currency, payment.value.minor, payment.value.exponent)),
      if s.pricing.None? then None else Some(FxOf(s.pricing.value.fx)),
      s.initializedAt)
  }

  /** The one change parsing makes: the schema of the URL trims it. */
  function Parsed(d: Dto): Dto {
    d.(authorizationUrl := if d.authorizationUrl.None? then None else Some(Trim(d.authorizationUrl.value)))
  }

  /** `valid` stands for the schemas of the single fields. */
  function Project(s: Session, valid: Dto -> bool): Result<Dto, Refusal> {
    var dto := Parsed(Draft(s));
    if Disagreement(s).Some? then Err(Disagreement(s).value)
    else if !valid(dto) then Err(BadField)
    else if BrokenRules(dto) != [] then Err(Broken(BrokenRules(dto)))
    else Ok(dto)
  }

  /** The commercial and the FX base currency share one literal type. */
  predicate WellTyped(s: Session) {
    s.pricing.Some? ==> s.pricing.value.fx.baseCurrency == s.pricing.value.commercialCurrency
  }

  /** The snapshot prices what the session charges. */
  predicate AmountAgrees(s: Session) {
    s.pricing.Some? ==>
      s.pricing.value.commercialAmountMinor == s.amountMinor && s.pricing.value.commercialCurrency == s.currency
  }

  /** A session's own payment is the one of its snapshot. */
  predicate PaymentAgrees(s: Session) {
    s.pricing.Some? && s.payment.Some? ==>
      && s.payment.value.minor == s.pricing.value.payment.minor
      && s.payment.value.currency == s.pricing.value.payment.currency
  }

  predicate LacksSnapshot(s: Session) {
    s.status.Initialized? && s.pricing.None?
  }

  predicate LacksUrl(s: Session) {
    s.status.Initialized? && s.authorizationUrl.None?
  }

  predicate QuotesAnotherCurrency(s: Session) {
    s.pricing.Some? && s.pricing.value.fx.quoteCurrency != s.pricing.value.payment.currency
  }

  /** Of the nine cross-field rules only two can be broken by what the projection builds,
      and each exactly when the session's own data breaks it. */
  lemma OnlyTwoRulesCanBreak(s: Session)
    requires WellTyped(s) && Disagreement(s).None?
    ensures BrokenRules(Parsed(Draft(s))) ==
            When(LacksUrl(s), NeedsUrl) + When(QuotesAnotherCurrency(s), QuoteIsPaymentCurrency)
  {
    var d := Parsed(Draft(s));
    assert UrlRules(d) == When(LacksUrl(s), NeedsUrl);
    assert FxRules(d) == When(QuotesAnotherCurrency(s), QuoteIsPaymentCurrency);
  }

  lemma DisagreesExactly(s: Session)
    ensures Disagreement(s) == Some(CommercialAmountDisagrees) <==> !AmountAgrees(s)
    ensures Disagreement(s) == Some(PaymentDisagrees) <==> AmountAgrees(s) && !PaymentAgrees(s)
    ensures Disagreement(s) == Some(NoSnapshot) <==> LacksSnapshot(s)
    ensures Disagreement(s).None? <==> AmountAgrees(s) && PaymentAgrees(s) && !LacksSnapshot(s)
  {
  }

  /** Exactly which sessions are disclosed, and what each of the others is refused for. */
  lemma DisclosedExactly(s: Session, valid: Dto -> bool)
    requires WellTyped(s)
    ensures var r, fits := Project(s, valid), AmountAgrees(s) && PaymentAgrees(s) && !LacksSnapshot(s);
      && (r == Err(CommercialAmountDisagrees) <==> !AmountAgrees(s))
      && (r == Err(PaymentDisagrees) <==> AmountAgrees(s) && !PaymentAgrees(s))
      && (r == Err(NoSnapshot) <==> LacksSnapshot(s))
      && (r == Err(BadField) <==> fits && !valid(Parsed(Draft(s))))
      && (r.Ok? <==> fits && valid(Parsed(Draft(s))) && !LacksUrl(s) && !QuotesAnotherCurrency(s))
  {
    DisagreesExactly(s);
    if Disagreement(s).None? {
      OnlyTwoRulesCanBreak(s);
    }
  }

  /** One pricing decision: with a snapshot, all that is disclosed comes from it and the
      price is the session's amount; without one the session's own payment is all there
      is. An initialized checkout is fully disclosed and no other carries a link. */
  lemma OnePricingDecision(s: Session, valid: Dto -> bool)
    requires WellTyped(s) && Project(s, valid).Ok?
    ensures var d := Project(s, valid).value;
      && d.status == s.status && d.initializedAt == s.initializedAt
      && (d.authorizationUrl.Some? <==> d.status.Initialized?)
      && (d.status.Initialized? ==> d.price.Some? && d.payment.Some? && d.paymentDisplay.Some? && d.fx.Some?)
      && (d.price.Some? <==> s.pricing.Some?) && (d.fx.Some? <==> s.pricing.Some?)
      && (d.paymentDisplay.Some? <==> d.payment.Some?)
      && (s.pricing.None? ==> d.payment == s.payment)
      && (s.pricing.Some? ==>
            && d.price.value.cataloguePlan == s.pricing.value.cataloguePlan
            && d.price.value.interval == s.pricing.value.interval
            && d.price.value.currency == s.currency
            && d.price.value.amountMinor == s.amountMinor == s.pricing.value.commercialAmountMinor
            && d.price.value.currency == d.fx.value.fx.baseCurrency
            && d.payment == Some(s.pricing.value.payment)
            && d.payment.value.currency == d.fx.value.fx.quoteCurrency
            && d.fx.value.fx == s.pricing.value.fx
            && (s.payment.Some? ==>
                  && s.payment.value.minor == d.payment.value.minor
                  && s.payment.value.currency == d.payment.value.currency))
  {
    DisagreesExactly(s);
    OnlyTwoRulesCanBreak(s);
  }

  /** Every amount shown can be read back as the amount charged, priced or applied. */
  lemma DisplaysAreExact(s: Session, valid: Dto -> bool)
    requires WellTyped(s) && Project(s, valid).Ok? && s.pricing.Some?
    ensures var d := Project(s, valid).value;
      && d.paymentDisplay.Some? && d.price.Some? && d.fx.Some?
      && Shows(d.paymentDisplay.value, s.pricing.value.payment)
      && ShowsDollars(d.price.value.display, s.amountMinor)
      && ShowsRate(d.fx.value.rateDisplay, s.pricing.value.fx)
  {
    var snapshot := s.pricing.value;
    PaymentShows(snapshot.payment);
    DollarsShow(snapshot.commercialAmountMinor);
    RateShows(snapshot.fx);
  }

  ghost predicate Shows(display: string, amount: Amount) {
    exists text :: display == amount.currency + " " + text
                   && ParseDecimal(text) == Some(Decimal(amount.minor, amount.exponent))
  }

  ghost predicate ShowsDollars(display: string, amountMinor: nat) {
    display != "" && display[0] == '$' && Denotes(display[1..], amountMinor, 2)
  }

  ghost predicate ShowsRate(display: string, fx: Fx) {
    exists text :: display == ("1 " + fx.baseCurrency + " = ") + text + (" " + fx.quoteCurrency)
                   && Denotes(text, fx.rateScaled, fx.rateScale)
  }

  predicate Denotes(text: string, value: int, scale: nat) {
    ParseDecimal(text).Some? && SameNumber(ParseDecimal(text).value, Decimal(value, scale))
  }

  lemma PaymentShows(amount: Amount)
    ensures Shows(PaymentAmountDisplay(amount.currency, amount.minor, amount.exponent), amount)
  {
    ScaledDenotes(amount.minor, amount.exponent);
    var text := ScaledIntegerString(amount.minor, amount.exponent);
    assert PaymentAmountDisplay(amount.currency, amount.minor, amount.exponent) == amount.currency + " " + text;
  }

  lemma DollarsShow(amountMinor: nat)
    ensures ShowsDollars(UsdAmountDisplay(amountMinor), amountMinor)
  {
    UsdDisplayIsExact(amountMinor);
    var dollars := amountMinor / 100;
    assert ScaleUp(dollars, 1) == 10 * dollars;
    assert ScaleUp(dollars, 2) == 10 * ScaleUp(dollars, 1);
  }

  lemma RateShows(fx: Fx)
    ensures ShowsRate(FxRateDisplay(fx.baseCurrency, fx.quoteCurrency, fx.rateScaled, fx.rateScale), fx)
  {
    TrimmingPreservesValue(fx.rateScaled, fx.rateScale);
    FxDisplayParts(fx.baseCurrency, fx.quoteCurrency, fx.rateScaled, fx.rateScale);
  }

  /** The link is disclosed verbatim exactly when it neither begins nor ends with white space. */
  lemma LinkIsVerbatimExactly(s: Session, valid: Dto -> bool)
    requires Project(s, valid).Ok? && s.status.Initialized? && s.authorizationUrl.Some?
    ensures var u := s.authorizationUrl.value;
      Project(s, valid).value.authorizationUrl == Some(u) <==>
      u == "" || (!IsSpace(u[0]) && !IsSpace(u[|u| - 1]))
  {
    TrimKeepsExactly(s.authorizationUrl.value);
  }

  /** The documentation promises a verbatim link. Put a space before the link of any
      disclosed session: whatever the field schemas are, the same text is disclosed,
      which is no longer the session's link. */
  lemma SpacedLinkIsNotVerbatim(s: Session, valid: Dto -> bool)
    requires Project(s, valid).Ok? && s.status.Initialized? && s.authorizationUrl.Some?
    ensures var spaced := s.(authorizationUrl := Some(" " + s.authorizationUrl.value));
      && Project(spaced, valid) == Project(s, valid)
      && Project(spaced, valid).value.authorizationUrl != spaced.authorizationUrl
  {
    var u := s.authorizationUrl.value;
    assert (" " + u)[1..] == u;
    assert Trim(" " + u) == Trim(u);
    TrimShortens(u);
  }

  lemma TrimmedLink(link: string, spaced: string)
    requires HasBareEnds(link) && spaced == " " + link
    ensures Trim(spaced) == link && spaced != link
  {
    assert spaced[1..] == link;
    TrimKeepsExactly(link);
    assert |spaced| > |link|;
  }

  lemma SampleLink(link: string)
    requires link == "https://pay.example/x"
    ensures HasBareEnds(link) && " " + link == " https://pay.example/x"
  {
  }

  lemma DisclosesTrimmed(s: Session, valid: Dto -> bool, link: string)
    requires WellTyped(s) && Disagreement(s).None? && !QuotesAnotherCurrency(s) && s.status.Initialized?
    requires s.authorizationUrl.Some? && Trim(s.authorizationUrl.value) == link && valid(Parsed(Draft(s)))
    ensures Project(s, valid).Ok? && Project(s, valid).value.authorizationUrl == Some(link)
  {
    OnlyTwoRulesCanBreak(s);
  }

  /** For instance an https link that the field schemas accept once it is trimmed. */
  lemma LinkIsNotAlwaysVerbatim(s: Session, valid: Dto -> bool)
    requires WellTyped(s) && Disagreement(s).None? && !QuotesAnotherCurrency(s) && s.status.Initialized?
    requires s.authorizationUrl == Some(" https://pay.example/x") && valid(Parsed(Draft(s)))
    ensures Project(s, valid).Ok?
    ensures Project(s, valid).value.authorizationUrl == Some("https://pay.example/x") != s.authorizationUrl
  {
    var link := "https://pay.example/x";
    SampleLink(link);
    TrimmedLink(link, s.authorizationUrl.value);
    DisclosesTrimmed(s, valid, link);
  }
}
