/** The argument parser of scripts/billing/fx-validate.ts. */
module FxValidateArgs {
  import opened Results
  import opened Text
  import opened Flags

  /** What a field of the candidate is set to: `true`, or a text. */
  datatype Setting = Asserted | Given(value: string)

  datatype ParsedArgs = ParsedArgs(
    candidate: map<string, Setting>, asOf: Option<string>, dryRun: bool, prohibited: seq<string>)

  datatype UsageError = Help | TakesNoValue(flag: string) | RequiresValue(flag: string) | Unknown(flag: string)

  /** The flags of the tool: the words for help, the dry-run switch, and the two
      tables from a flag to the candidate key it sets. A table is an object, so a
      lookup in it also finds what every object inherits: `inherited` gives, by
      name, the text of each such value as a key. */
  datatype Tables = Tables(
    help: set<string>, dryRun: string, prohibited: map<string, string>, inherited: map<string, string>,
    valued: map<string, string>, asOf: string)

  predicate IsPlainFlag(flag: string) {
    Dashed(flag) && Free(flag, '=')
  }

  predicate Consistent(t: Tables) {
    && IsPlainFlag(t.dryRun)
    && (forall k | k in t.prohibited.Keys :: IsPlainFlag(k))
    && (forall k | k in t.valued.Keys :: IsPlainFlag(k))
    && (forall k | k in t.inherited.Keys :: !Dashed(k) && k !in t.help)
    && t.prohibited.Values !! t.valued.Values
    && t.inherited.Values !! t.valued.Values
  }

  /** `String(f)` of a built-in function. */
  function NativeText(name: string): string {
    "function " + name + "() { [native code] }"
  }

  const PROHIBITED_FLAGS: map<string, string> :=
    map["--publish" := "publish", "--publish-rate" := "publishRate", "--approve" := "approve",
        "--approved" := "approved", "--approval" := "approval", "--apply" := "apply",
        "--confirm" := "confirm", "--confirmed" := "confirmed", "--write" := "write",
        "--register" := "register", "--live" := "live"]

  const VALUE_FLAGS: map<string, string> :=
    map["--rate" := "rate", "--source" := "source", "--fx-source" := "fxSource",
        "--source-reference" := "sourceReference", "--base-currency" := "baseCurrency",
        "--quote-currency" := "quoteCurrency", "--captured-at" := "capturedAt",
        "--effective-from" := "effectiveFrom", "--by" := "operator", "--reason" := "reason",
        "--as-of" := "asOf"]

  /** The properties of `Object.prototype`. */
  const INHERITED: map<string, string> :=
    map["constructor" := NativeText("Object"), "toString" := NativeText("toString"),
        "toLocaleString" := NativeText("toLocaleString"), "valueOf" := NativeText("valueOf"),
        "hasOwnProperty" := NativeText("hasOwnProperty"), "isPrototypeOf" := NativeText("isPrototypeOf"),
        "propertyIsEnumerable" := NativeText("propertyIsEnumerable"),
        "__defineGetter__" := NativeText("__defineGetter__"), "__defineSetter__" := NativeText("__defineSetter__"),
        "__lookupGetter__" := NativeText("__lookupGetter__"), "__lookupSetter__" := NativeText("__lookupSetter__"),
        "__proto__" := "[object Object]"]

  const FX_TABLES := Tables({"--help", "-h"}, "--dry-run", PROHIBITED_FLAGS, INHERITED, VALUE_FLAGS, "asOf")

  // ------------------------------------------------------- what each position says

  datatype Role =
    | HelpRole | DryRunRole | ProhibitedRole(key: string) | ValueRole(field: string) | NoRole
    | TakenRole

  /** `PROHIBITED_FLAGS[flag]`, own or inherited. */
  function ProhibitedKey(t: Tables, flag: string): Option<string> {
    if flag in t.prohibited then Some(t.prohibited[flag])
    else if flag in t.inherited then Some(t.inherited[flag])
    else None
  }

  function RoleOf(t: Tables, flag: string): Role {
    if flag in t.help then HelpRole
    else if flag == t.dryRun then DryRunRole
    else if ProhibitedKey(t, flag).Some? then ProhibitedRole(ProhibitedKey(t, flag).value)
    else if flag in t.valued then ValueRole(t.valued[flag])
    else NoRole
  }

  /** At a flag position, the token after this one belongs to it unless it is another flag. */
  predicate TakesNext(t: Tables, token: string) {
    var f := HeadFlag(token);
    f.attached.None? && (RoleOf(t, f.name).ProhibitedRole? || RoleOf(t, f.name).ValueRole?)
  }

  /** The token at `i` is the value of the flag before it. */
  predicate IsTaken(t: Tables, argv: seq<string>, i: nat)
    requires i < |argv|
  {
    i > 0 && !Dashed(argv[i]) && !IsTaken(t, argv, i - 1) && TakesNext(t, argv[i - 1])
  }

  function RoleAt(t: Tables, argv: seq<string>, i: nat): Role
    requires i < |argv|
  {
    if IsTaken(t, argv, i) then TakenRole else RoleOf(t, HeadFlag(argv[i]).name)
  }

  /** What is wrong at position `i`, judged from that token, its role and the next token. */
  function ErrorAt(t: Tables, argv: seq<string>, i: nat): Option<UsageError>
    requires i < |argv|
  {
    var f := HeadFlag(argv[i]);
    match RoleAt(t, argv, i)
    case HelpRole => Some(Help)
    case DryRunRole => if f.attached.Some? then Some(TakesNoValue(f.name)) else None
    case ProhibitedRole(_) => None
    case ValueRole(_) => ValueError(f.name, ValueAt(argv, i))
    case NoRole => Some(Unknown(f.name))
    case TakenRole => None
  }

  function ValueError(flag: string, v: Option<string>): Option<UsageError> {
    if v.None? || Dashed(v.value) then Some(RequiresValue(flag)) else None
  }

  predicate Clean(t: Tables, argv: seq<string>, n: nat)
    requires n <= |argv|
  {
    forall i | 0 <= i < n :: ErrorAt(t, argv, i).None?
  }

  /** The keys of the prohibited flags among the first `n` tokens, in order. */
  function Prohibitions(t: Tables, argv: seq<string>, n: nat): seq<string>
    requires n <= |argv|
  {
    if n == 0 then []
    else Prohibitions(t, argv, n - 1) + KeyOf(RoleAt(t, argv, n - 1))
  }

  function KeyOf(role: Role): seq<string> {
    if role.ProhibitedRole? then [role.key] else []
  }

  /** For each field that the first `n` tokens set, the value of the last of them that does. */
  function LastValues(t: Tables, argv: seq<string>, n: nat): map<string, Option<string>>
    requires n <= |argv|
  {
    if n == 0 then map[]
    else WithValue(LastValues(t, argv, n - 1), RoleAt(t, argv, n - 1), ValueAt(argv, n - 1))
  }

  function WithValue(values: map<string, Option<string>>, role: Role, v: Option<string>): map<string, Option<string>> {
    if role.ValueRole? then values[role.field := v] else values
  }

  /** A candidate holds `true` for each prohibited key and the last text for each field given. */
  predicate Holds(
    candidate: map<string, Setting>, prohibited: seq<string>, values: map<string, Option<string>>, asOf: string)
  {
    && (forall k | k in candidate.Keys :: k in prohibited || (k in values && k != asOf))
    && (forall k | k in prohibited :: k in candidate && candidate[k] == Asserted)
    && (forall k | k in values && k != asOf ::
          k in candidate && values[k].Some? && candidate[k] == Given(values[k].value))
  }

  /** `p` is what the first `n` tokens say. */
  predicate Says(t: Tables, argv: seq<string>, n: nat, p: ParsedArgs)
    requires n <= |argv|
  {
    && (p.dryRun <==> t.dryRun in argv[..n])
    && p.prohibited == Prohibitions(t, argv, n)
    && p.asOf == Lookup(LastValues(t, argv, n), t.asOf)
    && Holds(p.candidate, p.prohibited, LastValues(t, argv, n), t.asOf)
  }

  // ------------------------------------------------------------------- the parser

  lemma OneMoreToken(t: Tables, argv: seq<string>, n: nat)
    requires n < |argv|
    ensures t.dryRun in argv[..n + 1] <==> t.dryRun in argv[..n] || t.dryRun == argv[n]
  {
    assert argv[..n + 1] == argv[..n] + [argv[n]];
  }

  /** A token that is neither a prohibited nor a value flag gives no key and no value. */
  lemma QuietToken(t: Tables, argv: seq<string>, n: nat)
    requires n < |argv|
    requires !RoleAt(t, argv, n).ProhibitedRole? && !RoleAt(t, argv, n).ValueRole?
    ensures Prohibitions(t, argv, n + 1) == Prohibitions(t, argv, n)
    ensures LastValues(t, argv, n + 1) == LastValues(t, argv, n)
  {
  }

  /** The value of the flag before it says nothing itself. */
  lemma TakenSaysNothing(t: Tables, argv: seq<string>, n: nat, p: ParsedArgs)
    requires Consistent(t) && n < |argv| && Says(t, argv, n, p)
    requires IsTaken(t, argv, n)
    ensures Says(t, argv, n + 1, p)
  {
    OneMoreToken(t, argv, n);
    QuietToken(t, argv, n);
  }

  lemma DryRunSays(t: Tables, argv: seq<string>, n: nat, p: ParsedArgs)
    requires Consistent(t) && n < |argv| && Says(t, argv, n, p)
    requires HeadFlag(argv[n]).attached.None? && RoleAt(t, argv, n) == DryRunRole
    ensures Says(t, argv, n + 1, p.(dryRun := true))
  {
    OneMoreToken(t, argv, n);
    QuietToken(t, argv, n);
    WrittenSplit(argv[n]);
  }

  lemma NotDryRun(t: Tables, argv: seq<string>, n: nat)
    requires Consistent(t) && n < |argv| && HeadFlag(argv[n]).name != t.dryRun
    ensures t.dryRun in argv[..n + 1] <==> t.dryRun in argv[..n]
  {
    OneMoreToken(t, argv, n);
    IndexOfIsFirst(t.dryRun, '=');
  }

  lemma HoldsOneMoreProhibition(
    c: map<string, Setting>, prohibited: seq<string>, values: map<string, Option<string>>, asOf: string, key: string)
    requires Holds(c, prohibited, values, asOf) && key !in values
    ensures Holds(c[key := Asserted], prohibited + [key], values, asOf)
  {
  }

  lemma HoldsOneMoreValue(
    c: map<string, Setting>, prohibited: seq<string>, values: map<string, Option<string>>, asOf: string,
    field: string, v: string)
    requires Holds(c, prohibited, values, asOf) && field !in prohibited
    ensures Holds(if field == asOf then c else c[field := Given(v)], prohibited, values[field := Some(v)], asOf)
  {
  }

  lemma ProhibitedSays(t: Tables, argv: seq<string>, n: nat, p: ParsedArgs, key: string)
    requires Consistent(t) && n < |argv| && Says(t, argv, n, p)
    requires RoleAt(t, argv, n) == ProhibitedRole(key)
    ensures Says(t, argv, n + 1,
                 p.(prohibited := p.prohibited + [key], candidate := p.candidate[key := Asserted]))
  {
    NotDryRun(t, argv, n);
    KeyIsProhibited(t, HeadFlag(argv[n]).name, key);
    ValuesAreValued(t, argv, n);
    HoldsOneMoreProhibition(p.candidate, p.prohibited, LastValues(t, argv, n), t.asOf, key);
  }

  lemma KeyIsProhibited(t: Tables, flag: string, key: string)
    requires RoleOf(t, flag) == ProhibitedRole(key)
    ensures key in t.prohibited.Values || key in t.inherited.Values
  {
    assert flag in t.prohibited.Keys || flag in t.inherited.Keys;
  }

  lemma ValuedSays(t: Tables, argv: seq<string>, n: nat, p: ParsedArgs, field: string, v: Option<string>)
    requires Consistent(t) && n < |argv| && Says(t, argv, n, p)
    requires RoleAt(t, argv, n) == ValueRole(field)
    requires v.Some? && v == ValueAt(argv, n)
    ensures Says(t, argv, n + 1,
                 if field == t.asOf then p.(asOf := v) else p.(candidate := p.candidate[field := Given(v.value)]))
  {
    NotDryRun(t, argv, n);
    FieldIsValued(t, HeadFlag(argv[n]).name, field);
    ProhibitedAreProhibited(t, argv, n);
    HoldsOneMoreValue(p.candidate, p.prohibited, LastValues(t, argv, n), t.asOf, field, v.value);
  }

  lemma FieldIsValued(t: Tables, flag: string, field: string)
    requires RoleOf(t, flag) == ValueRole(field)
    ensures field in t.valued.Values
  {
    assert flag in t.valued.Keys;
  }

  lemma {:induction false} ValuesAreValued(t: Tables, argv: seq<string>, n: nat)
    requires n <= |argv|
    ensures LastValues(t, argv, n).Keys <= t.valued.Values
  {
    if n > 0 {
      ValuesAreValued(t, argv, n - 1);
      if RoleAt(t, argv, n - 1).ValueRole? {
        FieldIsValued(t, HeadFlag(argv[n - 1]).name, RoleAt(t, argv, n - 1).field);
      }
    }
  }

  lemma {:induction false} ProhibitedAreProhibited(t: Tables, argv: seq<string>, n: nat)
    requires n <= |argv|
    ensures forall k | k in Prohibitions(t, argv, n) :: k in t.prohibited.Values || k in t.inherited.Values
  {
    if n > 0 {
      ProhibitedAreProhibited(t, argv, n - 1);
      if RoleAt(t, argv, n - 1).ProhibitedRole? {
        KeyIsProhibited(t, HeadFlag(argv[n - 1]).name, RoleAt(t, argv, n - 1).key);
      }
    }
  }

  /** The loop has read `n` tokens and `n` is again a flag position. */
  predicate Reads(t: Tables, argv: seq<string>, n: nat, p: ParsedArgs) {
    n <= |argv| && Clean(t, argv, n) && Says(t, argv, n, p) && (n < |argv| ==> !IsTaken(t, argv, n))
  }

  lemma CleanStep(t: Tables, argv: seq<string>, n: nat)
    requires n < |argv|
    ensures Clean(t, argv, n + 1) <==> Clean(t, argv, n) && ErrorAt(t, argv, n).None?
  {
  }

  /** A flag that takes the next token is followed by a flag position two further on. */
  lemma ReadsTwo(t: Tables, argv: seq<string>, n: nat, p: ParsedArgs)
    requires Consistent(t) && n + 1 < |argv| && Clean(t, argv, n + 1) && Says(t, argv, n + 1, p)
    requires !IsTaken(t, argv, n) && TakesNext(t, argv[n]) && !Dashed(argv[n + 1])
    ensures Reads(t, argv, n + 2, p)
  {
    assert IsTaken(t, argv, n + 1);
    TakenSaysNothing(t, argv, n + 1, p);
    CleanStep(t, argv, n + 1);
  }

  lemma ReadsOne(t: Tables, argv: seq<string>, n: nat, p: ParsedArgs)
    requires n < |argv| && Clean(t, argv, n) && ErrorAt(t, argv, n).None? && Says(t, argv, n + 1, p)
    requires TakesNext(t, argv[n]) && n + 1 < |argv| ==> Dashed(argv[n + 1])
    ensures Reads(t, argv, n + 1, p)
  {
  }

  /** The first thing wrong, and all the parser reports. */
  predicate Refused(t: Tables, argv: seq<string>, i: nat, e: UsageError) {
    i < |argv| && Clean(t, argv, i) && ErrorAt(t, argv, i) == Some(e)
  }

  /** What parsing with these tables comes to. */
  predicate Outcome(t: Tables, argv: seq<string>, r: Result<ParsedArgs, UsageError>) {
    match r
    case Ok(p) => Clean(t, argv, |argv|) && Says(t, argv, |argv|, p)
    case Err(e) => exists i | 0 <= i < |argv| :: Refused(t, argv, i, e)
  }

  /** How many tokens a prohibited flag spans: one, or two with a value after it. */
  method ReadProhibited(t: Tables, argv: seq<string>, index: nat, p: ParsedArgs, f: Flag)
    returns (q: ParsedArgs, next: nat)
    requires Consistent(t) && index < |argv| && Reads(t, argv, index, p)
    requires f == HeadFlag(argv[index]) && RoleOf(t, f.name).ProhibitedRole?
    ensures index < next && Reads(t, argv, next, q)
  {
    var key := ProhibitedKey(t, f.name).value;
    ProhibitedSays(t, argv, index, p, key);
    q := p.(prohibited := p.prohibited + [key], candidate := p.candidate[key := Asserted]);
    if f.attached.None? && index + 1 < |argv| && !Dashed(argv[index + 1]) {
      ReadsTwo(t, argv, index, q);
      next := index + 2;
    } else {
      ReadsOne(t, argv, index, q);
      next := index + 1;
    }
  }

  method ReadDryRun(t: Tables, argv: seq<string>, index: nat, p: ParsedArgs, f: Flag)
    returns (r: Result<ParsedArgs, UsageError>)
    requires Consistent(t) && index < |argv| && Reads(t, argv, index, p)
    requires f == HeadFlag(argv[index]) && RoleOf(t, f.name) == DryRunRole
    ensures r.Err? ==> Refused(t, argv, index, r.error)
    ensures r.Ok? ==> Reads(t, argv, index + 1, r.value)
  {
    if f.attached.Some? {
      return Err(TakesNoValue(f.name));
    }
    DryRunSays(t, argv, index, p);
    var q := p.(dryRun := true);
    ReadsOne(t, argv, index, q);
    r := Ok(q);
  }

  method ReadValue(t: Tables, argv: seq<string>, index: nat, p: ParsedArgs, f: Flag)
    returns (r: Result<ParsedArgs, UsageError>, next: nat)
    requires Consistent(t) && index < |argv| && Reads(t, argv, index, p)
    requires f == HeadFlag(argv[index]) && RoleOf(t, f.name).ValueRole?
    ensures r.Err? ==> Refused(t, argv, index, r.error)
    ensures r.Ok? ==> index < next && Reads(t, argv, next, r.value)
  {
    var v := ValueAt(argv, index);
    if v.None? || Dashed(v.value) {
      return Err(RequiresValue(f.name)), index;
    }
    var field := t.valued[f.name];
    ValuedSays(t, argv, index, p, field, v);
    var q := if field == t.asOf then p.(asOf := v) else p.(candidate := p.candidate[field := Given(v.value)]);
    if f.attached.None? {
      ReadsTwo(t, argv, index, q);
      next := index + 2;
    } else {
      ReadsOne(t, argv, index, q);
      next := index + 1;
    }
    r := Ok(q);
  }

  method ParseArgs(t: Tables, argv: seq<string>) returns (r: Result<ParsedArgs, UsageError>)
    requires Consistent(t)
    ensures r.Ok? <==> Clean(t, argv, |argv|)
    ensures Outcome(t, argv, r)
  {
    var p := ParsedArgs(map[], None, false, []);
    var index := 0;
    while index < |argv|
      invariant Reads(t, argv, index, p)
    {
      var f := HeadFlag(argv[index]);
      if f.name in t.help {
        assert Refused(t, argv, index, Help);
        return Err(Help);
      }
      if f.name == t.dryRun {
        var read := ReadDryRun(t, argv, index, p, f);
        if read.Err? {
          return read;
        }
        p, index := read.value, index + 1;
      } else if ProhibitedKey(t, f.name).Some? {
        p, index := ReadProhibited(t, argv, index, p, f);
      } else if f.name in t.valued {
        var read, next := ReadValue(t, argv, index, p, f);
        if read.Err? {
          return read;
        }
        p, index := read.value, next;
      } else {
        assert Refused(t, argv, index, Unknown(f.name));
        return Err(Unknown(f.name));
      }
    }
    r := Ok(p);
  }

  // --------------------------------------------------------------------- refusals

  predicate HasValue(argv: seq<string>, i: nat)
    requires i < |argv|
  {
    ValueAt(argv, i).Some? && !Dashed(ValueAt(argv, i).value)
  }

  /** What a line has at position `i` that is refused with `e`. */
  predicate Explains(t: Tables, argv: seq<string>, i: nat, e: UsageError)
    requires i < |argv|
  {
    var f := HeadFlag(argv[i]);
    match e
    case Help => f.name in t.help
    case TakesNoValue(flag) => flag == f.name == t.dryRun && f.attached.Some?
    case RequiresValue(flag) => flag == f.name && flag in t.valued && !HasValue(argv, i)
    case Unknown(flag) =>
      && flag == f.name && flag !in t.help && flag != t.dryRun
      && flag !in t.prohibited && flag !in t.inherited && flag !in t.valued
  }

  /** A refusal is for the first flag that is wrong, and says what is wrong with it. */
  lemma RefusalSaysWhy(t: Tables, argv: seq<string>, i: nat, e: UsageError)
    requires Refused(t, argv, i, e)
    ensures Clean(t, argv, i) && !IsTaken(t, argv, i) && Explains(t, argv, i, e)
  {
    assert RoleAt(t, argv, i) != TakenRole;
  }

  // ------------------------------------------------------- what an accepted line says

  lemma {:induction false} FlagsAreDashed(t: Tables, token: string)
    requires Consistent(t) && !Dashed(token)
    ensures HeadFlag(token) == Flag(token, None)
    ensures RoleOf(t, token).NoRole? || RoleOf(t, token).HelpRole? || token in t.inherited
  {
    assert token != t.dryRun && token !in t.prohibited && token !in t.valued;
  }

  /** Every token of an accepted line is a `--` flag, the one value of the flag just
      before it, or an inherited name read as a flag: no `--` flag is ever swallowed
      as another flag's value. */
  lemma NoFlagIsSwallowed(t: Tables, argv: seq<string>, i: nat)
    requires Consistent(t) && Clean(t, argv, |argv|) && i < |argv|
    ensures Dashed(argv[i]) ==> !IsTaken(t, argv, i)
    ensures !IsTaken(t, argv, i) ==> Dashed(argv[i]) || argv[i] in t.inherited
    ensures IsTaken(t, argv, i) ==>
      i > 0 && !IsTaken(t, argv, i - 1) && ValueAt(argv, i - 1) == Some(argv[i])
  {
    assert ErrorAt(t, argv, i).None?;
    if !Dashed(argv[i]) {
      FlagsAreDashed(t, argv[i]);
    }
  }

  /** The prohibited list holds exactly the keys of the prohibited flags on the line... */
  lemma {:induction false} ProhibitionsAreAll(t: Tables, argv: seq<string>, n: nat, key: string)
    requires n <= |argv|
    ensures key in Prohibitions(t, argv, n) <==> exists i | 0 <= i < n :: RoleAt(t, argv, i) == ProhibitedRole(key)
  {
    if n > 0 {
      ProhibitionsAreAll(t, argv, n - 1, key);
    }
  }

  /** ... in the order in which they occur: the key given at position `i` stands right
      after those given before `i`. */
  lemma {:induction false} ProhibitionsInOrder(t: Tables, argv: seq<string>, n: nat, i: nat, key: string)
    requires i < n <= |argv| && RoleAt(t, argv, i) == ProhibitedRole(key)
    ensures Prohibitions(t, argv, i) + [key] <= Prohibitions(t, argv, n)
  {
    if i < n - 1 {
      ProhibitionsInOrder(t, argv, n - 1, i, key);
    }
  }

  predicate Sets(t: Tables, argv: seq<string>, i: nat, field: string) {
    i < |argv| && RoleAt(t, argv, i) == ValueRole(field)
  }

  /** Of a repeated value flag, the last one counts. */
  lemma {:induction false} LastValueIsLast(t: Tables, argv: seq<string>, n: nat, field: string, i: nat)
    requires i < n <= |argv| && Sets(t, argv, i, field)
    requires forall j | i < j < n :: !Sets(t, argv, j, field)
    ensures field in LastValues(t, argv, n) && LastValues(t, argv, n)[field] == ValueAt(argv, i)
  {
    if i < n - 1 {
      assert !Sets(t, argv, n - 1, field);
      LastValueIsLast(t, argv, n - 1, field, i);
    }
  }

  /** A field no flag sets stays absent. */
  lemma {:induction false} OnlyGivenFields(t: Tables, argv: seq<string>, n: nat, field: string)
    requires n <= |argv| && forall j | 0 <= j < n :: !Sets(t, argv, j, field)
    ensures field !in LastValues(t, argv, n)
  {
    if n > 0 {
      assert !Sets(t, argv, n - 1, field);
      OnlyGivenFields(t, argv, n - 1, field);
    }
  }

  lemma {:induction false} TakenInFirst(t: Tables, a: seq<string>, b: seq<string>, i: nat)
    requires i < |a|
    ensures IsTaken(t, a + b, i) <==> IsTaken(t, a, i)
  {
    if i > 0 {
      TakenInFirst(t, a, b, i - 1);
    }
  }

  lemma {:induction false} TakenInSecond(t: Tables, a: seq<string>, b: seq<string>, i: nat)
    requires i < |b| && !IsTaken(t, a + b, |a|)
    ensures IsTaken(t, a + b, |a| + i) <==> IsTaken(t, b, i)
  {
    if i > 0 {
      TakenInSecond(t, a, b, i - 1);
    }
  }

  /** Accepted lines can be joined where the second does not begin with a token that the
      first would take; only a bare inherited name can. */
  lemma AcceptedLinesCompose(t: Tables, a: seq<string>, b: seq<string>)
    requires Consistent(t) && Clean(t, a, |a|) && Clean(t, b, |b|)
    ensures b == [] || Dashed(b[0]) || b[0] in t.inherited
    ensures b == [] || !IsTaken(t, a + b, |a|) ==> Clean(t, a + b, |a + b|)
  {
    var c := a + b;
    if b != [] {
      NoFlagIsSwallowed(t, b, 0);
    }
    if b == [] {
      assert c == a;
    } else if !IsTaken(t, c, |a|) {
      forall i | 0 <= i < |c| ensures ErrorAt(t, c, i).None? {
        if i < |a| {
          TakenInFirst(t, a, b, i);
          assert ErrorAt(t, a, i).None?;
        } else {
          TakenInSecond(t, a, b, i - |a|);
          assert ErrorAt(t, b, i - |a|).None?;
        }
      }
    }
  }

  // ------------------------------------------------- inherited names, as flags

  /** The tables read as the maps of their own keys. */
  function OwnKeys(t: Tables): Tables {
    t.(inherited := map[])
  }

  predicate IsInheritedFlag(t: Tables, argv: seq<string>, i: nat)
    requires i < |argv|
  {
    argv[i] in t.inherited && !IsTaken(t, argv, i)
  }

  /** The parser gets as far as a flag position that holds an inherited name. */
  predicate ReachesInherited(t: Tables, argv: seq<string>, i: nat) {
    i < |argv| && Clean(t, argv, i) && IsInheritedFlag(t, argv, i)
  }

  lemma HeadOfDashed(token: string)
    ensures Dashed(token) ==> Dashed(HeadFlag(token).name)
  {
    WrittenSplit(token);
    if Dashed(token) {
      var equals := IndexOf(token, '=');
      IndexOfIsFirst(token, '=');
    }
  }

  lemma SameRole(t: Tables, token: string)
    requires Consistent(t) && token !in t.inherited
    ensures RoleOf(OwnKeys(t), HeadFlag(token).name) == RoleOf(t, HeadFlag(token).name)
  {
    HeadOfDashed(token);
  }

  lemma {:induction false} SameRoleAt(t: Tables, argv: seq<string>, i: nat)
    requires Consistent(t) && i < |argv| && forall j | 0 <= j <= i :: !IsInheritedFlag(t, argv, j)
    ensures IsTaken(OwnKeys(t), argv, i) <==> IsTaken(t, argv, i)
    ensures RoleAt(OwnKeys(t), argv, i) == RoleAt(t, argv, i)
  {
    SameTaken(t, argv, i);
    if !IsTaken(t, argv, i) {
      assert !IsInheritedFlag(t, argv, i);
      SameRole(t, argv[i]);
    }
  }

  lemma {:induction false} SameTaken(t: Tables, argv: seq<string>, i: nat)
    requires Consistent(t) && i < |argv| && forall j | 0 <= j < i :: !IsInheritedFlag(t, argv, j)
    ensures IsTaken(OwnKeys(t), argv, i) <==> IsTaken(t, argv, i)
  {
    if i > 0 {
      SameTaken(t, argv, i - 1);
      if !IsTaken(t, argv, i - 1) {
        assert !IsInheritedFlag(t, argv, i - 1);
        SameRole(t, argv[i - 1]);
      }
    }
  }

  lemma SameNext(t: Tables, argv: seq<string>, i: nat)
    requires i < |argv| && RoleAt(OwnKeys(t), argv, i) == RoleAt(t, argv, i)
    requires Prohibitions(OwnKeys(t), argv, i) == Prohibitions(t, argv, i)
    requires LastValues(OwnKeys(t), argv, i) == LastValues(t, argv, i)
    ensures Prohibitions(OwnKeys(t), argv, i + 1) == Prohibitions(t, argv, i + 1)
    ensures LastValues(OwnKeys(t), argv, i + 1) == LastValues(t, argv, i + 1)
  {
  }

  /** Before the first inherited flag the two readings are the same. */
  lemma {:induction false} SameBefore(t: Tables, argv: seq<string>, n: nat)
    requires Consistent(t) && n <= |argv| && forall j | 0 <= j < n :: !IsInheritedFlag(t, argv, j)
    ensures Clean(OwnKeys(t), argv, n) <==> Clean(t, argv, n)
    ensures Prohibitions(OwnKeys(t), argv, n) == Prohibitions(t, argv, n)
    ensures LastValues(OwnKeys(t), argv, n) == LastValues(t, argv, n)
  {
    if n > 0 {
      var i := n - 1;
      SameBefore(t, argv, i);
      SameRoleAt(t, argv, i);
      SameNext(t, argv, i);
      SameErrorAt(t, argv, i);
      CleanStep(t, argv, i);
      CleanStep(OwnKeys(t), argv, i);
    }
  }

  lemma SameErrorAt(t: Tables, argv: seq<string>, i: nat)
    requires i < |argv| && RoleAt(OwnKeys(t), argv, i) == RoleAt(t, argv, i)
    ensures ErrorAt(OwnKeys(t), argv, i) == ErrorAt(t, argv, i)
  {
  }

  lemma {:induction false} FirstReached(t: Tables, argv: seq<string>, i: nat) returns (k: nat)
    requires ReachesInherited(t, argv, i)
    ensures ReachesInherited(t, argv, k) && forall j | 0 <= j < k :: !IsInheritedFlag(t, argv, j)
  {
    k := i;
    if j :| 0 <= j < i && IsInheritedFlag(t, argv, j) {
      k := FirstReached(t, argv, j);
    }
  }

  /** Where the loop first reaches an inherited name, own keys alone refuse it. */
  lemma OwnKeysRefuse(t: Tables, argv: seq<string>, k: nat)
    requires Consistent(t) && ReachesInherited(t, argv, k)
    requires forall j | 0 <= j < k :: !IsInheritedFlag(t, argv, j)
    ensures Refused(OwnKeys(t), argv, k, Unknown(argv[k]))
  {
    SameBefore(t, argv, k);
    SameTaken(t, argv, k);
    FlagsAreDashed(OwnKeys(t), argv[k]);
  }

  lemma OneRefusal(t: Tables, argv: seq<string>, i: nat, e: UsageError, j: nat, f: UsageError)
    requires Refused(t, argv, i, e) && Refused(t, argv, j, f)
    ensures i == j && e == f
  {
  }

  lemma InheritedIsNeverUnknown(t: Tables, argv: seq<string>, i: nat, name: string)
    requires Consistent(t) && i < |argv| && name in t.inherited
    ensures ErrorAt(t, argv, i) != Some(Unknown(name))
  {
  }

  lemma DiffersWhereReached(t: Tables, argv: seq<string>, r: Result<ParsedArgs, UsageError>, k: nat)
    requires Consistent(t) && Outcome(t, argv, r) && ReachesInherited(t, argv, k)
    ensures !Outcome(OwnKeys(t), argv, r)
  {
    var first := FirstReached(t, argv, k);
    OwnKeysRefuse(t, argv, first);
    if Outcome(OwnKeys(t), argv, r) && r.Err? {
      var i :| 0 <= i < |argv| && Refused(OwnKeys(t), argv, i, r.error);
      OneRefusal(OwnKeys(t), argv, i, r.error, first, Unknown(argv[first]));
      var j :| 0 <= j < |argv| && Refused(t, argv, j, r.error);
      InheritedIsNeverUnknown(t, argv, j, argv[first]);
    }
  }

  lemma NoneReached(t: Tables, argv: seq<string>, n: nat)
    requires n <= |argv| && Clean(t, argv, n) && forall i: nat :: !ReachesInherited(t, argv, i)
    ensures forall j | 0 <= j <= n && j < |argv| :: !IsInheritedFlag(t, argv, j)
  {
    forall j | 0 <= j <= n && j < |argv| ensures !IsInheritedFlag(t, argv, j) {
      assert !ReachesInherited(t, argv, j);
    }
  }

  lemma AgreesWhereNotReached(t: Tables, argv: seq<string>, r: Result<ParsedArgs, UsageError>)
    requires Consistent(t) && Outcome(t, argv, r) && forall i: nat :: !ReachesInherited(t, argv, i)
    ensures Outcome(OwnKeys(t), argv, r)
  {
    if r.Ok? {
      NoneReached(t, argv, |argv|);
      SameBefore(t, argv, |argv|);
    } else {
      var i :| 0 <= i < |argv| && Refused(t, argv, i, r.error);
      NoneReached(t, argv, i);
      SameRefusal(t, argv, i, r.error);
    }
  }

  lemma SameRefusal(t: Tables, argv: seq<string>, i: nat, e: UsageError)
    requires Consistent(t) && Refused(t, argv, i, e) && forall j | 0 <= j <= i :: !IsInheritedFlag(t, argv, j)
    ensures Refused(OwnKeys(t), argv, i, e)
  {
    SameBefore(t, argv, i);
    SameRoleAt(t, argv, i);
  }

  /** The documented reading, in which only the listed flags exist, is what the parser
      does exactly on the lines where it reaches no inherited name at a flag position. */
  lemma OwnKeysSufficeExactly(t: Tables, argv: seq<string>, r: Result<ParsedArgs, UsageError>)
    requires Consistent(t) && Outcome(t, argv, r)
    ensures Outcome(OwnKeys(t), argv, r) <==> forall i: nat :: !ReachesInherited(t, argv, i)
  {
    if i: nat :| ReachesInherited(t, argv, i) {
      DiffersWhereReached(t, argv, r, i);
    } else {
      AgreesWhereNotReached(t, argv, r);
    }
  }

  /** Of the accepted lines, those that should be are the ones without such a name. */
  lemma WronglyAcceptedExactly(t: Tables, argv: seq<string>)
    requires Consistent(t) && Clean(t, argv, |argv|)
    ensures Clean(OwnKeys(t), argv, |argv|) <==> forall i | 0 <= i < |argv| :: !IsInheritedFlag(t, argv, i)
  {
    if i :| 0 <= i < |argv| && IsInheritedFlag(t, argv, i) {
      var k := FirstReached(t, argv, i);
      OwnKeysRefuse(t, argv, k);
    } else {
      SameBefore(t, argv, |argv|);
    }
  }

  /** A bare inherited name is accepted as a prohibited flag and even takes a value;
      the listed flags alone would refuse it. */
  lemma InheritedNameIsAccepted(t: Tables, name: string, value: string)
    requires Consistent(t) && name in t.inherited && !Dashed(value)
    ensures var argv := [name, value];
      && Clean(t, argv, 2) && Prohibitions(t, argv, 2) == [t.inherited[name]] && IsTaken(t, argv, 1)
      && Refused(OwnKeys(t), argv, 0, Unknown(name))
  {
    var argv := [name, value];
    FlagsAreDashed(t, name);
    FlagsAreDashed(OwnKeys(t), name);
    assert RoleAt(t, argv, 0) == ProhibitedRole(t.inherited[name]);
    assert IsTaken(t, argv, 1);
    assert Prohibitions(t, argv, 1) == [] + [t.inherited[name]];
  }

  /** For instance `constructor`. */
  lemma ConstructorIsAccepted(value: string)
    requires !Dashed(value)
    ensures Clean(FX_TABLES, ["constructor", value], 2)
    ensures Refused(OwnKeys(FX_TABLES), ["constructor", value], 0, Unknown("constructor"))
  {
    FxTablesAreConsistent();
    InheritedNameIsAccepted(FX_TABLES, "constructor", value);
  }

  lemma PlainText(flag: string)
    requires Dashed(flag)
    requires forall i | 0 <= i < |flag| :: flag[i] != '='
    ensures IsPlainFlag(flag)
  {
    FreeByIndex(flag, '=');
  }

  lemma ProhibitedFlagsArePlain()
    ensures forall k | k in PROHIBITED_FLAGS.Keys :: IsPlainFlag(k)
  {
    forall k | k in PROHIBITED_FLAGS.Keys ensures IsPlainFlag(k) {
      PlainText(k);
    }
  }

  lemma ValueFlagsArePlain()
    ensures forall k | k in VALUE_FLAGS.Keys :: IsPlainFlag(k)
  {
    forall k | k in VALUE_FLAGS.Keys ensures IsPlainFlag(k) {
      PlainText(k);
    }
  }

  lemma CandidateKeysAreDisjoint()
    ensures PROHIBITED_FLAGS.Values !! VALUE_FLAGS.Values
  {
  }

  lemma InheritedNamesAreBare()
    ensures forall k | k in INHERITED.Keys :: !Dashed(k) && k != "-h"
  {
  }

  /** What tells the text of an inherited value from a field of the candidate. */
  predicate LooksInherited(key: string) {
    |key| > 20 || (key != "" && key[0] == '[')
  }

  lemma NativeTextLooksInherited(name: string)
    ensures LooksInherited(NativeText(name))
  {
  }

  lemma InheritedValuesLookInherited(k: string)
    requires k in INHERITED
    ensures LooksInherited(INHERITED[k])
  {
    if k == "constructor" {
      NativeTextLooksInherited("Object");
    } else if k != "__proto__" {
      NativeTextLooksInherited(k);
    }
  }

  lemma FieldsDoNotLookInherited()
    ensures forall field | field in VALUE_FLAGS.Values :: !LooksInherited(field)
  {
  }

  lemma InheritedKeysAreDisjoint()
    ensures INHERITED.Values !! VALUE_FLAGS.Values
  {
    FieldsDoNotLookInherited();
    forall key | key in INHERITED.Values ensures LooksInherited(key) {
      var k :| k in INHERITED && INHERITED[k] == key;
      InheritedValuesLookInherited(k);
    }
  }

  /** The tool's own tables are consistent. */
  lemma FxTablesAreConsistent()
    ensures Consistent(FX_TABLES)
  {
    PlainText("--dry-run");
    ProhibitedFlagsArePlain();
    ValueFlagsArePlain();
    CandidateKeysAreDisjoint();
    InheritedNamesAreBare();
    InheritedKeysAreDisjoint();
  }

  // ------------------------------------------------------------ lines of a single flag

  const NO_ARGS := ParsedArgs(map[], None, false, [])

  /** A flag with its value, in one token or in two. */
  predicate IsPair(argv: seq<string>, flag: string, value: string) {
    argv == [flag, value] || argv == [Written(Flag(flag, Some(value)))]
  }

  lemma PairIsTaken(t: Tables, argv: seq<string>, flag: string, value: string)
    requires IsPlainFlag(flag) && !Dashed(value) && IsPair(argv, flag, value)
    requires RoleOf(t, flag).ValueRole? || RoleOf(t, flag).ProhibitedRole?
    ensures RoleAt(t, argv, 0) == RoleOf(t, flag) && ValueAt(argv, 0) == Some(value)
    ensures |argv| == 2 ==> IsTaken(t, argv, 1)
  {
    SplitWritten(Flag(flag, Some(value)));
    IndexOfIsFirst(flag, '=');
  }

  lemma PairIsClean(t: Tables, argv: seq<string>, flag: string, value: string)
    requires IsPlainFlag(flag) && !Dashed(value) && IsPair(argv, flag, value)
    requires RoleOf(t, flag).ValueRole? || RoleOf(t, flag).ProhibitedRole?
    ensures Clean(t, argv, |argv|)
  {
    PairIsTaken(t, argv, flag, value);
    assert ErrorAt(t, argv, 0).None?;
    if |argv| == 2 {
      assert ErrorAt(t, argv, 1).None?;
    }
  }

  lemma NothingSaid(t: Tables, argv: seq<string>)
    ensures Says(t, argv, 0, NO_ARGS)
  {
  }

  lemma SaysOnce(t: Tables, argv: seq<string>, p: ParsedArgs, q: ParsedArgs)
    requires Says(t, argv, |argv|, p) && Says(t, argv, |argv|, q)
    ensures p == q
  {
    HoldsOnce(p.candidate, q.candidate, p.prohibited, LastValues(t, argv, |argv|), t.asOf);
  }

  lemma HoldsOnce(
    c: map<string, Setting>, d: map<string, Setting>, prohibited: seq<string>, values: map<string, Option<string>>,
    asOf: string)
    requires Holds(c, prohibited, values, asOf) && Holds(d, prohibited, values, asOf)
    ensures c == d
  {
    forall k ensures k in c <==> k in d {
    }
    forall k | k in c ensures c[k] == d[k] {
    }
  }

  lemma PairSays(t: Tables, argv: seq<string>, flag: string, value: string, p: ParsedArgs)
    requires IsPlainFlag(flag) && !Dashed(value) && IsPair(argv, flag, value) && Consistent(t)
    requires RoleOf(t, flag).ValueRole? || RoleOf(t, flag).ProhibitedRole?
    requires Says(t, argv, 1, p)
    ensures Says(t, argv, |argv|, p)
  {
    PairIsTaken(t, argv, flag, value);
    if |argv| == 2 {
      TakenSaysNothing(t, argv, 1, p);
    }
  }

  /** A value flag given alone fills its field, or the reference time, and nothing else. */
  lemma FieldIsFilled(
    t: Tables, argv: seq<string>, flag: string, field: string, value: string, r: Result<ParsedArgs, UsageError>)
    requires Consistent(t) && IsPlainFlag(flag) && RoleOf(t, flag) == ValueRole(field)
    requires !Dashed(value) && IsPair(argv, flag, value) && Outcome(t, argv, r)
    ensures r == Ok(if field == t.asOf then NO_ARGS.(asOf := Some(value))
                    else NO_ARGS.(candidate := map[field := Given(value)]))
  {
    var p := if field == t.asOf then NO_ARGS.(asOf := Some(value))
             else NO_ARGS.(candidate := map[field := Given(value)]);
    PairIsClean(t, argv, flag, value);
    PairIsTaken(t, argv, flag, value);
    NothingSaid(t, argv);
    ValuedSays(t, argv, 0, NO_ARGS, field, Some(value));
    PairSays(t, argv, flag, value, p);
    if r.Ok? {
      SaysOnce(t, argv, r.value, p);
    }
  }

  /** A prohibited flag given alone is recorded under its key, and asserted whatever its value. */
  lemma ProhibitionIsKept(
    t: Tables, argv: seq<string>, flag: string, key: string, value: string, r: Result<ParsedArgs, UsageError>)
    requires Consistent(t) && IsPlainFlag(flag) && RoleOf(t, flag) == ProhibitedRole(key)
    requires !Dashed(value) && IsPair(argv, flag, value) && Outcome(t, argv, r)
    ensures r == Ok(NO_ARGS.(prohibited := [key], candidate := map[key := Asserted]))
  {
    var p := NO_ARGS.(prohibited := [key], candidate := map[key := Asserted]);
    PairIsClean(t, argv, flag, value);
    PairIsTaken(t, argv, flag, value);
    NothingSaid(t, argv);
    ProhibitedSays(t, argv, 0, NO_ARGS, key);
    assert NO_ARGS.prohibited + [key] == [key];
    PairSays(t, argv, flag, value, p);
    if r.Ok? {
      SaysOnce(t, argv, r.value, p);
    }
  }

  // ------------------------------------------------------------- the tool's own flags

  lemma FlagsAreDisjoint()
    ensures PROHIBITED_FLAGS.Keys !! VALUE_FLAGS.Keys
  {
  }

  lemma NoProhibitedSwitch()
    ensures FX_TABLES.dryRun !in PROHIBITED_FLAGS && FX_TABLES.help !! PROHIBITED_FLAGS.Keys
  {
  }

  lemma NoValueSwitch()
    ensures FX_TABLES.dryRun !in VALUE_FLAGS && FX_TABLES.help !! VALUE_FLAGS.Keys
  {
  }

  lemma ValueFlagRole(flag: string)
    requires flag in VALUE_FLAGS
    ensures IsPlainFlag(flag) && RoleOf(FX_TABLES, flag) == ValueRole(VALUE_FLAGS[flag])
  {
    ValueFlagsArePlain();
    InheritedNamesAreBare();
    FlagsAreDisjoint();
    NoValueSwitch();
    assert flag in VALUE_FLAGS.Keys && flag !in PROHIBITED_FLAGS.Keys;
  }

  lemma ProhibitedFlagRole(flag: string)
    requires flag in PROHIBITED_FLAGS
    ensures IsPlainFlag(flag) && RoleOf(FX_TABLES, flag) == ProhibitedRole(PROHIBITED_FLAGS[flag])
  {
    ProhibitedFlagsArePlain();
    NoProhibitedSwitch();
    assert flag in PROHIBITED_FLAGS.Keys;
  }

  predicate IsField(flag: string, field: string) {
    flag in VALUE_FLAGS && VALUE_FLAGS[flag] == field && field != FX_TABLES.asOf
  }

  predicate IsProhibition(flag: string, key: string) {
    flag in PROHIBITED_FLAGS && PROHIBITED_FLAGS[flag] == key
  }

  lemma Fields()
    ensures IsField("--rate", "rate")
    ensures IsField("--source", "source")
    ensures IsField("--fx-source", "fxSource")
    ensures IsField("--source-reference", "sourceReference")
    ensures IsField("--base-currency", "baseCurrency")
    ensures IsField("--quote-currency", "quoteCurrency")
    ensures IsField("--captured-at", "capturedAt")
    ensures IsField("--effective-from", "effectiveFrom")
    ensures IsField("--by", "operator")
    ensures IsField("--reason", "reason")
    ensures "--as-of" in VALUE_FLAGS && VALUE_FLAGS["--as-of"] == FX_TABLES.asOf
  {
  }

  lemma ProhibitionKeys()
    ensures IsProhibition("--publish", "publish")
    ensures IsProhibition("--publish-rate", "publishRate")
    ensures IsProhibition("--approve", "approve")
    ensures IsProhibition("--approved", "approved")
    ensures IsProhibition("--approval", "approval")
    ensures IsProhibition("--apply", "apply")
    ensures IsProhibition("--confirm", "confirm")
    ensures IsProhibition("--confirmed", "confirmed")
    ensures IsProhibition("--write", "write")
    ensures IsProhibition("--register", "register")
    ensures IsProhibition("--live", "live")
  {
  }

  /** A line of one value flag fills its field and nothing else. */
  predicate FillsField(
    argv: seq<string>, value: string, r: Result<ParsedArgs, UsageError>, flag: string, field: string)
  {
    IsPair(argv, flag, value) ==> r == Ok(NO_ARGS.(candidate := map[field := Given(value)]))
  }

  /** A line of one prohibited flag records its key, asserted whatever the value, and nothing else. */
  predicate Prohibits(argv: seq<string>, value: string, r: Result<ParsedArgs, UsageError>, flag: string, key: string) {
    IsPair(argv, flag, value) ==> r == Ok(NO_ARGS.(prohibited := [key], candidate := map[key := Asserted]))
  }

  lemma FieldFills(argv: seq<string>, value: string, r: Result<ParsedArgs, UsageError>, flag: string, field: string)
    requires !Dashed(value) && Outcome(FX_TABLES, argv, r) && IsField(flag, field)
    ensures FillsField(argv, value, r, flag, field)
  {
    FxTablesAreConsistent();
    ValueFlagRole(flag);
    if IsPair(argv, flag, value) {
      FieldIsFilled(FX_TABLES, argv, flag, field, value, r);
    }
  }

  lemma AsOfFills(argv: seq<string>, value: string, r: Result<ParsedArgs, UsageError>, flag: string)
    requires !Dashed(value) && Outcome(FX_TABLES, argv, r) && IsPair(argv, flag, value)
    requires flag in VALUE_FLAGS && VALUE_FLAGS[flag] == FX_TABLES.asOf
    ensures r == Ok(NO_ARGS.(asOf := Some(value)))
  {
    FxTablesAreConsistent();
    ValueFlagRole(flag);
    FieldIsFilled(FX_TABLES, argv, flag, FX_TABLES.asOf, value, r);
  }

  lemma KeyProhibits(argv: seq<string>, value: string, r: Result<ParsedArgs, UsageError>, flag: string, key: string)
    requires !Dashed(value) && Outcome(FX_TABLES, argv, r) && IsProhibition(flag, key)
    ensures Prohibits(argv, value, r, flag, key)
  {
    FxTablesAreConsistent();
    ProhibitedFlagRole(flag);
    if IsPair(argv, flag, value) {
      ProhibitionIsKept(FX_TABLES, argv, flag, key, value, r);
    }
  }

  /** Each value flag of the tool's usage text, given alone, fills the field it is for. */
  lemma UsageLinesFill(argv: seq<string>, value: string, r: Result<ParsedArgs, UsageError>)
    requires !Dashed(value) && Outcome(FX_TABLES, argv, r)
    ensures FillsField(argv, value, r, "--rate", "rate")
    ensures FillsField(argv, value, r, "--source", "source")
    ensures FillsField(argv, value, r, "--fx-source", "fxSource")
    ensures FillsField(argv, value, r, "--source-reference", "sourceReference")
    ensures FillsField(argv, value, r, "--base-currency", "baseCurrency")
    ensures FillsField(argv, value, r, "--quote-currency", "quoteCurrency")
    ensures FillsField(argv, value, r, "--captured-at", "capturedAt")
    ensures FillsField(argv, value, r, "--effective-from", "effectiveFrom")
    ensures FillsField(argv, value, r, "--by", "operator")
    ensures FillsField(argv, value, r, "--reason", "reason")
    ensures IsPair(argv, "--as-of", value) ==> r == Ok(NO_ARGS.(asOf := Some(value)))
  {
    Fields();
    forall flag, field | IsField(flag, field) ensures FillsField(argv, value, r, flag, field) {
      FieldFills(argv, value, r, flag, field);
    }
    if IsPair(argv, "--as-of", value) {
      AsOfFills(argv, value, r, "--as-of");
    }
  }

  /** Each prohibited flag is recorded under its own key. */
  lemma UsageLinesProhibit(argv: seq<string>, value: string, r: Result<ParsedArgs, UsageError>)
    requires !Dashed(value) && Outcome(FX_TABLES, argv, r)
    ensures Prohibits(argv, value, r, "--publish", "publish")
    ensures Prohibits(argv, value, r, "--publish-rate", "publishRate")
    ensures Prohibits(argv, value, r, "--approve", "approve")
    ensures Prohibits(argv, value, r, "--approved", "approved")
    ensures Prohibits(argv, value, r, "--approval", "approval")
    ensures Prohibits(argv, value, r, "--apply", "apply")
    ensures Prohibits(argv, value, r, "--confirm", "confirm")
    ensures Prohibits(argv, value, r, "--confirmed", "confirmed")
    ensures Prohibits(argv, value, r, "--write", "write")
    ensures Prohibits(argv, value, r, "--register", "register")
    ensures Prohibits(argv, value, r, "--live", "live")
  {
    ProhibitionKeys();
    forall flag, key | IsProhibition(flag, key) ensures Prohibits(argv, value, r, flag, key) {
      KeyProhibits(argv, value, r, flag, key);
    }
  }

  /** The tool's parser: the same loop over its own tables, and exactly when it keeps
      to the listed flags. */
  method ParseFxArgs(argv: seq<string>) returns (r: Result<ParsedArgs, UsageError>)
    ensures r.Ok? <==> Clean(FX_TABLES, argv, |argv|)
    ensures Outcome(FX_TABLES, argv, r)
    ensures Outcome(OwnKeys(FX_TABLES), argv, r) <==> forall i: nat :: !ReachesInherited(FX_TABLES, argv, i)
  {
    FxTablesAreConsistent();
    r := ParseArgs(FX_TABLES, argv);
    OwnKeysSufficeExactly(FX_TABLES, argv, r);
  }
}
