/** The argument parser of scripts/billing/provision-sandbox.ts. */
module SandboxArgs {
  import opened Results
  import opened Text
  import opened Flags

  datatype Args = Args(
    fxRateVersion: Option<string>, operator: Option<string>, reason: Option<string>, evidence: Option<string>,
    apply: bool, dryRunExplicit: bool)

  datatype UsageError =
    | Help
    | TakesNoValue(flag: string)
    | MutuallyExclusive
    | RequiresValue(flag: string)
    | SuppliedTwice(flag: string)
    | Unknown(flag: string)

  /** The words the tool knows. */
  datatype Names = Names(
    help: set<string>, apply: string, dryRun: string,
    fxRateVersion: string, operator: string, reason: string, evidence: string)

  const SANDBOX_NAMES := Names(
    {"--help", "-h"}, "--apply", "--dry-run", "--fx-rate-version", "--by", "--reason", "--evidence")

  predicate IsPlainFlag(names: Names, flag: string) {
    Dashed(flag) && Free(flag, '=') && flag !in names.help
  }

  predicate IsValueFlag(names: Names, flag: string) {
    flag == names.fxRateVersion || flag == names.operator || flag == names.reason || flag == names.evidence
  }

  predicate Consistent(names: Names) {
    && (forall word | word in names.help :: Free(word, '='))
    && IsPlainFlag(names, names.apply) && IsPlainFlag(names, names.dryRun)
    && IsPlainFlag(names, names.fxRateVersion) && IsPlainFlag(names, names.operator)
    && IsPlainFlag(names, names.reason) && IsPlainFlag(names, names.evidence)
    && names.apply != names.dryRun
    && !IsValueFlag(names, names.apply) && !IsValueFlag(names, names.dryRun)
    && names.fxRateVersion != names.operator && names.fxRateVersion != names.reason
    && names.fxRateVersion != names.evidence && names.operator != names.reason
    && names.operator != names.evidence && names.reason != names.evidence
  }

  /** The field a value flag fills. */
  function Field(names: Names, args: Args, flag: string): Option<string> {
    if flag == names.fxRateVersion then args.fxRateVersion
    else if flag == names.operator then args.operator
    else if flag == names.reason then args.reason
    else if flag == names.evidence then args.evidence
    else None
  }

  function Assign(names: Names, args: Args, flag: string, value: string): Args {
    if flag == names.fxRateVersion then args.(fxRateVersion := Some(value))
    else if flag == names.operator then args.(operator := Some(value))
    else if flag == names.reason then args.(reason := Some(value))
    else if flag == names.evidence then args.(evidence := Some(value))
    else args
  }

  // ------------------------------------------------------- what each position says

  predicate TakesNext(names: Names, token: string) {
    HeadFlag(token).attached.None? && IsValueFlag(names, HeadFlag(token).name)
  }

  predicate IsTaken(names: Names, argv: seq<string>, i: nat)
    requires i < |argv|
  {
    i > 0 && !Dashed(argv[i]) && TakesNext(names, argv[i - 1])
  }

  /** The values given by the first `n` tokens, by flag. */
  function Given(names: Names, argv: seq<string>, n: nat): map<string, Option<string>>
    requires n <= |argv|
  {
    if n == 0 then map[]
    else
      var earlier := Given(names, argv, n - 1);
      var flag := HeadFlag(argv[n - 1]).name;
      if IsValueFlag(names, flag) then earlier[flag := ValueAt(argv, n - 1)] else earlier
  }

  predicate IsSwitch(names: Names, flag: string) {
    flag == names.apply || flag == names.dryRun
  }

  function Opposite(names: Names, switch: string): string {
    if switch == names.apply then names.dryRun else names.apply
  }

  function SwitchError(names: Names, f: Flag, before: seq<string>): Option<UsageError> {
    if f.attached.Some? then Some(TakesNoValue(f.name))
    else if Opposite(names, f.name) in before then Some(MutuallyExclusive)
    else None
  }

  function ValueError(
    names: Names, flag: string, value: Option<string>, given: map<string, Option<string>>): Option<UsageError>
  {
    if value.None? || Dashed(value.value) then Some(RequiresValue(flag))
    else if !IsValueFlag(names, flag) then Some(Unknown(flag))
    else if flag in given then Some(SuppliedTwice(flag))
    else None
  }

  /** What is wrong at position `i` of a command line. */
  function ErrorAt(names: Names, argv: seq<string>, i: nat): Option<UsageError>
    requires i < |argv|
  {
    var f := HeadFlag(argv[i]);
    if IsTaken(names, argv, i) then None
    else if argv[i] in names.help then Some(Help)
    else if IsSwitch(names, f.name) then SwitchError(names, f, argv[..i])
    else ValueError(names, f.name, ValueAt(argv, i), Given(names, argv, i))
  }

  predicate Clean(names: Names, argv: seq<string>, n: nat)
    requires n <= |argv|
  {
    forall i | 0 <= i < n :: ErrorAt(names, argv, i).None?
  }

  predicate Fills(names: Names, args: Args, given: map<string, Option<string>>) {
    && args.fxRateVersion == Lookup(given, names.fxRateVersion)
    && args.operator == Lookup(given, names.operator)
    && args.reason == Lookup(given, names.reason)
    && args.evidence == Lookup(given, names.evidence)
  }

  /** `args` is what the first `n` tokens say. */
  predicate Says(names: Names, argv: seq<string>, n: nat, args: Args)
    requires n <= |argv|
  {
    && (args.apply <==> names.apply in argv[..n])
    && (args.dryRunExplicit <==> names.dryRun in argv[..n])
    && Fills(names, args, Given(names, argv, n))
  }

  // ------------------------------------------------------------------- the parser

  /** The loop has read `n` tokens and `n` is again a flag position. */
  predicate Reads(names: Names, argv: seq<string>, n: nat, args: Args) {
    && n <= |argv| && Clean(names, argv, n) && Says(names, argv, n, args)
    && (n < |argv| ==> !IsTaken(names, argv, n))
  }

  predicate Refused(names: Names, argv: seq<string>, i: nat, e: UsageError) {
    i < |argv| && Clean(names, argv, i) && ErrorAt(names, argv, i) == Some(e)
  }

  /** A token is one of our bare flags only if its flag is. */
  lemma BareFlag(flag: string, token: string)
    requires Dashed(flag) && Free(flag, '=')
    ensures token == flag <==> HeadFlag(token) == Flag(flag, None)
  {
    IndexOfIsFirst(flag, '=');
    WrittenSplit(token);
  }

  lemma OneMore(names: Names, argv: seq<string>, n: nat)
    requires n < |argv|
    ensures forall x :: x in argv[..n + 1] <==> x in argv[..n] || x == argv[n]
  {
    assert argv[..n + 1] == argv[..n] + [argv[n]];
  }

  lemma SwitchReads(names: Names, argv: seq<string>, n: nat, args: Args)
    requires Consistent(names) && n < |argv| && Reads(names, argv, n, args)
    requires argv[n] !in names.help && IsSwitch(names, HeadFlag(argv[n]).name)
    requires SwitchError(names, HeadFlag(argv[n]), argv[..n]).None?
    ensures Reads(names, argv, n + 1,
                  if argv[n] == names.apply then args.(apply := true) else args.(dryRunExplicit := true))
  {
    OneMore(names, argv, n);
    BareFlag(names.apply, argv[n]);
    BareFlag(names.dryRun, argv[n]);
  }

  lemma ValueSays(names: Names, argv: seq<string>, n: nat, args: Args, flag: string, value: string)
    requires Consistent(names) && n < |argv| && Says(names, argv, n, args)
    requires IsValueFlag(names, flag) && HeadFlag(argv[n]).name == flag && ValueAt(argv, n) == Some(value)
    ensures Says(names, argv, n + 1, Assign(names, args, flag, value))
  {
    OneMore(names, argv, n);
    BareFlag(names.apply, argv[n]);
    BareFlag(names.dryRun, argv[n]);
  }

  /** The value of the flag before it says nothing itself. */
  lemma TakenSays(names: Names, argv: seq<string>, n: nat, args: Args)
    requires Consistent(names) && n < |argv| && Says(names, argv, n, args) && !Dashed(argv[n])
    ensures Says(names, argv, n + 1, args)
  {
    OneMore(names, argv, n);
    assert HeadFlag(argv[n]) == Flag(argv[n], None);
  }

  lemma ReadsTwo(names: Names, argv: seq<string>, n: nat, args: Args)
    requires Consistent(names) && n + 1 < |argv| && Clean(names, argv, n + 1) && Says(names, argv, n + 1, args)
    requires TakesNext(names, argv[n]) && !Dashed(argv[n + 1])
    ensures Reads(names, argv, n + 2, args)
  {
    TakenSays(names, argv, n + 1, args);
    assert HeadFlag(argv[n + 1]) == Flag(argv[n + 1], None);
  }

  lemma ReadsOne(names: Names, argv: seq<string>, n: nat, args: Args)
    requires n < |argv| && Clean(names, argv, n + 1) && Says(names, argv, n + 1, args)
    requires !TakesNext(names, argv[n])
    ensures Reads(names, argv, n + 1, args)
  {
  }

  lemma FieldIsGiven(names: Names, argv: seq<string>, n: nat, args: Args, flag: string)
    requires Consistent(names) && n <= |argv| && Clean(names, argv, n) && Says(names, argv, n, args)
    requires IsValueFlag(names, flag)
    ensures Field(names, args, flag).Some? <==> flag in Given(names, argv, n)
  {
    GivenHasValues(names, argv, n);
  }

  lemma {:induction false} GivenHasValues(names: Names, argv: seq<string>, n: nat)
    requires Consistent(names) && n <= |argv| && Clean(names, argv, n)
    ensures forall flag | flag in Given(names, argv, n) ::
      IsValueFlag(names, flag) && Given(names, argv, n)[flag].Some?
  {
    if n > 0 {
      GivenHasValues(names, argv, n - 1);
      assert ErrorAt(names, argv, n - 1).None?;
      assert !Dashed(argv[n - 1]) ==> HeadFlag(argv[n - 1]) == Flag(argv[n - 1], None);
    }
  }

  method ReadSwitch(names: Names, argv: seq<string>, index: nat, args: Args, f: Flag)
    returns (r: Result<Args, UsageError>)
    requires Consistent(names) && index < |argv| && Reads(names, argv, index, args)
    requires f == HeadFlag(argv[index]) && IsSwitch(names, f.name) && argv[index] !in names.help
    ensures r.Err? ==> Refused(names, argv, index, r.error)
    ensures r.Ok? ==> Reads(names, argv, index + 1, r.value)
  {
    if f.attached.Some? {
      return Err(TakesNoValue(f.name));
    }
    BareFlag(names.apply, argv[index]);
    BareFlag(names.dryRun, argv[index]);
    if f.name == names.apply {
      if args.dryRunExplicit {
        return Err(MutuallyExclusive);
      }
      SwitchReads(names, argv, index, args);
      r := Ok(args.(apply := true));
    } else {
      if args.apply {
        return Err(MutuallyExclusive);
      }
      SwitchReads(names, argv, index, args);
      r := Ok(args.(dryRunExplicit := true));
    }
  }

  method ReadValue(names: Names, argv: seq<string>, index: nat, args: Args, f: Flag)
    returns (r: Result<Args, UsageError>, next: nat)
    requires Consistent(names) && index < |argv| && Reads(names, argv, index, args)
    requires f == HeadFlag(argv[index]) && !IsSwitch(names, f.name) && argv[index] !in names.help
    ensures r.Err? ==> Refused(names, argv, index, r.error)
    ensures r.Ok? ==> index < next && Reads(names, argv, next, r.value)
  {
    var value := ValueAt(argv, index);
    next := index;
    if value.None? || Dashed(value.value) {
      return Err(RequiresValue(f.name)), next;
    }
    if !IsValueFlag(names, f.name) {
      return Err(Unknown(f.name)), next;
    }
    FieldIsGiven(names, argv, index, args, f.name);
    if Field(names, args, f.name).Some? {
      return Err(SuppliedTwice(f.name)), next;
    }
    ValueSays(names, argv, index, args, f.name, value.value);
    var filled := Assign(names, args, f.name, value.value);
    if f.attached.None? {
      ReadsTwo(names, argv, index, filled);
      next := index + 2;
    } else {
      ReadsOne(names, argv, index, filled);
      next := index + 1;
    }
    r := Ok(filled);
  }

  method ParseArgs(names: Names, argv: seq<string>) returns (r: Result<Args, UsageError>)
    requires Consistent(names)
    ensures r.Ok? <==> Clean(names, argv, |argv|)
    ensures r.Ok? ==> Says(names, argv, |argv|, r.value)
    ensures r.Err? ==> exists i :: Refused(names, argv, i, r.error)
  {
    var args := Args(None, None, None, None, false, false);
    var index := 0;
    while index < |argv|
      invariant Reads(names, argv, index, args)
    {
      var token := argv[index];
      if token in names.help {
        assert Refused(names, argv, index, Help);
        return Err(Help);
      }
      var f := HeadFlag(token);
      var read: Result<Args, UsageError>;
      var next: nat;
      if IsSwitch(names, f.name) {
        read := ReadSwitch(names, argv, index, args, f);
        next := index + 1;
      } else {
        read, next := ReadValue(names, argv, index, args, f);
      }
      if read.Err? {
        return read;
      }
      args, index := read.value, next;
    }
    r := Ok(args);
  }

  // ---------------------------------------------------------- writing a command line

  /** What an operator asks for, one item at a time; `attached` chooses `--k=v` over `--k v`. */
  datatype Item = Apply | DryRun | Setting(flag: string, value: string, attached: bool)

  function Tokens(names: Names, item: Item): (tokens: seq<string>)
    ensures tokens != []
  {
    match item
    case Apply => [names.apply]
    case DryRun => [names.dryRun]
    case Setting(flag, value, attached) =>
      if attached then [Written(Flag(flag, Some(value)))] else [flag, value]
  }

  function Line(names: Names, items: seq<Item>): seq<string> {
    if items == [] then []
    else Line(names, items[..|items| - 1]) + Tokens(names, items[|items| - 1])
  }

  predicate SameFlag(a: Item, b: Item) {
    a.Setting? && b.Setting? && a.flag == b.flag
  }

  /** Every value flag is one of ours with a value that is no flag, none is repeated,
      and `--apply` and `--dry-run` do not both occur. */
  predicate WellFormed(names: Names, items: seq<Item>) {
    && (forall i | 0 <= i < |items| && items[i].Setting? ::
          IsValueFlag(names, items[i].flag) && !Dashed(items[i].value))
    && (forall i, j | 0 <= i < j < |items| :: !SameFlag(items[i], items[j]))
    && !(Apply in items && DryRun in items)
  }

  predicate Sets(items: seq<Item>, flag: string, value: string) {
    Setting(flag, value, true) in items || Setting(flag, value, false) in items
  }

  /** `args` holds exactly what the items ask for. */
  ghost predicate Means(names: Names, items: seq<Item>, args: Args) {
    && (args.apply <==> Apply in items)
    && (args.dryRunExplicit <==> DryRun in items)
    && forall flag, value | IsValueFlag(names, flag) ::
         Field(names, args, flag) == Some(value) <==> Sets(items, flag, value)
  }

  // ------------------------------------------------------------ one item at a time

  lemma CleanStep(names: Names, argv: seq<string>, n: nat)
    requires n < |argv|
    ensures Clean(names, argv, n + 1) <==> Clean(names, argv, n) && ErrorAt(names, argv, n).None?
  {
  }

  /** Cutting a line in front of a flag changes neither what its first part says ... */
  lemma {:induction false} SameGiven(names: Names, a: seq<string>, b: seq<string>, n: nat)
    requires Consistent(names) && n <= |a| && (b != [] ==> Dashed(b[0]))
    requires Clean(names, a, n) || Clean(names, a + b, n)
    ensures Given(names, a + b, n) == Given(names, a, n)
    ensures Clean(names, a, n) && Clean(names, a + b, n)
  {
    if n > 0 {
      var i, c := n - 1, a + b;
      CleanStep(names, a, i);
      CleanStep(names, c, i);
      SameGiven(names, a, b, i);
      SameError(names, a, b, i);
      GivenAlike(names, a, b, i);
    }
  }

  lemma GivenAlike(names: Names, a: seq<string>, b: seq<string>, i: nat)
    requires Consistent(names) && i < |a| && (b != [] ==> Dashed(b[0]))
    requires ErrorAt(names, a, i).None? && Given(names, a + b, i) == Given(names, a, i)
    ensures Given(names, a + b, i + 1) == Given(names, a, i + 1)
  {
    if IsValueFlag(names, HeadFlag(a[i]).name) {
      SameValue(names, a, b, i);
    }
    assert (a + b)[i] == a[i];
  }

  /** ... nor whether it is accepted. */
  lemma SameError(names: Names, a: seq<string>, b: seq<string>, i: nat)
    requires i < |a| && (b != [] ==> Dashed(b[0]))
    requires Given(names, a + b, i) == Given(names, a, i)
    ensures ErrorAt(names, a + b, i).None? <==> ErrorAt(names, a, i).None?
  {
    var c := a + b;
    assert c[..i] == a[..i];
    assert IsTaken(names, c, i) <==> IsTaken(names, a, i);
    NoValueBehind(names, HeadFlag(a[i]).name, ValueAt(a, i), ValueAt(c, i), Given(names, a, i));
  }

  lemma NoValueBehind(
    names: Names, flag: string, v: Option<string>, w: Option<string>, given: map<string, Option<string>>)
    requires v == w || (v.None? && Dashed(w.value))
    ensures ValueError(names, flag, v, given).None? <==> ValueError(names, flag, w, given).None?
  {
  }

  lemma SameValue(names: Names, a: seq<string>, b: seq<string>, i: nat)
    requires Consistent(names) && i < |a| && (b != [] ==> Dashed(b[0]))
    requires ErrorAt(names, a, i).None? && IsValueFlag(names, HeadFlag(a[i]).name)
    ensures ValueAt(a + b, i) == ValueAt(a, i)
  {
    assert !Dashed(a[i]) ==> HeadFlag(a[i]) == Flag(a[i], None);
  }

  predicate Plausible(names: Names, x: Item) {
    x.Setting? ==> IsValueFlag(names, x.flag) && !Dashed(x.value)
  }

  /** `x` may follow the line `a`. */
  predicate Fits(names: Names, a: seq<string>, x: Item) {
    match x
    case Apply => names.dryRun !in a
    case DryRun => names.apply !in a
    case Setting(flag, _, _) => flag !in Given(names, a, |a|)
  }

  function GivenAfter(given: map<string, Option<string>>, x: Item): map<string, Option<string>> {
    if x.Setting? then given[x.flag := Some(x.value)] else given
  }

  lemma SwitchFits(names: Names, a: seq<string>, x: Item)
    requires Consistent(names) && Clean(names, a, |a|) && !x.Setting?
    ensures var c := a + Tokens(names, x);
      && (Clean(names, c, |c|) <==> Fits(names, a, x))
      && Given(names, c, |c|) == Given(names, a, |a|)
  {
    var token := if x.Apply? then names.apply else names.dryRun;
    var c := a + [token];
    BareFlag(token, token);
    SameGiven(names, a, [token], |a|);
    CleanStep(names, c, |a|);
    assert c[..|a|] == a;
  }

  lemma AttachedFits(names: Names, a: seq<string>, x: Item)
    requires Consistent(names) && Clean(names, a, |a|) && x.Setting? && Plausible(names, x) && x.attached
    ensures var c := a + Tokens(names, x);
      && (Clean(names, c, |c|) <==> Fits(names, a, x))
      && Given(names, c, |c|) == GivenAfter(Given(names, a, |a|), x)
  {
    var f := Flag(x.flag, Some(x.value));
    var token := Written(f);
    SplitWritten(f);
    assert token[|x.flag|] == '=';
    SameGiven(names, a, [token], |a|);
    CleanStep(names, a + [token], |a|);
    assert (a + [token])[|a|] == token;
  }

  lemma SpacedErrors(names: Names, a: seq<string>, flag: string, value: string, c: seq<string>)
    requires Consistent(names) && Clean(names, a, |a|) && IsValueFlag(names, flag) && !Dashed(value)
    requires c == a + [flag, value]
    ensures Given(names, c, |a|) == Given(names, a, |a|)
    ensures Clean(names, c, |c|) <==> ErrorAt(names, c, |a|).None?
  {
    var n := |a|;
    BareFlag(flag, flag);
    assert c[n] == flag && c[n + 1] == value;
    SameGiven(names, a, [flag, value], n);
    CleanStep(names, c, n);
    CleanStep(names, c, n + 1);
    assert IsTaken(names, c, n + 1);
  }

  lemma GivenStep(names: Names, argv: seq<string>, n: nat, flag: string, m: nat)
    requires n < |argv| && m == n + 1 && HeadFlag(argv[n]).name == flag
    ensures Given(names, argv, m) ==
            if IsValueFlag(names, flag) then Given(names, argv, n)[flag := ValueAt(argv, n)]
            else Given(names, argv, n)
  {
  }

  lemma SpacedGiven(names: Names, a: seq<string>, flag: string, value: string, c: seq<string>)
    requires Consistent(names) && IsValueFlag(names, flag) && !Dashed(value)
    requires c == a + [flag, value]
    ensures Given(names, c, |c|) == Given(names, c, |a|)[flag := Some(value)]
  {
    var n := |a|;
    BareFlag(flag, flag);
    assert c[n] == flag && c[n + 1] == value;
    assert HeadFlag(value) == Flag(value, None);
    GivenStep(names, c, n, flag, n + 1);
    GivenStep(names, c, n + 1, value, n + 2);
  }

  lemma SpacedError(names: Names, a: seq<string>, flag: string, value: string, c: seq<string>)
    requires Consistent(names) && IsValueFlag(names, flag) && !Dashed(value)
    requires c == a + [flag, value]
    ensures ErrorAt(names, c, |a|) == ValueError(names, flag, Some(value), Given(names, c, |a|))
  {
    BareFlag(flag, flag);
    assert c[|a|] == flag && c[|a| + 1] == value;
  }

  lemma SpacedFits(names: Names, a: seq<string>, x: Item)
    requires Consistent(names) && Clean(names, a, |a|) && x.Setting? && Plausible(names, x) && !x.attached
    ensures var c := a + Tokens(names, x);
      && (Clean(names, c, |c|) <==> Fits(names, a, x))
      && Given(names, c, |c|) == GivenAfter(Given(names, a, |a|), x)
  {
    var c := a + [x.flag, x.value];
    SpacedErrors(names, a, x.flag, x.value, c);
    SpacedGiven(names, a, x.flag, x.value, c);
    SpacedError(names, a, x.flag, x.value, c);
  }

  lemma ItemFits(names: Names, a: seq<string>, x: Item)
    requires Consistent(names) && Clean(names, a, |a|) && Plausible(names, x)
    ensures var c := a + Tokens(names, x);
      && (Clean(names, c, |c|) <==> Fits(names, a, x))
      && Given(names, c, |c|) == GivenAfter(Given(names, a, |a|), x)
  {
    if !x.Setting? {
      SwitchFits(names, a, x);
    } else if x.attached {
      AttachedFits(names, a, x);
    } else {
      SpacedFits(names, a, x);
    }
  }

  lemma SwitchTokens(names: Names, x: Item)
    requires Consistent(names) && Plausible(names, x)
    ensures names.apply in Tokens(names, x) <==> x.Apply?
    ensures names.dryRun in Tokens(names, x) <==> x.DryRun?
    ensures Dashed(Tokens(names, x)[0])
  {
    if x.Setting? {
      SplitWritten(Flag(x.flag, Some(x.value)));
      BareFlag(names.apply, Tokens(names, x)[0]);
      BareFlag(names.dryRun, Tokens(names, x)[0]);
      BareFlag(x.flag, x.flag);
    }
  }

  // --------------------------------------------- lines and lists of items correspond

  /** The accepted line `a` says what the items say. */
  ghost predicate Tracks(names: Names, items: seq<Item>, a: seq<string>) {
    && Clean(names, a, |a|)
    && (names.apply in a <==> Apply in items)
    && (names.dryRun in a <==> DryRun in items)
    && forall flag, value :: GivesValue(Given(names, a, |a|), flag, value) <==> Sets(items, flag, value)
  }

  predicate GivesValue(given: map<string, Option<string>>, flag: string, value: string) {
    flag in given && given[flag] == Some(value)
  }

  /** The items stay well-formed with `x` exactly when the parser accepts its tokens. */
  lemma OneMoreItem(names: Names, items: seq<Item>, a: seq<string>, x: Item)
    requires Consistent(names) && WellFormed(names, items) && Tracks(names, items, a) && Plausible(names, x)
    ensures WellFormed(names, items + [x]) <==> Fits(names, a, x)
    ensures Fits(names, a, x) ==> Tracks(names, items + [x], a + Tokens(names, x))
  {
    ItemFits(names, a, x);
    SwitchTokens(names, x);
    if x.Setting? {
      RepeatsFlag(names, items, a, x);
    }
    StaysWellFormed(names, items, x);
    if Fits(names, a, x) {
      ValuesTrack(Given(names, a, |a|), items, x);
    }
    assert forall y :: y in items + [x] <==> y in items || y == x;
  }

  lemma ValuesTrack(given: map<string, Option<string>>, items: seq<Item>, x: Item)
    requires forall flag, value :: GivesValue(given, flag, value) <==> Sets(items, flag, value)
    requires x.Setting? ==> x.flag !in given
    ensures forall flag, value :: GivesValue(GivenAfter(given, x), flag, value) <==> Sets(items + [x], flag, value)
  {
    forall flag, value
      ensures GivesValue(GivenAfter(given, x), flag, value) <==> Sets(items + [x], flag, value)
    {
      assert GivesValue(given, flag, value) <==> Sets(items, flag, value);
      assert Sets(items + [x], flag, value) <==>
             Sets(items, flag, value) || (x.Setting? && x.flag == flag && x.value == value);
    }
  }

  lemma RepeatsFlag(names: Names, items: seq<Item>, a: seq<string>, x: Item)
    requires Consistent(names) && WellFormed(names, items) && Tracks(names, items, a) && x.Setting?
    ensures x.flag in Given(names, a, |a|) <==> exists y | y in items :: SameFlag(y, x)
  {
    var given := Given(names, a, |a|);
    GivenHasValues(names, a, |a|);
    if x.flag in given {
      var v := given[x.flag].value;
      assert GivesValue(given, x.flag, v);
      assert SameFlag(Setting(x.flag, v, true), x) && SameFlag(Setting(x.flag, v, false), x);
    }
    if y :| y in items && SameFlag(y, x) {
      assert y == Setting(y.flag, y.value, y.attached);
      assert Sets(items, x.flag, y.value);
    }
  }

  lemma StaysWellFormed(names: Names, items: seq<Item>, x: Item)
    requires WellFormed(names, items) && Plausible(names, x)
    ensures WellFormed(names, items + [x]) <==>
      && (forall y | y in items :: !SameFlag(y, x))
      && !(x.Apply? && DryRun in items) && !(x.DryRun? && Apply in items)
  {
    var more := items + [x];
    assert forall y :: y in more <==> y in items || y == x;
    if WellFormed(names, more) {
      forall y | y in items ensures !SameFlag(y, x) {
        var i :| 0 <= i < |items| && items[i] == y;
        assert !SameFlag(more[i], more[|items|]);
      }
    }
  }

  lemma {:induction false} LineTracks(names: Names, items: seq<Item>)
    requires Consistent(names) && WellFormed(names, items)
    ensures Tracks(names, items, Line(names, items))
  {
    if items != [] {
      var init, x := items[..|items| - 1], items[|items| - 1];
      assert items == init + [x];
      assert forall i | 0 <= i < |init| :: init[i] == items[i];
      LineTracks(names, init);
      OneMoreItem(names, init, Line(names, init), x);
    }
  }

  lemma TracksMeans(names: Names, items: seq<Item>, a: seq<string>, args: Args)
    requires Consistent(names) && Tracks(names, items, a) && Says(names, a, |a|, args)
    ensures Means(names, items, args)
  {
    var given := Given(names, a, |a|);
    assert a[..|a|] == a;
    GivenHasValues(names, a, |a|);
    forall flag, value | IsValueFlag(names, flag)
      ensures Field(names, args, flag) == Some(value) <==> Sets(items, flag, value)
    {
      assert GivesValue(given, flag, value) <==> Sets(items, flag, value);
    }
  }

  /** Parsing inverts rendering: however well-formed items are ordered and spelled, their
      line is accepted, and what it says is exactly what the items ask for. */
  lemma RenderedLineIsRead(names: Names, items: seq<Item>, args: Args)
    requires Consistent(names) && WellFormed(names, items)
    ensures var a := Line(names, items);
      Clean(names, a, |a|) && (Says(names, a, |a|, args) ==> Means(names, items, args))
  {
    LineTracks(names, items);
    if Says(names, Line(names, items), |Line(names, items)|, args) {
      TracksMeans(names, items, Line(names, items), args);
    }
  }

  // ------------------------------------------------- every accepted line is rendered

  /** The item whose tokens end the line. */
  function LastItem(names: Names, argv: seq<string>): Item
    requires argv != []
  {
    var last := argv[|argv| - 1];
    if !Dashed(last) then Setting(if |argv| >= 2 then argv[|argv| - 2] else "", last, false)
    else
      var f := HeadFlag(last);
      if f.name == names.apply then Apply
      else if f.name == names.dryRun then DryRun
      else Setting(f.name, if f.attached.Some? then f.attached.value else "", true)
  }

  /** A line ending in a flag: the flag stands alone or carries its value. */
  lemma LastFlag(names: Names, argv: seq<string>, n: nat)
    requires Consistent(names) && n + 1 == |argv| && Clean(names, argv, n + 1) && Dashed(argv[n])
    ensures var x := LastItem(names, argv); Plausible(names, x) && Tokens(names, x) == argv[n..]
  {
    assert ErrorAt(names, argv, n).None?;
    WrittenSplit(argv[n]);
    assert ValueAt(argv, n) == HeadFlag(argv[n]).attached;
    BareFlag(names.apply, argv[n]);
    BareFlag(names.dryRun, argv[n]);
  }

  /** A line ending in another token: it is the value of the flag before it. */
  lemma LastValue(names: Names, argv: seq<string>, n: nat)
    requires Consistent(names) && n + 1 == |argv| && Clean(names, argv, n + 1) && !Dashed(argv[n])
    ensures n > 0
    ensures var x := LastItem(names, argv); Plausible(names, x) && Tokens(names, x) == argv[n - 1..]
  {
    assert ErrorAt(names, argv, n).None?;
    assert HeadFlag(argv[n]) == Flag(argv[n], None);
    assert IsTaken(names, argv, n);
    WrittenSplit(argv[n - 1]);
  }

  lemma LastItemEnds(names: Names, argv: seq<string>)
    requires Consistent(names) && argv != [] && Clean(names, argv, |argv|)
    ensures var x := LastItem(names, argv);
      && Plausible(names, x)
      && |Tokens(names, x)| <= |argv|
      && argv == argv[..|argv| - |Tokens(names, x)|] + Tokens(names, x)
  {
    var n := |argv| - 1;
    if Dashed(argv[n]) {
      LastFlag(names, argv, n);
    } else {
      LastValue(names, argv, n);
    }
  }

  function Items(names: Names, argv: seq<string>): seq<Item>
    decreases |argv|
  {
    if argv == [] then []
    else
      var x := LastItem(names, argv);
      var rest := if |Tokens(names, x)| <= |argv| then argv[..|argv| - |Tokens(names, x)|] else [];
      Items(names, rest) + [x]
  }

  lemma {:induction false} AcceptedIsTracked(names: Names, argv: seq<string>)
    requires Consistent(names) && Clean(names, argv, |argv|)
    ensures WellFormed(names, Items(names, argv)) && Line(names, Items(names, argv)) == argv
    ensures Tracks(names, Items(names, argv), argv)
    decreases |argv|
  {
    if argv != [] {
      var x := LastItem(names, argv);
      var tokens := Tokens(names, x);
      LastItemEnds(names, argv);
      var rest := argv[..|argv| - |tokens|];
      SwitchTokens(names, x);
      SameGiven(names, rest, tokens, |rest|);
      AcceptedIsTracked(names, rest);
      ItemFits(names, rest, x);
      OneMoreItem(names, Items(names, rest), rest, x);
      LineOneMore(names, Items(names, rest), x);
    }
  }

  lemma LineOneMore(names: Names, items: seq<Item>, x: Item)
    ensures Line(names, items + [x]) == Line(names, items) + Tokens(names, x)
  {
    assert (items + [x])[..|items|] == items;
  }

  /** The parser accepts exactly the lines that well-formed items are written as. */
  lemma AcceptedLinesAreRendered(names: Names, argv: seq<string>)
    requires Consistent(names)
    ensures Clean(names, argv, |argv|) <==>
            exists items :: WellFormed(names, items) && Line(names, items) == argv
  {
    if Clean(names, argv, |argv|) {
      AcceptedIsTracked(names, argv);
      assert WellFormed(names, Items(names, argv));
    }
    if items :| WellFormed(names, items) && Line(names, items) == argv {
      LineTracks(names, items);
    }
  }

  /** No accepted line both applies and asks for a dry run. */
  lemma NeverBoth(names: Names, argv: seq<string>, args: Args)
    requires Consistent(names) && Clean(names, argv, |argv|) && Says(names, argv, |argv|, args)
    ensures !(args.apply && args.dryRunExplicit)
  {
    assert argv[..|argv|] == argv;
    AcceptedIsTracked(names, argv);
  }

  /** The order and the spelling of the items do not matter. */
  lemma SpellingIsIrrelevant(names: Names, items: seq<Item>, others: seq<Item>, args: Args, same: Args)
    requires Consistent(names) && WellFormed(names, items) && WellFormed(names, others)
    requires Apply in items <==> Apply in others
    requires DryRun in items <==> DryRun in others
    requires forall flag, value :: Sets(items, flag, value) <==> Sets(others, flag, value)
    requires Says(names, Line(names, items), |Line(names, items)|, args)
    requires Says(names, Line(names, others), |Line(names, others)|, same)
    ensures args == same
  {
    LineTracks(names, items);
    LineTracks(names, others);
    var a, b := Line(names, items), Line(names, others);
    TracksMeans(names, items, a, args);
    TracksMeans(names, others, b, same);
    SameField(names, items, others, args, same, names.fxRateVersion);
    SameField(names, items, others, args, same, names.operator);
    SameField(names, items, others, args, same, names.reason);
    SameField(names, items, others, args, same, names.evidence);
  }

  lemma SameField(names: Names, items: seq<Item>, others: seq<Item>, args: Args, same: Args, flag: string)
    requires IsValueFlag(names, flag) && Means(names, items, args) && Means(names, others, same)
    requires forall flag, value :: Sets(items, flag, value) <==> Sets(others, flag, value)
    ensures Field(names, args, flag) == Field(names, same, flag)
  {
    var x, y := Field(names, args, flag), Field(names, same, flag);
    assert x.Some? ==> Sets(items, flag, x.value) && Sets(others, flag, x.value);
    assert y.Some? ==> Sets(others, flag, y.value) && Sets(items, flag, y.value);
  }

  // --------------------------------------------------------------------- refusals

  lemma {:induction false} GivenEarlier(names: Names, argv: seq<string>, n: nat, flag: string)
    requires n <= |argv| && flag in Given(names, argv, n)
    ensures exists j | 0 <= j < n :: HeadFlag(argv[j]).name == flag
  {
    if HeadFlag(argv[n - 1]).name != flag {
      GivenEarlier(names, argv, n - 1, flag);
      var j :| 0 <= j < n - 1 && HeadFlag(argv[j]).name == flag;
    }
  }

  predicate HasValue(argv: seq<string>, i: nat)
    requires i < |argv|
  {
    ValueAt(argv, i).Some? && !Dashed(ValueAt(argv, i).value)
  }

  /** What a line has at position `i` that is refused with `e`. */
  predicate Explains(names: Names, argv: seq<string>, i: nat, e: UsageError)
    requires i < |argv|
  {
    var f := HeadFlag(argv[i]);
    match e
    case Help => argv[i] in names.help
    case TakesNoValue(flag) => flag == f.name && (flag == names.apply || flag == names.dryRun) && f.attached.Some?
    case MutuallyExclusive =>
      || (argv[i] == names.apply && names.dryRun in argv[..i])
      || (argv[i] == names.dryRun && names.apply in argv[..i])
    case RequiresValue(flag) => flag == f.name && flag != names.apply && flag != names.dryRun && !HasValue(argv, i)
    case SuppliedTwice(flag) =>
      && flag == f.name && HasValue(argv, i) && IsValueFlag(names, flag)
      && exists j | 0 <= j < i :: HeadFlag(argv[j]).name == flag
    case Unknown(flag) =>
      && flag == f.name && HasValue(argv, i) && !IsValueFlag(names, flag)
      && flag != names.apply && flag != names.dryRun
  }

  /** A refusal is for the first flag that is wrong, and says what is wrong with it. */
  lemma RefusalSaysWhy(names: Names, argv: seq<string>, i: nat, e: UsageError)
    requires Consistent(names) && Refused(names, argv, i, e)
    ensures Clean(names, argv, i) && !IsTaken(names, argv, i) && Explains(names, argv, i, e)
  {
    BareFlag(names.apply, argv[i]);
    BareFlag(names.dryRun, argv[i]);
    if e.SuppliedTwice? {
      GivenEarlier(names, argv, i, e.flag);
    }
  }

  // ------------------------------------------------------------- the tool's own words

  lemma PlainText(names: Names, flag: string)
    requires Dashed(flag) && flag !in names.help && forall i | 0 <= i < |flag| :: flag[i] != '='
    ensures IsPlainFlag(names, flag)
  {
    FreeByIndex(flag, '=');
  }

  /** The tool's own words are consistent. */
  lemma SandboxNamesAreConsistent()
    ensures Consistent(SANDBOX_NAMES)
  {
    PlainText(SANDBOX_NAMES, "--apply");
    PlainText(SANDBOX_NAMES, "--dry-run");
    PlainText(SANDBOX_NAMES, "--fx-rate-version");
    PlainText(SANDBOX_NAMES, "--by");
    PlainText(SANDBOX_NAMES, "--reason");
    PlainText(SANDBOX_NAMES, "--evidence");
  }

  lemma ItemsFill(names: Names, items: seq<Item>, args: Args, value: string)
    requires Consistent(names) && WellFormed(names, items)
    requires Says(names, Line(names, items), |Line(names, items)|, args)
    ensures args.fxRateVersion == Some(value) <==> Sets(items, names.fxRateVersion, value)
    ensures args.operator == Some(value) <==> Sets(items, names.operator, value)
    ensures args.reason == Some(value) <==> Sets(items, names.reason, value)
    ensures args.evidence == Some(value) <==> Sets(items, names.evidence, value)
  {
    LineTracks(names, items);
    TracksMeans(names, items, Line(names, items), args);
    assert Field(names, args, names.fxRateVersion) == args.fxRateVersion;
    assert Field(names, args, names.operator) == args.operator;
    assert Field(names, args, names.reason) == args.reason;
    assert Field(names, args, names.evidence) == args.evidence;
  }

  /** The flags of the tool's usage text fill the fields they are for. */
  lemma UsageItemsFill(items: seq<Item>, argv: seq<string>, args: Args, value: string)
    requires WellFormed(SANDBOX_NAMES, items) && argv == Line(SANDBOX_NAMES, items)
    requires Says(SANDBOX_NAMES, argv, |argv|, args)
    ensures args.fxRateVersion == Some(value) <==> Sets(items, "--fx-rate-version", value)
    ensures args.operator == Some(value) <==> Sets(items, "--by", value)
    ensures args.reason == Some(value) <==> Sets(items, "--reason", value)
    ensures args.evidence == Some(value) <==> Sets(items, "--evidence", value)
    ensures args.apply <==> "--apply" in argv
    ensures args.dryRunExplicit <==> "--dry-run" in argv
  {
    SandboxNamesAreConsistent();
    ItemsFill(SANDBOX_NAMES, items, args, value);
    assert argv[..|argv|] == argv;
  }

  /** The tool's parser: the same loop over its own words. */
  method ParseSandboxArgs(argv: seq<string>) returns (r: Result<Args, UsageError>)
    ensures r.Ok? <==> Clean(SANDBOX_NAMES, argv, |argv|)
    ensures r.Ok? ==> Says(SANDBOX_NAMES, argv, |argv|, r.value)
    ensures r.Err? ==> exists i :: Refused(SANDBOX_NAMES, argv, i, r.error)
  {
    SandboxNamesAreConsistent();
    r := ParseArgs(SANDBOX_NAMES, argv);
  }
}
