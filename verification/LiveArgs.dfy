/** The argument parser of scripts/billing/provision-live.ts. Unlike its siblings it
    looks for a value before it looks at the flag, keeps the last of repeated values,
    and collects `--plan` and `--amount`. */
module LiveArgs {
  import opened Results
  import opened Text
  import opened Flags

  datatype Args = Args(
    fxRateVersion: Option<string>, operator: Option<string>, reason: Option<string>, reference: Option<string>,
    plans: seq<string>, amounts: seq<string>, dryRun: bool)

  datatype UsageError = Help | RequiresValue(flag: string) | Unknown(flag: string)

  /** The words the tool knows. */
  datatype Names = Names(
    help: set<string>, dryRun: string, fxRateVersion: string, operator: string, reason: string,
    reference: string, plan: string, amount: string)

  const LIVE_NAMES := Names(
    {"--help", "-h"}, "--dry-run", "--fx-rate-version", "--by", "--reason", "--reference", "--plan", "--amount")

  predicate IsPlainFlag(names: Names, flag: string) {
    Dashed(flag) && Free(flag, '=') && flag !in names.help
  }

  predicate IsValueFlag(names: Names, flag: string) {
    || flag == names.fxRateVersion || flag == names.operator || flag == names.reason
    || flag == names.reference || flag == names.plan || flag == names.amount
  }

  predicate Consistent(names: Names) {
    && (forall word | word in names.help :: Free(word, '='))
    && IsPlainFlag(names, names.dryRun) && !IsValueFlag(names, names.dryRun)
    && IsPlainFlag(names, names.fxRateVersion) && IsPlainFlag(names, names.operator)
    && IsPlainFlag(names, names.reason) && IsPlainFlag(names, names.reference)
    && IsPlainFlag(names, names.plan) && IsPlainFlag(names, names.amount)
    && names.fxRateVersion != names.operator && names.fxRateVersion != names.reason
    && names.fxRateVersion != names.reference && names.fxRateVersion != names.plan
    && names.fxRateVersion != names.amount && names.operator != names.reason
    && names.operator != names.reference && names.operator != names.plan && names.operator != names.amount
    && names.reason != names.reference && names.reason != names.plan && names.reason != names.amount
    && names.reference != names.plan && names.reference != names.amount && names.plan != names.amount
  }

  // ------------------------------------------------------- what each position says

  predicate TakesNext(names: Names, token: string) {
    HeadFlag(token).attached.None? && IsValueFlag(names, HeadFlag(token).name)
  }

  predicate IsTaken(names: Names, argv: seq<string>, i: nat)
    requires i < |argv|
  {
    i > 0 && !Dashed(argv[i]) && TakesNext(names, argv[i - 1])
  }

  /** The value is looked for first, whatever the flag. */
  function FlagError(names: Names, flag: string, value: Option<string>): Option<UsageError> {
    if value.None? || Dashed(value.value) then Some(RequiresValue(flag))
    else if IsValueFlag(names, flag) then None
    else if flag in names.help then Some(Help)
    else Some(Unknown(flag))
  }

  /** What is wrong at position `i` of a command line. */
  function ErrorAt(names: Names, argv: seq<string>, i: nat): Option<UsageError>
    requires i < |argv|
  {
    if IsTaken(names, argv, i) || argv[i] == names.dryRun then None
    else FlagError(names, HeadFlag(argv[i]).name, ValueAt(argv, i))
  }

  predicate Clean(names: Names, argv: seq<string>, n: nat)
    requires n <= |argv|
  {
    forall i | 0 <= i < n :: ErrorAt(names, argv, i).None?
  }

  /** All values the first `n` tokens give to a flag, in order. */
  function Values(argv: seq<string>, n: nat, flag: string): seq<string>
    requires n <= |argv|
  {
    if n == 0 then []
    else Values(argv, n - 1, flag) + if HeadFlag(argv[n - 1]).name == flag then Given(ValueAt(argv, n - 1)) else []
  }

  function Given(value: Option<string>): seq<string> {
    if value.Some? then [value.value] else []
  }

  function Last(values: seq<string>): Option<string> {
    if values == [] then None else Some(values[|values| - 1])
  }

  /** The values of each flag. */
  datatype Lists = Lists(
    fxRateVersion: seq<string>, operator: seq<string>, reason: seq<string>, reference: seq<string>,
    plan: seq<string>, amount: seq<string>)

  function ListsOf(names: Names, argv: seq<string>, n: nat): Lists
    requires n <= |argv|
  {
    Lists(
      Values(argv, n, names.fxRateVersion), Values(argv, n, names.operator), Values(argv, n, names.reason),
      Values(argv, n, names.reference), Values(argv, n, names.plan), Values(argv, n, names.amount))
  }

  /** Of a repeated flag the last value counts; plans and amounts are all kept. */
  predicate Holds(args: Args, lists: Lists) {
    && args.fxRateVersion == Last(lists.fxRateVersion) && args.operator == Last(lists.operator)
    && args.reason == Last(lists.reason) && args.reference == Last(lists.reference)
    && args.plans == lists.plan && args.amounts == lists.amount
  }

  /** `args` is what the first `n` tokens say. */
  predicate Says(names: Names, argv: seq<string>, n: nat, args: Args)
    requires n <= |argv|
  {
    (args.dryRun <==> names.dryRun in argv[..n]) && Holds(args, ListsOf(names, argv, n))
  }

  // ------------------------------------------------------------------- the parser

  /** The loop has read `n` tokens and `n` is again a flag position. */
  predicate Reads(names: Names, argv: seq<string>, n: nat, args: Args) {
    && n <= |argv| && Clean(names, argv, n) && Says(names, argv, n, args)
    && (n < |argv| ==> !IsTaken(names, argv, n))
  }

  predicate Refused(names: Names, argv: seq<string>, i: nat, e: UsageError) {
    i < |argv| && !IsTaken(names, argv, i) && Clean(names, argv, i) && ErrorAt(names, argv, i) == Some(e)
  }

  /** What parsing a line comes to. */
  predicate Outcome(names: Names, argv: seq<string>, r: Result<Args, UsageError>) {
    match r
    case Ok(args) => Clean(names, argv, |argv|) && Says(names, argv, |argv|, args)
    case Err(e) => exists i | 0 <= i < |argv| :: Refused(names, argv, i, e)
  }

  lemma OneMoreToken(names: Names, argv: seq<string>, n: nat)
    requires n < |argv|
    ensures names.dryRun in argv[..n + 1] <==> names.dryRun in argv[..n] || names.dryRun == argv[n]
  {
    assert argv[..n + 1] == argv[..n] + [argv[n]];
  }

  lemma BareFlag(flag: string)
    requires Dashed(flag) && Free(flag, '=')
    ensures HeadFlag(flag) == Flag(flag, None)
  {
    IndexOfIsFirst(flag, '=');
  }

  lemma OneMoreValue(argv: seq<string>, n: nat, flag: string)
    requires n < |argv|
    ensures Values(argv, n + 1, flag) ==
            Values(argv, n, flag) + if HeadFlag(argv[n]).name == flag then Given(ValueAt(argv, n)) else []
  {
  }

  lemma QuietToken(names: Names, argv: seq<string>, n: nat, flag: string)
    requires n < |argv| && HeadFlag(argv[n]).name != flag
    ensures Values(argv, n + 1, flag) == Values(argv, n, flag)
  {
    OneMoreValue(argv, n, flag);
  }

  /** A token that is none of the value flags gives no value. */
  lemma NoValueFlag(names: Names, argv: seq<string>, n: nat, args: Args)
    requires n < |argv| && Says(names, argv, n, args) && !IsValueFlag(names, HeadFlag(argv[n]).name)
    ensures Says(names, argv, n + 1, args.(dryRun := names.dryRun in argv[..n + 1]))
  {
    QuietToken(names, argv, n, names.fxRateVersion);
    QuietToken(names, argv, n, names.operator);
    QuietToken(names, argv, n, names.reason);
    QuietToken(names, argv, n, names.reference);
    QuietToken(names, argv, n, names.plan);
    QuietToken(names, argv, n, names.amount);
  }

  lemma DryRunReads(names: Names, argv: seq<string>, n: nat, args: Args)
    requires Consistent(names) && n < |argv| && Reads(names, argv, n, args) && argv[n] == names.dryRun
    ensures Reads(names, argv, n + 1, args.(dryRun := true))
  {
    BareFlag(names.dryRun);
    OneMoreToken(names, argv, n);
    NoValueFlag(names, argv, n, args);
  }

  /** The value of the flag before it says nothing itself. */
  lemma TakenSays(names: Names, argv: seq<string>, n: nat, args: Args)
    requires Consistent(names) && n < |argv| && Says(names, argv, n, args) && !Dashed(argv[n])
    ensures Says(names, argv, n + 1, args) && !TakesNext(names, argv[n])
  {
    assert HeadFlag(argv[n]) == Flag(argv[n], None);
    OneMoreToken(names, argv, n);
    NoValueFlag(names, argv, n, args);
  }

  lemma CleanStep(names: Names, argv: seq<string>, n: nat)
    requires n < |argv|
    ensures Clean(names, argv, n + 1) <==> Clean(names, argv, n) && ErrorAt(names, argv, n).None?
  {
  }

  lemma ReadsTwo(names: Names, argv: seq<string>, n: nat, args: Args)
    requires Consistent(names) && n + 1 < |argv| && Clean(names, argv, n + 1) && Says(names, argv, n + 1, args)
    requires TakesNext(names, argv[n]) && !Dashed(argv[n + 1])
    ensures Reads(names, argv, n + 2, args)
  {
    TakenSays(names, argv, n + 1, args);
    CleanStep(names, argv, n + 1);
  }

  lemma ReadsOne(names: Names, argv: seq<string>, n: nat, args: Args)
    requires n < |argv| && Clean(names, argv, n + 1) && Says(names, argv, n + 1, args)
    requires !TakesNext(names, argv[n])
    ensures Reads(names, argv, n + 1, args)
  {
  }

  /** The field of a value flag, written as the `switch` does. */
  function Assign(names: Names, args: Args, flag: string, value: string): Args {
    if flag == names.fxRateVersion then args.(fxRateVersion := Some(value))
    else if flag == names.operator then args.(operator := Some(value))
    else if flag == names.reason then args.(reason := Some(value))
    else if flag == names.reference then args.(reference := Some(value))
    else if flag == names.plan then args.(plans := args.plans + [value])
    else if flag == names.amount then args.(amounts := args.amounts + [value])
    else args
  }

  /** The one flag that is given a value has it appended to its values, the others keep theirs. */
  lemma ValueAppended(argv: seq<string>, n: nat, flag: string, value: string, other: string)
    requires n < |argv| && HeadFlag(argv[n]).name == flag && ValueAt(argv, n) == Some(value)
    ensures Values(argv, n + 1, other) == Appended(Values(argv, n, other), flag == other, value)
  {
    OneMoreValue(argv, n, other);
  }

  function Appended(values: seq<string>, here: bool, value: string): seq<string> {
    if here then values + [value] else values
  }

  function WithValue(names: Names, lists: Lists, flag: string, value: string): Lists {
    Lists(
      Appended(lists.fxRateVersion, flag == names.fxRateVersion, value),
      Appended(lists.operator, flag == names.operator, value),
      Appended(lists.reason, flag == names.reason, value),
      Appended(lists.reference, flag == names.reference, value),
      Appended(lists.plan, flag == names.plan, value),
      Appended(lists.amount, flag == names.amount, value))
  }

  /** The `switch` fills the right field. */
  lemma AssignHolds(names: Names, args: Args, lists: Lists, flag: string, value: string)
    requires Consistent(names) && IsValueFlag(names, flag) && Holds(args, lists)
    ensures Holds(Assign(names, args, flag, value), WithValue(names, lists, flag, value))
    ensures Assign(names, args, flag, value).dryRun == args.dryRun
  {
  }

  lemma ListsOneMore(names: Names, argv: seq<string>, n: nat, flag: string, value: string)
    requires n < |argv| && HeadFlag(argv[n]).name == flag && ValueAt(argv, n) == Some(value)
    ensures ListsOf(names, argv, n + 1) == WithValue(names, ListsOf(names, argv, n), flag, value)
  {
    ValueAppended(argv, n, flag, value, names.fxRateVersion);
    ValueAppended(argv, n, flag, value, names.operator);
    ValueAppended(argv, n, flag, value, names.reason);
    ValueAppended(argv, n, flag, value, names.reference);
    ValueAppended(argv, n, flag, value, names.plan);
    ValueAppended(argv, n, flag, value, names.amount);
  }

  lemma ValueSays(names: Names, argv: seq<string>, n: nat, args: Args, flag: string, value: string)
    requires Consistent(names) && n < |argv| && Says(names, argv, n, args)
    requires IsValueFlag(names, flag) && HeadFlag(argv[n]).name == flag && ValueAt(argv, n) == Some(value)
    ensures Says(names, argv, n + 1, Assign(names, args, flag, value))
  {
    NotDryRun(names, argv, n);
    AssignHolds(names, args, ListsOf(names, argv, n), flag, value);
    ListsOneMore(names, argv, n, flag, value);
  }

  lemma NotDryRun(names: Names, argv: seq<string>, n: nat)
    requires Consistent(names) && n < |argv| && HeadFlag(argv[n]).name != names.dryRun
    ensures names.dryRun in argv[..n + 1] <==> names.dryRun in argv[..n]
  {
    BareFlag(names.dryRun);
    OneMoreToken(names, argv, n);
  }

  method ReadFlag(names: Names, argv: seq<string>, index: nat, args: Args)
    returns (r: Result<Args, UsageError>, next: nat)
    requires Consistent(names) && index < |argv| && Reads(names, argv, index, args) && argv[index] != names.dryRun
    ensures r.Err? ==> Refused(names, argv, index, r.error)
    ensures r.Ok? ==> index < next && Reads(names, argv, next, r.value)
  {
    var f := HeadFlag(argv[index]);
    var value := ValueAt(argv, index);
    var error := FlagError(names, f.name, value);
    next := index;
    if error.Some? {
      return Err(error.value), next;
    }
    CleanStep(names, argv, index);
    ValueSays(names, argv, index, args, f.name, value.value);
    var read := Assign(names, args, f.name, value.value);
    if f.attached.None? {
      ReadsTwo(names, argv, index, read);
      next := index + 2;
    } else {
      ReadsOne(names, argv, index, read);
      next := index + 1;
    }
    r := Ok(read);
  }

  method ParseArgs(names: Names, argv: seq<string>) returns (r: Result<Args, UsageError>)
    requires Consistent(names)
    ensures r.Ok? <==> Clean(names, argv, |argv|)
    ensures Outcome(names, argv, r)
  {
    var args := Args(None, None, None, None, [], [], false);
    var index := 0;
    while index < |argv|
      invariant Reads(names, argv, index, args)
    {
      if argv[index] == names.dryRun {
        DryRunReads(names, argv, index, args);
        args := args.(dryRun := true);
        index := index + 1;
      } else {
        var read, next := ReadFlag(names, argv, index, args);
        if read.Err? {
          return read;
        }
        args, index := read.value, next;
      }
    }
    r := Ok(args);
  }

  // ------------------------------------------------------------------- asking for help

  /** A help word where the tool would look at it as a flag, reached without an error. */
  predicate AsksForHelp(names: Names, argv: seq<string>, i: nat) {
    && i < |argv| && Clean(names, argv, i) && !IsTaken(names, argv, i)
    && HeadFlag(argv[i]).name in names.help
  }

  predicate HasValue(argv: seq<string>, i: nat)
    requires i < |argv|
  {
    ValueAt(argv, i).Some? && !Dashed(ValueAt(argv, i).value)
  }

  /** Asking for help gives help exactly when the help word comes with a value: it is
      read as a flag that needs one before it is read as a word for help. */
  lemma HelpNeedsValue(names: Names, argv: seq<string>, i: nat, r: Result<Args, UsageError>)
    requires Consistent(names) && AsksForHelp(names, argv, i) && Outcome(names, argv, r)
    ensures r == Err(Help) <==> HasValue(argv, i)
    ensures !HasValue(argv, i) ==> r == Err(RequiresValue(HeadFlag(argv[i]).name))
  {
    HelpIsNoOtherFlag(names, argv[i]);
    var e := ErrorAt(names, argv, i).value;
    assert Refused(names, argv, i, e);
    OnlyRefusal(names, argv, i, e, r);
  }

  lemma HelpIsNoOtherFlag(names: Names, token: string)
    requires Consistent(names) && HeadFlag(token).name in names.help
    ensures token != names.dryRun && !IsValueFlag(names, HeadFlag(token).name)
  {
    BareFlag(names.dryRun);
  }

  lemma OnlyRefusal(names: Names, argv: seq<string>, i: nat, e: UsageError, r: Result<Args, UsageError>)
    requires Refused(names, argv, i, e) && Outcome(names, argv, r)
    ensures r == Err(e)
  {
    if r.Err? {
      var j :| 0 <= j < |argv| && Refused(names, argv, j, r.error);
    }
  }

  /** And help is given on no other line. */
  lemma HelpExactly(names: Names, argv: seq<string>, r: Result<Args, UsageError>)
    requires Consistent(names) && Outcome(names, argv, r)
    ensures r == Err(Help) <==> exists i | 0 <= i < |argv| :: AsksForHelp(names, argv, i) && HasValue(argv, i)
  {
    if r == Err(Help) {
      var i :| 0 <= i < |argv| && Refused(names, argv, i, Help);
      assert AsksForHelp(names, argv, i) && HasValue(argv, i);
    }
    if i :| 0 <= i < |argv| && AsksForHelp(names, argv, i) && HasValue(argv, i) {
      HelpNeedsValue(names, argv, i, r);
    }
  }

  /** In particular a help word alone is refused for want of a value. */
  lemma BareHelpIsRefused(names: Names, word: string, r: Result<Args, UsageError>)
    requires Consistent(names) && word in names.help && Outcome(names, [word], r)
    ensures r == Err(RequiresValue(word))
  {
    IndexOfIsFirst(word, '=');
    assert HeadFlag(word) == Flag(word, None);
    assert AsksForHelp(names, [word], 0);
    HelpNeedsValue(names, [word], 0, r);
  }

  /** Every refusal is for the first flag that is not one with a value: it has no value,
      or it is a word for help, or the tool does not know it. */
  lemma RefusalSaysWhy(names: Names, argv: seq<string>, r: Result<Args, UsageError>)
    requires Outcome(names, argv, r) && r.Err?
    ensures exists i | 0 <= i < |argv| ::
      && !IsTaken(names, argv, i) && argv[i] != names.dryRun
      && var flag := HeadFlag(argv[i]).name;
        if !HasValue(argv, i) then r.error == RequiresValue(flag)
        else !IsValueFlag(names, flag) && r.error == if flag in names.help then Help else Unknown(flag)
  {
    var i :| 0 <= i < |argv| && Refused(names, argv, i, r.error);
    assert !IsTaken(names, argv, i);
  }

  // ------------------------------------------------------------------ repeated flags

  predicate IsGivenAt(argv: seq<string>, i: nat, flag: string) {
    i < |argv| && HeadFlag(argv[i]).name == flag
  }

  /** The values of a flag end with the one given where it stands last. */
  lemma {:induction false} LastGiven(argv: seq<string>, n: nat, flag: string, i: nat)
    requires i < n <= |argv| && IsGivenAt(argv, i, flag) && ValueAt(argv, i).Some?
    requires forall j | i < j < n :: !IsGivenAt(argv, j, flag)
    ensures Values(argv, n, flag) == Values(argv, i, flag) + [ValueAt(argv, i).value]
  {
    if i < n - 1 {
      assert !IsGivenAt(argv, n - 1, flag);
      LastGiven(argv, n - 1, flag, i);
    }
  }

  lemma {:induction false} NeverGiven(argv: seq<string>, n: nat, flag: string)
    requires n <= |argv| && forall j | 0 <= j < n :: !IsGivenAt(argv, j, flag)
    ensures Values(argv, n, flag) == []
  {
    if n > 0 {
      assert !IsGivenAt(argv, n - 1, flag);
      NeverGiven(argv, n - 1, flag);
    }
  }

  /** Each value stands right after those given to the flag before it. */
  lemma {:induction false} ValuesInOrder(argv: seq<string>, n: nat, flag: string, i: nat)
    requires i < n <= |argv| && IsGivenAt(argv, i, flag) && ValueAt(argv, i).Some?
    ensures Values(argv, i, flag) + [ValueAt(argv, i).value] <= Values(argv, n, flag)
  {
    if i < n - 1 {
      ValuesInOrder(argv, n - 1, flag, i);
    }
  }

  lemma GivenWithValue(names: Names, argv: seq<string>, flag: string, i: nat)
    requires Consistent(names) && Clean(names, argv, |argv|) && IsGivenAt(argv, i, flag) && IsValueFlag(names, flag)
    ensures ValueAt(argv, i).Some?
  {
    assert ErrorAt(names, argv, i).None?;
    BareFlag(names.dryRun);
  }

  /** Of a flag given more than once the last value counts. */
  lemma LastValueCounts(names: Names, argv: seq<string>, args: Args, flag: string, i: nat)
    requires Consistent(names) && Clean(names, argv, |argv|) && Says(names, argv, |argv|, args)
    requires IsGivenAt(argv, i, flag) && IsValueFlag(names, flag)
    requires forall j | i < j < |argv| :: !IsGivenAt(argv, j, flag)
    ensures flag == names.fxRateVersion ==> args.fxRateVersion == ValueAt(argv, i)
    ensures flag == names.operator ==> args.operator == ValueAt(argv, i)
    ensures flag == names.reason ==> args.reason == ValueAt(argv, i)
    ensures flag == names.reference ==> args.reference == ValueAt(argv, i)
  {
    GivenWithValue(names, argv, flag, i);
    LastGiven(argv, |argv|, flag, i);
  }

  /** A flag that is not given leaves its field empty. */
  lemma OnlyGivenFields(names: Names, argv: seq<string>, args: Args, flag: string)
    requires Says(names, argv, |argv|, args) && forall j | 0 <= j < |argv| :: !IsGivenAt(argv, j, flag)
    ensures flag == names.fxRateVersion ==> args.fxRateVersion == None
    ensures flag == names.operator ==> args.operator == None
    ensures flag == names.reason ==> args.reason == None
    ensures flag == names.reference ==> args.reference == None
    ensures flag == names.plan ==> args.plans == []
    ensures flag == names.amount ==> args.amounts == []
  {
    NeverGiven(argv, |argv|, flag);
  }

  /** Plans and amounts are all kept, in the order given. */
  lemma ListsInOrder(names: Names, argv: seq<string>, args: Args, flag: string, i: nat)
    requires Consistent(names) && Clean(names, argv, |argv|) && Says(names, argv, |argv|, args)
    requires IsGivenAt(argv, i, flag) && IsValueFlag(names, flag)
    ensures ValueAt(argv, i).Some?
    ensures flag == names.plan ==> Values(argv, i, flag) + [ValueAt(argv, i).value] <= args.plans
    ensures flag == names.amount ==> Values(argv, i, flag) + [ValueAt(argv, i).value] <= args.amounts
  {
    GivenWithValue(names, argv, flag, i);
    ValuesInOrder(argv, |argv|, flag, i);
  }

  // ------------------------------------------------------------ lines of a single flag

  const NO_ARGS := Args(None, None, None, None, [], [], false)

  /** A value flag with its value, in one token or in two, fills its field and no other. */
  predicate IsPair(argv: seq<string>, flag: string, value: string) {
    argv == [flag, value] || argv == [Written(Flag(flag, Some(value)))]
  }

  lemma PairIsTaken(names: Names, argv: seq<string>, flag: string, value: string)
    requires Consistent(names) && IsValueFlag(names, flag) && !Dashed(value) && IsPair(argv, flag, value)
    ensures HeadFlag(argv[0]).name == flag && ValueAt(argv, 0) == Some(value)
    ensures |argv| == 2 ==> IsTaken(names, argv, 1)
  {
    SplitWritten(Flag(flag, Some(value)));
    BareFlag(flag);
  }

  lemma PairIsClean(names: Names, argv: seq<string>, flag: string, value: string)
    requires Consistent(names) && IsValueFlag(names, flag) && !Dashed(value) && IsPair(argv, flag, value)
    ensures Clean(names, argv, |argv|)
  {
    PairIsTaken(names, argv, flag, value);
    assert ErrorAt(names, argv, 0).None?;
    if |argv| == 2 {
      assert ErrorAt(names, argv, 1).None?;
    }
  }

  lemma NothingSaid(names: Names, argv: seq<string>)
    ensures Says(names, argv, 0, NO_ARGS)
  {
  }

  lemma PairSays(names: Names, argv: seq<string>, flag: string, value: string)
    requires Consistent(names) && IsValueFlag(names, flag) && !Dashed(value) && IsPair(argv, flag, value)
    ensures Says(names, argv, |argv|, Assign(names, NO_ARGS, flag, value))
  {
    var args := Assign(names, NO_ARGS, flag, value);
    NothingSaid(names, argv);
    PairIsTaken(names, argv, flag, value);
    ValueSays(names, argv, 0, NO_ARGS, flag, value);
    if |argv| == 2 {
      TakenSays(names, argv, 1, args);
    }
  }

  lemma SaysOnce(names: Names, argv: seq<string>, args: Args, other: Args)
    requires Says(names, argv, |argv|, args) && Says(names, argv, |argv|, other)
    ensures args == other
  {
  }

  lemma PairFills(names: Names, argv: seq<string>, flag: string, value: string, r: Result<Args, UsageError>)
    requires Consistent(names) && IsValueFlag(names, flag) && !Dashed(value) && IsPair(argv, flag, value)
    requires Outcome(names, argv, r)
    ensures r == Ok(Assign(names, NO_ARGS, flag, value))
  {
    PairIsClean(names, argv, flag, value);
    PairSays(names, argv, flag, value);
    if r.Ok? {
      SaysOnce(names, argv, r.value, Assign(names, NO_ARGS, flag, value));
    }
  }

  lemma DryRunFills(names: Names, argv: seq<string>, r: Result<Args, UsageError>)
    requires Consistent(names) && argv == [names.dryRun] && Outcome(names, argv, r)
    ensures r == Ok(NO_ARGS.(dryRun := true))
  {
    var args := NO_ARGS.(dryRun := true);
    NothingSaid(names, argv);
    DryRunReads(names, argv, 0, NO_ARGS);
    if r.Ok? {
      SaysOnce(names, argv, r.value, args);
    }
  }

  /** The field each flag is for. */
  predicate AreFields(names: Names, value: string) {
    && Assign(names, NO_ARGS, names.fxRateVersion, value) == NO_ARGS.(fxRateVersion := Some(value))
    && Assign(names, NO_ARGS, names.operator, value) == NO_ARGS.(operator := Some(value))
    && Assign(names, NO_ARGS, names.reason, value) == NO_ARGS.(reason := Some(value))
    && Assign(names, NO_ARGS, names.reference, value) == NO_ARGS.(reference := Some(value))
    && Assign(names, NO_ARGS, names.plan, value) == NO_ARGS.(plans := [value])
    && Assign(names, NO_ARGS, names.amount, value) == NO_ARGS.(amounts := [value])
  }

  lemma FieldsAreFilled(names: Names, value: string)
    requires Consistent(names)
    ensures AreFields(names, value)
  {
    assert NO_ARGS.plans + [value] == [value];
  }

  // ---------------------------------------------------------------- the tool's own words

  lemma PlainText(names: Names, flag: string)
    requires Dashed(flag) && flag !in names.help && forall i | 0 <= i < |flag| :: flag[i] != '='
    ensures IsPlainFlag(names, flag)
  {
    FreeByIndex(flag, '=');
  }

  lemma HelpWordsAreFree()
    ensures forall word | word in LIVE_NAMES.help :: Free(word, '=')
  {
    FreeByIndex("--help", '=');
    FreeByIndex("-h", '=');
  }

  lemma LiveNamesAreConsistent()
    ensures Consistent(LIVE_NAMES)
  {
    HelpWordsAreFree();
    PlainText(LIVE_NAMES, "--dry-run");
    PlainText(LIVE_NAMES, "--fx-rate-version");
    PlainText(LIVE_NAMES, "--by");
    PlainText(LIVE_NAMES, "--reason");
    PlainText(LIVE_NAMES, "--reference");
    PlainText(LIVE_NAMES, "--plan");
    PlainText(LIVE_NAMES, "--amount");
  }

  /** Each flag of the tool's usage text, given alone with a value, fills the field it is for. */
  lemma UsageLinesFill(argv: seq<string>, value: string, r: Result<Args, UsageError>)
    requires !Dashed(value) && Outcome(LIVE_NAMES, argv, r)
    ensures IsPair(argv, "--fx-rate-version", value) ==> r == Ok(NO_ARGS.(fxRateVersion := Some(value)))
    ensures IsPair(argv, "--by", value) ==> r == Ok(NO_ARGS.(operator := Some(value)))
    ensures IsPair(argv, "--reason", value) ==> r == Ok(NO_ARGS.(reason := Some(value)))
    ensures IsPair(argv, "--reference", value) ==> r == Ok(NO_ARGS.(reference := Some(value)))
    ensures IsPair(argv, "--plan", value) ==> r == Ok(NO_ARGS.(plans := [value]))
    ensures IsPair(argv, "--amount", value) ==> r == Ok(NO_ARGS.(amounts := [value]))
    ensures argv == ["--dry-run"] ==> r == Ok(NO_ARGS.(dryRun := true))
  {
    LiveNamesAreConsistent();
    FieldsAreFilled(LIVE_NAMES, value);
    if IsPair(argv, LIVE_NAMES.fxRateVersion, value) {
      PairFills(LIVE_NAMES, argv, LIVE_NAMES.fxRateVersion, value, r);
    }
    if IsPair(argv, LIVE_NAMES.operator, value) {
      PairFills(LIVE_NAMES, argv, LIVE_NAMES.operator, value, r);
    }
    if IsPair(argv, LIVE_NAMES.reason, value) {
      PairFills(LIVE_NAMES, argv, LIVE_NAMES.reason, value, r);
    }
    if IsPair(argv, LIVE_NAMES.reference, value) {
      PairFills(LIVE_NAMES, argv, LIVE_NAMES.reference, value, r);
    }
    if IsPair(argv, LIVE_NAMES.plan, value) {
      PairFills(LIVE_NAMES, argv, LIVE_NAMES.plan, value, r);
    }
    if IsPair(argv, LIVE_NAMES.amount, value) {
      PairFills(LIVE_NAMES, argv, LIVE_NAMES.amount, value, r);
    }
    if argv == [LIVE_NAMES.dryRun] {
      DryRunFills(LIVE_NAMES, argv, r);
    }
  }

  /** The tool's parser: the same loop over its own words. */
  method ParseLiveArgs(argv: seq<string>) returns (r: Result<Args, UsageError>)
    ensures r.Ok? <==> Clean(LIVE_NAMES, argv, |argv|)
    ensures Outcome(LIVE_NAMES, argv, r)
    ensures r == Err(Help) <==> exists i | 0 <= i < |argv| :: AsksForHelp(LIVE_NAMES, argv, i) && HasValue(argv, i)
  {
    LiveNamesAreConsistent();
    r := ParseArgs(LIVE_NAMES, argv);
    HelpExactly(LIVE_NAMES, argv, r);
  }
}
