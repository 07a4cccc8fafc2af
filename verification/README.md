# A verified model of VeltrixEye's self-contained algorithms and protocols

This project models, in Dafny 4.11, the parts of the repository whose whole logic is
in the repository's own code, and proves what their documentation promises. The command
`dafny verify dfyconfig.toml` checks the whole project.

## What is modelled

**Webhook addresses and the allow-list** (`Text`, `AddressGrammar`, `IpParser`,
`IpParserCorrectness`, `AddressTheorems`, `AllowList`, `AddressBits`). IPv6 texts have a declarative
grammar and denotation (RFC 4291 section 2.2): a spelling is eight groups, or two runs
around `::`, optionally ending in a dotted quad. The hand-written parser, with its
loops, its rewriting of the dotted tail and its dispatch, is proved to compute exactly
that denotation on every text. Matching by shifting is proved to be membership in an
aligned block (RFC 4291 section 2.3, RFC 4632 section 3.1); which bits each group and octet
fills, and what a configured text means word by word, is stated without the parser. The source's comment says
that an IPv4 entry admits an address however the platform spells it; that is false for
mapped addresses written in hexadecimal groups. A list of IPv4 networks admits a spelling
of a mapped address exactly when that is a dotted `::ffff:` text and the list admits the
IPv4 address.

**Trade paging** (`TradePaging`). The server keeps the first `min(setups, 500)` trades
of a run (`packages/core/src/backtest/service.ts:546-564`) and answers a request for N
with the first N of them. Whatever pages arrive, in whatever order, the view is the
largest page requested; load-more always makes progress and ends with every stored trade.

**Background tickers and liveness** (`GuardedTicker`, `TickerRuns`, `ScannerWorker`, `DeliveryWorker`,
`DeliveryRoute`, `NotificationHeartbeat`, `FxSourceRunner`, `WorkerLiveness`,
`LivenessConservation`, `SystemRuns`). The code between two awaits is one step of a transition system;
timers fire and awaited calls settle in any order. The tickers are classes over the
closures' variables: an object is valid while its variables are a state that the system
reaches by the events so far and the guard's invariant holds of them, every method keeps
it valid, and so what is proved of all runs holds of the variables. Safety is proved for every sequence of events:
single flight, nothing starts after stop, stop resolves once the worker calls do, the
exact maintenance cadence, and conservation of the shared counters over every
interleaving of the delivery ticker, heartbeat drains, requested batches and FX checks.
What a run's events say is stated apart from the steps: what each cycle and each drain is
at, what can happen to it next, and what each event changes in the shared records.

**Money texts and the checkout projection** (`Money`, `Checkout`). Printing of scaled
integers is exact, trimming is canonical, the two cedi formatters agree, and the
projection discloses one pricing decision or nothing. The documentation calls the
payment link verbatim; the schema trims it, so a link is verbatim exactly when it neither
begins nor ends with white space.

**The backtest form** (`BacktestForm`). The validator's complaints, field by field, and
the request that is built.

**Command-line flags** (`Flags`, `FxValidateArgs`, `SandboxArgs`, `LiveArgs`, `LivePlanSlots`). The
index-advancing loops are specified position by position: a token is judged from its
neighbours and from what came before, not from the state of a scan. The sandbox parser
is also proved to be the exact inverse of writing a command line. The flag words are a
parameter of the parsers; that the tools' own words meet the stated assumptions is proved.
The lookup of a prohibited flag also finds what every object inherits, so a bare
`constructor` is accepted as a prohibited flag; on which lines the parser keeps to the
listed flags is proved exactly. The live tool looks for a value before it looks at the
flag, so a bare `--help` is refused; which lines give help is proved exactly.

**Base64url** (`Base64Url`). The decoder of the push subscription key (RFC 4648).

Where a method's contract names a function, that function is its specification; what it
means is stated by the lemmas listed beside it.

## Model

| member | source | states |
|---|---|---|
| `AddressGrammar.GrammarIsDecidable` | apps/api/src/webhook-allowlist.ts:71-108 | the texts of RFC 4291 section 2.2 (eight groups, or one `::` for at least one, optionally a dotted tail) are exactly those whose unique decoding is well-formed |
| `AddressGrammar.DecodeRender` | apps/api/src/webhook-allowlist.ts:88-107 | every well-formed spelling is recovered from its text: no text has two readings |
| `AddressGrammar.RenderDecode` | apps/api/src/webhook-allowlist.ts:88-94 | splitting a text into sides and groups loses nothing |
| `AddressGrammar.NetIsIp` | apps/api/src/webhook-allowlist.ts:55-65 | the platform's recogniser: 4 exactly for dotted quads of octets without leading zeros; 6 for the IPv6 texts (with an optional zone) |
| `AddressGrammar.QuadsAreOctetTexts` | apps/api/src/webhook-allowlist.ts:56-62 | a dotted quad is the text of its four octets |
| `AddressGrammar.OctetTextsAreQuads` | apps/api/src/webhook-allowlist.ts:56-62 | the text of any four octets is a dotted quad with these octets |
| `IpParser.ParseGroups` | apps/api/src/webhook-allowlist.ts:111-118 | the loop returns the values of all groups exactly when every one is 1 to 4 hex digits; each value is below 2^16 |
| `IpParser.GroupsToBits` | apps/api/src/webhook-allowlist.ts:120-125 | the shift-and-or loop computes the positional value of eight groups, whose bits `AddressBits.WordsInNetworkOrder` names one by one, and refuses any other number |
| `IpParser.ParseIpv6` | apps/api/src/webhook-allowlist.ts:71-108 | the step-by-step parser returns what its functional specification says, which `Ipv6BitsIsTheGrammar` equates with the grammar |
| `IpParser.RewriteDottedTail` | apps/api/src/webhook-allowlist.ts:76-86 | an address ending in a dotted quad is rewritten with two hex groups, refused when the quad is no IPv4 address, and otherwise left alone |
| `IpParser.ParseWork` | apps/api/src/webhook-allowlist.ts:88-107 | the two sides are parsed and assembled with the missing zero groups |
| `IpParser.AssembleGroups` | apps/api/src/webhook-allowlist.ts:100-107 | without `::` exactly eight groups, with it at most seven and zeros in between |
| `IpParserCorrectness.Ipv6BitsIsTheGrammar` | apps/api/src/webhook-allowlist.ts:71-108 | for every text the parser's result equals the grammar's denotation, accepted or not |
| `IpParserCorrectness.HalvesPreserveQuad` | apps/api/src/webhook-allowlist.ts:80-85 | the two 16-bit halves printed in hex have at most four digits and re-parse to the same 32 bits |
| `IpParserCorrectness.RewritingKeepsDenotation` | apps/api/src/webhook-allowlist.ts:76-86 | rewriting the dotted tail changes the address of no text |
| `AddressTheorems.AcceptsExactlyTheGrammar` | apps/api/src/webhook-allowlist.ts:71-108 | the parser accepts a text if and only if it is the text of a well-formed spelling |
| `AddressTheorems.EverySpellingParses` | apps/api/src/webhook-allowlist.ts:71-125 | every spelling parses to its address's 128-bit value, below 2^128; the groups' places in it are those of `AddressBits.WordsInNetworkOrder` |
| `AddressTheorems.SameWordsSameInteger` | apps/api/src/webhook-allowlist.ts:71-125 | two spellings parse alike exactly when they denote the same eight words |
| `AddressTheorems.AnyZeroRunMayBeElided` | apps/api/src/webhook-allowlist.ts:104-107 | any run of zero groups, with any leading zeros in the others, may be written as `::` |
| `AddressTheorems.NothingNeedsEliding` | apps/api/src/webhook-allowlist.ts:100-103 | the same integer without any elision |
| `AddressTheorems.IpBitsByKind` | apps/api/src/webhook-allowlist.ts:52-69 | what the dispatcher returns for each kind of text: mapped, dotted quad, IPv6, none |
| `AddressTheorems.MappedTextIsItsQuad` | apps/api/src/webhook-allowlist.ts:52-54 | `::ffff:a.b.c.d`, in any letter case, is the IPv4 address `a.b.c.d` |
| `AddressTheorems.IpBitsInRange` | apps/api/src/webhook-allowlist.ts:52-69 | results are below 2^32 or 2^128 |
| `AddressTheorems.SpellingsAgreeUnlessOneIsMapped` | apps/api/src/webhook-allowlist.ts:52-69 | two spellings of one address are read alike exactly when both or neither are dotted `::ffff:` texts |
| `AddressTheorems.HexMappedFormStaysIpv6` | apps/api/src/webhook-allowlist.ts:47-54 | for every quad, the hex spelling of its mapped address stays IPv6 while the dotted one becomes IPv4 |
| `AddressBits.WordsInNetworkOrder` | apps/api/src/webhook-allowlist.ts:120-125 | group i of every text of an IPv6 address stands in bits 16 * (7 - i) and up of the integer: the first group is the most significant |
| `AddressBits.WordsOfGroups` | apps/api/src/webhook-allowlist.ts:88-107 | of a text with `::`, the groups on its left come first, those on its right last, and zeros stand in between |
| `AddressBits.WordsOfEightGroups` | apps/api/src/webhook-allowlist.ts:100-103 | of a text without `::`, group by group its hexadecimal value |
| `AddressBits.WordsOfTail` | apps/api/src/webhook-allowlist.ts:76-86 | a dotted tail is the last two groups, two octets each |
| `AddressBits.GroupCountsExactly` | apps/api/src/webhook-allowlist.ts:100-107 | hexadecimal groups are accepted without `::` exactly when there are eight, and with it exactly when there are at most seven |
| `AddressBits.OctetsInNetworkOrder` | apps/api/src/webhook-allowlist.ts:56-62 | octet i of every dotted quad stands in bits 8 * (3 - i) and up of the integer |
| `AddressBits.GroupPrefixAdmitsExactly` | apps/api/src/webhook-allowlist.ts:172-181 | an IPv6 network written with a prefix of k whole groups admits a text exactly when the two addresses begin with the same k groups |
| `AddressBits.OctetPrefixAdmitsExactly` | apps/api/src/webhook-allowlist.ts:172-181 | the same for an IPv4 network of k whole octets |
| `AllowList.ParsePaystackWebhookAllowList` | apps/api/src/webhook-allowlist.ts:136-169 | of every writing of some words, with separators between and around them, the result is the list of the words' entries, lower-cased, in order, or the first refused word's refusal; the list is never empty and every entry is usable |
| `AllowList.WrittenListIsRead` | apps/api/src/webhook-allowlist.ts:136-168 | the same of the list as a function of the text, for one writing |
| `AllowList.EveryTextIsWritten` | apps/api/src/webhook-allowlist.ts:137-140 | every text that is not only separators is such a writing, so this says what every configuration means |
| `AllowList.WrittenListAllows` | apps/api/src/webhook-allowlist.ts:136-181 | an accepted list of words allows an address exactly when it lies in the block of some written word |
| `AllowList.RefusedEntries` | apps/api/src/webhook-allowlist.ts:147-157 | an entry with a slash is refused as not an address exactly when the text before the last slash is none, and for its prefix exactly when that is no decimal number |
| `AllowList.RefusedBareEntry` | apps/api/src/webhook-allowlist.ts:147-152 | an entry without a slash is refused exactly when it is no address, and for that reason |
| `AllowList.ParseEntry` | apps/api/src/webhook-allowlist.ts:145-166 | one entry: address, optional prefix after the last `/`, each refusal in the source's order |
| `AllowList.CollectIsEntrywise` | apps/api/src/webhook-allowlist.ts:143-168 | the list is accepted exactly when each entry is, and its i-th element is the i-th entry's; a refusal is that of the first refused entry |
| `AllowList.AcceptedEntriesAreUsable` | apps/api/src/webhook-allowlist.ts:151-166 | every accepted entry has 1 <= prefix <= width and bits below 2^width |
| `AllowList.LimitIsPower` | apps/api/src/webhook-allowlist.ts:44-45 | the two families have 2^32 and 2^128 addresses |
| `AllowList.EntryAdmitsItsBlock` | apps/api/src/webhook-allowlist.ts:172-181 | shifting admits exactly the aligned block of 2^(width - prefix) addresses, which lies in the family |
| `AllowList.EntryAdmitsItsPrefix` | apps/api/src/webhook-allowlist.ts:172-181 | equivalently, the addresses that share its first prefix bits |
| `AllowList.NestedOrDisjoint` | apps/api/src/webhook-allowlist.ts:175-180 | two entries of one family admit nested or disjoint sets |
| `AllowList.SomeAddressIsOutside` | apps/api/src/webhook-allowlist.ts:159-164 | no accepted entry admits its whole family |
| `AllowList.MappedVerdictExactly` | apps/api/src/webhook-allowlist.ts:47-51 | a list of IPv4 networks admits a spelling of the mapped address of `q` if and only if that is a dotted `::ffff:` text and the list admits `q`; so the comment's "however the platform spells it" fails for every other spelling of an admitted address |
| `AllowList.EntryAdmitsMappedExactly` | apps/api/src/webhook-allowlist.ts:47-51 | an IPv4 entry that admits `q` admits a spelling of its mapped address if and only if that is a dotted `::ffff:` text |
| `AllowList.MappedTextSameVerdict` | apps/api/src/webhook-allowlist.ts:52-54 | a dotted mapped text gets the verdict of its IPv4 address from every list |
| `AllowList.WrittenEntryIsRead` | apps/api/src/webhook-allowlist.ts:145-166 | an address written with a prefix length is read back, with exactly the prefixes 1 to width; `/0` is refused |
| `AllowList.BareEntryIsRead` | apps/api/src/webhook-allowlist.ts:145-152 | a bare address is read as its one-address network |
| `AllowList.AllowedIsMembership` | apps/api/src/webhook-allowlist.ts:136-181 | an address is allowed exactly when it lies in the block of some configured entry |
| `AllowList.WordsOfList` | apps/api/src/webhook-allowlist.ts:137-140 | entries are the maximal words between runs of commas and white space |
| `AllowList.OnlySeparatorsSelectDefault` | apps/api/src/webhook-allowlist.ts:142 | the default list is selected exactly by a text of separators only |
| `AllowList.DefaultAdmitsOnlyDocumented` | apps/api/src/webhook-allowlist.ts:26-30 | a configuration of separators only is accepted, and admits the three documented addresses, in any spelling that reads as them, and nothing else |
| `TradePaging.MergeTrades` | apps/web/lib/backtest-form.ts:418-426 | the two loops and the sort compute the merge |
| `TradePaging.MergedIsLastWriter` | apps/web/lib/backtest-form.ts:410-426 | the merge is strictly ascending by seq and holds a trade exactly when it is the last one with its seq |
| `TradePaging.ViewNeverShrinks` | apps/web/lib/backtest-form.ts:428-447 | whatever page arrives, no seq disappears, none is invented, the count and the limit never fall |
| `TradePaging.PageOverPage` | apps/web/lib/backtest-form.ts:429-447 | applying one page of a run over another gives the larger page, flag and limit included |
| `TradePaging.ViewIsLargestPage` | apps/web/lib/backtest-form.ts:429-447 | after any sequence of responses of one run, in any order and with repeats, the view is the page of the largest limit seen |
| `TradePaging.ArrivalOrderIsIrrelevant` | apps/web/lib/backtest-form.ts:429-447 | two sequences with the same set of limits converge |
| `TradePaging.NextSizeIsLeastAbove` | apps/web/lib/backtest-form.ts:461-464 | the next page size is the least one above the loaded count, undefined exactly at the cap |
| `TradePaging.LoadMoreMakesProgress` | apps/web/lib/backtest-form.ts:457-464 | while more is offered the next size exists and its page strictly increases the count; when not, every stored trade is shown |
| `TradePaging.LoadAllShowsEverything` | apps/web/lib/backtest-form.ts:457-464 | repeated load-more terminates with every stored trade |
| `TradePaging.CaptionIsHonest` | apps/web/lib/backtest-form.ts:474-480 | the load-more caption appears exactly while more can be fetched and names the number of trades shown, the cap caption exactly when the run has more setups than are stored |
| `GuardedTicker.InvHolds` | apps/api/src/scanner-worker.ts:153-242 | the ticker's invariant holds after every sequence of events |
| `GuardedTicker.SingleFlight` | apps/api/src/scanner-worker.ts:167-202 | in every reachable state at most one cycle is in progress, and `inFlight` names it exactly while its body or finally step is pending |
| `GuardedTicker.NoStartAfterStop` | apps/api/src/scanner-worker.ts:226-240 | after stop() is called no cycle starts under any later events |
| `GuardedTicker.StopIsFinal` | apps/api/src/scanner-worker.ts:226-240 | once stop() has resolved nothing runs, no timer is armed and nothing ever runs again |
| `GuardedTicker.StoppedEventsSettle` | apps/api/src/scanner-worker.ts:226-240 | after stop() every event but another stop() strictly decreases a rank, so shutdown terminates |
| `GuardedTicker.PendingStopCanProceed` | apps/api/src/scanner-worker.ts:226-240 | and until stop() has resolved some such event is possible |
| `GuardedTicker.CadenceIsExact` | apps/api/src/scanner-worker.ts:172-192 | for k started cycles maintenance is attempted exactly floor(k / N) times, skipped ticks not counted; each finished cycle worked exactly once unless its own maintenance threw |
| `TickerRuns.CycleStory` | apps/api/src/scanner-worker.ts:103-200 | over every run, each cycle has seen exactly the events its phase says, in this order and no other: maintenance where it is due, the cache warmed where that is configured, the worker's answer, the finally handler |
| `TickerRuns.WarmsBeforeItWorks` | apps/api/src/scanner-worker.ts:111-130 | a cycle has called its worker only after the cache was warmed, exactly where warming is configured |
| `TickerRuns.WarmsBeforeItAnswers` | apps/api/src/scanner-worker.ts:111-130 | and when the worker answers, the cache has been warmed before, exactly where that is configured |
| `TickerRuns.NextForCycle` | apps/api/src/scanner-worker.ts:103-200 | which event of a cycle can happen next, by the events it has seen: exactly those of the call it awaits |
| `TickerRuns.TimersByHistory` | apps/api/src/scanner-worker.ts:204-236 | the interval can fire exactly until stop() is called, the delayed first tick once and only with a positive delay; the fires are counted |
| `TickerRuns.FiresStartCycles` | apps/api/src/scanner-worker.ts:167-172 | a fire starts a cycle exactly when every cycle before it has run its finally handler; nothing else does but an immediate start |
| `TickerRuns.StopStory` | apps/api/src/scanner-worker.ts:226-240 | a call of stop() has resolved only after the cycle it met and, exactly where there is one to await, the service |
| `TickerRuns.StopMeets` | apps/api/src/scanner-worker.ts:236 | stop() waits for the cycle whose finally handler has not run, if there is one |
| `ScannerWorker.ConfigOf` | apps/api/src/scanner-worker.ts:157-159 | six runs between maintenance by default and never less than one; a first tick unless switched off, delayed only by a positive delay; warming and the service exactly where they are given |
| `ScannerWorker.ScannerTicker.constructor` | apps/api/src/scanner-worker.ts:161-220 | starting the ticker reaches the initial state of the protocol; from here on the object is valid, its fields being the state its events lead to |
| `ScannerWorker.ScannerTicker.RunOnce` | apps/api/src/scanner-worker.ts:167-202 | one tick is the protocol's guarded start; nothing changes while a cycle is in flight or after stop |
| `ScannerWorker.ScannerTicker.RunScannerWorkerCycle` | apps/api/src/scanner-worker.ts:103-130 | a cycle warms first exactly where ingestion is configured, with no scan called yet, and otherwise scans at once |
| `ScannerWorker.ScannerTicker.InitialFire` | apps/api/src/scanner-worker.ts:211-216 | the delayed first fire is its protocol step and starts nothing while a cycle is in flight |
| `ScannerWorker.ScannerTicker.IntervalFire` | apps/api/src/scanner-worker.ts:204-206 | an interval fire is its protocol step and starts nothing while a cycle is in flight |
| `ScannerWorker.ScannerTicker.MaintenanceSettles` | apps/api/src/scanner-worker.ts:173-197 | maintenance resolving or throwing is its protocol step |
| `ScannerWorker.ScannerTicker.WarmSettle` | apps/api/src/scanner-worker.ts:111-130 | a cache warm, failed or not, leads to exactly one scan |
| `ScannerWorker.ScannerTicker.ScanSettles` | apps/api/src/scanner-worker.ts:130-197 | the scan resolving or throwing is its protocol step |
| `ScannerWorker.ScannerTicker.Finally` | apps/api/src/scanner-worker.ts:198-200 | the finally handler clears `inFlight`, which named this cycle, and no cycle is in progress afterwards |
| `ScannerWorker.ScannerTicker.StopCall` | apps/api/src/scanner-worker.ts:226-236 | stop() up to its first await: neither timer can fire any more, and what it then waits for |
| `ScannerWorker.ScannerTicker.TickAwait` | apps/api/src/scanner-worker.ts:236-237 | stop() resumes when the cycle it awaits has ended, and then none is in progress |
| `ScannerWorker.ScannerTicker.ServiceAwait` | apps/api/src/scanner-worker.ts:237-239 | stop() resolves after the service is idle, with no cycle in progress |
| `DeliveryWorker.ConfigOf` | apps/api/src/delivery-worker.ts:51-52 | ten runs between maintenance by default and never less than one; an immediate start unless switched off |
| `DeliveryWorker.DeliveryTicker.constructor` | apps/api/src/delivery-worker.ts:46-110 | starting reaches the initial state and records the immediate start, if any |
| `DeliveryWorker.DeliveryTicker.RunOnce` | apps/api/src/delivery-worker.ts:59-102 | a guarded start, recorded exactly when a cycle starts |
| `DeliveryWorker.DeliveryTicker.IntervalFire` | apps/api/src/delivery-worker.ts:104-106 | an interval fire is its protocol step and records what that step records |
| `DeliveryWorker.DeliveryTicker.MaintenanceSettles` | apps/api/src/delivery-worker.ts:69-97 | failed maintenance skips the batch and records one failure |
| `DeliveryWorker.DeliveryTicker.BatchSettles` | apps/api/src/delivery-worker.ts:83-97 | the batch records one success or one failure |
| `DeliveryWorker.DeliveryTicker.Finally` | apps/api/src/delivery-worker.ts:98-100 | the finally handler clears `inFlight`, which named this cycle, and no cycle is in progress afterwards |
| `DeliveryWorker.DeliveryTicker.StopCall` | apps/api/src/delivery-worker.ts:116-123 | stop() up to its await: the timer cannot fire any more |
| `DeliveryWorker.DeliveryTicker.TickAwait` | apps/api/src/delivery-worker.ts:122 | stop() resolves when the cycle it awaits has ended, with none in progress |
| `WorkerLiveness.FailureCode` | apps/api/src/worker-liveness.ts:148-157 | an object's code where it is one, else its name where it is one, a string that is a code, and `unknown` otherwise: 1 to 32 lower-case code characters |
| `WorkerLiveness.Liveness.constructor` | apps/api/src/worker-liveness.ts:107-111 | three workers with empty records |
| `WorkerLiveness.Liveness.RecordWorkerStart` | apps/api/src/worker-liveness.ts:114-116 | one worker's record counts one more in flight, the others are untouched |
| `WorkerLiveness.Liveness.RecordWorkerSuccess` | apps/api/src/worker-liveness.ts:119-124 | one success, one fewer in flight (never below zero), the time kept |
| `WorkerLiveness.Liveness.RecordWorkerFailure` | apps/api/src/worker-liveness.ts:130-140 | one failure, one fewer in flight (never below zero), time and code kept |
| `DeliveryRoute.DeliveryRun.constructor` | apps/api/src/routes/notifications.ts:283 | a requested batch records its start |
| `DeliveryRoute.DeliveryRun.Settle` | apps/api/src/routes/notifications.ts:284-292 | and exactly one outcome |
| `NotificationHeartbeat.BatchSize` | apps/api/src/notification-heartbeat.ts:122-123 | any request is clamped into 1..5, an admissible one kept, and five taken where none or no number is given |
| `NotificationHeartbeat.TimeoutMs` | apps/api/src/notification-heartbeat.ts:124 | a drain is bounded exactly by the default, a positive number of milliseconds or a positive infinite bound; one that is not a number leaves it unbounded; the bound is ten seconds by default |
| `NotificationHeartbeat.TimeoutCode` | apps/api/src/notification-heartbeat.ts:90-94 | a timeout is recorded under its class name in lower case |
| `NotificationHeartbeat.HeartbeatDrain.constructor` | apps/api/src/notification-heartbeat.ts:119-132 | a drain starts with a clamped batch and a recorded start; a synchronous throw is recorded as a failure at once |
| `NotificationHeartbeat.HeartbeatDrain.BatchSettle` | apps/api/src/notification-heartbeat.ts:102-111 | the batch decides the race, as it settled, unless the timeout already has |
| `NotificationHeartbeat.HeartbeatDrain.TimeoutFire` | apps/api/src/notification-heartbeat.ts:99-101 | the timeout wins an undecided race; the batch keeps running |
| `NotificationHeartbeat.HeartbeatDrain.Continue` | apps/api/src/notification-heartbeat.ts:132-152 | a success exactly when a resolved batch won, a timed-out failure exactly when the timeout did; it is recorded, and the caller gets it with its code |
| `FxSourceRunner.FxInvHolds` | apps/api/src/fx-source-runner.ts:187-201 | `running` is set exactly while a ticker check is pending, after every sequence of events |
| `FxSourceRunner.FxTickerIsSingleFlight` | apps/api/src/fx-source-runner.ts:187-213 | at most one ticker check is in progress, and after stop() no tick starts another |
| `FxSourceRunner.CheckStory` | apps/api/src/fx-source-runner.ts:129-158 | over every run, a check's outcome is how the service answered it, and its tick has returned exactly when its finally block ran |
| `FxSourceRunner.NextForCheck` | apps/api/src/fx-source-runner.ts:129-201 | the service can answer a check exactly once, and a tick's finally block runs exactly once after that |
| `FxSourceRunner.FxTimersByHistory` | apps/api/src/fx-source-runner.ts:203-212 | the timers can fire exactly until stop() is called, the first one once |
| `FxSourceRunner.FxFiresStartChecks` | apps/api/src/fx-source-runner.ts:187-205 | a timer starts a check exactly when no tick is pending, the internal route always |
| `FxSourceRunner.FxSourceTicker.constructor` | apps/api/src/fx-source-runner.ts:183-205 | the ticker starts with both timers armed, valid: its fields are a reachable state |
| `FxSourceRunner.FxSourceTicker.BeginCheck` | apps/api/src/fx-source-runner.ts:129-137 | every check records its start |
| `FxSourceRunner.FxSourceTicker.Tick` | apps/api/src/fx-source-runner.ts:187-193 | a tick starts a check unless stopped or running |
| `FxSourceRunner.FxSourceTicker.TimerFire` | apps/api/src/fx-source-runner.ts:203-205 | either timer's fire is its protocol step and records what that step records |
| `FxSourceRunner.FxSourceTicker.RouteCall` | apps/api/src/fx-source-runner.ts:129-133 | the internal route starts a check whatever the ticker does |
| `FxSourceRunner.FxSourceTicker.CheckSettle` | apps/api/src/fx-source-runner.ts:134-158 | a check records one success or one failure |
| `FxSourceRunner.FxSourceTicker.TickReturn` | apps/api/src/fx-source-runner.ts:198-200 | the finally block releases the guard, and no ticker check is pending afterwards |
| `FxSourceRunner.FxSourceTicker.Stop` | apps/api/src/fx-source-runner.ts:208-212 | stop() disarms both timers, neither of which can fire any more, and awaits nothing |
| `LivenessConservation.SystemInvHolds` | apps/api/src/worker-liveness.ts:107-140 | the counters agree with the outcomes of all invocations after every interleaving of ticker, drains, requested batches and checks |
| `LivenessConservation.EveryStartIsAccountedFor` | apps/api/src/worker-liveness.ts:113-140 | in every reachable state starts = successes + failures + inFlight, for notifications and for fxSource, and inFlight is the number of unfinished invocations |
| `LivenessConservation.ClampNeverBites` | apps/api/src/worker-liveness.ts:121-136 | an outcome is recorded only while its own start is in flight, so the clamp at zero never changes a value |
| `LivenessConservation.OutcomesAreFinal` | apps/api/src/notification-heartbeat.ts:128-151 | over every continuation no recorded outcome is replaced or recorded again; a drain whose timeout won ends as one timed-out failure whenever its batch settles |
| `SystemRuns.DrainStory` | apps/api/src/notification-heartbeat.ts:96-152 | over every interleaving, what settled a drain's race first decides its end: a batch that settles before any timeout is recorded as it settled, a drain whose timeout fired first as one timed-out failure, a worker that threw at once as a failure |
| `SystemRuns.FirstSettledDecides` | apps/api/src/notification-heartbeat.ts:132-152 | a drain whose batch settles first is recorded by its continuation as one success exactly when the batch resolved, and otherwise as one failure |
| `SystemRuns.NextForDrain` | apps/api/src/notification-heartbeat.ts:96-152 | what can happen to a drain next, by what has happened to it: its batch settles once, a bounded wait may time out before that, and the first of the two is continued once |
| `SystemRuns.RecordsFollowEvents` | apps/api/src/worker-liveness.ts:113-140 | after every run, whatever event comes next, both records change exactly as that event reports: which counters, by one, with the event's time and code, and nothing else |
| `SystemRuns.RecordsAreTimed` | apps/api/src/worker-liveness.ts:97-140 | a time of success is kept exactly after a success, a time and a code of failure exactly after a failure |
| `SystemRuns.TickersRunAlone` | apps/api/src/worker-liveness.ts:113-140 | within the process the delivery ticker and the FX checks run as they do alone, so what is proved of them alone holds there |
| `Money.ScaledDenotes` | packages/contracts/src/billing-checkout.ts:176-184 | the printed text denotes exactly value / 10^scale with scale fractional digits, for every integer and scale |
| `Money.TrimmingPreservesValue` | packages/contracts/src/billing-checkout.ts:187-191 | trimming keeps the number, leaves the fewest digits and is idempotent |
| `Money.TrimmedTextIsCanonical` | packages/contracts/src/billing-checkout.ts:176-191 | two (value, scale) pairs print the same trimmed text exactly when they are the same rational number |
| `Money.UsdDisplayIsExact` | packages/contracts/src/billing-checkout.ts:198-202 | whole dollars print without a fraction, others with two digits, and either reads back as the amount |
| `Money.FxDisclosureIsCanonical` | packages/contracts/src/billing-checkout.ts:217-221 | two rates of a pair disclose the same line exactly when they are the same rate |
| `Money.GroupsOfThree` | apps/web/components/billing-payment-records.tsx:26-29 | the grouping puts a comma after every third digit from the right and nowhere else |
| `Money.FormattersAgree` | apps/web/components/billing-payment-records.tsx:22-31 | without its commas the records text is the checkout's text, and it reads back as the amount |
| `Checkout.OnlyTwoRulesCanBreak` | packages/contracts/src/billing-checkout.ts:342-374 | of the nine cross-field rules only the missing link and the FX quote currency can be broken by a projection, each exactly when the session's data breaks it |
| `Checkout.DisclosedExactly` | packages/contracts/src/billing-checkout.ts:432-514 | exactly which sessions are disclosed, and for each refusal which disagreement between the session and its snapshot it stands for |
| `Checkout.OnePricingDecision` | packages/contracts/src/billing-checkout.ts:432-502 | price with plan and interval, payment and FX disclosed come from one snapshot, the price is the session's amount in its currency, the payment agrees with the session's own; without a snapshot that is all there is; a link is disclosed exactly on initialized sessions, which are fully disclosed |
| `Checkout.DisplaysAreExact` | packages/contracts/src/billing-checkout.ts:477-489 | the three displays read back as the amount charged, the price and the rate |
| `Text.TrimStrips` | packages/contracts/src/billing-checkout.ts:292 | white space around a text is removed, and nothing of the text |
| `Text.DigitsCountUp` | apps/api/src/webhook-allowlist.ts:111-118 | digits count up from 0, letters of either case from ten |
| `Text.ValueByPlace` | apps/api/src/webhook-allowlist.ts:111-118 | the number of a digit string by the place of its digits: what stands before the last k digits counts base^k times its own value |
| `Text.TrimKeepsExactly` | packages/contracts/src/billing-checkout.ts:292 | trimming keeps exactly the texts that neither begin nor end with white space |
| `Checkout.LinkIsVerbatimExactly` | packages/contracts/src/billing-checkout.ts:290-304 | the link is disclosed verbatim if and only if it neither begins nor ends with white space |
| `Checkout.SpacedLinkIsNotVerbatim` | packages/contracts/src/billing-checkout.ts:290-304 | with a space put before its link, any disclosed session is disclosed as before, so not with the link it carries |
| `Checkout.LinkIsNotAlwaysVerbatim` | packages/contracts/src/billing-checkout.ts:290-304 | an instance: the link ` https://pay.example/x`, which the field schemas accept once trimmed |
| `BacktestForm.ValidateBacktestForm` | apps/web/lib/backtest-form.ts:190-239 | each field carries exactly its complaint, told by the number, date or hold that its trimmed text reads as, and the form is valid exactly when it meets every rule |
| `BacktestForm.CheckRange` | apps/web/lib/backtest-form.ts:203-215 | of several complaints about a date the last one written wins |
| `BacktestForm.CheckSelections` | apps/web/lib/backtest-form.ts:193-198 | the two required selections |
| `BacktestForm.CheckHold` | apps/web/lib/backtest-form.ts:217-223 | a whole number from 1 to 5000 |
| `BacktestForm.CheckCosts` | apps/web/lib/backtest-form.ts:225-236 | non-negative costs and an optional positive risk |
| `BacktestForm.AcceptableHasNoComplaints` | apps/web/lib/backtest-form.ts:190-239 | a form meets all rules exactly when no field has a complaint |
| `BacktestForm.SchemaAddsLittle` | apps/web/lib/backtest-form.ts:270-302 | after a valid form the shared schema can complain only about the instrument and the dates, and does so exactly for an unknown instrument or a date outside 1..9999999999999 |
| `BacktestForm.BuildBacktestRequest` | apps/web/lib/backtest-form.ts:251-308 | accepts exactly the acceptable forms the schema knows, never refuses without an error, and builds the request the form asks for: a blank cost is zero and any other is the number its trimmed text reads as, likewise the risk, the dates and the hold, with 0 < from < to <= now, at most ten years, hold 1..5000, costs not negative and risk in range |
| `BacktestForm.MapIssues` | apps/web/lib/backtest-form.ts:279-301 | every issue's field is shown, and nothing else |
| `Flags.SplitWritten` | scripts/billing/fx-validate.ts:108-112 | splitting recovers a flag and its attached value, whatever the value holds |
| `Flags.WrittenSplit` | scripts/billing/fx-validate.ts:108-112 | every token is its flag written with its attached value |
| `FxValidateArgs.ParseArgs` | scripts/billing/fx-validate.ts:115-150 | accepts exactly the lines with nothing wrong at any position, reports the first thing wrong, and returns what the line says: dry run, prohibited list, candidate and as-of |
| `FxValidateArgs.ParseFxArgs` | scripts/billing/fx-validate.ts:115-150 | the same with the tool's own tables, for every argv; and the outcome is that of the listed flags alone exactly when the loop reaches no inherited name at a flag position |
| `FxValidateArgs.OwnKeysSufficeExactly` | scripts/billing/fx-validate.ts:131-143 | a lookup in a table also finds what every object inherits, so the documented reading, in which only listed flags exist, fails: the parser's outcome agrees with it if and only if no inherited name is reached at a flag position |
| `FxValidateArgs.WronglyAcceptedExactly` | scripts/billing/fx-validate.ts:131-143 | an accepted line is accepted by the listed flags alone exactly when no flag position holds an inherited name |
| `FxValidateArgs.InheritedNameIsAccepted` | scripts/billing/fx-validate.ts:131-141 | an inherited name is accepted as a prohibited flag and takes the next token, where the listed flags alone refuse it |
| `FxValidateArgs.ConstructorIsAccepted` | scripts/billing/fx-validate.ts:131-141 | an instance: `constructor` |
| `FxValidateArgs.ReadProhibited` | scripts/billing/fx-validate.ts:131-141 | a prohibited flag is recorded and takes a following token that is no flag |
| `FxValidateArgs.ReadValue` | scripts/billing/fx-validate.ts:142-147 | a value flag takes its attached value or the next token, which may not be a flag |
| `FxValidateArgs.NoFlagIsSwallowed` | scripts/billing/fx-validate.ts:131-147 | every token of an accepted line is a `--` flag, the value of the flag just before it, or an inherited name read as a flag; no `--` flag is ever a value |
| `FxValidateArgs.ProhibitionsAreAll` | scripts/billing/fx-validate.ts:131-136 | the prohibited list holds exactly the keys found at the flag positions of the line, listed or inherited |
| `FxValidateArgs.ProhibitionsInOrder` | scripts/billing/fx-validate.ts:131-136 | each key stands right after those of the flags before it |
| `FxValidateArgs.LastValueIsLast` | scripts/billing/fx-validate.ts:142-147 | each field holds its last supplied value |
| `FxValidateArgs.OnlyGivenFields` | scripts/billing/fx-validate.ts:142-147 | a field no flag supplies stays absent |
| `FxValidateArgs.AcceptedLinesCompose` | scripts/billing/fx-validate.ts:115-150 | accepted lines may be joined unless the first would take the second's first token, which only a bare inherited name allows |
| `FxValidateArgs.FxTablesAreConsistent` | scripts/billing/fx-validate.ts:73-99 | the tool's tables meet the parser's assumptions: plain `--` flags, bare inherited names, and no prohibited key that a value could overwrite |
| `FxValidateArgs.UsageLinesFill` | scripts/billing/fx-validate.ts:87-99 | each value flag of the usage text, given alone with any value in either spelling, fills the field it is for and nothing else |
| `FxValidateArgs.UsageLinesProhibit` | scripts/billing/fx-validate.ts:73-85 | each prohibited flag is recorded under its own key, asserted whatever its value |
| `FxValidateArgs.RefusalSaysWhy` | scripts/billing/fx-validate.ts:119-150 | a refusal is for the first wrong flag and says what is wrong: help, a value where none is taken, no value where one is needed, or a flag the tool does not know |
| `SandboxArgs.ParseArgs` | scripts/billing/provision-sandbox.ts:164-216 | accepts exactly the lines with nothing wrong at any position, reports the first thing wrong, and returns what the line says |
| `SandboxArgs.ParseSandboxArgs` | scripts/billing/provision-sandbox.ts:164-216 | the same with the tool's own words: a parser of any argv at all |
| `SandboxArgs.ReadSwitch` | scripts/billing/provision-sandbox.ts:172-182 | `--apply` and `--dry-run` take no value and exclude each other |
| `SandboxArgs.ReadValue` | scripts/billing/provision-sandbox.ts:183-213 | value flags need a value, must be known and are single-use, in this order |
| `SandboxArgs.RenderedLineIsRead` | scripts/billing/provision-sandbox.ts:157-216 | any well-formed items, in any order, written `--k v` or `--k=v`, are accepted and read as exactly what they ask for |
| `SandboxArgs.AcceptedLinesAreRendered` | scripts/billing/provision-sandbox.ts:157-216 | the parser accepts exactly the lines that well-formed items are written as |
| `SandboxArgs.SpellingIsIrrelevant` | scripts/billing/provision-sandbox.ts:157-216 | items that ask for the same give the same arguments, however ordered and spelled |
| `SandboxArgs.NeverBoth` | scripts/billing/provision-sandbox.ts:172-182 | no accepted line sets both apply and dryRunExplicit |
| `SandboxArgs.SandboxNamesAreConsistent` | scripts/billing/provision-sandbox.ts:168-212 | the tool's own words meet the parser's assumptions |
| `SandboxArgs.UsageItemsFill` | scripts/billing/provision-sandbox.ts:172-212 | on every accepted line each value flag of the usage text fills the field it is for, and the two switches are set exactly where their words occur |
| `SandboxArgs.RefusalSaysWhy` | scripts/billing/provision-sandbox.ts:164-213 | a refusal is for the first wrong flag and says which of the six things is wrong with it |
| `LiveArgs.ParseArgs` | scripts/billing/provision-live.ts:117-157 | accepts exactly the lines with nothing wrong at any position, reports the first thing wrong, and returns what the line says: the last value of a repeated flag, all plans and amounts in order |
| `LiveArgs.ReadFlag` | scripts/billing/provision-live.ts:125-154 | the value is looked for first, then the flag |
| `LiveArgs.HelpNeedsValue` | scripts/billing/provision-live.ts:125-151 | a line that asks for help gets it if and only if the help word comes with a value, and is otherwise refused for want of one |
| `LiveArgs.HelpExactly` | scripts/billing/provision-live.ts:125-151 | help is given on exactly the lines whose first wrong position is a help word with a value |
| `LiveArgs.BareHelpIsRefused` | scripts/billing/provision-live.ts:125-151 | a help word alone is refused for want of a value |
| `LiveArgs.LiveNamesAreConsistent` | scripts/billing/provision-live.ts:121-153 | the tool's own words meet the parser's assumptions |
| `LiveArgs.ParseLiveArgs` | scripts/billing/provision-live.ts:117-157 | the same parser with the tool's own words, for every argv |
| `LiveArgs.UsageLinesFill` | scripts/billing/provision-live.ts:121-153 | each flag of the usage text, given alone with any value in either spelling, fills the field it is for and nothing else |
| `LiveArgs.LastValueCounts` | scripts/billing/provision-live.ts:130-142 | of a repeated flag the last value counts |
| `LiveArgs.OnlyGivenFields` | scripts/billing/provision-live.ts:130-149 | a flag that is not given leaves its field empty |
| `LiveArgs.ListsInOrder` | scripts/billing/provision-live.ts:143-149 | every plan and every amount given is kept, in order |
| `LiveArgs.RefusalSaysWhy` | scripts/billing/provision-live.ts:125-154 | a refusal is for the first flag that is not one with a value: it lacks one, or asks for help, or is unknown |
| `LivePlanSlots.EntryIsReadAtFirstEquals` | scripts/billing/provision-live.ts:172-183 | every entry is told apart at its first `=`: no slot before it, an unknown slot and a blank value are three different refusals, and anything else is a pair |
| `LivePlanSlots.UsagePairsAreRead` | scripts/billing/provision-live.ts:172-183 | each of the tool's four slots is read back with any code |
| `LivePlanSlots.FromConfiguration` | scripts/billing/provision-live.ts:206-214 | without flags, a missing or blank configuration is refused as missing plans, one that cannot be read as such, and any other is the result |
| `LivePlanSlots.ParseSlotPairs` | scripts/billing/provision-live.ts:169-186 | accepts exactly entries that are all pairs with different slots, returns exactly their pairs, and otherwise reports the first entry that is wrong |
| `LivePlanSlots.WrittenPairIsRead` | scripts/billing/provision-live.ts:172-175 | `slot=value` reads back, even when the value holds `=` |
| `LivePlanSlots.OrderIsIrrelevant` | scripts/billing/provision-live.ts:169-186 | a permutation of accepted entries is accepted and gives the same map |
| `LivePlanSlots.MapIsUnique` | scripts/billing/provision-live.ts:169-186 | accepted entries determine the map |
| `LivePlanSlots.OneSlotEach` | scripts/billing/provision-live.ts:183-184 | n accepted entries fill n slots: none overwrites another |
| `LivePlanSlots.AllSlotsFilled` | scripts/billing/provision-live.ts:193-204 | pigeonhole: as many entries as slots leave no slot undefined, and more entries than slots are always refused |
| `LivePlanSlots.ResolvePlanCodes` | scripts/billing/provision-live.ts:193-215 | all codes from flags, covering every slot, or without flags exactly what the configuration gives; some but not all are refused, and a wrong entry is refused for what is wrong with it |
| `LivePlanSlots.FourPlansFillEverySlot` | scripts/billing/provision-live.ts:193-204 | with the tool's four slots: four accepted flags define every slot, fewer do not, five are never accepted |
| `LivePlanSlots.ResolveLivePlanCodes` | scripts/billing/provision-live.ts:193-215 | the same choice with the tool's four slots |
| `Base64Url.UrlBase64ToBytes` | apps/web/lib/push.ts:17-26 | the loop fills every position of the array with the decoded bytes; an error of `atob` passes through |
| `Base64Url.Padding` | apps/web/lib/push.ts:18 | fewer than four `=` make the length a multiple of four |
| `Base64Url.RoundTrip` | apps/web/lib/push.ts:17-26 | every byte sequence is recovered from its base64url text of RFC 4648 section 5, unpadded or padded |
| `Base64Url.BareTextDecodes` | apps/web/lib/push.ts:17-20 | text without padding decodes exactly when all characters belong to one of the two alphabets and its length is not 1 modulo 4 |
| `Base64Url.PaddedTextDecodes` | apps/web/lib/push.ts:18-20 | written padding changes nothing |
| `Base64Url.EncodingIsCanonical` | apps/web/lib/push.ts:17-26 | a decodable base64url text is the encoding of its bytes exactly when no left-over bits are set |
| `Base64Url.BytesInOrder` | apps/web/lib/push.ts:17-26 | read as one number, most significant digit first, the bytes are the six-bit groups cut after the last whole byte |
| `Base64Url.AlphabetInOrder` | apps/web/lib/push.ts:19-20 | the URL-safe alphabet counts up through capitals, small letters, digits, `-` and `_` |
| `Base64Url.BytesLength` | apps/web/lib/push.ts:20-21 | the array's length: three bytes for four characters, one or two for a rest of two or three |

## Left out

- AddressGrammar.NetIsIp: stands for `net.isIP`; of zone identifiers only the place of the first `%` is modelled, because the parser refuses every text with one.
- Text.LowerChar: lower-cases ASCII letters only; other characters never occur in an accepted address or in a machine code.
- Text.Trim: removes the white space of the ECMAScript grammar; no other normalisation of Unicode is modelled, and a character is a code point rather than a UTF-16 unit.
- AllowList.Shr: shifts are repeated halvings of unbounded integers, as the source's BigInt shifts are.
- TradePaging.MergeTrades: a trade is its seq number and an opaque rest; the map and the sort are values rather than updated in place.
- TradePaging.ViewIsLargestPage: the server is modelled from its own code and comments; a run that changes between two requests is not modelled.
- GuardedTicker.InvHolds: loggers never throw (a logger throwing inside the `try` would record one run twice); worker bodies are steps that finish or fail; interval lengths and real time are not modelled.
- ScannerWorker.ConfigOf: options that are not finite numbers are not modelled; neither is the `running` property.
- FxSourceRunner.FxSourceTicker.Stop: does not claim that a running check has finished, because stop() does not await it.
- LivenessConservation.EveryStartIsAccountedFor: the scanner's own record is left out, because its recording calls lie outside the ticker.
- NotificationHeartbeat.HeartbeatDrain.Continue: the batch summary and its logging are left out.
- NotificationHeartbeat.TimeoutMs: delays beyond 2^31 - 1 milliseconds keep their value, though the platform shortens them to one; the timer of a bounded drain may fire at any moment here.
- Money.GroupsOfThree: `Intl.NumberFormat('en-GH')` is a small specification of digit grouping.
- Money.FormattersAgree: amounts are non-negative, as a verified record's are.
- Checkout.DisclosedExactly: the schemas of the single fields are one predicate of the disclosed shape; the fields that are pinned to `false` by type are left out.
- BacktestForm.ValidateBacktestForm: `Number()` and local dates are parameters; numbers are exact reals and dates integers.
- BacktestForm.BuildBacktestRequest: direction, exit choices and pinned defaults are passed through unchanged and left out; the instrument schema is a parameter.
- FxValidateArgs.ParseArgs: an inherited value is represented by its text as a property key, which for functions is that of the V8 engine; properties other code adds to `Object.prototype` are not modelled.
- SandboxArgs.ParseArgs: an absent and a false `dryRunExplicit` are one.
- LivePlanSlots.ResolvePlanCodes: reading the environment and the configured JSON are parameters.
- Base64Url.UrlBase64ToBytes: `atob` is the forgiving decode of the WHATWG Infra standard, as a specification.
- The usage texts, the exit codes and the printing of outcomes of the three tools.
- `date` presets, local-time serialisation and metric formatting of the backtest form are library behaviour.
- Log redaction, proxy trust, HTTP routes, database, payment and market-data adapters, mail and push delivery are plumbing around code outside this model.
- React components, the service worker and all copy text have no state beyond display.
- The execution engine, scoring, risk and the billing services of `packages/core` are not part of this model.
