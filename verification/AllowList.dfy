/** The webhook allow-list of apps/api/src/webhook-allowlist.ts: parsing the
    configured text into networks, and matching an address against them. */
module AllowList {
  import opened Results
  import opened Text
  import opened AddressGrammar
  import opened IpParser
  import opened AddressTheorems

  datatype Entry = Entry(bits: nat, family: Family, prefix: nat, raw: string)

  datatype Refusal =
    | NotAnAddress(entry: string)
    | PrefixNotANumber(entry: string)
    | PrefixOutOfRange(entry: string)

  const DOCUMENTED_SOURCES: seq<string> := ["52.31.139.75", "52.49.173.169", "52.214.14.220"]

  function Width(family: Family): nat {
    if family == V4 then 32 else 128
  }

  /** How many addresses a family has: `2 ** Width(family)`, see `LimitIsPower`. */
  function Limit(family: Family): nat {
    if family == V4 then 0x1_0000_0000 else TWO_TO_128
  }

  // ------------------------------------------------------- the configured text

  predicate IsSeparator(c: char) {
    c == ',' || IsSpace(c)
  }

  function WordLength(s: string): (n: nat)
    ensures n <= |s|
  {
    if s == "" || IsSeparator(s[0]) then 0 else 1 + WordLength(s[1..])
  }

  /** `raw.split(/[,\s]+/)` without its empty parts; no part holds a space to trim. */
  function ListWords(raw: string): seq<string>
    decreases |raw|
  {
    if raw == "" then []
    else if IsSeparator(raw[0]) then ListWords(raw[1..])
    else [raw[..WordLength(raw)]] + ListWords(raw[WordLength(raw)..])
  }

  function LowerAll(words: seq<string>): (lowered: seq<string>)
    ensures |lowered| == |words|
  {
    seq(|words|, i requires 0 <= i < |words| => Lower(words[i]))
  }

  function Source(raw: string): seq<string> {
    var entries := LowerAll(ListWords(raw));
    if entries == [] then DOCUMENTED_SOURCES else entries
  }

  /** One entry: an address, or an address and a prefix length after the last slash. */
  function EntryOf(entry: string): Result<Entry, Refusal> {
    var slash := LastIndexOf(entry, '/');
    match IpBits(if slash == -1 then entry else entry[..slash])
    case None => Err(NotAnAddress(entry))
    case Some(ip) =>
      if slash == -1 then Ok(Entry(ip.bits, ip.family, Width(ip.family), entry))
      else
        var digits := entry[slash + 1..];
        if digits == "" || !IsNumeral(digits, 10) then Err(PrefixNotANumber(entry))
        else if !(0 < Value(digits, 10) <= Width(ip.family)) then Err(PrefixOutOfRange(entry))
        else Ok(Entry(ip.bits, ip.family, Value(digits, 10), entry))
  }

  /** All the networks, or the first refusal. */
  function Collect(outcomes: seq<Result<Entry, Refusal>>): Result<seq<Entry>, Refusal> {
    if outcomes == [] then Ok([])
    else
      match (Collect(outcomes[..|outcomes| - 1]), outcomes[|outcomes| - 1])
      case (Err(why), _) => Err(why)
      case (Ok(_), Err(why)) => Err(why)
      case (Ok(entries), Ok(entry)) => Ok(entries + [entry])
  }

  function Outcomes(source: seq<string>): (outcomes: seq<Result<Entry, Refusal>>)
    ensures |outcomes| == |source|
  {
    seq(|source|, i requires 0 <= i < |source| => EntryOf(source[i]))
  }

  function AllowListOf(raw: string): Result<seq<Entry>, Refusal> {
    Collect(Outcomes(Source(raw)))
  }

  predicate IsUsable(entry: Entry) {
    && 1 <= entry.prefix <= Width(entry.family)
    && entry.bits < Limit(entry.family)
  }

  predicate AreUsable(entries: seq<Entry>) {
    forall i | 0 <= i < |entries| :: IsUsable(entries[i])
  }

  method ParsePaystackWebhookAllowList(raw: string) returns (r: Result<seq<Entry>, Refusal>)
    ensures r == AllowListOf(raw)
    ensures r.Ok? ==> r.value != [] && AreUsable(r.value)
    ensures forall lead, words, gaps | IsWriting(raw, lead, words, gaps) :: IsListOf(r, words)
  {
    forall lead, words, gaps | IsWriting(raw, lead, words, gaps) ensures IsListOf(AllowListOf(raw), words) {
      WrittenListIsRead(raw, lead, words, gaps);
    }
    var source := Source(raw);
    SourceHasEntries(raw);
    ghost var outcomes := Outcomes(source);
    var parsed: seq<Entry> := [];
    for n := 0 to |source|
      invariant |parsed| == n
      invariant Collect(outcomes[..n]) == Ok(parsed) && AreUsable(parsed)
    {
      var entry := ParseEntry(source[n]);
      CollectStep(outcomes, n);
      if entry.Err? {
        return Err(entry.error);
      }
      parsed := parsed + [entry.value];
    }
    assert outcomes[..|source|] == outcomes;
    return Ok(parsed);
  }

  lemma SourceHasEntries(raw: string)
    ensures Source(raw) != []
  {
  }

  lemma CollectStep(outcomes: seq<Result<Entry, Refusal>>, n: nat)
    requires n < |outcomes| && Collect(outcomes[..n]).Ok?
    ensures outcomes[n].Ok? ==> Collect(outcomes[..n + 1]) == Ok(Collect(outcomes[..n]).value + [outcomes[n].value])
    ensures outcomes[n].Err? ==> Collect(outcomes) == Err(outcomes[n].error)
  {
    assert outcomes[..n + 1][..n] == outcomes[..n];
    if outcomes[n].Err? {
      RefusalStays(outcomes, n + 1);
    }
  }

  lemma {:induction false} RefusalStays(outcomes: seq<Result<Entry, Refusal>>, n: nat)
    requires n <= |outcomes| && Collect(outcomes[..n]).Err?
    ensures Collect(outcomes) == Collect(outcomes[..n])
    decreases |outcomes|
  {
    if n < |outcomes| {
      var init := outcomes[..|outcomes| - 1];
      assert init[..n] == outcomes[..n];
      RefusalStays(init, n);
    } else {
      assert outcomes[..n] == outcomes;
    }
  }

  /** An accepted list has one network an entry, in order; a refused one is
      refused for its first unusable entry, whatever else it lists. */
  lemma {:induction false} CollectIsEntrywise(outcomes: seq<Result<Entry, Refusal>>)
    ensures match Collect(outcomes)
            case Ok(entries) =>
              |entries| == |outcomes| && forall i | 0 <= i < |outcomes| :: outcomes[i] == Ok(entries[i])
            case Err(why) =>
              exists n | 0 <= n < |outcomes| :: outcomes[n] == Err(why) && forall i | 0 <= i < n :: outcomes[i].Ok?
  {
    if outcomes != [] {
      var init, last := outcomes[..|outcomes| - 1], |outcomes| - 1;
      CollectIsEntrywise(init);
      assert forall i | 0 <= i < last :: init[i] == outcomes[i];
    }
  }

  /** The body of the loop above. */
  method ParseEntry(entry: string) returns (r: Result<Entry, Refusal>)
    ensures r == EntryOf(entry)
    ensures r.Ok? ==> IsUsable(r.value)
  {
    var slash := LastIndexOf(entry, '/');
    var address := if slash == -1 then entry else entry[..slash];
    var ip := IpBits(address);
    if ip.None? {
      return Err(NotAnAddress(entry));
    }
    var maxBits := Width(ip.value.family);
    var prefix := maxBits;
    if slash != -1 {
      var rawPrefix := entry[slash + 1..];
      if rawPrefix == "" || !IsNumeral(rawPrefix, 10) {
        return Err(PrefixNotANumber(entry));
      }
      prefix := Value(rawPrefix, 10);
      if !(prefix > 0 && prefix <= maxBits) {
        return Err(PrefixOutOfRange(entry));
      }
    }
    BitsFitTheFamily(address);
    return Ok(Entry(ip.value.bits, ip.value.family, prefix, entry));
  }

  lemma BitsFitTheFamily(address: string)
    ensures var ip := IpBits(address);
      ip.Some? ==> ip.value.bits < Limit(ip.value.family)
  {
    IpBitsInRange(address);
  }

  lemma FourMore(k: nat)
    ensures Pow(2, k + 4) == 16 * Pow(2, k)
  {
    assert Pow(2, k + 1) == 2 * Pow(2, k) && Pow(2, k + 2) == 2 * Pow(2, k + 1);
    assert Pow(2, k + 3) == 2 * Pow(2, k + 2) && Pow(2, k + 4) == 2 * Pow(2, k + 3);
  }

  lemma SixteenMore(k: nat)
    ensures Pow(2, k + 16) == 0x1_0000 * Pow(2, k)
  {
    FourMore(k);
    FourMore(k + 4);
    FourMore(k + 8);
    FourMore(k + 12);
  }

  lemma {:induction false} PowersOfTwo(words: nat)
    ensures Pow(2, 16 * words) == Pow(0x1_0000, words)
  {
    if words > 0 {
      PowersOfTwo(words - 1);
      SixteenMore(16 * (words - 1));
    }
  }

  lemma LimitIsPower(family: Family)
    ensures Limit(family) == Pow(2, Width(family))
  {
    PowersOfTwo(if family == V4 then 2 else 8);
    assert Pow(0x1_0000, 2) == 0x1_0000_0000;
    EightWords();
  }

  // ------------------------------------------------------------------- matching

  /** `n >> k` */
  function Shr(n: nat, k: nat): nat {
    if k == 0 then n else Shr(n / 2, k - 1)
  }

  /** `n << k` */
  function Shl(n: nat, k: nat): nat {
    if k == 0 then n else 2 * Shl(n, k - 1)
  }

  /** BigInt's shift by `width - prefix`, which turns around below zero. */
  function Network(bits: nat, shift: int): nat {
    if shift >= 0 then Shr(bits, shift) else Shl(bits, -shift)
  }

  predicate Admits(entry: Entry, ip: Ip) {
    && entry.family == ip.family
    && Network(entry.bits, Width(entry.family) - entry.prefix) == Network(ip.bits, Width(entry.family) - entry.prefix)
  }

  predicate WebhookIpAllowed(address: string, allowList: seq<Entry>) {
    match IpBits(address)
    case None => false
    case Some(ip) => exists i | 0 <= i < |allowList| :: Admits(allowList[i], ip)
  }

  // ----------------------------------------------------------- shifts and blocks

  /** The numbers that shift to `q` are the `2^k` from `q << k` on. */
  lemma {:induction false} ShiftedTo(n: nat, q: nat, k: nat)
    ensures Shr(n, k) == q <==> Shl(q, k) <= n < Shl(q, k) + Pow(2, k)
  {
    if k > 0 {
      ShiftedTo(n / 2, q, k - 1);
    }
  }

  lemma {:induction false} ShrStep(n: nat, k: nat)
    ensures Shr(n, k + 1) == Shr(n, k) / 2
  {
    if k > 0 {
      ShrStep(n / 2, k - 1);
    }
  }

  lemma {:induction false} ShrSum(n: nat, a: nat, b: nat)
    ensures Shr(n, a + b) == Shr(Shr(n, a), b)
  {
    if a > 0 {
      ShrSum(n / 2, a - 1, b);
    }
  }

  lemma {:induction false} ShrOutOfRange(n: nat, k: nat)
    requires n < Pow(2, k)
    ensures Shr(n, k) == 0
  {
    if k > 0 {
      ShrOutOfRange(n / 2, k - 1);
    }
  }

  lemma {:induction false} ShlIsMultiple(q: nat, k: nat)
    ensures Shl(q, k) == q * Pow(2, k)
  {
    if k > 0 {
      ShlIsMultiple(q, k - 1);
      TwiceAProduct(q, Pow(2, k - 1));
    }
  }

  lemma TwiceAProduct(q: nat, p: nat)
    ensures 2 * (q * p) == q * (2 * p)
  {
  }

  function Bit(n: nat, k: nat): nat {
    Shr(n, k) % 2
  }

  lemma {:induction false} SameHighBits(a: nat, b: nat, k: nat, width: nat)
    requires k <= width && a < Pow(2, width) && b < Pow(2, width)
    ensures Shr(a, k) == Shr(b, k) <==> forall i | k <= i < width :: Bit(a, i) == Bit(b, i)
    decreases width - k
  {
    if k == width {
      ShrOutOfRange(a, k);
      ShrOutOfRange(b, k);
    } else {
      ShrStep(a, k);
      ShrStep(b, k);
      SameHighBits(a, b, k + 1, width);
      assert Bit(a, k) == Shr(a, k) % 2 && Bit(b, k) == Shr(b, k) % 2;
    }
  }

  lemma {:induction false} PowMonotone(k: nat, n: nat)
    requires k <= n
    ensures 1 <= Pow(2, k) <= Pow(2, n)
    decreases n - k, k
  {
    if k < n {
      PowMonotone(k, n - 1);
    } else if k > 0 {
      PowMonotone(k - 1, k - 1);
    }
  }

  // --------------------------------------------------------------- the networks

  function Suffix(entry: Entry): nat
    requires IsUsable(entry)
  {
    Width(entry.family) - entry.prefix
  }

  function BlockStart(entry: Entry): nat
    requires IsUsable(entry)
  {
    Shl(Shr(entry.bits, Suffix(entry)), Suffix(entry))
  }

  function BlockSize(entry: Entry): nat
    requires IsUsable(entry)
  {
    Pow(2, Suffix(entry))
  }

  /** An entry admits precisely the aligned block of `2^(width - prefix)`
      addresses around its own, all of them addresses of its family. */
  lemma EntryAdmitsItsBlock(entry: Entry, ip: Ip)
    requires IsUsable(entry)
    ensures Admits(entry, ip) <==>
            entry.family == ip.family && BlockStart(entry) <= ip.bits < BlockStart(entry) + BlockSize(entry)
    ensures BlockStart(entry) <= entry.bits < BlockStart(entry) + BlockSize(entry)
    ensures BlockStart(entry) + BlockSize(entry) <= Limit(entry.family)
    ensures BlockStart(entry) == Shr(entry.bits, Suffix(entry)) * BlockSize(entry)
  {
    var k := Suffix(entry);
    var q := Shr(entry.bits, k);
    ShiftedTo(ip.bits, q, k);
    ShiftedTo(entry.bits, q, k);
    ShlIsMultiple(q, k);
    LimitIsPower(entry.family);
    BlockFits(entry.bits, k, Width(entry.family));
  }

  lemma {:induction false} BlockFits(n: nat, k: nat, width: nat)
    requires k <= width && n < Pow(2, width)
    ensures Shl(Shr(n, k), k) + Pow(2, k) <= Pow(2, width)
    decreases k
  {
    if k > 0 {
      BlockFits(n / 2, k - 1, width - 1);
    }
  }

  /** That is: the addresses agreeing with it on the first `prefix` bits. */
  lemma EntryAdmitsItsPrefix(entry: Entry, ip: Ip)
    requires IsUsable(entry) && ip.family == entry.family && ip.bits < Limit(ip.family)
    ensures Admits(entry, ip) <==>
            forall i | Suffix(entry) <= i < Width(entry.family) :: Bit(entry.bits, i) == Bit(ip.bits, i)
  {
    LimitIsPower(entry.family);
    SameHighBits(entry.bits, ip.bits, Suffix(entry), Width(entry.family));
  }

  /** Two networks of one family are nested, the longer prefix inside, or disjoint. */
  lemma NestedOrDisjoint(outer: Entry, inner: Entry, ip: Ip)
    requires IsUsable(outer) && IsUsable(inner)
    requires outer.family == inner.family && outer.prefix <= inner.prefix
    ensures if Admits(outer, Ip(inner.bits, inner.family))
            then Admits(inner, ip) ==> Admits(outer, ip)
            else !(Admits(inner, ip) && Admits(outer, ip))
  {
    var k, d := Suffix(inner), inner.prefix - outer.prefix;
    assert Suffix(outer) == k + d;
    ShrSum(inner.bits, k, d);
    ShrSum(ip.bits, k, d);
  }

  /** No single entry admits its whole family. */
  lemma SomeAddressIsOutside(entry: Entry) returns (outside: Ip)
    requires IsUsable(entry)
    ensures outside.family == entry.family && outside.bits < Limit(entry.family)
    ensures !Admits(entry, outside)
  {
    var half := Width(entry.family) - 1;
    PowMonotone(Suffix(entry), half);
    assert Pow(2, half + 1) == 2 * Pow(2, half);
    LimitIsPower(entry.family);
    outside := Ip(if BlockStart(entry) > 0 then 0 else BlockSize(entry), entry.family);
    EntryAdmitsItsBlock(entry, outside);
  }

  // ------------------------------------------------------------ writing an entry

  lemma SlashAt(a: string, digits: string)
    requires digits != "" && IsNumeral(digits, 10)
    ensures var entry := a + "/" + digits;
      LastIndexOf(entry, '/') == |a| && entry[..|a|] == a && entry[|a| + 1..] == digits
  {
    FreeByIndex(digits, '/');
    LastIndexUnique(a, '/', digits);
  }

  lemma PrefixedEntry(a: string, digits: string, ip: Ip, entry: string)
    requires IpBits(a) == Some(ip) && digits != "" && IsNumeral(digits, 10) && entry == a + "/" + digits
    ensures EntryOf(entry) ==
            if 1 <= Value(digits, 10) <= Width(ip.family) then Ok(Entry(ip.bits, ip.family, Value(digits, 10), entry))
            else Err(PrefixOutOfRange(entry))
  {
    SlashAt(a, digits);
  }

  /** An address written with a prefix length is read back, with every prefix of its
      family's range and no other: in particular `/0` is refused. */
  lemma WrittenEntryIsRead(a: string, p: nat, ip: Ip)
    requires IpBits(a) == Some(ip)
    ensures var entry := a + "/" + Numeral(p, 10);
      EntryOf(entry) == if 1 <= p <= Width(ip.family) then Ok(Entry(ip.bits, ip.family, p, entry))
                        else Err(PrefixOutOfRange(entry))
  {
    NumeralValue(p, 10);
    PrefixedEntry(a, Numeral(p, 10), ip, a + "/" + Numeral(p, 10));
  }

  /** What is refused, and why: no address before the last slash, or no digits after it. */
  lemma RefusedEntries(a: string, digits: string)
    requires Free(digits, '/')
    ensures var entry := a + "/" + digits;
      && (EntryOf(entry) == Err(NotAnAddress(entry)) <==> IpBits(a).None?)
      && (EntryOf(entry) == Err(PrefixNotANumber(entry)) <==>
            IpBits(a).Some? && (digits == "" || !IsNumeral(digits, 10)))
  {
    LastIndexUnique(a, '/', digits);
    var entry := a + ['/'] + digits;
    assert entry[..|a|] == a && entry[|a| + 1..] == digits;
  }

  lemma RefusedBareEntry(a: string)
    requires Free(a, '/')
    ensures EntryOf(a) == Err(NotAnAddress(a)) <==> IpBits(a).None?
  {
    NoneLater(a, '/');
  }

  /** A bare address is the network of that one address. */
  lemma BareEntryIsRead(a: string, ip: Ip)
    requires IpBits(a) == Some(ip) && Free(a, '/')
    ensures EntryOf(a) == Ok(Entry(ip.bits, ip.family, Width(ip.family), a))
  {
    NoneLater(a, '/');
  }

  // ------------------------------------------------------------ lists of networks

  /** Every network of an accepted list is usable, so the shift is never negative. */
  lemma AcceptedEntriesAreUsable(raw: string, entries: seq<Entry>)
    requires AllowListOf(raw) == Ok(entries)
    ensures AreUsable(entries)
  {
    var source := Source(raw);
    CollectIsEntrywise(Outcomes(source));
    forall i | 0 <= i < |entries| ensures IsUsable(entries[i]) {
      var entry := source[i];
      assert Outcomes(source)[i] == EntryOf(entry);
      assert EntryOf(entry) == Ok(entries[i]);
      var slash := LastIndexOf(entry, '/');
      BitsFitTheFamily(if slash == -1 then entry else entry[..slash]);
    }
  }

  /** The verdict on an IPv4-mapped text, in either case, is the verdict on its IPv4 address. */
  lemma MappedTextSameVerdict(address: string, allowList: seq<Entry>)
    requires IsMappedText(address)
    ensures WebhookIpAllowed(address, allowList) == WebhookIpAllowed(address[7..], allowList)
  {
    MappedTextIsItsQuad(address);
  }

  lemma OtherFamilyIsRefused(allowList: seq<Entry>, bits: nat)
    requires forall i | 0 <= i < |allowList| :: allowList[i].family == V4
    ensures forall i | 0 <= i < |allowList| :: !Admits(allowList[i], Ip(bits, V6))
  {
  }

  /** "However the platform spells it", at the verdict: of all the spellings of the
      IPv4-mapped address of `q`, a list of IPv4 networks gives exactly the dotted
      `::ffff:` texts the verdict of `q`; the others it refuses whatever it holds. */
  lemma MappedVerdictExactly(sp: Spelling, q: string, allowList: seq<Entry>)
    requires SpellsMapped(sp, q)
    requires forall i | 0 <= i < |allowList| :: allowList[i].family == V4
    ensures WebhookIpAllowed(Render(sp), allowList) <==> IsMappedText(Render(sp)) && WebhookIpAllowed(q, allowList)
  {
    MappedSpellingBits(sp, q);
    OtherFamilyIsRefused(allowList, Address(sp));
  }

  /** An IPv4 entry that admits `q` admits a spelling of its mapped address exactly
      when that is a dotted `::ffff:` text. */
  lemma EntryAdmitsMappedExactly(sp: Spelling, q: string, entry: Entry)
    requires SpellsMapped(sp, q)
    requires entry.family == V4 && Admits(entry, Ip(QuadValue(q), V4))
    ensures WebhookIpAllowed(Render(sp), [entry]) <==> IsMappedText(Render(sp))
  {
    MappedVerdictExactly(sp, q, [entry]);
    QuadBits(q);
    assert Admits([entry][0], Ip(QuadValue(q), V4));
  }

  /** An accepted list admits exactly the texts whose address lies in one of its blocks. */
  lemma AllowedIsMembership(raw: string, entries: seq<Entry>, address: string)
    requires AllowListOf(raw) == Ok(entries)
    ensures AreUsable(entries)
    ensures WebhookIpAllowed(address, entries) <==>
            IpBits(address).Some? &&
            exists i | 0 <= i < |entries| ::
              var ip := IpBits(address).value;
              && entries[i].family == ip.family
              && BlockStart(entries[i]) <= ip.bits < BlockStart(entries[i]) + BlockSize(entries[i])
  {
    AcceptedEntriesAreUsable(raw, entries);
    if IpBits(address).Some? {
      forall i | 0 <= i < |entries|
        ensures Admits(entries[i], IpBits(address).value) <==>
                entries[i].family == IpBits(address).value.family
                && BlockStart(entries[i]) <= IpBits(address).value.bits < BlockStart(entries[i]) + BlockSize(entries[i])
      {
        EntryAdmitsItsBlock(entries[i], IpBits(address).value);
      }
    }
  }

  // ------------------------------------------------------------ separating entries

  predicate IsWord(w: string) {
    w != "" && forall i | 0 <= i < |w| :: !IsSeparator(w[i])
  }

  predicate AreSeparators(s: string) {
    forall i | 0 <= i < |s| :: IsSeparator(s[i])
  }

  lemma {:induction false} WordThenSeparator(w: string, rest: string)
    requires forall i | 0 <= i < |w| :: !IsSeparator(w[i])
    requires rest == "" || IsSeparator(rest[0])
    ensures WordLength(w + rest) == |w|
  {
    if w != "" {
      assert (w + rest)[1..] == w[1..] + rest;
      WordThenSeparator(w[1..], rest);
    } else {
      assert w + rest == rest;
    }
  }

  lemma {:induction false} SkipSeparators(gap: string, rest: string)
    requires AreSeparators(gap)
    ensures ListWords(gap + rest) == ListWords(rest)
  {
    if gap == "" {
      assert gap + rest == rest;
    } else {
      assert (gap + rest)[1..] == gap[1..] + rest;
      SkipSeparators(gap[1..], rest);
    }
  }

  /** Any runs of commas and white space separate entries; runs at either end are ignored. */
  lemma WordsOfList(lead: string, word: string, gap: string, rest: string)
    requires AreSeparators(lead) && AreSeparators(gap) && IsWord(word)
    requires gap == "" ==> rest == ""
    ensures ListWords(lead + word + gap + rest) == [word] + ListWords(rest)
  {
    var tail := gap + rest;
    var s := word + tail;
    assert lead + word + gap + rest == lead + s;
    SkipSeparators(lead, s);
    assert tail == "" || tail[0] == gap[0];
    WordThenSeparator(word, tail);
    assert s[..|word|] == word && s[|word|..] == tail;
    assert s[0] == word[0];
    SkipSeparators(gap, rest);
  }

  /** Only a text without entries selects the documented addresses. */
  lemma {:induction false} OnlySeparatorsSelectDefault(raw: string)
    ensures ListWords(raw) == [] <==> AreSeparators(raw)
    decreases |raw|
  {
    if raw != "" && IsSeparator(raw[0]) {
      OnlySeparatorsSelectDefault(raw[1..]);
      assert AreSeparators(raw[1..]) ==> forall i | 1 <= i < |raw| :: raw[i] == raw[1..][i - 1];
    }
  }

  /** Words with the text that follows each of them. */
  function Spread(words: seq<string>, gaps: seq<string>): string
    requires |gaps| == |words|
  {
    if words == [] then "" else words[0] + gaps[0] + Spread(words[1..], gaps[1..])
  }

  /** `raw` lists these words: between two of them is some white space or comma, and
      there may be more of it at either end. */
  predicate IsWriting(raw: string, lead: string, words: seq<string>, gaps: seq<string>) {
    && words != [] && |gaps| == |words| && AreSeparators(lead)
    && (forall i | 0 <= i < |words| :: IsWord(words[i]) && AreSeparators(gaps[i]))
    && (forall i | 0 <= i < |words| - 1 :: gaps[i] != "")
    && raw == lead + Spread(words, gaps)
  }

  /** `r` is the list of the networks these words are, in order, or the refusal of the
      first of them that is none. */
  predicate IsListOf(r: Result<seq<Entry>, Refusal>, words: seq<string>) {
    match r
    case Ok(entries) =>
      |entries| == |words| && forall i | 0 <= i < |words| :: EntryOf(Lower(words[i])) == Ok(entries[i])
    case Err(why) =>
      exists n | 0 <= n < |words| ::
        EntryOf(Lower(words[n])) == Err(why) && forall i | 0 <= i < n :: EntryOf(Lower(words[i])).Ok?
  }

  lemma Regroup(lead: string, word: string, gap: string, rest: string)
    ensures lead + word + gap + rest == lead + (word + gap + rest)
    ensures word + (gap + rest) == "" + (word + gap + rest)
  {
  }

  lemma {:induction false} WritingIsSplit(lead: string, words: seq<string>, gaps: seq<string>)
    requires |gaps| == |words| && AreSeparators(lead)
    requires forall i | 0 <= i < |words| :: IsWord(words[i]) && AreSeparators(gaps[i])
    requires forall i | 0 <= i < |words| - 1 :: gaps[i] != ""
    ensures ListWords(lead + Spread(words, gaps)) == words
    decreases |words|
  {
    if words == [] {
      assert lead + "" == lead;
      OnlySeparatorsSelectDefault(lead);
    } else {
      var rest := Spread(words[1..], gaps[1..]);
      WritingIsSplit("", words[1..], gaps[1..]);
      assert "" + rest == rest;
      WordsOfList(lead, words[0], gaps[0], rest);
      Regroup(lead, words[0], gaps[0], rest);
    }
  }

  lemma OutcomesOfWords(words: seq<string>)
    ensures var outcomes := Outcomes(LowerAll(words));
      |outcomes| == |words| && forall i | 0 <= i < |words| :: outcomes[i] == EntryOf(Lower(words[i]))
  {
    var source := LowerAll(words);
    assert forall i | 0 <= i < |words| :: source[i] == Lower(words[i]);
  }

  lemma CollectedIsList(r: Result<seq<Entry>, Refusal>, outcomes: seq<Result<Entry, Refusal>>, words: seq<string>)
    requires r == Collect(outcomes) && |outcomes| == |words|
    requires forall i | 0 <= i < |words| :: outcomes[i] == EntryOf(Lower(words[i]))
    ensures IsListOf(r, words)
  {
    CollectIsEntrywise(outcomes);
  }

  /** However its words are spread out, a configured text is read as the list of them. */
  lemma WrittenListIsRead(raw: string, lead: string, words: seq<string>, gaps: seq<string>)
    requires IsWriting(raw, lead, words, gaps)
    ensures IsListOf(AllowListOf(raw), words)
  {
    WritingIsSplit(lead, words, gaps);
    OutcomesOfWords(words);
    CollectedIsList(AllowListOf(raw), Outcomes(LowerAll(words)), words);
  }

  lemma SeparatorInFront(c: char, raw: string, lead: string, words: seq<string>, gaps: seq<string>)
    requires IsSeparator(c) && IsWriting(raw, lead, words, gaps)
    ensures IsWriting([c] + raw, [c] + lead, words, gaps)
  {
    assert [c] + (lead + Spread(words, gaps)) == ([c] + lead) + Spread(words, gaps);
  }

  lemma WordInFront(word: string, raw: string, gap: string, words: seq<string>, gaps: seq<string>)
    requires IsWord(word) && gap != "" && IsWriting(raw, gap, words, gaps)
    ensures IsWriting(word + raw, "", [word] + words, [gap] + gaps)
  {
    assert ([word] + words)[1..] == words && ([gap] + gaps)[1..] == gaps;
    Regroup("", word, gap, Spread(words, gaps));
  }

  lemma LoneWord(word: string, gap: string)
    requires IsWord(word) && AreSeparators(gap)
    ensures IsWriting(word + gap, "", [word], [gap])
  {
    assert Spread([word][1..], [gap][1..]) == "";
  }

  /** And every text is such a writing, unless it holds separators only. */
  lemma {:induction false} EveryTextIsWritten(raw: string)
    returns (lead: string, words: seq<string>, gaps: seq<string>)
    ensures !AreSeparators(raw) ==> IsWriting(raw, lead, words, gaps)
    decreases |raw|
  {
    lead, words, gaps := raw, [], [];
    if !AreSeparators(raw) {
      if IsSeparator(raw[0]) {
        lead, words, gaps := EveryTextIsWritten(raw[1..]);
        SeparatorsTail(raw);
        SeparatorInFront(raw[0], raw[1..], lead, words, gaps);
        assert raw == [raw[0]] + raw[1..];
        lead := [raw[0]] + lead;
      } else {
        var n := WordLength(raw);
        WordIsMaximal(raw);
        var gap, more, after := EveryTextIsWritten(raw[n..]);
        assert raw == raw[..n] + raw[n..];
        if AreSeparators(raw[n..]) {
          LoneWord(raw[..n], raw[n..]);
          lead, words, gaps := "", [raw[..n]], [raw[n..]];
        } else {
          WritingBegins(raw[n..], gap, more, after);
          WordInFront(raw[..n], raw[n..], gap, more, after);
          lead, words, gaps := "", [raw[..n]] + more, [gap] + after;
        }
      }
    }
  }

  lemma {:induction false} WordIsMaximal(s: string)
    ensures forall i | 0 <= i < WordLength(s) :: !IsSeparator(s[i])
    ensures WordLength(s) < |s| ==> IsSeparator(s[WordLength(s)])
    ensures s != "" && !IsSeparator(s[0]) ==> WordLength(s) > 0
  {
    if s != "" && !IsSeparator(s[0]) {
      WordIsMaximal(s[1..]);
      assert forall i | 1 <= i < |s| :: s[i] == s[1..][i - 1];
    }
  }

  lemma SeparatorsTail(raw: string)
    requires raw != "" && IsSeparator(raw[0])
    ensures AreSeparators(raw) <==> AreSeparators(raw[1..])
  {
    assert raw == [raw[0]] + raw[1..];
  }

  lemma SpreadStarts(words: seq<string>, gaps: seq<string>)
    requires words != [] && |gaps| == |words| && IsWord(words[0])
    ensures Spread(words, gaps) != "" && !IsSeparator(Spread(words, gaps)[0])
  {
  }

  /** A text that begins with a separator is not written with a word in front. */
  lemma WritingBegins(raw: string, lead: string, words: seq<string>, gaps: seq<string>)
    requires IsWriting(raw, lead, words, gaps) && IsSeparator(raw[0])
    ensures lead != ""
  {
    SpreadStarts(words, gaps);
    assert "" + Spread(words, gaps) == Spread(words, gaps);
  }

  /** The verdict of a configured list: an address is allowed exactly when it lies in the
      block of one of the written words. */
  lemma WrittenListAllows(
    raw: string, lead: string, words: seq<string>, gaps: seq<string>, entries: seq<Entry>, address: string)
    requires IsWriting(raw, lead, words, gaps) && AllowListOf(raw) == Ok(entries)
    ensures WebhookIpAllowed(address, entries) <==>
            && IpBits(address).Some?
            && exists i | 0 <= i < |words| :: IsInBlock(EntryOf(Lower(words[i])), IpBits(address).value)
  {
    WrittenListIsRead(raw, lead, words, gaps);
    AcceptedEntriesAreUsable(raw, entries);
    if IpBits(address).Some? {
      var ip := IpBits(address).value;
      forall i | 0 <= i < |words| ensures Admits(entries[i], ip) <==> IsInBlock(EntryOf(Lower(words[i])), ip) {
        EntryAdmitsItsBlock(entries[i], ip);
      }
    }
  }

  /** `entry` is a network and `ip` one of the `2^(width - prefix)` addresses of its block. */
  predicate IsInBlock(entry: Result<Entry, Refusal>, ip: Ip) {
    && entry.Ok? && IsUsable(entry.value) && entry.value.family == ip.family
    && BlockStart(entry.value) <= ip.bits < BlockStart(entry.value) + BlockSize(entry.value)
  }

  // ------------------------------------------------------- the fail-closed default

  lemma QuadEntry(o: seq<nat>, entry: string)
    requires |o| == 4 && (forall i | 0 <= i < 4 :: o[i] < 256) && entry == QuadText(o)
    ensures IsQuad(entry)
    ensures IpBits(entry) == Some(Ip(QuadValue(entry), V4))
    ensures EntryOf(entry) == Ok(Entry(QuadValue(entry), V4, 32, entry))
  {
    OctetTextsAreQuads(o);
    QuadIsPlain(entry);
    FreeByIndex(entry, '/');
    NoneLater(entry, '/');
    QuadBits(entry);
  }

  lemma QuadTextOf(o: seq<nat>, a: string, b: string, c: string, d: string)
    requires |o| == 4
    requires Numeral(o[0], 10) == a && Numeral(o[1], 10) == b && Numeral(o[2], 10) == c && Numeral(o[3], 10) == d
    ensures QuadText(o) == a + "." + b + "." + c + "." + d
  {
    assert [a, b, c, d][1..] == [b, c, d] && [b, c, d][1..] == [c, d] && [c, d][1..] == [d];
    assert Join([d], '.') == d;
    assert Join([c, d], '.') == c + "." + d;
    assert Join([b, c, d], '.') == b + "." + (c + "." + d);
    assert Join([a, b, c, d], '.') == a + "." + (b + "." + (c + "." + d));
  }

  function DocumentedOctets(i: nat): seq<nat>
    requires i < 3
  {
    if i == 0 then [52, 31, 139, 75] else if i == 1 then [52, 49, 173, 169] else [52, 214, 14, 220]
  }

  function DocumentedFields(i: nat): seq<string>
    requires i < 3
  {
    if i == 0 then ["52", "31", "139", "75"]
    else if i == 1 then ["52", "49", "173", "169"]
    else ["52", "214", "14", "220"]
  }

  lemma TwoDigits(n: nat, text: string)
    requires 10 <= n < 100 && text == [DigitChar(n / 10), DigitChar(n % 10)]
    ensures Numeral(n, 10) == text
  {
    assert Numeral(n / 10, 10) == [DigitChar(n / 10)];
  }

  lemma ThreeDigits(n: nat, text: string)
    requires 100 <= n < 1000 && text == [DigitChar(n / 100), DigitChar(n / 10 % 10), DigitChar(n % 10)]
    ensures Numeral(n, 10) == text
  {
    TwoDigits(n / 10, text[..2]);
    assert text == text[..2] + [DigitChar(n % 10)];
  }

  lemma DocumentedNumerals(i: nat, k: nat)
    requires i < 3 && k < 4
    ensures DocumentedOctets(i)[k] < 256
    ensures Numeral(DocumentedOctets(i)[k], 10) == DocumentedFields(i)[k]
  {
    DocumentedDigits(i, k);
    var n := DocumentedOctets(i)[k];
    if n < 100 {
      TwoDigits(n, DocumentedFields(i)[k]);
    } else {
      ThreeDigits(n, DocumentedFields(i)[k]);
    }
  }

  lemma DocumentedDigits(i: nat, k: nat)
    requires i < 3 && k < 4
    ensures var n, text := DocumentedOctets(i)[k], DocumentedFields(i)[k];
      && 10 <= n < 256
      && text == if n < 100 then [DigitChar(n / 10), DigitChar(n % 10)]
                 else [DigitChar(n / 100), DigitChar(n / 10 % 10), DigitChar(n % 10)]
  {
  }

  lemma DocumentedText(i: nat)
    requires i < 3
    ensures var f := DocumentedFields(i);
      f[0] + "." + f[1] + "." + f[2] + "." + f[3] == DOCUMENTED_SOURCES[i]
  {
    assert "52" + "." + "31" + "." + "139" + "." + "75" == "52.31.139.75";
    assert "52" + "." + "49" + "." + "173" + "." + "169" == "52.49.173.169";
    assert "52" + "." + "214" + "." + "14" + "." + "220" == "52.214.14.220";
  }

  lemma DocumentedEntry(i: nat)
    requires i < 3
    ensures var q := DOCUMENTED_SOURCES[i];
      && IsQuad(q)
      && IpBits(q) == Some(Ip(QuadValue(q), V4))
      && EntryOf(q) == Ok(Entry(QuadValue(q), V4, 32, q))
  {
    var o, f := DocumentedOctets(i), DocumentedFields(i);
    forall k | 0 <= k < 4 ensures o[k] < 256 && Numeral(o[k], 10) == f[k] {
      DocumentedNumerals(i, k);
    }
    DocumentedText(i);
    QuadTextOf(o, f[0], f[1], f[2], f[3]);
    QuadEntry(o, DOCUMENTED_SOURCES[i]);
  }

  lemma BareEntryAdmitsItself(entry: Entry, ip: Ip)
    requires entry.prefix == Width(entry.family)
    ensures Admits(entry, ip) <==> ip == Ip(entry.bits, entry.family)
  {
  }

  lemma DefaultIsAccepted(raw: string)
    requires AreSeparators(raw)
    ensures Source(raw) == DOCUMENTED_SOURCES && AllowListOf(raw).Ok? && |AllowListOf(raw).value| == 3
  {
    OnlySeparatorsSelectDefault(raw);
    var outcomes := Outcomes(Source(raw));
    CollectIsEntrywise(outcomes);
    forall i | 0 <= i < 3 ensures outcomes[i].Ok? {
      DocumentedEntry(i);
      assert outcomes[i] == EntryOf(DOCUMENTED_SOURCES[i]);
    }
  }

  /** Without configured entries the list is accepted, and exactly the three documented
      addresses are admitted, in whichever spelling reads as one of them. */
  lemma DefaultAdmitsOnlyDocumented(raw: string, address: string)
    requires AreSeparators(raw)
    ensures AllowListOf(raw).Ok?
    ensures WebhookIpAllowed(address, AllowListOf(raw).value) <==>
            exists i | 0 <= i < 3 :: IpBits(address) == IpBits(DOCUMENTED_SOURCES[i])
  {
    DefaultIsAccepted(raw);
    var outcomes, entries := Outcomes(Source(raw)), AllowListOf(raw).value;
    CollectIsEntrywise(outcomes);
    forall i | 0 <= i < 3
      ensures IpBits(DOCUMENTED_SOURCES[i]).Some?
      ensures IpBits(address).Some? ==>
                (Admits(entries[i], IpBits(address).value) <==> IpBits(address) == IpBits(DOCUMENTED_SOURCES[i]))
    {
      DocumentedEntry(i);
      assert outcomes[i] == EntryOf(DOCUMENTED_SOURCES[i]);
      if IpBits(address).Some? {
        BareEntryAdmitsItself(entries[i], IpBits(address).value);
      }
    }
  }
}
