/** Where each group and each octet of an address is found in the integer the parser
    returns, and what that means for a network written with a prefix on a boundary. */
module AddressBits {
  import opened Results
  import opened Text
  import opened AddressGrammar
  import opened IpParser
  import opened IpParserCorrectness
  import opened AddressTheorems
  import opened AllowList

  // ---------------------------------------------------------------- shifting by digits

  lemma ShrFour(n: nat, k: nat, m: nat)
    requires m == k + 4
    ensures Shr(n, m) == Shr(n, k) / 16
  {
    ShrStep(n, k);
    ShrStep(n, k + 1);
    ShrStep(n, k + 2);
    ShrStep(n, k + 3);
  }

  lemma ShrEight(n: nat, k: nat, m: nat)
    requires m == k + 8
    ensures Shr(n, m) == Shr(n, k) / 256
  {
    ShrFour(n, k, k + 4);
    ShrFour(n, k + 4, m);
  }

  lemma ShrSixteen(n: nat, k: nat, m: nat)
    requires m == k + 16
    ensures Shr(n, m) == Shr(n, k) / 0x1_0000
  {
    ShrEight(n, k, k + 8);
    ShrEight(n, k + 8, m);
  }

  // ----------------------------------------------------------------------- 16-bit words

  /** Shifting a word out at the right leaves the number of the words before it. */
  lemma {:induction false} ShiftedWords(words: seq<nat>, k: nat)
    requires AreWords(words) && k <= |words|
    ensures Shr(Positional(words), 16 * (|words| - k)) == Positional(words[..k])
    decreases |words| - k
  {
    if k == |words| {
      assert words[..k] == words;
    } else {
      ShiftedWords(words, k + 1);
      ShrSixteen(Positional(words), 16 * (|words| - k - 1), 16 * (|words| - k));
      assert words[..k + 1][..k] == words[..k];
    }
  }

  lemma LastWord(words: seq<nat>)
    requires words != [] && AreWords(words)
    ensures Positional(words) % 0x1_0000 == words[|words| - 1]
  {
  }

  lemma WordOfNumber(words: seq<nat>, i: nat, n: nat)
    requires |words| == 8 && AreWords(words) && i < 8 && n == Positional(words)
    ensures Shr(n, 16 * (7 - i)) % 0x1_0000 == words[i]
  {
    ShiftedWords(words, i + 1);
    LastWord(words[..i + 1]);
  }

  lemma ParsedNumber(sp: Spelling)
    requires IsSpelling(sp)
    ensures Ipv6Bits(Render(sp)) == Some(Ip(Positional(Words(sp)), V6))
    ensures AreWords(Words(sp))
  {
    EverySpellingParses(sp);
    SpellingWordsAreWords(sp);
  }

  /** Group `i` of every text of an IPv6 address stands in bits `16 * (7 - i)` and up of
      the integer: the first group is the most significant one. */
  lemma WordsInNetworkOrder(sp: Spelling, i: nat)
    requires IsSpelling(sp) && i < 8
    ensures Ipv6Bits(Render(sp)).Some?
    ensures Shr(Ipv6Bits(Render(sp)).value.bits, 16 * (7 - i)) % 0x1_0000 == Words(sp)[i]
  {
    ParsedNumber(sp);
    WordOfNumber(Words(sp), i, Positional(Words(sp)));
  }

  /** What the words of a text of groups are, group by group. */
  lemma WordsOfGroups(left: seq<string>, right: seq<string>, i: nat)
    requires AreGroups(left) && AreGroups(right) && |left| + |right| <= 7 && i < 8
    ensures IsSpelling(Elided(left, right))
    ensures Words(Elided(left, right))[i] ==
            if i < |left| then Value(left[i], 16)
            else if i < 8 - |right| then 0
            else Value(right[i - (8 - |right|)], 16)
  {
    ElidedHexSpelling(left, right);
  }

  lemma WordsOfEightGroups(fields: seq<string>, i: nat)
    requires AreGroups(fields) && |fields| == 8 && i < 8
    ensures IsSpelling(Full(fields)) && Words(Full(fields))[i] == Value(fields[i], 16)
  {
    FullHexSpelling(fields);
  }

  /** A dotted tail is the last two words. */
  lemma WordsOfTail(left: seq<string>, init: seq<string>, q: string)
    requires AreGroups(left) && AreGroups(init) && IsQuad(q) && |left| + |init| <= 5
    ensures var sp := Elided(left, init + [q]);
      && IsSpelling(sp)
      && Words(sp)[6] == 256 * Octets(q)[0] + Octets(q)[1]
      && Words(sp)[7] == 256 * Octets(q)[2] + Octets(q)[3]
  {
    HexRunWords(left);
    HexRunWords(init);
    TailRun(init, q);
    RunWordsAppend(init, q);
    QuadHalves(q);
    var r := HexValues(init) + FieldWords(q);
    assert RunWords(init + [q]) == r && r[|init|] == FieldWords(q)[0] && r[|init| + 1] == FieldWords(q)[1];
  }

  lemma TailRun(init: seq<string>, q: string)
    requires AreGroups(init) && IsQuad(q)
    ensures IsRun(init + [q], true)
  {
  }

  lemma Halves(a: nat, b: nat, c: nat, d: nat, n: nat)
    requires a < 256 && b < 256 && c < 256 && d < 256 && n == ((a * 256 + b) * 256 + c) * 256 + d
    ensures n / 0x1_0000 == 256 * a + b && n % 0x1_0000 == 256 * c + d
  {
  }

  lemma QuadHalves(q: string)
    requires IsQuad(q)
    ensures FieldWords(q) == [256 * Octets(q)[0] + Octets(q)[1], 256 * Octets(q)[2] + Octets(q)[3]]
  {
    var o := Octets(q);
    Halves(o[0], o[1], o[2], o[3], QuadValue(q));
  }

  /** How many groups a text needs: eight without `::`, and with it at most seven, so
      that it always stands for at least one zero group. */
  lemma GroupCountsExactly(left: seq<string>, right: seq<string>)
    requires AreGroups(left) && AreGroups(right)
    ensures left != [] ==> (Ipv6Bits(Render(Full(left))).Some? <==> |left| == 8)
    ensures Ipv6Bits(Render(Elided(left, right))).Some? <==> |left| + |right| <= 7
  {
    GroupsArePlain(left);
    GroupsArePlain(right);
    Ipv6BitsIsTheGrammar(Render(Elided(left, right)));
    DecodeElided(left, right);
    ElidedHexSpelling(left, right);
    OnlyHex(Elided(left, right));
    if left != [] {
      Ipv6BitsIsTheGrammar(Render(Full(left)));
      DecodeFull(left);
      FullHexSpelling(left);
      OnlyHex(Full(left));
    }
  }

  lemma GroupsArePlain(fields: seq<string>)
    requires AreGroups(fields)
    ensures ArePlain(fields)
  {
    RunIsPlain(fields, false);
  }

  lemma OnlyHex(sp: Spelling)
    requires match sp case Full(f) => AreGroups(f) case Elided(l, r) => AreGroups(l) && AreGroups(r)
    ensures IsSpelling(sp) <==> IsHexSpelling(sp)
  {
  }

  // ----------------------------------------------------------------------------- octets

  predicate AreOctets(o: seq<nat>) {
    |o| == 4 && forall j | 0 <= j < 4 :: o[j] < 256
  }

  /** Four octets as one number. */
  function OctetNumber(o: seq<nat>): nat
    requires |o| == 4
  {
    ((o[0] * 256 + o[1]) * 256 + o[2]) * 256 + o[3]
  }

  lemma QuadNumber(o: seq<nat>)
    requires AreOctets(o)
    ensures IpBits(QuadText(o)) == Some(Ip(OctetNumber(o), V4))
  {
    OctetTextsAreQuads(o);
    QuadBits(QuadText(o));
  }

  /** The first `k` octets as one number. */
  function Leading(o: seq<nat>, k: nat): nat
    requires k <= |o|
  {
    if k == 0 then 0 else Leading(o, k - 1) * 256 + o[k - 1]
  }

  lemma LeadingFour(o: seq<nat>, four: nat)
    requires |o| == four == 4
    ensures Leading(o, four) == OctetNumber(o)
  {
    assert Leading(o, four - 3) == o[0];
    assert Leading(o, four - 2) == o[0] * 256 + o[1];
  }

  lemma LastOctet(m: nat, d: nat, n: nat)
    requires d < 256 && n == m * 256 + d
    ensures n / 256 == m && n % 256 == d
  {
  }

  /** Shifting an octet out at the right leaves the number of the octets before it. */
  lemma {:induction false} ShiftedOctets(o: seq<nat>, k: nat, n: nat)
    requires AreOctets(o) && k <= |o| && n == Leading(o, |o|)
    ensures Shr(n, 8 * (|o| - k)) == Leading(o, k)
    decreases |o| - k
  {
    if k < |o| {
      ShiftedOctets(o, k + 1, n);
      LastOctet(Leading(o, k), o[k], Leading(o, k + 1));
      ShrEight(n, 8 * (|o| - k - 1), 8 * (|o| - k));
    }
  }

  lemma OctetOfNumber(o: seq<nat>, i: nat, n: nat)
    requires AreOctets(o) && i < |o| && n == OctetNumber(o)
    ensures Shr(n, 8 * (3 - i)) % 256 == o[i]
  {
    LeadingFour(o, |o|);
    ShiftedOctets(o, i + 1, n);
    LastOctet(Leading(o, i), o[i], Leading(o, i + 1));
  }

  lemma {:induction false} SameLeading(a: seq<nat>, b: seq<nat>, k: nat)
    requires AreOctets(a) && AreOctets(b) && k <= 4
    ensures Leading(a, k) == Leading(b, k) <==> a[..k] == b[..k]
  {
    if k > 0 {
      SameLeading(a, b, k - 1);
      LastOctet(Leading(a, k - 1), a[k - 1], Leading(a, k));
      LastOctet(Leading(b, k - 1), b[k - 1], Leading(b, k));
      assert a[..k] == a[..k - 1] + [a[k - 1]] && b[..k] == b[..k - 1] + [b[k - 1]];
    }
  }

  /** Octet `i` of a dotted quad stands in bits `8 * (3 - i)` and up of the integer. */
  lemma OctetsInNetworkOrder(o: seq<nat>, i: nat)
    requires AreOctets(o) && i < 4
    ensures IpBits(QuadText(o)).Some?
    ensures Shr(IpBits(QuadText(o)).value.bits, 8 * (3 - i)) % 256 == o[i]
  {
    QuadNumber(o);
    OctetOfNumber(o, i, OctetNumber(o));
  }

  // ------------------------------------------------ networks on a group or octet boundary

  lemma SameFamilyAdmits(x: Ip, y: Ip, p: nat, raw: string)
    requires x.family == y.family && 1 <= p <= Width(x.family)
    ensures Admits(Entry(x.bits, x.family, p, raw), y) <==>
            Shr(x.bits, Width(x.family) - p) == Shr(y.bits, Width(x.family) - p)
  {
  }

  /** The text `s` with prefix length `p` is a network that admits the address `t`. */
  predicate NetworkAdmits(s: string, p: nat, t: string) {
    var entry := EntryOf(s + "/" + Numeral(p, 10));
    entry.Ok? && WebhookIpAllowed(t, [entry.value])
  }

  /** That is so exactly when the two addresses agree after the shift. */
  lemma PrefixVerdict(s: string, t: string, x: Ip, y: Ip, p: nat, agree: bool)
    requires IpBits(s) == Some(x) && IpBits(t) == Some(y) && x.family == y.family && 1 <= p <= Width(x.family)
    requires agree <==> Shr(x.bits, Width(x.family) - p) == Shr(y.bits, Width(x.family) - p)
    ensures NetworkAdmits(s, p, t) <==> agree
  {
    var raw := s + "/" + Numeral(p, 10);
    WrittenEntryIsRead(s, p, x);
    OneEntryAllows(t, Entry(x.bits, x.family, p, raw));
    SameFamilyAdmits(x, y, p, raw);
  }

  lemma SameFirstWords(a: seq<nat>, b: seq<nat>, k: nat, x: Ip, y: Ip, p: nat)
    requires |a| == 8 && |b| == 8 && AreWords(a) && AreWords(b) && 1 <= k <= 8 && p == 16 * k
    requires x == Ip(Positional(a), V6) && y == Ip(Positional(b), V6)
    ensures 1 <= p <= Width(x.family)
    ensures Shr(x.bits, Width(x.family) - p) == Shr(y.bits, Width(x.family) - p) <==> a[..k] == b[..k]
  {
    ShiftedWords(a, k);
    ShiftedWords(b, k);
    assert 128 - p == 16 * (8 - k);
    if Positional(a[..k]) == Positional(b[..k]) {
      PositionalInjective(a[..k], b[..k]);
    }
  }

  lemma OneEntryAllows(address: string, entry: Entry)
    ensures WebhookIpAllowed(address, [entry]) <==> IpBits(address).Some? && Admits(entry, IpBits(address).value)
  {
    assert [entry][0] == entry;
  }

  lemma SpellingNumber(sp: Spelling)
    requires IsSpelling(sp) && !IsMappedText(Render(sp))
    ensures IpBits(Render(sp)) == Some(Ip(Positional(Words(sp)), V6))
    ensures AreWords(Words(sp))
  {
    SpellingIsNoQuad(sp);
    SpellingWordsAreWords(sp);
  }

  lemma WordPrefixVerdict(s: string, t: string, v: seq<nat>, w: seq<nat>, k: nat, x: Ip, y: Ip, p: nat)
    requires x == Ip(Positional(v), V6) && y == Ip(Positional(w), V6) && p == 16 * k
    requires IpBits(s) == Some(x) && IpBits(t) == Some(y)
    requires |v| == 8 && |w| == 8 && AreWords(v) && AreWords(w) && 1 <= k <= 8
    ensures NetworkAdmits(s, p, t) <==> v[..k] == w[..k]
  {
    SameFirstWords(v, w, k, x, y, p);
    PrefixVerdict(s, t, x, y, p, v[..k] == w[..k]);
  }

  /** An IPv6 network of `k` whole groups admits exactly the addresses that begin with
      the same `k` groups. */
  lemma GroupPrefixAdmitsExactly(a: Spelling, b: Spelling, k: nat)
    requires IsSpelling(a) && IsSpelling(b) && 1 <= k <= 8
    requires !IsMappedText(Render(a)) && !IsMappedText(Render(b))
    ensures NetworkAdmits(Render(a), 16 * k, Render(b)) <==>
            Words(a)[..k] == Words(b)[..k]
  {
    SpellingNumber(a);
    SpellingNumber(b);
    var v, w := Words(a), Words(b);
    WordPrefixVerdict(Render(a), Render(b), v, w, k, Ip(Positional(v), V6), Ip(Positional(w), V6), 16 * k);
  }

  lemma SameFirstOctets(a: seq<nat>, b: seq<nat>, k: nat, x: Ip, y: Ip, p: nat)
    requires AreOctets(a) && AreOctets(b) && 1 <= k <= 4 && p == 8 * k
    requires x == Ip(OctetNumber(a), V4) && y == Ip(OctetNumber(b), V4)
    ensures 1 <= p <= Width(x.family)
    ensures Shr(x.bits, Width(x.family) - p) == Shr(y.bits, Width(x.family) - p) <==> a[..k] == b[..k]
  {
    LeadingFour(a, |a|);
    LeadingFour(b, |b|);
    ShiftedOctets(a, k, x.bits);
    ShiftedOctets(b, k, y.bits);
    SameLeading(a, b, k);
    assert Width(x.family) - p == 8 * (4 - k);
  }

  lemma OctetPrefixVerdict(s: string, t: string, a: seq<nat>, b: seq<nat>, k: nat, x: Ip, y: Ip, p: nat)
    requires AreOctets(a) && AreOctets(b) && 1 <= k <= 4 && p == 8 * k
    requires x == Ip(OctetNumber(a), V4) && y == Ip(OctetNumber(b), V4)
    requires IpBits(s) == Some(x) && IpBits(t) == Some(y)
    ensures NetworkAdmits(s, p, t) <==> a[..k] == b[..k]
  {
    SameFirstOctets(a, b, k, x, y, p);
    PrefixVerdict(s, t, x, y, p, a[..k] == b[..k]);
  }

  /** An IPv4 network of `k` whole octets admits exactly the addresses that begin with
      the same `k` octets. */
  lemma OctetPrefixAdmitsExactly(a: seq<nat>, b: seq<nat>, k: nat)
    requires AreOctets(a) && AreOctets(b) && 1 <= k <= 4
    ensures NetworkAdmits(QuadText(a), 8 * k, QuadText(b)) <==> a[..k] == b[..k]
  {
    QuadNumber(a);
    QuadNumber(b);
    OctetPrefixVerdict(QuadText(a), QuadText(b), a, b, k, Ip(OctetNumber(a), V4), Ip(OctetNumber(b), V4), 8 * k);
  }
}
