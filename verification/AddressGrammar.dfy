/** The text representations of addresses, stated without a parser: dotted
    quads, and the IPv6 forms of section 2.2 of RFC 4291 with the number each
    one denotes. A `Spelling` is a derivation; `Render` writes it down. */
module AddressGrammar {
  import opened Text

  // --------------------------------------------------------------- dotted quads

  predicate IsOctet(s: string) {
    |s| <= 3 && IsNumeral(s, 10) && IsShortest(s) && Value(s, 10) <= 255
  }

  /** The texts `net.isIP` answers 4 for. */
  predicate IsQuad(s: string) {
    var f := Split(s, '.');
    |f| == 4 && forall i | 0 <= i < 4 :: IsOctet(f[i])
  }

  function Octets(s: string): (o: seq<nat>)
    requires IsQuad(s)
    ensures |o| == 4 && forall i | 0 <= i < 4 :: o[i] < 256
  {
    var f := Split(s, '.');
    [Value(f[0], 10), Value(f[1], 10), Value(f[2], 10), Value(f[3], 10)]
  }

  /** The four octets in network order, as one number below 2^32. */
  function QuadValue(s: string): (v: nat)
    requires IsQuad(s)
    ensures v < 0x1_0000_0000
  {
    var o := Octets(s);
    ((o[0] * 256 + o[1]) * 256 + o[2]) * 256 + o[3]
  }

  /** The positional value of 16-bit words, most significant first. */
  function Positional(words: seq<nat>): nat {
    if words == [] then 0
    else Positional(words[..|words| - 1]) * 0x1_0000 + words[|words| - 1]
  }

  /** The canonical text of four octets. */
  function QuadText(o: seq<nat>): string
    requires |o| == 4
  {
    Join([Numeral(o[0], 10), Numeral(o[1], 10), Numeral(o[2], 10), Numeral(o[3], 10)], '.')
  }

  /** Dotted quads are exactly the canonical texts of four octets. */
  lemma QuadsAreOctetTexts(s: string)
    requires IsQuad(s)
    ensures s == QuadText(Octets(s))
  {
    var f := Split(s, '.');
    forall i | 0 <= i < 4 ensures Numeral(Value(f[i], 10), 10) == f[i] {
      ShortestIsNumeral(f[i]);
    }
    JoinSplit(s, '.');
    assert f == [f[0], f[1], f[2], f[3]];
  }

  lemma OctetTextsAreQuads(o: seq<nat>)
    requires |o| == 4 && forall i | 0 <= i < 4 :: o[i] < 256
    ensures IsQuad(QuadText(o)) && Octets(QuadText(o)) == o
  {
    var f := [Numeral(o[0], 10), Numeral(o[1], 10), Numeral(o[2], 10), Numeral(o[3], 10)];
    forall i | 0 <= i < 4 ensures IsOctet(f[i]) && Value(f[i], 10) == o[i] && Free(f[i], '.') {
      NumeralIsOctet(o[i]);
    }
    SplitJoin(f, '.');
  }

  lemma NumeralIsOctet(n: nat)
    requires n < 256
    ensures IsOctet(Numeral(n, 10)) && Value(Numeral(n, 10), 10) == n && Free(Numeral(n, 10), '.')
  {
    NumeralValue(n, 10);
    NumeralIsShortest(n, 10);
    assert Pow(10, 3) == 10 * Pow(10, 2) == 100 * Pow(10, 1) == 1000 * Pow(10, 0);
    NumeralLength(n, 10, 3);
  }

  // -------------------------------------------------------------- IPv6 spellings

  /** One `x:x:...` group: one to four hexadecimal digits. */
  predicate IsGroup(f: string) {
    1 <= |f| <= 4 && IsNumeral(f, 16)
  }

  datatype Spelling =
    | Full(fields: seq<string>)
    | Elided(left: seq<string>, right: seq<string>)

  /** Groups, of which the last may be a dotted quad where `quad` says so. */
  predicate IsRun(fields: seq<string>, quad: bool) {
    forall i | 0 <= i < |fields| ::
      IsGroup(fields[i]) || (quad && i == |fields| - 1 && IsQuad(fields[i]))
  }

  function FieldWords(f: string): seq<nat>
    requires IsGroup(f) || IsQuad(f)
  {
    if IsQuad(f) then [QuadValue(f) / 0x1_0000, QuadValue(f) % 0x1_0000] else [Value(f, 16)]
  }

  /** The 16-bit words a run of fields stands for. */
  function RunWords(fields: seq<string>): seq<nat>
    requires IsRun(fields, true)
  {
    if fields == [] then []
    else
      var init := fields[..|fields| - 1];
      RunWords(init) + FieldWords(fields[|fields| - 1])
  }

  /** Section 2.2: eight words, or one `::` for at least one zero word. */
  predicate IsSpelling(sp: Spelling) {
    match sp
    case Full(fields) => fields != [] && IsRun(fields, true) && |RunWords(fields)| == 8
    case Elided(left, right) =>
      IsRun(left, false) && IsRun(right, true) && |RunWords(left)| + |RunWords(right)| <= 7
  }

  function RenderRun(fields: seq<string>): string {
    if fields == [] then "" else Join(fields, ':')
  }

  function Render(sp: Spelling): string {
    match sp
    case Full(fields) => RenderRun(fields)
    case Elided(left, right) => RenderRun(left) + "::" + RenderRun(right)
  }

  function Zeros(n: nat): seq<nat> {
    seq(n, _ => 0)
  }

  /** The eight words of the address a spelling denotes. */
  function Words(sp: Spelling): (words: seq<nat>)
    requires IsSpelling(sp)
    ensures |words| == 8
  {
    match sp
    case Full(fields) => RunWords(fields)
    case Elided(left, right) =>
      var l, r := RunWords(left), RunWords(right);
      l + Zeros(8 - |l| - |r|) + r
  }

  function Address(sp: Spelling): nat
    requires IsSpelling(sp)
  {
    Positional(Words(sp))
  }

  // ------------------------------------------------- reading a spelling off a text

  predicate PairAt(s: string, k: int) {
    0 <= k && k + 1 < |s| && s[k] == ':' && s[k + 1] == ':'
  }

  /** Where the first `::` starts, or -1. */
  function ElisionAt(s: string): (e: int)
    ensures -1 <= e
    ensures e == -1 ==> forall k :: !PairAt(s, k)
    ensures e >= 0 ==> PairAt(s, e) && forall k | 0 <= k < e :: !PairAt(s, k)
  {
    if |s| < 2 then -1
    else if s[0] == ':' && s[1] == ':' then 0
    else
      var e := ElisionAt(s[1..]);
      assert forall k | 1 <= k :: PairAt(s, k) ==> PairAt(s[1..], k - 1);
      if e == -1 then -1 else e + 1
  }

  function SplitRun(text: string): seq<string> {
    if text == "" then [] else Split(text, ':')
  }

  function Decode(s: string): Spelling {
    var e := ElisionAt(s);
    if e == -1 then Full(Split(s, ':')) else Elided(SplitRun(s[..e]), SplitRun(s[e + 2..]))
  }

  /** The IPv6 texts, decided: see `GrammarIsDecidable`. */
  predicate IsIpv6Text(s: string) {
    IsSpelling(Decode(s))
  }

  lemma RenderSplitRun(text: string)
    ensures RenderRun(SplitRun(text)) == text
  {
    if text != "" {
      JoinSplit(text, ':');
    }
  }

  lemma RenderDecode(s: string)
    ensures Render(Decode(s)) == s
  {
    var e := ElisionAt(s);
    if e == -1 {
      JoinSplit(s, ':');
    } else {
      RenderSplitRun(s[..e]);
      RenderSplitRun(s[e + 2..]);
      assert s == s[..e] + "::" + s[e + 2..];
    }
  }

  /** Fields of a run are non-empty and free of colons. */
  predicate ArePlain(fields: seq<string>) {
    forall f | f in fields :: f != "" && Free(f, ':')
  }

  lemma QuadIsPlain(f: string)
    requires IsQuad(f)
    ensures f != "" && Free(f, ':') && '.' in f && !IsGroup(f)
    ensures forall c | c in f :: IsDigit(c) || c == '.'
  {
    QuadsAreOctetTexts(f);
    var o := Octets(f);
    var n0, n1, n2, n3 := Numeral(o[0], 10), Numeral(o[1], 10), Numeral(o[2], 10), Numeral(o[3], 10);
    var fields := [n0, n1, n2, n3];
    assert fields[1..] == [n1, n2, n3] && fields[1..][1..] == [n2, n3] && [n2, n3][1..] == [n3];
    assert Join([n3], '.') == n3;
    assert Join([n2, n3], '.') == n2 + ['.'] + n3;
    assert Join([n1, n2, n3], '.') == n1 + ['.'] + (n2 + ['.'] + n3);
    assert f == n0 + ['.'] + (n1 + ['.'] + (n2 + ['.'] + n3));
    assert f[|n0|] == '.';
  }

  lemma RunIsPlain(fields: seq<string>, quad: bool)
    requires IsRun(fields, quad)
    ensures ArePlain(fields)
  {
    forall f | f in fields ensures f != "" && Free(f, ':') {
      if IsQuad(f) {
        QuadIsPlain(f);
      }
    }
  }

  /** A rendered run has no `::` and neither starts nor ends with a colon. */
  lemma {:induction false} PlainRunHasNoPair(fields: seq<string>)
    requires fields != [] && ArePlain(fields)
    ensures var t := Join(fields, ':');
      t != "" && t[0] != ':' && t[|t| - 1] != ':' && forall k :: !PairAt(t, k)
  {
    var f := fields[0];
    assert f != "" && Free(f, ':');
    assert f[0] in f && f[|f| - 1] in f;
    if |fields| > 1 {
      var rest := Join(fields[1..], ':');
      PlainRunHasNoPair(fields[1..]);
      var t := f + [':'] + rest;
      forall k | 0 <= k < |t| - 1 ensures !PairAt(t, k) {
        if k < |f| {
          assert t[k] == f[k] && f[k] in f;
        } else if k > |f| {
          assert !PairAt(rest, k - |f| - 1);
        }
      }
    } else {
      forall k | 0 <= k < |f| ensures f[k] != ':' {
        assert f[k] in f;
      }
    }
  }

  lemma SplitRenderRun(fields: seq<string>)
    requires ArePlain(fields)
    ensures SplitRun(RenderRun(fields)) == fields
  {
    if fields != [] {
      PlainRunHasNoPair(fields);
      SplitJoin(fields, ':');
    }
  }

  lemma DecodeFull(fields: seq<string>)
    requires fields != [] && ArePlain(fields)
    ensures Decode(Join(fields, ':')) == Full(fields)
  {
    PlainRunHasNoPair(fields);
    SplitJoin(fields, ':');
  }

  lemma DecodeElided(left: seq<string>, right: seq<string>)
    requires ArePlain(left) && ArePlain(right)
    ensures Decode(RenderRun(left) + "::" + RenderRun(right)) == Elided(left, right)
  {
    SplitRenderRun(left);
    SplitRenderRun(right);
    var l, r := RenderRun(left), RenderRun(right);
    FirstPair(l, r) by {
      if left != [] {
        PlainRunHasNoPair(left);
      }
    }
    var s := l + "::" + r;
    assert s[..|l|] == l && s[|l| + 2..] == r;
  }

  lemma FirstPair(l: string, r: string)
    requires (forall k :: !PairAt(l, k)) && (l != "" ==> l[|l| - 1] != ':')
    ensures ElisionAt(l + "::" + r) == |l|
  {
    var s := l + "::" + r;
    assert PairAt(s, |l|);
    assert forall k | 0 <= k < |l| - 1 :: PairAt(s, k) ==> PairAt(l, k);
  }

  /** A text has at most one derivation. */
  lemma DecodeRender(sp: Spelling)
    requires IsSpelling(sp)
    ensures Decode(Render(sp)) == sp
  {
    match sp
    case Full(fields) =>
      RunIsPlain(fields, true);
      DecodeFull(fields);
    case Elided(left, right) =>
      RunIsPlain(left, false);
      RunIsPlain(right, true);
      DecodeElided(left, right);
  }

  /** Deciding the grammar: a text has a derivation exactly when the one read off it is one. */
  lemma GrammarIsDecidable(s: string)
    ensures IsIpv6Text(s) <==> exists sp :: IsSpelling(sp) && Render(sp) == s
  {
    RenderDecode(s);
    if IsIpv6Text(s) {
      assert IsSpelling(Decode(s)) && Render(Decode(s)) == s;
    }
    forall sp | IsSpelling(sp) && Render(sp) == s ensures IsIpv6Text(s) {
      DecodeRender(sp);
    }
  }

  // ------------------------------------------------------------------- net.isIP

  /** Where the first `%` of a scoped address starts, or the text's length. */
  function ZoneAt(s: string): (z: nat)
    ensures z <= |s|
    ensures Free(s[..z], '%')
    ensures z < |s| ==> s[z] == '%'
  {
    if s == "" || s[0] == '%' then 0
    else
      var z := ZoneAt(s[1..]);
      assert s[..z + 1] == [s[0]] + s[1..][..z];
      z + 1
  }

  /** Node's `net.isIP`: 4 for a dotted quad, 6 for an IPv6 text with an optional zone id. */
  function NetIsIp(s: string): (family: int)
    ensures family == 4 || family == 6 || family == 0
    ensures family == 4 <==> IsQuad(s)
  {
    if IsQuad(s) then 4
    else if IsIpv6Text(s[..ZoneAt(s)]) && ZoneAt(s) != |s| - 1 then 6
    else 0
  }
}
