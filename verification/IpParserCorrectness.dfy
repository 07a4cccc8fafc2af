/** The parser accepts exactly the grammar and returns the denoted number. */
module IpParserCorrectness {
  import opened Results
  import opened Text
  import opened AddressGrammar
  import opened IpParser

  // --------------------------------------------- what every spelling looks like

  predicate AreAlphabetic(s: string) {
    forall c | c in s :: IsHexDigit(c) || c == ':' || c == '.'
  }

  lemma FieldIsAlphabetic(f: string)
    requires IsGroup(f) || IsQuad(f)
    ensures AreAlphabetic(f)
  {
    if IsQuad(f) {
      QuadIsPlain(f);
    }
  }

  lemma {:induction false} RunIsAlphabetic(fields: seq<string>, quad: bool)
    requires IsRun(fields, quad)
    ensures AreAlphabetic(RenderRun(fields))
  {
    if fields != [] {
      FieldIsAlphabetic(fields[0]);
      if |fields| > 1 {
        var rest := fields[1..];
        assert IsRun(rest, quad) by {
          forall i | 0 <= i < |rest|
            ensures IsGroup(rest[i]) || (quad && i == |rest| - 1 && IsQuad(rest[i]))
          {
            assert rest[i] == fields[i + 1];
          }
        }
        RunIsAlphabetic(rest, quad);
      }
    }
  }

  lemma SpellingIsAlphabetic(sp: Spelling)
    requires IsSpelling(sp)
    ensures InAlphabet(Render(sp)) && '%' !in Render(sp)
  {
    match sp
    case Full(fields) =>
      RunIsAlphabetic(fields, true);
      RunIsPlain(fields, true);
      PlainRunHasNoPair(fields);
    case Elided(left, right) =>
      RunIsAlphabetic(left, false);
      RunIsAlphabetic(right, true);
  }

  lemma SpellingHasOneElision(s: string)
    requires IsIpv6Text(s)
    ensures CountElisions(s) <= 1
  {
    var e := ElisionAt(s);
    if e != -1 {
      var rest := s[e + 2..];
      var right := SplitRun(rest);
      RunIsPlain(right, true);
      RenderSplitRun(rest);
      if right != [] {
        PlainRunHasNoPair(right);
      }
      assert ElisionAt(rest) == -1;
    }
  }

  // ------------------------------------------------- spellings without a quad

  predicate IsHexSpelling(sp: Spelling) {
    IsSpelling(sp) &&
    match sp
    case Full(fields) => AreGroups(fields)
    case Elided(left, right) => AreGroups(left) && AreGroups(right)
  }

  lemma {:induction false} HexRunWords(fields: seq<string>)
    requires AreGroups(fields)
    ensures RunWords(fields) == HexValues(fields)
  {
    if fields != [] {
      var init, last := fields[..|fields| - 1], fields[|fields| - 1];
      HexRunWords(init);
      if IsQuad(last) {
        QuadIsPlain(last);
      }
      assert HexValues(fields) == HexValues(init) + [Value(last, 16)];
    }
  }

  function HexDenotation(sp: Spelling): Option<Ip> {
    if IsHexSpelling(sp) then Some(Ip(Address(sp), V6)) else None
  }

  lemma FullHexSpelling(fields: seq<string>)
    ensures IsHexSpelling(Full(fields)) <==> AreGroups(fields) && |fields| == 8
    ensures IsHexSpelling(Full(fields)) ==> Words(Full(fields)) == HexValues(fields)
    ensures HexDenotation(Full(fields)) ==
            if AreGroups(fields) && |fields| == 8 then Some(Ip(Positional(HexValues(fields)), V6)) else None
  {
    if AreGroups(fields) {
      HexRunWords(fields);
    }
  }

  lemma ElidedHexSpelling(left: seq<string>, right: seq<string>)
    ensures IsHexSpelling(Elided(left, right)) <==> AreGroups(left) && AreGroups(right) && |left| + |right| <= 7
    ensures IsHexSpelling(Elided(left, right)) ==>
              Words(Elided(left, right)) == HexValues(left) + Zeros(8 - |left| - |right|) + HexValues(right)
    ensures HexDenotation(Elided(left, right)) ==
            if AreGroups(left) && AreGroups(right) && |left| + |right| <= 7
            then Some(Ip(Positional(HexValues(left) + Zeros(8 - |left| - |right|) + HexValues(right)), V6))
            else None
  {
    if AreGroups(left) && AreGroups(right) {
      HexRunWords(left);
      HexRunWords(right);
    }
  }

  lemma WorkBitsFull(work: string)
    requires ElisionAt(work) == -1
    ensures WorkBits(work) == HexDenotation(Full(Split(work, ':')))
  {
    assert GroupValues([]) == Some([]);
    FullHexSpelling(Split(work, ':'));
  }

  lemma SidesElided(work: string)
    requires ElisionAt(work) != -1 && CountElisions(work) <= 1
    ensures Sides(work) == (SplitRun(work[..ElisionAt(work)]), SplitRun(work[ElisionAt(work) + 2..]))
  {
    var rest := work[ElisionAt(work) + 2..];
    assert CountElisions(work) == 1 + CountElisions(rest);
    assert ElisionAt(rest) == -1;
  }

  lemma AssembleGroupValues(left: seq<string>, right: seq<string>)
    ensures Assemble(true, GroupValues(left), GroupValues(right)) ==
            if AreGroups(left) && AreGroups(right) && |left| + |right| <= 7
            then Some(Ip(Positional(HexValues(left) + Zeros(8 - |left| - |right|) + HexValues(right)), V6))
            else None
  {
  }

  lemma AssembleElided(left: seq<string>, right: seq<string>)
    ensures Assemble(true, GroupValues(left), GroupValues(right)) == HexDenotation(Elided(left, right))
  {
    AssembleGroupValues(left, right);
    ElidedHexSpelling(left, right);
  }

  lemma WorkBitsElided(work: string)
    requires ElisionAt(work) != -1 && CountElisions(work) <= 1
    ensures WorkBits(work) ==
            HexDenotation(Elided(SplitRun(work[..ElisionAt(work)]), SplitRun(work[ElisionAt(work) + 2..])))
  {
    SidesElided(work);
    AssembleElided(SplitRun(work[..ElisionAt(work)]), SplitRun(work[ElisionAt(work) + 2..]));
  }

  lemma WorkBitsReadsHexSpellings(work: string)
    requires CountElisions(work) <= 1
    ensures WorkBits(work) == HexDenotation(Decode(work))
  {
    if ElisionAt(work) == -1 {
      WorkBitsFull(work);
    } else {
      WorkBitsElided(work);
    }
  }

  // --------------------------------------------------- the text after the last colon

  predicate HasTail(s: string, q: string) {
    LastIndexOf(s, ':') >= 0 && s[LastIndexOf(s, ':') + 1..] == q
  }

  lemma TailAfterColon(s: string, p: string, q: string)
    requires s == p + ":" + q && Free(q, ':')
    ensures HasTail(s, q)
  {
    LastIndexUnique(p, ':', q);
    assert s[|p| + 1..] == q;
  }

  lemma TailOfRun(head: string, init: seq<string>, f: string)
    requires Free(f, ':')
    requires head == "" ==> init != []
    requires head != "" ==> head[|head| - 1] == ':'
    ensures HasTail(head + Join(init + [f], ':'), f)
  {
    var s := head + Join(init + [f], ':');
    if init == [] {
      assert init + [f] == [f];
      TailAfterColon(s, head[..|head| - 1], f);
    } else {
      JoinAppend(init, [f], ':');
      assert s == (head + Join(init, ':')) + ":" + f;
      TailAfterColon(s, head + Join(init, ':'), f);
    }
  }

  lemma LoneQuadIsNoSpelling(f: string)
    requires IsQuad(f)
    ensures !IsSpelling(Full([f]))
  {
    QuadIsPlain(f);
    if IsRun([f], true) {
      assert [f][..0] == [];
      assert RunWords([f]) == RunWords([f][..0]) + FieldWords(f);
    }
  }

  /** A dotted quad in a spelling is the text after its last colon. */
  lemma QuadIsTheTail(sp: Spelling, init: seq<string>, f: string)
    requires IsSpelling(sp) && IsQuad(f)
    requires sp == Full(init + [f]) || (sp.Elided? && sp.right == init + [f])
    ensures HasTail(Render(sp), f)
  {
    QuadIsPlain(f);
    match sp
    case Full(_) =>
      LoneQuadIsNoSpelling(f);
      assert init == [] ==> init + [f] == [f];
      TailOfRun("", init, f);
      assert "" + Join(init + [f], ':') == Render(sp);
    case Elided(left, _) =>
      TailOfRun(RenderRun(left) + "::", init, f);
  }

  /** The derivation of `p + ":" + x` up to the fields of `x`. */
  function Prefix(p: string): Spelling {
    var e := ElisionAt(p + ":");
    if e == -1 then Full(Split(p, ':'))
    else Elided(SplitRun(p[..e]), if e + 2 <= |p| then Split(p[e + 2..], ':') else [])
  }

  function Add(prefix: Spelling, xs: seq<string>): Spelling {
    match prefix
    case Full(fields) => Full(fields + xs)
    case Elided(left, right) => Elided(left, right + xs)
  }

  ghost predicate IsTail(x: string) {
    x != "" && x[0] != ':' && forall k :: !PairAt(x, k)
  }

  lemma PairsBeforeTail(p: string, x: string)
    requires IsTail(x)
    ensures forall k :: PairAt(p + ":" + x, k) <==> PairAt(p + ":", k)
    ensures ElisionAt(p + ":" + x) == ElisionAt(p + ":")
  {
    var s := p + ":" + x;
    forall k ensures PairAt(s, k) <==> PairAt(p + ":", k) {
      if k > |p| {
        assert PairAt(s, k) ==> PairAt(x, k - |p| - 1);
      }
    }
    assert PairAt(s, ElisionAt(s)) <==> PairAt(p + ":", ElisionAt(s));
    assert PairAt(s, ElisionAt(p + ":")) <==> PairAt(p + ":", ElisionAt(p + ":"));
  }

  lemma DecodeTail(p: string, x: string)
    requires IsTail(x)
    ensures Decode(p + ":" + x) == Add(Prefix(p), Split(x, ':'))
  {
    PairsBeforeTail(p, x);
    var s, e := p + ":" + x, ElisionAt(p + ":");
    if e == -1 {
      SplitAppend(p, ':', x);
    } else {
      assert s[..e] == p[..e];
      if e + 2 <= |p| {
        assert s[e + 2..] == p[e + 2..] + ":" + x;
        SplitAppend(p[e + 2..], ':', x);
      } else {
        assert e + 2 == |p| + 1;
        assert s[e + 2..] == x;
      }
    }
  }

  // ------------------------------------------------------------ the dotted tail

  /** What the tail parses to: the quad's value, or nothing. */
  lemma ShapedTailBits(q: string)
    requires IsQuadShape(q) && Free(q, ':')
    ensures IpBits(q) == if IsQuad(q) then Some(Ip(QuadValue(q), V4)) else None
  {
    FreeByIndex(q, ':');
    assert Candidate(q) == q;
    if IsQuad(q) {
    } else {
      JoinSplit(q, '.');
      ShapeIsAlphabetic(q);
      FreeByIndex(q, '%');
      assert ZoneAt(q) == |q|;
      assert q[..ZoneAt(q)] == q;
      assert ElisionAt(q) == -1;
      SplitFree(q, ':');
      assert Decode(q) == Full([q]);
      assert !IsGroup(q);
      assert !IsRun([q], true) by {
        assert !IsGroup([q][0]) && !IsQuad([q][0]);
      }
      assert !IsIpv6Text(q);
    }
  }

  /** A quad shape consists of digits and dots, and has a dot. */
  lemma ShapeIsAlphabetic(q: string)
    requires IsQuadShape(q)
    ensures forall c | c in q :: IsDigit(c) || c == '.'
    ensures '.' in q && !IsGroup(q)
  {
    var f := Split(q, '.');
    JoinSplit(q, '.');
    var t2, t1 := f[2] + "." + f[3], f[1] + "." + (f[2] + "." + f[3]);
    assert f[1..][1..] == f[2..] && f[2..][1..] == f[3..];
    assert Join(f[3..], '.') == f[3];
    assert Join(f[2..], '.') == t2;
    assert Join(f[1..], '.') == t1;
    assert q == f[0] + "." + t1;
    assert q[|f[0]|] == '.';
    assert !IsHexDigit('.');
    forall i | 0 <= i < 4 ensures forall c | c in f[i] :: IsDigit(c) {
      assert IsNumeral(f[i], 10);
    }
    assert forall c | c in t2 :: IsDigit(c) || c == '.';
    assert forall c | c in t1 :: IsDigit(c) || c == '.';
  }

  lemma HalfIsGroup(n: nat)
    requires n < 0x1_0000
    ensures IsGroup(Numeral(n, 16)) && Value(Numeral(n, 16), 16) == n
    ensures Free(Numeral(n, 16), ':')
  {
    NumeralValue(n, 16);
    assert Pow(16, 1) == 16 && Pow(16, 2) == 256 && Pow(16, 3) == 4096 && Pow(16, 4) == 65536;
    NumeralLength(n, 16, 4);
  }

  lemma HalvesAreGroups(v: nat)
    ensures IsGroup(Hi(v)) && Value(Hi(v), 16) == v / 0x1_0000 % 0x1_0000 && !IsQuad(Hi(v))
    ensures IsGroup(Lo(v)) && Value(Lo(v), 16) == v % 0x1_0000 && !IsQuad(Lo(v))
    ensures Free(Hi(v), ':') && Free(Lo(v), ':')
  {
    HalfIsGroup(v / 0x1_0000 % 0x1_0000);
    HalfIsGroup(v % 0x1_0000);
    if IsQuad(Hi(v)) {
      QuadIsPlain(Hi(v));
    }
    if IsQuad(Lo(v)) {
      QuadIsPlain(Lo(v));
    }
  }

  lemma HalvesAreTwoFields(v: nat)
    ensures Split(HexHalves(v), ':') == [Hi(v), Lo(v)]
    ensures IsTail(HexHalves(v))
  {
    HalvesAreGroups(v);
    SplitAppend(Hi(v), ':', Lo(v));
    SplitFree(Hi(v), ':');
    SplitFree(Lo(v), ':');
    assert [Hi(v)] + [Lo(v)] == [Hi(v), Lo(v)];
    var fields := [Hi(v), Lo(v)];
    assert fields[1..] == [Lo(v)];
    assert Join(fields, ':') == HexHalves(v);
    PlainRunHasNoPair(fields);
  }

  /** The rewriting preserves the address: the two printed halves are groups of
      at most four digits that read back as the quad's two words, hence as its 32 bits. */
  lemma HalvesPreserveQuad(q: string)
    requires IsQuad(q)
    ensures var v := QuadValue(q);
      && v < 0x1_0000_0000
      && IsGroup(Hi(v)) && IsGroup(Lo(v))
      && FieldWords(Hi(v)) + FieldWords(Lo(v)) == FieldWords(q)
      && Value(Hi(v), 16) * 0x1_0000 + Value(Lo(v), 16) == v
  {
    HalvesAreGroups(QuadValue(q));
    Halves32(QuadValue(q));
  }

  lemma Halves32(v: nat)
    requires v < 0x1_0000_0000
    ensures v / 0x1_0000 % 0x1_0000 == v / 0x1_0000
    ensures v / 0x1_0000 * 0x1_0000 + v % 0x1_0000 == v
  {
  }

  lemma RunWordsAppend(fields: seq<string>, f: string)
    requires AreGroups(fields) && IsRun(fields + [f], true)
    ensures IsGroup(f) || IsQuad(f)
    ensures RunWords(fields + [f]) == RunWords(fields) + FieldWords(f)
  {
    assert (fields + [f])[..|fields|] == fields && (fields + [f])[|fields|] == f;
  }

  lemma DesugarShape(fields: seq<string>, q: string, hi: string, lo: string)
    requires IsQuad(q) && IsGroup(hi) && IsGroup(lo)
    ensures IsRun(fields + [q], true) <==> AreGroups(fields)
    ensures AreGroups(fields + [hi, lo]) <==> AreGroups(fields)
  {
    var a, b := fields + [q], fields + [hi, lo];
    assert forall i | 0 <= i < |fields| :: a[i] == fields[i] && b[i] == fields[i];
  }

  /** Replacing a final quad by its two halves keeps the words of a run. */
  lemma DesugarRun(fields: seq<string>, q: string, hi: string, lo: string)
    requires IsQuad(q) && IsGroup(hi) && IsGroup(lo) && FieldWords(hi) + FieldWords(lo) == FieldWords(q)
    ensures IsRun(fields + [q], true) <==> AreGroups(fields + [hi, lo])
    ensures AreGroups(fields + [hi, lo]) ==> RunWords(fields + [q]) == RunWords(fields + [hi, lo])
  {
    DesugarShape(fields, q, hi, lo);
    if AreGroups(fields) {
      assert fields + [hi, lo] == (fields + [hi]) + [lo];
      RunWordsAppend(fields, q);
      RunWordsAppend(fields, hi);
      RunWordsAppend(fields + [hi], lo);
    }
  }

  lemma SameRunFull(x: seq<string>, y: seq<string>)
    requires x != [] && y != [] && (IsRun(x, true) <==> AreGroups(y))
    requires AreGroups(y) ==> RunWords(x) == RunWords(y)
    ensures IsSpelling(Full(x)) <==> IsHexSpelling(Full(y))
    ensures IsSpelling(Full(x)) ==> Words(Full(x)) == Words(Full(y))
  {
  }

  lemma SameRunElided(left: seq<string>, x: seq<string>, y: seq<string>)
    requires IsRun(x, true) <==> AreGroups(y)
    requires AreGroups(y) ==> RunWords(x) == RunWords(y)
    ensures IsSpelling(Elided(left, x)) <==> IsHexSpelling(Elided(left, y))
    ensures IsSpelling(Elided(left, x)) ==> Words(Elided(left, x)) == Words(Elided(left, y))
  {
    assert IsRun(left, false) <==> AreGroups(left);
  }

  lemma Desugar(prefix: Spelling, q: string, hi: string, lo: string)
    requires IsQuad(q) && IsGroup(hi) && IsGroup(lo) && FieldWords(hi) + FieldWords(lo) == FieldWords(q)
    ensures IsSpelling(Add(prefix, [q])) <==> IsHexSpelling(Add(prefix, [hi, lo]))
    ensures IsSpelling(Add(prefix, [q])) ==> Words(Add(prefix, [q])) == Words(Add(prefix, [hi, lo]))
  {
    match prefix
    case Full(fields) =>
      DesugarRun(fields, q, hi, lo);
      SameRunFull(fields + [q], fields + [hi, lo]);
    case Elided(left, right) =>
      DesugarRun(right, q, hi, lo);
      SameRunElided(left, right + [q], right + [hi, lo]);
  }

  // ------------------------------------------------------------------ the theorem

  /** The number the grammar gives a text, if it is an IPv6 text. */
  function Denotation(s: string): Option<Ip> {
    if IsIpv6Text(s) then Some(Ip(Address(Decode(s)), V6)) else None
  }

  lemma DottedIsTail(q: string)
    requires IsQuadShape(q)
    ensures IsTail(q) && Free(q, ':') && Split(q, ':') == [q]
  {
    ShapeIsAlphabetic(q);
    FreeByIndex(q, ':');
    SplitFree(q, ':');
  }

  /** Where the tail is a dotted quad, rewriting keeps what the text denotes. */
  lemma RewrittenTail(p: string, q: string)
    requires IsQuad(q)
    requires CountElisions(p + ":" + q) <= 1
    ensures WorkBits(p + ":" + HexHalves(QuadValue(q))) == Denotation(p + ":" + q)
  {
    var v := QuadValue(q);
    QuadHasShape(q);
    DottedIsTail(q);
    DecodeTail(p, q);
    HalvesAreTwoFields(v);
    DecodeTail(p, HexHalves(v));
    TailKeepsElisionCount(p, q, HexHalves(v));
    WorkBitsReadsHexSpellings(p + ":" + HexHalves(v));
    HalvesPreserveQuad(q);
    Desugar(Prefix(p), q, Hi(v), Lo(v));
  }

  lemma RefusedTail(p: string, q: string)
    requires IsQuadShape(q) && !IsQuad(q)
    ensures Denotation(p + ":" + q) == None
  {
    ShapeIsAlphabetic(q);
    DottedIsTail(q);
    DecodeTail(p, q);
    NotAField(Prefix(p), q);
  }

  lemma RewriteTailOf(p: string, q: string)
    requires IsQuadShape(q)
    ensures RewriteTail(p + ":" + q) == if IsQuad(q) then Some(p + ":" + HexHalves(QuadValue(q))) else None
  {
    var s := p + ":" + q;
    DottedIsTail(q);
    LastIndexUnique(p, ':', q);
    assert s[|p| + 1..] == q;
    assert s[..|s| - |q|] == p + ":";
    ShapedTailBits(q);
  }

  lemma DottedTailCase(s: string)
    requires CountElisions(s) <= 1
    requires LastIndexOf(s, ':') >= 0 && IsQuadShape(s[LastIndexOf(s, ':') + 1..])
    ensures Denotation(s) == AfterRewrite(RewriteTail(s))
  {
    AroundLast(s, ':');
    var p, q := s[..LastIndexOf(s, ':')], s[LastIndexOf(s, ':') + 1..];
    RewriteTailOf(p, q);
    if IsQuad(q) {
      RewrittenTail(p, q);
    } else {
      RefusedTail(p, q);
    }
  }

  lemma NotAField(prefix: Spelling, q: string)
    requires !IsGroup(q) && !IsQuad(q)
    ensures !IsSpelling(Add(prefix, [q]))
  {
    var fields := match prefix case Full(f) => f + [q] case Elided(_, r) => r + [q];
    assert fields[|fields| - 1] == q;
    assert !IsRun(fields, true);
  }

  lemma TailKeepsElisionCount(p: string, x: string, y: string)
    requires IsTail(x) && IsTail(y)
    requires CountElisions(p + ":" + x) <= 1
    ensures CountElisions(p + ":" + y) <= 1
  {
    PairsBeforeTail(p, x);
    PairsBeforeTail(p, y);
    var s, t, e := p + ":" + x, p + ":" + y, ElisionAt(p + ":");
    if e != -1 {
      var restS, restT := s[e + 2..], t[e + 2..];
      assert CountElisions(restS) == 0;
      var k := ElisionAt(restT);
      if k != -1 {
        assert PairAt(t, k + e + 2);
        assert PairAt(s, k + e + 2);
        assert PairAt(restS, k);
      }
    }
  }

  lemma QuadHasShape(q: string)
    requires IsQuad(q)
    ensures IsQuadShape(q)
  {
    var f := Split(q, '.');
    forall i | 0 <= i < 4 ensures 1 <= |f[i]| <= 3 && IsNumeral(f[i], 10) {
      assert IsOctet(f[i]);
    }
  }

  lemma RunWithoutQuad(fields: seq<string>)
    requires IsRun(fields, true)
    requires fields != [] ==> !IsQuad(fields[|fields| - 1])
    ensures AreGroups(fields)
  {
  }

  predicate HasPlainTail(s: string) {
    LastIndexOf(s, ':') == -1 || !IsQuadShape(s[LastIndexOf(s, ':') + 1..])
  }

  lemma QuadTailShows(s: string, f: string)
    requires HasTail(s, f) && IsQuad(f)
    ensures !HasPlainTail(s)
  {
    QuadHasShape(f);
  }

  lemma NoDottedLast(sp: Spelling, init: seq<string>, f: string, s: string)
    requires IsSpelling(sp) && s == Render(sp) && HasPlainTail(s)
    requires sp == Full(init + [f]) || (sp.Elided? && sp.right == init + [f])
    ensures !IsQuad(f)
  {
    if IsQuad(f) {
      QuadIsTheTail(sp, init, f);
      QuadTailShows(s, f);
    }
  }

  lemma InitAndLast(fields: seq<string>, init: seq<string>, f: string)
    requires fields != [] && init == fields[..|fields| - 1] && f == fields[|fields| - 1]
    ensures fields == init + [f]
  {
  }

  lemma NoDottedTail(sp: Spelling, fields: seq<string>)
    requires IsSpelling(sp)
    requires sp == Full(fields) || (sp.Elided? && sp.right == fields)
    requires HasPlainTail(Render(sp))
    ensures fields != [] ==> !IsQuad(fields[|fields| - 1])
  {
    if fields != [] {
      var init, f := fields[..|fields| - 1], fields[|fields| - 1];
      InitAndLast(fields, init, f);
      NoDottedLast(sp, init, f, Render(sp));
    }
  }

  lemma PlainTailIsHex(sp: Spelling)
    requires IsSpelling(sp)
    requires HasPlainTail(Render(sp))
    ensures IsHexSpelling(sp)
  {
    match sp
    case Full(fields) =>
      NoDottedTail(sp, fields);
      RunWithoutQuad(fields);
    case Elided(_, right) =>
      NoDottedTail(sp, right);
      RunWithoutQuad(right);
  }

  lemma PlainTailStays(s: string)
    requires HasPlainTail(s)
    ensures AfterRewrite(RewriteTail(s)) == WorkBits(s)
  {
  }

  lemma PlainSpelling(sp: Spelling, s: string)
    requires Render(sp) == s && HasPlainTail(s)
    ensures IsSpelling(sp) ==> IsHexSpelling(sp)
  {
    if IsSpelling(sp) {
      PlainTailIsHex(sp);
    }
  }

  lemma PlainTailDecodes(s: string)
    requires HasPlainTail(s)
    ensures IsSpelling(Decode(s)) <==> IsHexSpelling(Decode(s))
  {
    RenderDecode(s);
    PlainSpelling(Decode(s), s);
  }

  lemma HexDenotes(s: string)
    requires IsSpelling(Decode(s)) <==> IsHexSpelling(Decode(s))
    ensures Denotation(s) == HexDenotation(Decode(s))
  {
    RenderDecode(s);
  }

  lemma PlainTailCase(s: string)
    requires CountElisions(s) <= 1 && HasPlainTail(s)
    ensures Denotation(s) == WorkBits(s)
  {
    PlainTailDecodes(s);
    HexDenotes(s);
    WorkBitsReadsHexSpellings(s);
  }

  lemma RewritingKeepsDenotation(s: string)
    requires CountElisions(s) <= 1
    ensures Denotation(s) == AfterRewrite(RewriteTail(s))
  {
    if HasPlainTail(s) {
      PlainTailCase(s);
      PlainTailStays(s);
    } else {
      DottedTailCase(s);
    }
  }

  lemma OnlyAlphabeticTextsDenote(s: string)
    ensures Denotation(s).Some? ==> InAlphabet(s) && '%' !in s && CountElisions(s) <= 1
  {
    if IsIpv6Text(s) {
      RenderDecode(s);
      SpellingIsAlphabetic(Decode(s));
      SpellingHasOneElision(s);
    }
  }

  /** On every text the parser returns what the grammar says. */
  lemma Ipv6BitsIsTheGrammar(s: string)
    ensures Ipv6Bits(s) == Denotation(s)
  {
    OnlyAlphabeticTextsDenote(s);
    if CountElisions(s) <= 1 {
      RewritingKeepsDenotation(s);
    }
  }
}
