/** What callers of the address parser may rely on. */
module AddressTheorems {
  import opened Results
  import opened Text
  import opened AddressGrammar
  import opened IpParser
  import opened IpParserCorrectness

  // ------------------------------------------------------- positional numbers

  predicate AreWords(words: seq<nat>) {
    forall i | 0 <= i < |words| :: words[i] < 0x1_0000
  }

  lemma {:induction false} PositionalBound(words: seq<nat>)
    requires AreWords(words)
    ensures Positional(words) < Pow(0x1_0000, |words|)
  {
    if words != [] {
      PositionalBound(words[..|words| - 1]);
    }
  }

  lemma {:induction false} PositionalInjective(a: seq<nat>, b: seq<nat>)
    requires |a| == |b| && AreWords(a) && AreWords(b)
    requires Positional(a) == Positional(b)
    ensures a == b
  {
    if a != [] {
      var n := |a| - 1;
      PositionalInjective(a[..n], b[..n]);
      assert a == a[..n] + [a[n]] && b == b[..n] + [b[n]];
    }
  }

  const TWO_TO_128: nat := 0x1_0000_0000_0000_0000_0000_0000_0000_0000

  lemma EightWords()
    ensures Pow(0x1_0000, 8) == TWO_TO_128
  {
    assert Pow(0x1_0000, 2) == 0x1_0000_0000;
    assert Pow(0x1_0000, 4) == 0x1_0000_0000_0000_0000;
    assert Pow(0x1_0000, 6) == 0x1_0000_0000_0000_0000_0000_0000;
  }

  lemma {:induction false} RunWordsAreWords(fields: seq<string>)
    requires IsRun(fields, true)
    ensures AreWords(RunWords(fields))
  {
    if fields != [] {
      var init, last := fields[..|fields| - 1], fields[|fields| - 1];
      RunWordsAreWords(init);
      if !IsQuad(last) {
        GroupBound(last);
      }
    }
  }

  lemma SpellingWordsAreWords(sp: Spelling)
    requires IsSpelling(sp)
    ensures AreWords(Words(sp)) && Address(sp) < TWO_TO_128
  {
    match sp {
      case Full(fields) => RunWordsAreWords(fields);
      case Elided(left, right) =>
        RunWordsAreWords(left);
        RunWordsAreWords(right);
    }
    PositionalBound(Words(sp));
    EightWords();
  }

  // ------------------------------------------------------------------ parseIpv6

  /** `parseIpv6` accepts exactly the texts of section 2.2 of RFC 4291. */
  lemma AcceptsExactlyTheGrammar(s: string)
    ensures Ipv6Bits(s).Some? <==> exists sp :: IsSpelling(sp) && Render(sp) == s
  {
    Ipv6BitsIsTheGrammar(s);
    GrammarIsDecidable(s);
  }

  /** It returns the denoted number, below 2^128, for every spelling. */
  lemma EverySpellingParses(sp: Spelling)
    requires IsSpelling(sp)
    ensures Ipv6Bits(Render(sp)) == Some(Ip(Address(sp), V6))
    ensures Address(sp) < TWO_TO_128
  {
    Ipv6BitsIsTheGrammar(Render(sp));
    DecodeRender(sp);
    SpellingWordsAreWords(sp);
  }

  /** Two spellings parse alike exactly when they denote the same eight words. */
  lemma SameWordsSameInteger(a: Spelling, b: Spelling)
    requires IsSpelling(a) && IsSpelling(b)
    ensures Ipv6Bits(Render(a)) == Ipv6Bits(Render(b)) <==> Words(a) == Words(b)
  {
    EverySpellingParses(a);
    EverySpellingParses(b);
    SpellingWordsAreWords(a);
    SpellingWordsAreWords(b);
    if Address(a) == Address(b) {
      PositionalInjective(Words(a), Words(b));
    }
  }

  /** Any run of zero words may be elided, and the other words written with any
      leading zeros and either case of digit: the integer stays the same. */
  lemma AnyZeroRunMayBeElided(words: seq<nat>, left: seq<string>, right: seq<string>)
    requires AreGroups(left) && AreGroups(right) && |left| + |right| <= 7
    requires words == HexValues(left) + Zeros(8 - |left| - |right|) + HexValues(right)
    ensures Ipv6Bits(Render(Elided(left, right))) == Some(Ip(Positional(words), V6))
  {
    ElidedHexSpelling(left, right);
    EverySpellingParses(Elided(left, right));
  }

  lemma NothingNeedsEliding(words: seq<nat>, fields: seq<string>)
    requires |words| == 8 && AreGroups(fields) && HexValues(fields) == words
    ensures Ipv6Bits(Render(Full(fields))) == Some(Ip(Positional(words), V6))
  {
    FullHexSpelling(fields);
    EverySpellingParses(Full(fields));
  }

  // --------------------------------------------------------------- parseIpToBits

  lemma QuadBits(q: string)
    requires IsQuad(q)
    ensures IpBits(q) == Some(Ip(QuadValue(q), V4)) && QuadValue(q) < 0x1_0000_0000
  {
    QuadHasShape(q);
    QuadIsPlain(q);
    ShapedTailBits(q);
  }

  lemma ShapeHasNoColon(q: string)
    requires IsQuadShape(q)
    ensures Free(q, ':')
  {
    ShapeIsAlphabetic(q);
  }

  lemma MappedWithoutQuad(address: string)
    requires IsMappedText(address) && !IsQuad(address[7..])
    ensures IpBits(address) == None
  {
    var tail := address[7..];
    ShapeHasNoColon(tail);
    ShapedTailBits(tail);
    FreeByIndex(tail, ':');
    assert Candidate(tail) == tail;
  }

  lemma PlainTextBits(address: string)
    requires !IsMappedText(address) && !IsQuad(address)
    ensures IpBits(address) == Denotation(address)
  {
    Ipv6BitsIsTheGrammar(address);
    OnlyAlphabeticTextsDenote(address);
    FreeByIndex(address, '%');
    assert address[..|address|] == address;
  }

  /** The whole of `parseIpToBits`, by kind of text. */
  lemma IpBitsByKind(address: string)
    ensures IpBits(address) ==
            if IsQuad(Candidate(address)) then Some(Ip(QuadValue(Candidate(address)), V4))
            else if IsMappedText(address) then None
            else Denotation(address)
  {
    if !IsQuad(Candidate(address)) {
      if IsMappedText(address) {
        MappedWithoutQuad(address);
      } else {
        PlainTextBits(address);
      }
    }
  }

  /** An IPv4-mapped text, in either case, is the IPv4 address it ends with. */
  lemma MappedTextIsItsQuad(address: string)
    requires IsMappedText(address)
    ensures IpBits(address) == IpBits(address[7..])
  {
    var q := address[7..];
    IpBitsByKind(address);
    ShapeHasNoColon(q);
    ShapedTailBits(q);
  }

  lemma IpBitsInRange(address: string)
    ensures match IpBits(address)
            case None => true
            case Some(Ip(bits, V4)) => bits < 0x1_0000_0000
            case Some(Ip(bits, V6)) => bits < TWO_TO_128
  {
    IpBitsByKind(address);
    if IsQuad(Candidate(address)) {
      QuadBits(Candidate(address));
    } else if IsIpv6Text(address) {
      SpellingWordsAreWords(Decode(address));
    }
  }

  // ------------------------------------------------------ mapped texts as spellings

  lemma MappedDecode(s: string)
    requires IsMappedText(s)
    ensures Decode(s) == Elided([], [s[2..6], s[7..]])
  {
    var f, q := s[2..6], s[7..];
    ShapeHasNoColon(q);
    FreeByIndex(f, ':');
    assert PairAt(s, 0);
    assert s[2..] == f + ":" + q;
    SplitAppend(f, ':', q);
    SplitFree(f, ':');
    SplitFree(q, ':');
    assert [f] + [q] == [f, q];
  }

  lemma MappedWords(f: string, q: string)
    requires |f| == 4 && forall i | 0 <= i < 4 :: f[i] == 'f' || f[i] == 'F'
    requires !IsGroup(q)
    ensures IsSpelling(Elided([], [f, q])) <==> IsQuad(q)
    ensures IsQuad(q) ==> Words(Elided([], [f, q])) == [0, 0, 0, 0, 0, 0xFFFF] + FieldWords(q)
  {
    FfffIsGroup(f);
    var right := [f, q];
    assert right[1] == q;
    assert right[..1] == [f] && [f][..0] == [];
    assert RunWords([f]) == [] + FieldWords(f);
    if IsQuad(q) {
      assert RunWords(right) == RunWords([f]) + FieldWords(q);
      assert Words(Elided([], right)) == [] + Zeros(5) + ([0xFFFF] + FieldWords(q));
    }
  }

  lemma MappedSpelling(sp: Spelling)
    requires IsSpelling(sp) && IsMappedText(Render(sp))
    ensures var q := Render(sp)[7..];
      IsQuad(q) && Words(sp) == [0, 0, 0, 0, 0, 0xFFFF] + FieldWords(q)
  {
    var s := Render(sp);
    DecodeRender(sp);
    MappedDecode(s);
    ShapeIsAlphabetic(s[7..]);
    MappedWords(s[2..6], s[7..]);
  }

  lemma FfffIsGroup(f: string)
    requires |f| == 4 && forall i | 0 <= i < 4 :: f[i] == 'f' || f[i] == 'F'
    ensures IsGroup(f) && !IsQuad(f) && FieldWords(f) == [0xFFFF]
  {
    assert f[..3][..2] == f[..2] && f[..2][..1] == f[..1] && f[..1][..0] == "";
    assert Value(f[..1], 16) == 15;
    assert Value(f[..2], 16) == 255;
    assert Value(f[..3], 16) == 4095;
    if IsQuad(f) {
      QuadIsPlain(f);
    }
  }

  /** Exactly when two spellings of one IPv6 address are told apart: when one of
      them, and only one, is the dotted `::ffff:` form. */
  lemma SpellingsAgreeUnlessOneIsMapped(a: Spelling, b: Spelling)
    requires IsSpelling(a) && IsSpelling(b) && Words(a) == Words(b)
    ensures IpBits(Render(a)) == IpBits(Render(b)) <==> (IsMappedText(Render(a)) <==> IsMappedText(Render(b)))
  {
    SpellingIsNoQuad(a);
    SpellingIsNoQuad(b);
    if IsMappedText(Render(a)) {
      MappedSpelling(a);
    }
    if IsMappedText(Render(b)) {
      MappedSpelling(b);
    }
    if IsMappedText(Render(a)) && IsMappedText(Render(b)) {
      var p, q := Render(a)[7..], Render(b)[7..];
      assert Words(a)[6..] == FieldWords(p) && Words(b)[6..] == FieldWords(q);
      assert FieldWords(p)[0] == FieldWords(q)[0] && FieldWords(p)[1] == FieldWords(q)[1];
      assert QuadValue(p) == QuadValue(q);
    }
  }

  lemma SpellingIsNoQuad(sp: Spelling)
    requires IsSpelling(sp)
    ensures var s := Render(sp);
      if IsMappedText(s)
      then IsQuad(s[7..]) && IpBits(s) == Some(Ip(QuadValue(s[7..]), V4))
      else IpBits(s) == Some(Ip(Address(sp), V6))
  {
    var s := Render(sp);
    DecodeRender(sp);
    IpBitsByKind(s);
    if IsMappedText(s) {
      MappedSpelling(sp);
    } else if IsQuad(s) {
      QuadIsPlain(s);
      FreeByIndex(s, ':');
      SplitFree(s, ':');
      LoneQuadIsNoSpelling(s);
    }
  }

  /** `sp` spells the IPv4-mapped address of `q` (RFC 4291 section 2.5.5.2). */
  predicate SpellsMapped(sp: Spelling, q: string) {
    IsSpelling(sp) && IsQuad(q) && Words(sp) == [0, 0, 0, 0, 0, 0xFFFF] + FieldWords(q)
  }

  lemma QuadOfWords(p: string, q: string, head: seq<nat>)
    requires IsQuad(p) && IsQuad(q) && head + FieldWords(p) == head + FieldWords(q)
    ensures QuadValue(p) == QuadValue(q)
  {
    assert FieldWords(p) == (head + FieldWords(p))[|head|..];
    assert FieldWords(q) == (head + FieldWords(q))[|head|..];
  }

  lemma MappedSpellingBits(sp: Spelling, q: string)
    requires SpellsMapped(sp, q)
    ensures IpBits(q) == Some(Ip(QuadValue(q), V4))
    ensures IpBits(Render(sp)) == if IsMappedText(Render(sp)) then IpBits(q) else Some(Ip(Address(sp), V6))
  {
    QuadBits(q);
    SpellingIsNoQuad(sp);
    if IsMappedText(Render(sp)) {
      MappedSpelling(sp);
      QuadOfWords(Render(sp)[7..], q, [0, 0, 0, 0, 0, 0xFFFF]);
    }
  }

  /** Both forms the previous lemma tells apart exist for every IPv4 address:
      `::ffff:a.b.c.d` is read as IPv4, the same address in hexadecimal groups as IPv6. */
  lemma HexMappedFormStaysIpv6(q: string)
    requires IsQuad(q)
    ensures var v := QuadValue(q);
      var dotted, hex := Elided([], ["ffff", q]), Elided([], ["ffff"] + Split(HexHalves(v), ':'));
      && IsSpelling(dotted) && IsSpelling(hex) && Words(dotted) == Words(hex)
      && Render(dotted) == "::ffff:" + q && Render(hex) == "::ffff:" + HexHalves(v)
      && IpBits(Render(dotted)) == Some(Ip(v, V4))
      && IpBits(Render(hex)) == Some(Ip(Address(dotted), V6))
  {
    var v := QuadValue(q);
    QuadIsPlain(q);
    HalvesPreserveQuad(q);
    HalvesAreTwoFields(v);
    MappedWords("ffff", q);
    var prefix := Elided([], ["ffff"]);
    assert ["ffff"] + [q] == ["ffff", q];
    Desugar(prefix, q, Hi(v), Lo(v));
    var dotted, hex := Add(prefix, [q]), Add(prefix, [Hi(v), Lo(v)]);
    RenderFfff([q], q);
    JoinSplit(HexHalves(v), ':');
    RenderFfff([Hi(v), Lo(v)], HexHalves(v));
    DottedFfffIsMapped(q);
    SpellingIsNoQuad(dotted);
    SpellingIsNoQuad(hex);
    ThreeFieldsAreNotMapped(hex);
  }

  lemma DottedFfffIsMapped(q: string)
    requires IsQuad(q)
    ensures IsMappedText("::ffff:" + q) && ("::ffff:" + q)[7..] == q
  {
    QuadHasShape(q);
    assert ("::ffff:" + q)[7..] == q;
  }

  lemma ThreeFieldsAreNotMapped(sp: Spelling)
    requires IsSpelling(sp) && sp.Elided? && |sp.right| == 3
    ensures !IsMappedText(Render(sp))
  {
    DecodeRender(sp);
    if IsMappedText(Render(sp)) {
      MappedDecode(Render(sp));
    }
  }

  lemma RenderFfff(fields: seq<string>, text: string)
    requires fields != [] && Join(fields, ':') == text
    ensures Render(Elided([], ["ffff"] + fields)) == "::ffff:" + text
  {
    JoinAppend(["ffff"], fields, ':');
    assert "" + "::" + ("ffff" + ":" + text) == "::ffff:" + text;
  }
}
