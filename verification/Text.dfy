/** Text as sequences of characters: splitting and joining on a separator, and
    numerals in base ten or sixteen. */
module Text {

  // ---------------------------------------------------------------- characters

  predicate IsDigit(c: char) {
    '0' <= c <= '9'
  }

  predicate IsHexDigit(c: char) {
    IsDigit(c) || 'a' <= c <= 'f' || 'A' <= c <= 'F'
  }

  function DigitValue(c: char): (v: nat)
    requires IsHexDigit(c)
    ensures v < 16
    ensures IsDigit(c) <==> v < 10
  {
    if IsDigit(c) then c as int - '0' as int
    else if 'a' <= c then c as int - 'a' as int + 10
    else c as int - 'A' as int + 10
  }

  /** The lower-case digit `Number.prototype.toString` and `BigInt.prototype.toString` print. */
  function DigitChar(v: nat): (c: char)
    requires v < 16
    ensures IsHexDigit(c) && DigitValue(c) == v
  {
    if v < 10 then ('0' as int + v) as char else ('a' as int + v - 10) as char
  }

  /** `toLowerCase` on ASCII; the sources lower-case addresses and machine codes. */
  function LowerChar(c: char): (d: char)
    ensures IsHexDigit(c) ==> IsHexDigit(d) && DigitValue(d) == DigitValue(c)
    ensures d == c <==> !('A' <= c <= 'Z')
    ensures d != c ==> 'a' <= d <= 'z' && d as int - 'a' as int == c as int - 'A' as int
  {
    if 'A' <= c <= 'Z' then (c as int + 32) as char else c
  }

  function Lower(s: string): (t: string)
    ensures |t| == |s|
  {
    seq(|s|, i requires 0 <= i < |s| => LowerChar(s[i]))
  }

  /** What `\s` matches and `trim` removes. */
  predicate IsSpace(c: char) {
    || '\t' <= c <= '\r' || c == ' ' || c == '\U{A0}' || c == '\U{1680}'
    || '\U{2000}' <= c <= '\U{200A}' || c == '\U{2028}' || c == '\U{2029}'
    || c == '\U{202F}' || c == '\U{205F}' || c == '\U{3000}' || c == '\U{FEFF}'
  }

  /** `s.trim()` */
  function Trim(s: string): string {
    if s != "" && IsSpace(s[0]) then Trim(s[1..])
    else if s != "" && IsSpace(s[|s| - 1]) then Trim(s[..|s| - 1])
    else s
  }

  predicate HasBareEnds(s: string) {
    s != "" ==> !IsSpace(s[0]) && !IsSpace(s[|s| - 1])
  }

  lemma {:induction false} TrimShortens(s: string)
    ensures HasBareEnds(Trim(s)) && |Trim(s)| <= |s|
    ensures !HasBareEnds(s) ==> |Trim(s)| < |s|
  {
    if s != "" && IsSpace(s[0]) {
      TrimShortens(s[1..]);
    } else if s != "" && IsSpace(s[|s| - 1]) {
      TrimShortens(s[..|s| - 1]);
    }
  }

  /** Trimming keeps exactly the texts that neither begin nor end with white space. */
  lemma TrimKeepsExactly(s: string)
    ensures Trim(s) == s <==> HasBareEnds(s)
  {
    TrimShortens(s);
  }

  predicate IsBlank(s: string) {
    forall i | 0 <= i < |s| :: IsSpace(s[i])
  }

  /** Whatever white space surrounds a text is removed, and no more. */
  lemma {:induction false} TrimStrips(before: string, text: string, after: string)
    requires IsBlank(before) && HasBareEnds(text) && IsBlank(after)
    ensures Trim(before + text + after) == text
    decreases |before| + |after|
  {
    var s := before + text + after;
    if before != "" {
      assert s[1..] == before[1..] + text + after;
      TrimStrips(before[1..], text, after);
    } else if after != "" {
      assert s[..|s| - 1] == before + text + after[..|after| - 1];
      TrimStrips(before, text, after[..|after| - 1]);
      if text == "" {
        assert IsSpace(s[0]) && s[1..] == before + text + after[1..];
        TrimStrips(before, text, after[1..]);
      }
    } else {
      assert s == text;
    }
  }

  /** And every text is one surrounded by white space. */
  lemma {:induction false} TrimSurrounded(s: string) returns (before: string, after: string)
    ensures IsBlank(before) && IsBlank(after) && s == before + Trim(s) + after
  {
    if s != "" && IsSpace(s[0]) {
      before, after := TrimSurrounded(s[1..]);
      before := [s[0]] + before;
    } else if s != "" && IsSpace(s[|s| - 1]) {
      before, after := TrimSurrounded(s[..|s| - 1]);
      after := after + [s[|s| - 1]];
    } else {
      before, after := "", "";
    }
  }

  lemma BlankExactly(s: string)
    ensures Trim(s) == "" <==> IsBlank(s)
  {
    if IsBlank(s) {
      TrimStrips(s, "", "");
      assert s + "" + "" == s;
    } else {
      var before, after := TrimSurrounded(s);
    }
  }

  // -------------------------------------------------------------------- numerals

  /** The two bases the sources print and read numbers in. */
  predicate IsBase(base: nat) {
    base == 10 || base == 16
  }

  function Times(n: nat, base: nat): nat
    requires IsBase(base)
  {
    if base == 10 then 10 * n else 16 * n
  }

  predicate IsNumeral(s: string, base: nat) {
    forall i | 0 <= i < |s| :: IsHexDigit(s[i]) && DigitValue(s[i]) < base
  }

  /** The number a big-endian digit string denotes; the empty string denotes zero. */
  function Value(s: string, base: nat): nat
    requires IsBase(base) && IsNumeral(s, base)
  {
    if s == "" then 0 else Times(Value(s[..|s| - 1], base), base) + DigitValue(s[|s| - 1])
  }

  /** The shortest numeral of `n`, as `toString(base)` prints it. */
  function Numeral(n: nat, base: nat): (s: string)
    requires IsBase(base)
    ensures IsNumeral(s, base) && s != ""
  {
    if n < base then [DigitChar(n)]
    else if base == 10 then Numeral(n / 10, base) + [DigitChar(n % 10)]
    else Numeral(n / 16, base) + [DigitChar(n % 16)]
  }

  /** `base ** k`. */
  function Pow(base: nat, k: nat): nat {
    if k == 0 then 1 else base * Pow(base, k - 1)
  }

  lemma {:induction false} NumeralValue(n: nat, base: nat)
    requires IsBase(base)
    ensures Value(Numeral(n, base), base) == n
  {
    var s := Numeral(n, base);
    if n >= base {
      var m := if base == 10 then n / 10 else n / 16;
      NumeralValue(m, base);
      assert s[..|s| - 1] == Numeral(m, base);
    }
  }

  lemma NumeralStep(m: nat, d: nat)
    requires m >= 1 && d < 10
    ensures Numeral(10 * m + d, 10) == Numeral(m, 10) + [DigitChar(d)]
  {
    assert (10 * m + d) / 10 == m && (10 * m + d) % 10 == d;
  }

  lemma {:induction false} ValueBound(s: string, base: nat)
    requires IsBase(base) && IsNumeral(s, base)
    ensures Value(s, base) < Pow(base, |s|)
  {
    if s != "" {
      ValueBound(s[..|s| - 1], base);
    }
  }

  lemma {:induction false} NumeralLength(n: nat, base: nat, k: nat)
    requires IsBase(base) && 1 <= k && n < Pow(base, k)
    ensures |Numeral(n, base)| <= k
  {
    if n >= base {
      assert Pow(base, k) == base * Pow(base, k - 1);
      if k > 1 {
        NumeralLength(if base == 10 then n / 10 else n / 16, base, k - 1);
      }
    }
  }

  /** The digits count up from '0', the letters of either case from ten. */
  lemma DigitsCountUp(c: char, d: char)
    requires IsHexDigit(c) && IsHexDigit(d) && d as int == c as int + 1
    ensures DigitValue(d) == DigitValue(c) + 1
    ensures DigitValue('0') == 0 && DigitValue('a') == 10 && DigitValue('A') == 10
  {
  }

  lemma OneMorePlace(v: nat, w: nat, p: nat, d: nat, q: nat, base: nat)
    requires IsBase(base) && q == base * p
    ensures Times(v * p + w, base) + d == v * q + (Times(w, base) + d)
  {
    if base == 10 {
      assert v * (10 * p) == 10 * (v * p);
    } else {
      assert v * (16 * p) == 16 * (v * p);
    }
  }

  lemma ValueOneMore(s: string, c: char, base: nat)
    requires IsBase(base) && IsNumeral(s, base) && IsHexDigit(c) && DigitValue(c) < base
    ensures IsNumeral(s + [c], base) && Value(s + [c], base) == Times(Value(s, base), base) + DigitValue(c)
  {
    assert (s + [c])[..|s|] == s;
  }

  /** The number denoted by `s` followed by `t`, by the place of its digits. */
  predicate IsPlaced(s: string, t: string, base: nat)
    requires IsBase(base) && IsNumeral(s, base) && IsNumeral(t, base)
  {
    IsNumeral(s + t, base) && Value(s + t, base) == Value(s, base) * Pow(base, |t|) + Value(t, base)
  }

  lemma PlacedOneMore(s: string, u: string, c: char, base: nat)
    requires IsBase(base) && IsNumeral(s, base) && IsNumeral(u, base)
    requires IsHexDigit(c) && DigitValue(c) < base && IsPlaced(s, u, base)
    ensures IsNumeral(u + [c], base) && IsPlaced(s, u + [c], base)
  {
    assert s + (u + [c]) == (s + u) + [c];
    ValueOneMore(s + u, c, base);
    ValueOneMore(u, c, base);
    var p := Pow(base, |u|);
    OneMorePlace(Value(s, base), Value(u, base), p, DigitValue(c), base * p, base);
  }

  /** What stands before the last `k` digits counts `base ** k` times its own value. */
  lemma {:induction false} ValueByPlace(s: string, t: string, base: nat)
    requires IsBase(base) && IsNumeral(s, base) && IsNumeral(t, base)
    ensures IsPlaced(s, t, base)
  {
    if t == "" {
      assert s + t == s;
    } else {
      var u, c := t[..|t| - 1], t[|t| - 1];
      assert t == u + [c];
      ValueByPlace(s, u, base);
      PlacedOneMore(s, u, c, base);
    }
  }

  /** No needless leading zero. */
  predicate IsShortest(s: string) {
    s != "" && (|s| > 1 ==> s[0] != '0')
  }

  lemma {:induction false} NumeralIsShortest(n: nat, base: nat)
    requires IsBase(base)
    ensures IsShortest(Numeral(n, base))
    ensures n > 0 ==> Numeral(n, base)[0] != '0'
  {
    if n >= base {
      NumeralIsShortest(if base == 10 then n / 10 else n / 16, base);
    }
  }

  /** A decimal numeral without needless zeros is the one `toString` prints for its value. */
  lemma {:induction false} ShortestIsNumeral(s: string)
    requires IsNumeral(s, 10) && IsShortest(s)
    ensures Numeral(Value(s, 10), 10) == s
    ensures |s| > 1 ==> Value(s, 10) >= 10
    ensures s[0] != '0' ==> Value(s, 10) >= 1
  {
    var t, d := s[..|s| - 1], s[|s| - 1];
    assert DigitChar(DigitValue(d)) == d;
    assert s == t + [d];
    if |s| == 1 {
      assert Value(t, 10) == 0;
    } else {
      ShortestIsNumeral(t);
      NumeralStep(Value(t, 10), DigitValue(d));
    }
  }

  // ------------------------------------------------------------------- division

  lemma QuotientUnique(n: nat, q: nat, r: nat, d: nat)
    requires n == q * d + r && r < d
    ensures n / d == q && n % d == r
  {
    var q', r' := n / d, n % d;
    assert n == q' * d + r';
    AtLeastOneMore(q, q', d);
    AtLeastOneMore(q', q, d);
  }

  lemma {:induction false} AtLeastOneMore(a: int, b: int, d: nat)
    ensures a + 1 <= b ==> a * d + d <= b * d
    decreases b - a
  {
    if a + 1 <= b {
      assert (a + 1) * d == a * d + d;
      AtLeastOneMore(a + 1, b, d);
    }
  }

  // ---------------------------------------------------------- split and join

  /** `s.split(c)` for a one-character separator. */
  function Split(s: string, c: char): (fields: seq<string>)
    ensures fields != []
  {
    if s == "" then [""]
    else
      var rest := Split(s[1..], c);
      if s[0] == c then [""] + rest else Extend(s[0], rest)
  }

  /** One more character at the front of the first field. */
  function Extend(x: char, fields: seq<string>): (longer: seq<string>)
    requires fields != []
    ensures longer != []
  {
    [[x] + fields[0]] + fields[1..]
  }

  lemma ExtendAppend(x: char, a: seq<string>, b: seq<string>)
    requires a != []
    ensures Extend(x, a + b) == Extend(x, a) + b
  {
    assert (a + b)[1..] == a[1..] + b;
  }

  function Join(fields: seq<string>, c: char): string
    requires fields != []
  {
    if |fields| == 1 then fields[0] else fields[0] + [c] + Join(fields[1..], c)
  }

  predicate Free(s: string, c: char) {
    c !in s
  }

  lemma FreeByIndex(s: string, c: char)
    ensures Free(s, c) <==> forall i | 0 <= i < |s| :: s[i] != c
  {
  }

  lemma {:induction false} SplitFree(s: string, c: char)
    requires Free(s, c)
    ensures Split(s, c) == [s]
  {
    if s != "" {
      SplitFree(s[1..], c);
      assert [s[0]] + s[1..] == s;
    }
  }

  /** Splitting distributes over a separator. */
  lemma {:induction false} SplitAppend(a: string, c: char, b: string)
    ensures Split(a + [c] + b, c) == Split(a, c) + Split(b, c)
  {
    if a == "" {
      assert a + [c] + b == [c] + b;
      assert ([c] + b)[1..] == b;
    } else {
      SplitAppend(a[1..], c, b);
      assert (a + [c] + b)[1..] == a[1..] + [c] + b;
      if a[0] == c {
        assert [""] + (Split(a[1..], c) + Split(b, c)) == ([""] + Split(a[1..], c)) + Split(b, c);
      } else {
        ExtendAppend(a[0], Split(a[1..], c), Split(b, c));
      }
    }
  }

  lemma {:induction false} SplitJoin(fields: seq<string>, c: char)
    requires fields != [] && forall f | f in fields :: Free(f, c)
    ensures Split(Join(fields, c), c) == fields
  {
    SplitFree(fields[0], c);
    if |fields| == 1 {
      assert fields == [fields[0]];
    } else {
      SplitJoin(fields[1..], c);
      SplitAppend(fields[0], c, Join(fields[1..], c));
      assert fields == [fields[0]] + fields[1..];
    }
  }

  lemma {:induction false} JoinSplit(s: string, c: char)
    ensures Join(Split(s, c), c) == s
  {
    if s != "" {
      var rest := Split(s[1..], c);
      JoinSplit(s[1..], c);
      assert s == [s[0]] + s[1..];
      if s[0] == c {
        assert ([""] + rest)[1..] == rest;
        assert "" + [c] + s[1..] == s;
      } else {
        JoinPrefix(s[0], rest, c);
      }
    }
  }

  lemma JoinPrefix(x: char, fields: seq<string>, c: char)
    requires fields != []
    ensures Join(Extend(x, fields), c) == [x] + Join(fields, c)
  {
    var longer := Extend(x, fields);
    assert longer[1..] == fields[1..];
    if |fields| > 1 {
      var tail := [c] + Join(fields[1..], c);
      assert ([x] + fields[0]) + tail == [x] + (fields[0] + tail);
      assert Join(fields, c) == fields[0] + tail;
      assert Join(longer, c) == ([x] + fields[0]) + tail;
    }
  }

  lemma {:induction false} JoinAppend(a: seq<string>, b: seq<string>, c: char)
    requires a != [] && b != []
    ensures Join(a + b, c) == Join(a, c) + [c] + Join(b, c)
  {
    if |a| == 1 {
      assert (a + b)[1..] == b;
    } else {
      JoinAppend(a[1..], b, c);
      assert (a + b)[1..] == a[1..] + b;
    }
  }

  /** `s.lastIndexOf(c)`: where the last `c` is, or -1. */
  function LastIndexOf(s: string, c: char): (i: int)
    ensures -1 <= i < |s|
  {
    if s == "" then -1
    else if s[|s| - 1] == c then |s| - 1
    else LastIndexOf(s[..|s| - 1], c)
  }

  lemma {:induction false} LastIndexUnique(p: string, c: char, q: string)
    requires Free(q, c)
    ensures LastIndexOf(p + [c] + q, c) == |p|
  {
    var s := p + [c] + q;
    if q != "" {
      FreeByIndex(q, c);
      LastIndexUnique(p, c, q[..|q| - 1]);
      assert s[..|s| - 1] == p + [c] + q[..|q| - 1];
    }
  }

  lemma {:induction false} NoneLater(s: string, c: char)
    ensures LastIndexOf(s, c) >= 0 ==> s[LastIndexOf(s, c)] == c
    ensures forall k | LastIndexOf(s, c) < k < |s| :: s[k] != c
  {
    if s != "" && s[|s| - 1] != c {
      var t := s[..|s| - 1];
      NoneLater(t, c);
      assert forall k | 0 <= k < |t| :: s[k] == t[k];
    }
  }

  /** The text around its last `c`. */
  lemma AroundLast(s: string, c: char)
    ensures Free(s[LastIndexOf(s, c) + 1..], c)
    ensures LastIndexOf(s, c) >= 0 ==> s == s[..LastIndexOf(s, c)] + [c] + s[LastIndexOf(s, c) + 1..]
  {
    NoneLater(s, c);
    FreeByIndex(s[LastIndexOf(s, c) + 1..], c);
  }
}
