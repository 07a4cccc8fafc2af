/** The base64url decoder of apps/web/lib/push.ts (RFC 4648, sections 4 and 5). */
module Base64Url {
  import opened Results
  import opened Text

  type Byte = n: nat | n < 256

  type Sextet = n: nat | n < 64

  // ------------------------------------------------------------------ the alphabets

  /** The standard alphabet. */
  predicate IsBase64(c: char) {
    'A' <= c <= 'Z' || 'a' <= c <= 'z' || IsDigit(c) || c == '+' || c == '/'
  }

  function SextetOf(c: char): Sextet
    requires IsBase64(c)
  {
    if 'A' <= c <= 'Z' then c as int - 'A' as int
    else if 'a' <= c <= 'z' then c as int - 'a' as int + 26
    else if IsDigit(c) then c as int - '0' as int + 52
    else if c == '+' then 62
    else 63
  }

  /** The character of the URL-safe alphabet. */
  function UrlChar(v: Sextet): char {
    if v < 26 then ('A' as int + v) as char
    else if v < 52 then ('a' as int + v - 26) as char
    else if v < 62 then ('0' as int + v - 52) as char
    else if v == 62 then '-'
    else '_'
  }

  function StandardChar(c: char): char {
    if c == '-' then '+' else if c == '_' then '/' else c
  }

  /** `.replace(/-/g, '+').replace(/_/g, '/')` */
  function Standard(s: string): (t: string)
    ensures |t| == |s|
  {
    seq(|s|, i requires 0 <= i < |s| => StandardChar(s[i]))
  }

  predicate IsBase64Text(s: string) {
    forall i | 0 <= i < |s| :: IsBase64(s[i])
  }

  function Sextets(s: string): (v: seq<Sextet>)
    requires IsBase64Text(s)
    ensures |v| == |s|
  {
    seq(|s|, i requires 0 <= i < |s| => SextetOf(s[i]))
  }

  // ---------------------------------------------------------------- bits and bytes

  /** The three bytes of four six-bit groups ... */
  function FirstByte(a: Sextet, b: Sextet): Byte {
    var n: int := 4 * (a as int) + b / 16; n
  }

  function SecondByte(b: Sextet, c: Sextet): Byte {
    var n: int := 16 * (b % 16) as int + c / 4; n
  }

  function ThirdByte(c: Sextet, d: Sextet): Byte {
    var n: int := 64 * (c % 4) as int + d; n
  }

  /** ... and the four groups of three bytes. */
  function FirstGroup(x: Byte): Sextet {
    x / 4
  }

  function SecondGroup(x: Byte, y: Byte): Sextet {
    16 * (x % 4) + y / 16
  }

  function ThirdGroup(y: Byte, z: Byte): Sextet {
    4 * (y % 16) + z / 64
  }

  function FourthGroup(z: Byte): Sextet {
    z % 64
  }

  /** The bytes of a run of six-bit groups; left-over bits are dropped. */
  function Bytes(v: seq<Sextet>): seq<Byte> {
    if |v| < 2 then []
    else if |v| == 2 then [FirstByte(v[0], v[1])]
    else if |v| == 3 then [FirstByte(v[0], v[1]), SecondByte(v[1], v[2])]
    else [FirstByte(v[0], v[1]), SecondByte(v[1], v[2]), ThirdByte(v[2], v[3])] + Bytes(v[4..])
  }

  /** The six-bit groups of some bytes, the last one filled up with zero bits. */
  function Groups(b: seq<Byte>): seq<Sextet> {
    if |b| == 0 then []
    else if |b| == 1 then [FirstGroup(b[0]), SecondGroup(b[0], 0)]
    else if |b| == 2 then [FirstGroup(b[0]), SecondGroup(b[0], b[1]), ThirdGroup(b[1], 0)]
    else [FirstGroup(b[0]), SecondGroup(b[0], b[1]), ThirdGroup(b[1], b[2]), FourthGroup(b[2])] + Groups(b[3..])
  }

  /** `atob`: the forgiving base64 decode of the WHATWG Infra standard. */
  function Atob(s: string): Option<seq<Byte>> {
    var data := WithoutPadding(WithoutSpaces(s));
    if |data| % 4 == 1 || !IsBase64Text(data) then None else Some(Bytes(Sextets(data)))
  }

  predicate IsAsciiSpace(c: char) {
    c == '\t' || c == '\n' || c == '\U{C}' || c == '\r' || c == ' '
  }

  function WithoutSpaces(s: string): string {
    if s == "" then ""
    else if IsAsciiSpace(s[0]) then WithoutSpaces(s[1..])
    else [s[0]] + WithoutSpaces(s[1..])
  }

  function WithoutPadding(s: string): string {
    if |s| == 0 || |s| % 4 != 0 || s[|s| - 1] != '=' then s
    else if s[|s| - 2] == '=' then s[..|s| - 2]
    else s[..|s| - 1]
  }

  // -------------------------------------------------------------------- the decoder

  function Padding(n: nat): (p: string)
    ensures (n + |p|) % 4 == 0 && |p| < 4
    ensures forall i | 0 <= i < |p| :: p[i] == '='
  {
    seq((4 - n % 4) % 4, i => '=')
  }

  function Decoded(text: string): Option<seq<Byte>> {
    Atob(Standard(text + Padding(|text|)))
  }

  /** Fills a fresh byte array with the decoded bytes; `None` stands for the error `atob` throws. */
  method UrlBase64ToBytes(base64String: string) returns (r: Option<array<Byte>>)
    ensures r.Some? <==> Decoded(base64String).Some?
    ensures r.Some? ==> r.value[..] == Decoded(base64String).value
  {
    var padding := Padding(|base64String|);
    var rawData := Atob(Standard(base64String + padding));
    if rawData.None? {
      return None;
    }
    var raw := rawData.value;
    var outputArray := new Byte[|raw|](i => 0);
    for i := 0 to |raw|
      invariant outputArray[..i] == raw[..i]
    {
      outputArray[i] := raw[i];
    }
    r := Some(outputArray);
  }

  // -------------------------------------------------------------------- round trips

  /** The unpadded base64url text of some bytes. */
  function Encoded(b: seq<Byte>): string {
    var v := Groups(b);
    seq(|v|, i requires 0 <= i < |v| => UrlChar(v[i]))
  }

  lemma ThreeBytes(x: Byte, y: Byte, z: Byte)
    ensures FirstByte(FirstGroup(x), SecondGroup(x, y)) == x
    ensures SecondByte(SecondGroup(x, y), ThirdGroup(y, z)) == y
    ensures ThirdByte(ThirdGroup(y, z), FourthGroup(z)) == z
  {
  }

  lemma BytesOfFour(a: Sextet, b: Sextet, c: Sextet, d: Sextet, rest: seq<Sextet>)
    ensures Bytes([a, b, c, d] + rest) == [FirstByte(a, b), SecondByte(b, c), ThirdByte(c, d)] + Bytes(rest)
  {
    assert ([a, b, c, d] + rest)[4..] == rest;
  }

  lemma GroupsOfThree(x: Byte, y: Byte, z: Byte, rest: seq<Byte>)
    ensures Groups([x, y, z] + rest) ==
            [FirstGroup(x), SecondGroup(x, y), ThirdGroup(y, z), FourthGroup(z)] + Groups(rest)
  {
    assert ([x, y, z] + rest)[3..] == rest;
  }

  lemma ThreeBytesThere(x: Byte, y: Byte, z: Byte, rest: seq<Byte>)
    ensures Bytes(Groups([x, y, z] + rest)) == [x, y, z] + Bytes(Groups(rest))
  {
    GroupsOfThree(x, y, z, rest);
    BytesOfFour(FirstGroup(x), SecondGroup(x, y), ThirdGroup(y, z), FourthGroup(z), Groups(rest));
    ThreeBytes(x, y, z);
  }

  lemma BytesOfTwo(a: Sextet, b: Sextet)
    ensures Bytes([a, b]) == [FirstByte(a, b)]
  {
  }

  lemma BytesOfThree(a: Sextet, b: Sextet, c: Sextet)
    ensures Bytes([a, b, c]) == [FirstByte(a, b), SecondByte(b, c)]
  {
  }

  lemma GroupsOfOne(x: Byte)
    ensures Groups([x]) == [FirstGroup(x), SecondGroup(x, 0)]
  {
  }

  lemma GroupsOfTwo(x: Byte, y: Byte)
    ensures Groups([x, y]) == [FirstGroup(x), SecondGroup(x, y), ThirdGroup(y, 0)]
  {
  }

  predicate Recovers(b: seq<Byte>) {
    Bytes(Groups(b)) == b
  }

  lemma {:induction false} GroupsLength(b: seq<Byte>)
    ensures |Groups(b)| == (4 * |b| + 2) / 3
  {
    if |b| > 2 {
      GroupsLength(b[3..]);
    }
  }

  lemma OneByteAlone(x: Byte)
    ensures Recovers([x])
  {
    GroupsOfOne(x);
    BytesOfTwo(FirstGroup(x), SecondGroup(x, 0));
    ThreeBytes(x, 0, 0);
  }

  lemma TwoBytesAlone(x: Byte, y: Byte)
    ensures Recovers([x, y])
  {
    GroupsOfTwo(x, y);
    BytesOfThree(FirstGroup(x), SecondGroup(x, y), ThirdGroup(y, 0));
    ThreeBytes(x, y, 0);
  }

  lemma ThreeMoreBytes(x: Byte, y: Byte, z: Byte, rest: seq<Byte>)
    requires Recovers(rest)
    ensures Recovers([x, y, z] + rest)
  {
    ThreeBytesThere(x, y, z, rest);
  }

  lemma {:induction false} GroupsRoundTrip(b: seq<Byte>)
    ensures Recovers(b)
  {
    if |b| == 1 {
      OneByteAlone(b[0]);
      assert [b[0]] == b;
    } else if |b| == 2 {
      TwoBytesAlone(b[0], b[1]);
      assert [b[0], b[1]] == b;
    } else if |b| > 2 {
      var rest := b[3..];
      assert b == [b[0], b[1], b[2]] + rest;
      GroupsRoundTrip(rest);
      ThreeMoreBytes(b[0], b[1], b[2], rest);
    }
  }

  /** No bits are left over. */
  predicate NoBitsLeft(v: seq<Sextet>) {
    && (|v| % 4 == 2 ==> v[|v| - 1] % 16 == 0)
    && (|v| % 4 == 3 ==> v[|v| - 1] % 4 == 0)
  }

  lemma FourGroups(a: Sextet, b: Sextet, c: Sextet, d: Sextet)
    ensures FirstGroup(FirstByte(a, b)) == a
    ensures SecondGroup(FirstByte(a, b), SecondByte(b, c)) == b
    ensures ThirdGroup(SecondByte(b, c), ThirdByte(c, d)) == c
    ensures FourthGroup(ThirdByte(c, d)) == d
    ensures SecondGroup(FirstByte(a, b), 0) == b <==> b % 16 == 0
    ensures ThirdGroup(SecondByte(b, c), 0) == c <==> c % 4 == 0
  {
  }

  lemma FourGroupsThere(a: Sextet, b: Sextet, c: Sextet, d: Sextet, rest: seq<Sextet>)
    ensures Groups(Bytes([a, b, c, d] + rest)) == [a, b, c, d] + Groups(Bytes(rest))
  {
    BytesOfFour(a, b, c, d, rest);
    GroupsOfThree(FirstByte(a, b), SecondByte(b, c), ThirdByte(c, d), Bytes(rest));
    FourGroups(a, b, c, d);
  }

  lemma SameTails(head: seq<Sextet>, s: seq<Sextet>, t: seq<Sextet>)
    ensures head + s == head + t <==> s == t
  {
    assert s == (head + s)[|head|..] && t == (head + t)[|head|..];
  }

  predicate Restores(v: seq<Sextet>) {
    Groups(Bytes(v)) == v
  }

  lemma TwoGroupsAlone(a: Sextet, b: Sextet)
    ensures Restores([a, b]) <==> b % 16 == 0
  {
    FourGroups(a, b, 0, 0);
    BytesOfTwo(a, b);
    GroupsOfOne(FirstByte(a, b));
  }

  lemma ThreeGroupsAlone(a: Sextet, b: Sextet, c: Sextet)
    ensures Restores([a, b, c]) <==> c % 4 == 0
  {
    FourGroups(a, b, c, 0);
    BytesOfThree(a, b, c);
    GroupsOfTwo(FirstByte(a, b), SecondByte(b, c));
  }

  lemma FourMoreGroups(a: Sextet, b: Sextet, c: Sextet, d: Sextet, rest: seq<Sextet>)
    ensures Restores([a, b, c, d] + rest) <==> Restores(rest)
  {
    FourGroupsThere(a, b, c, d, rest);
    SameTails([a, b, c, d], Groups(Bytes(rest)), rest);
  }

  lemma BitsLeftAtTheEnd(head: seq<Sextet>, rest: seq<Sextet>)
    requires |head| == 4
    ensures NoBitsLeft(head + rest) <==> NoBitsLeft(rest)
  {
  }

  /** The length of a decodable run of groups. */
  predicate IsLength(n: nat) {
    n % 4 != 1
  }

  lemma FourFewer(n: nat)
    requires IsLength(n)
    ensures n >= 4 ==> IsLength(n - 4)
    ensures n < 4 ==> n == 0 || n == 2 || n == 3
  {
  }

  predicate RestoresExactly(v: seq<Sextet>) {
    Restores(v) <==> NoBitsLeft(v)
  }

  lemma FewGroups(v: seq<Sextet>)
    requires |v| == 0 || |v| == 2 || |v| == 3
    ensures RestoresExactly(v)
  {
    if |v| == 2 {
      TwoGroupsAlone(v[0], v[1]);
      assert v == [v[0], v[1]];
    } else if |v| == 3 {
      ThreeGroupsAlone(v[0], v[1], v[2]);
      assert v == [v[0], v[1], v[2]];
    }
  }

  lemma MoreGroups(a: Sextet, b: Sextet, c: Sextet, d: Sextet, rest: seq<Sextet>)
    requires RestoresExactly(rest)
    ensures RestoresExactly([a, b, c, d] + rest)
  {
    FourMoreGroups(a, b, c, d, rest);
    BitsLeftAtTheEnd([a, b, c, d], rest);
  }

  lemma {:induction false} BytesRoundTrip(v: seq<Sextet>)
    requires IsLength(|v|)
    ensures RestoresExactly(v)
  {
    FourFewer(|v|);
    if |v| < 4 {
      FewGroups(v);
    } else {
      BytesRoundTrip(v[4..]);
      MoreGroups(v[0], v[1], v[2], v[3], v[4..]);
      assert v == [v[0], v[1], v[2], v[3]] + v[4..];
    }
  }

  /** Every full group of four holds three bytes, a rest of two or three one or two. */
  lemma {:induction false} BytesLength(v: seq<Sextet>)
    requires |v| % 4 != 1
    ensures |Bytes(v)| == 3 * |v| / 4
  {
    if |v| > 3 {
      BytesLength(v[4..]);
    }
  }

  // --------------------------------------------------------------- bytes as one number

  /** The number `n` followed by these six-bit digits ... */
  function SextetNumber(n: nat, v: seq<nat>): nat
    decreases |v|
  {
    if v == [] then n else SextetNumber(64 * n + v[0], v[1..])
  }

  /** ... and by these bytes. */
  function ByteNumber(n: nat, b: seq<nat>): nat
    decreases |b|
  {
    if b == [] then n else ByteNumber(256 * n + b[0], b[1..])
  }

  /** `n` followed by the 24 bits of four groups. */
  function With24Bits(n: nat, a: nat, b: nat, c: nat, d: nat): nat {
    64 * (64 * (64 * (64 * n + a) + b) + c) + d
  }

  lemma SextetOneMore(n: nat, a: nat, rest: seq<nat>)
    ensures SextetNumber(n, [a] + rest) == SextetNumber(64 * n + a, rest)
  {
    assert ([a] + rest)[1..] == rest;
  }

  lemma ByteOneMore(n: nat, x: nat, rest: seq<nat>)
    ensures ByteNumber(n, [x] + rest) == ByteNumber(256 * n + x, rest)
  {
    assert ([x] + rest)[1..] == rest;
  }

  lemma SextetsOfFour(n: nat, a: nat, b: nat, c: nat, d: nat, rest: seq<nat>)
    ensures SextetNumber(n, [a, b, c, d] + rest) == SextetNumber(With24Bits(n, a, b, c, d), rest)
  {
    assert [a, b, c, d] + rest == [a] + ([b] + ([c] + ([d] + rest)));
    SextetOneMore(n, a, [b] + ([c] + ([d] + rest)));
    SextetOneMore(64 * n + a, b, [c] + ([d] + rest));
    SextetOneMore(64 * (64 * n + a) + b, c, [d] + rest);
    SextetOneMore(64 * (64 * (64 * n + a) + b) + c, d, rest);
  }

  lemma BytesOfThreeMore(n: nat, x: nat, y: nat, z: nat, rest: seq<nat>, m: nat)
    requires m == 256 * (256 * (256 * n + x) + y) + z
    ensures ByteNumber(n, [x, y, z] + rest) == ByteNumber(m, rest)
  {
    assert [x, y, z] + rest == [x] + ([y] + ([z] + rest));
    ByteOneMore(n, x, [y] + ([z] + rest));
    ByteOneMore(256 * n + x, y, [z] + rest);
    ByteOneMore(256 * (256 * n + x) + y, z, rest);
  }

  lemma Same24Bits(n: nat, a: Sextet, b: Sextet, c: Sextet, d: Sextet)
    ensures 256 * (256 * (256 * n + FirstByte(a, b)) + SecondByte(b, c)) + ThirdByte(c, d) == With24Bits(n, a, b, c, d)
  {
  }

  /** What is left over of the last group. */
  function LeftOver(length: nat): nat {
    if length % 4 == 2 then 16 else if length % 4 == 3 then 4 else 1
  }

  /** The bytes are the number of the groups, cut after the last whole byte. */
  predicate IsCut(n: nat, v: seq<Sextet>) {
    ByteNumber(n, Bytes(v)) == SextetNumber(n, v) / LeftOver(|v|)
  }

  lemma TwoSextets(n: nat, a: Sextet, b: Sextet)
    ensures IsCut(n, [a, b])
  {
    SextetOneMore(n, a, [b]);
    SextetOneMore(64 * n + a, b, []);
    ByteOneMore(n, FirstByte(a, b), []);
    assert [a] + [b] == [a, b];
    Cut16(n, a, b);
  }

  lemma Cut16(n: nat, a: nat, b: nat)
    requires b < 64
    ensures 256 * n + (4 * a + b / 16) == (64 * (64 * n + a) + b) / 16
  {
  }

  lemma Cut4(n: nat, a: nat, b: nat, c: nat)
    requires b < 64 && c < 64
    ensures 256 * (256 * n + (4 * a + b / 16)) + (16 * (b % 16) + c / 4) == (64 * (64 * (64 * n + a) + b) + c) / 4
  {
    assert b == 16 * (b / 16) + b % 16;
  }

  lemma ThreeSextetNumber(n: nat, a: nat, b: nat, c: nat)
    ensures SextetNumber(n, [a, b, c]) == 64 * (64 * (64 * n + a) + b) + c
  {
    SextetOneMore(n, a, [b, c]);
    SextetOneMore(64 * n + a, b, [c]);
    SextetOneMore(64 * (64 * n + a) + b, c, []);
    assert [a] + [b, c] == [a, b, c] && [b] + [c] == [b, c];
  }

  lemma TwoByteNumber(n: nat, x: nat, y: nat)
    ensures ByteNumber(n, [x, y]) == 256 * (256 * n + x) + y
  {
    ByteOneMore(n, x, [y]);
    ByteOneMore(256 * n + x, y, []);
    assert [x] + [y] == [x, y];
  }

  lemma CutBytes(n: nat, a: Sextet, b: Sextet, c: Sextet)
    ensures 256 * (256 * n + FirstByte(a, b)) + SecondByte(b, c) == (64 * (64 * (64 * n + a) + b) + c) / 4
  {
    Cut4(n, a, b, c);
  }

  lemma ThreeSextets(n: nat, a: Sextet, b: Sextet, c: Sextet)
    ensures IsCut(n, [a, b, c])
  {
    ThreeSextetNumber(n, a, b, c);
    BytesOfThree(a, b, c);
    CutBytes(n, a, b, c);
    ThreeAreCut(n, [a, b, c], FirstByte(a, b), SecondByte(b, c), 64 * (64 * (64 * n + a) + b) + c);
  }

  lemma ThreeAreCut(n: nat, v: seq<Sextet>, x: Byte, y: Byte, m: nat)
    requires |v| == 3 && Bytes(v) == [x, y] && SextetNumber(n, v) == m && 256 * (256 * n + x) + y == m / 4
    ensures IsCut(n, v)
  {
    TwoByteNumber(n, x, y);
  }

  lemma FourMoreLeftOver(length: nat)
    ensures LeftOver(length + 4) == LeftOver(length)
  {
  }

  lemma FourSextets(n: nat, a: Sextet, b: Sextet, c: Sextet, d: Sextet, rest: seq<Sextet>, m: nat)
    requires m == With24Bits(n, a, b, c, d) && IsCut(m, rest)
    ensures IsCut(n, [a, b, c, d] + rest)
  {
    var x, y, z := FirstByte(a, b), SecondByte(b, c), ThirdByte(c, d);
    SextetsOfFour(n, a, b, c, d, rest);
    Same24Bits(n, a, b, c, d);
    BytesOfFour(a, b, c, d, rest);
    BytesOfThreeMore(n, x, y, z, Bytes(rest), m);
    FourMoreLeftOver(|rest|);
  }

  /** Read as one number, most significant digit first, the bytes are the six-bit groups
      cut after the last whole byte. */
  lemma {:induction false} BytesInOrder(n: nat, v: seq<Sextet>)
    requires |v| % 4 != 1
    ensures IsCut(n, v)
    decreases |v|
  {
    if |v| == 2 {
      assert v == [v[0], v[1]];
      TwoSextets(n, v[0], v[1]);
    } else if |v| == 3 {
      assert v == [v[0], v[1], v[2]];
      ThreeSextets(n, v[0], v[1], v[2]);
    } else if |v| > 3 {
      assert v == [v[0], v[1], v[2], v[3]] + v[4..];
      BytesInOrder(With24Bits(n, v[0], v[1], v[2], v[3]), v[4..]);
      FourSextets(n, v[0], v[1], v[2], v[3], v[4..], With24Bits(n, v[0], v[1], v[2], v[3]));
    }
  }

  // ------------------------------------------------------------- from text to text

  /** No padding of its own and no white space. */
  predicate IsBare(t: string) {
    forall i | 0 <= i < |t| :: t[i] != '=' && !IsAsciiSpace(t[i])
  }

  lemma {:induction false} NoSpaces(s: string)
    requires forall i | 0 <= i < |s| :: !IsAsciiSpace(s[i])
    ensures WithoutSpaces(s) == s
  {
    if s != "" {
      NoSpaces(s[1..]);
      assert s == [s[0]] + s[1..];
    }
  }

  lemma StandardPadded(t: string, n: nat)
    requires IsBare(t)
    ensures Standard(t + Padding(n)) == Standard(t) + Padding(n)
    ensures WithoutSpaces(Standard(t + Padding(n))) == Standard(t) + Padding(n)
  {
    var s := t + Padding(n);
    assert forall i | 0 <= i < |s| :: s[i] == if i < |t| then t[i] else '=';
    NoSpaces(Standard(s));
  }

  lemma PaddingText(n: nat)
    ensures Padding(n) == if n % 4 == 0 then "" else if n % 4 == 1 then "===" else if n % 4 == 2 then "==" else "="
  {
  }

  lemma DropsNone(u: string)
    requires |u| % 4 == 0 && IsBare(u)
    ensures WithoutPadding(u + "") == u
  {
    assert u + "" == u;
  }

  lemma DropsOne(u: string)
    requires |u| % 4 == 3 && IsBare(u)
    ensures WithoutPadding(u + "=") == u
  {
    var s := u + "=";
    assert s[..|s| - 1] == u && s[|s| - 2] == u[|u| - 1];
  }

  lemma DropsTwo(u: string, more: string)
    requires |u| % 4 == 2 && more == "=="
    ensures WithoutPadding(u + more) == u
  {
    var s := u + more;
    assert s[..|s| - 2] == u;
  }

  /** Of the padding the decoder adds, `atob` drops what it tolerates. */
  lemma PaddingDrops(u: string, n: nat)
    requires n == |u| && IsBare(u)
    ensures WithoutPadding(u + Padding(n)) == if n % 4 == 1 then u + "=" else u
  {
    PaddingText(n);
    if n % 4 == 0 {
      DropsNone(u);
    } else if n % 4 == 1 {
      assert u + "===" == (u + "=") + "==";
      DropsTwo(u + "=", "==");
    } else if n % 4 == 2 {
      DropsTwo(u, "==");
    } else {
      DropsOne(u);
    }
  }

  lemma BareStandard(t: string)
    requires IsBare(t)
    ensures IsBare(Standard(t))
  {
    assert forall i | 0 <= i < |t| :: Standard(t)[i] == StandardChar(t[i]);
  }

  lemma NotBase64(u: string)
    ensures !IsBase64Text(u + "=")
  {
    assert (u + "=")[|u|] == '=';
  }

  /** Text without padding is accepted exactly when all its characters belong to one of
      the two alphabets and its length is possible; then all its bits but the left-over
      ones are in the bytes. */
  lemma BareTextDecodes(t: string)
    requires IsBare(t)
    ensures Decoded(t).Some? <==> |t| % 4 != 1 && IsBase64Text(Standard(t))
    ensures Decoded(t).Some? ==> Decoded(t).value == Bytes(Sextets(Standard(t)))
  {
    var u := Standard(t);
    StandardPadded(t, |t|);
    BareStandard(t);
    PaddingDrops(u, |t|);
    NotBase64(u);
  }

  /** The same text with its padding already written. */
  lemma PaddedTextDecodes(t: string)
    requires IsBare(t) && |t| % 4 != 1
    ensures Decoded(t + Padding(|t|)) == Decoded(t)
  {
    var s := t + Padding(|t|);
    assert s + Padding(|s|) == s;
  }

  lemma UrlCharReads(v: Sextet)
    ensures IsBase64(StandardChar(UrlChar(v))) && SextetOf(StandardChar(UrlChar(v))) == v
    ensures UrlChar(v) != '=' && !IsAsciiSpace(UrlChar(v))
  {
  }

  /** The order of Table 2 of RFC 4648: letters, digits, '-' and '_', each row counting up. */
  lemma AlphabetInOrder(v: Sextet, w: Sextet)
    requires w as int == v as int + 1
    ensures w !in {26, 52, 62, 63} ==> UrlChar(w) as int == UrlChar(v) as int + 1
    ensures UrlChar(0) == 'A' && UrlChar(26) == 'a' && UrlChar(52) == '0' && UrlChar(62) == '-' && UrlChar(63) == '_'
  {
  }

  lemma EncodedReads(b: seq<Byte>)
    ensures IsBare(Encoded(b)) && IsBase64Text(Standard(Encoded(b)))
    ensures Sextets(Standard(Encoded(b))) == Groups(b)
  {
    var v := Groups(b);
    forall i | 0 <= i < |v|
      ensures Encoded(b)[i] == UrlChar(v[i]) && Standard(Encoded(b))[i] == StandardChar(UrlChar(v[i]))
    {
    }
    forall x: Sextet
      ensures IsBase64(StandardChar(UrlChar(x))) && SextetOf(StandardChar(UrlChar(x))) == x
      ensures UrlChar(x) != '=' && !IsAsciiSpace(UrlChar(x))
    {
      UrlCharReads(x);
    }
  }

  lemma PossibleLength(n: nat)
    ensures (4 * n + 2) / 3 % 4 != 1
  {
    var k, r := n / 3, n % 3;
    assert 4 * n + 2 == 12 * k + 4 * r + 2;
  }

  lemma EncodedLength(b: seq<Byte>)
    ensures |Encoded(b)| == |Groups(b)| && |Encoded(b)| % 4 != 1
  {
    GroupsLength(b);
    PossibleLength(|b|);
  }

  lemma UnpaddedRoundTrip(b: seq<Byte>)
    ensures Decoded(Encoded(b)) == Some(b)
  {
    EncodedReads(b);
    EncodedLength(b);
    GroupsRoundTrip(b);
    BareTextDecodes(Encoded(b));
  }

  /** Decoding inverts encoding, with or without padding, for every byte sequence. */
  lemma RoundTrip(b: seq<Byte>)
    ensures Decoded(Encoded(b)) == Some(b)
    ensures Decoded(Encoded(b) + Padding(|Encoded(b)|)) == Some(b)
  {
    UnpaddedRoundTrip(b);
    EncodedReads(b);
    EncodedLength(b);
    PaddedTextDecodes(Encoded(b));
  }

  predicate IsUrlText(t: string) {
    forall i | 0 <= i < |t| :: (IsBase64(t[i]) && t[i] != '+' && t[i] != '/') || t[i] == '-' || t[i] == '_'
  }

  lemma UrlTextIsChars(t: string)
    requires IsUrlText(t)
    ensures IsBare(t) && IsBase64Text(Standard(t))
    ensures forall i | 0 <= i < |t| :: UrlChar(Sextets(Standard(t))[i]) == t[i]
  {
    forall i | 0 <= i < |t|
      ensures IsBase64(Standard(t)[i]) && UrlChar(SextetOf(Standard(t)[i])) == t[i]
    {
      assert Standard(t)[i] == StandardChar(t[i]);
    }
  }

  /** A decodable base64url text is the one text of its bytes exactly when its last
      group has no left-over bits set. */
  lemma EncodingIsCanonical(t: string)
    requires IsUrlText(t) && |t| % 4 != 1
    ensures Decoded(t).Some?
    ensures Encoded(Decoded(t).value) == t <==> NoBitsLeft(Sextets(Standard(t)))
  {
    var v := Sextets(Standard(t));
    UrlTextIsChars(t);
    BareTextDecodes(t);
    BytesRoundTrip(v);
    EncodedReads(Bytes(v));
    if Restores(v) {
      assert Encoded(Bytes(v)) == t;
    }
  }
}
