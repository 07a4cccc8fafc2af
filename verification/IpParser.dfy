/** The hand-written address parser of apps/api/src/webhook-allowlist.ts.
    `IpBits` and `Ipv6Bits` are its results as functions; the methods below them
    are its loops and its step-by-step rewriting, proved to compute those. */
module IpParser {
  import opened Results
  import opened Text
  import opened AddressGrammar

  datatype Family = V4 | V6

  datatype Ip = Ip(bits: nat, family: Family)

  /** `\d{1,3}\.\d{1,3}\.\d{1,3}\.\d{1,3}`: the shape only, not the octet range. */
  predicate IsQuadShape(s: string) {
    var f := Split(s, '.');
    |f| == 4 && forall i | 0 <= i < 4 :: 1 <= |f[i]| <= 3 && IsNumeral(f[i], 10)
  }

  /** `/^::ffff:(quad shape)$/i` */
  predicate IsMappedText(address: string) {
    && |address| >= 7
    && address[..2] == "::"
    && (forall i | 2 <= i < 6 :: address[i] == 'f' || address[i] == 'F')
    && address[6] == ':'
    && IsQuadShape(address[7..])
  }

  function Candidate(address: string): string {
    if IsMappedText(address) then address[7..] else address
  }

  // -------------------------------------------------------- the functional result

  function IpBits(address: string): Option<Ip>
    decreases |address|, 2
  {
    var candidate := Candidate(address);
    var family := NetIsIp(candidate);
    if family == 4 then
      var o := Octets(candidate);
      if exists i | 0 <= i < 4 :: o[i] > 255 then None
      else Some(Ip(o[0] * 0x100_0000 + o[1] * 0x1_0000 + o[2] * 0x100 + o[3], V4))
    else if family == 6 then Ipv6Bits(candidate)
    else None
  }

  predicate InAlphabet(address: string) {
    address != "" && forall i | 0 <= i < |address| :: IsHexDigit(address[i]) || address[i] == ':' || address[i] == '.'
  }

  /** `(address.match(/::/g) ?? []).length`: matches do not overlap. */
  function CountElisions(s: string): nat {
    var e := ElisionAt(s);
    if e == -1 then 0 else 1 + CountElisions(s[e + 2..])
  }

  /** The upper and the lower 16 of 32 bits, in hexadecimal. */
  function Hi(v: nat): string {
    Numeral(v / 0x1_0000 % 0x1_0000, 16)
  }

  function Lo(v: nat): string {
    Numeral(v % 0x1_0000, 16)
  }

  function HexHalves(bits: nat): string {
    Hi(bits) + ":" + Lo(bits)
  }

  /** The address with a dotted tail rewritten as two hexadecimal groups; None where the tail is no address. */
  function RewriteTail(address: string): Option<string>
    decreases |address|, 0
  {
    var i := LastIndexOf(address, ':');
    var tail := address[i + 1..];
    if i == -1 || !IsQuadShape(tail) then Some(address)
    else WithHexTail(address[..|address| - |tail|], IpBits(tail))
  }

  function WithHexTail(head: string, v4: Option<Ip>): Option<string> {
    match v4
    case Some(Ip(bits, V4)) => Some(head + HexHalves(bits))
    case _ => None
  }

  /** `work.split('::')`, each part split into groups; without `::` everything is on the left. */
  function Sides(work: string): (seq<string>, seq<string>) {
    var e := ElisionAt(work);
    if e == -1 then (Split(work, ':'), [])
    else
      var rest := work[e + 2..];
      var next := ElisionAt(rest);
      (SplitRun(work[..e]), SplitRun(if next == -1 then rest else rest[..next]))
  }

  predicate AreGroups(side: seq<string>) {
    forall i | 0 <= i < |side| :: IsGroup(side[i])
  }

  function GroupValues(side: seq<string>): Option<seq<nat>> {
    if AreGroups(side) then Some(HexValues(side)) else None
  }

  function HexValues(side: seq<string>): (values: seq<nat>)
    requires AreGroups(side)
    ensures |values| == |side|
    ensures forall i | 0 <= i < |side| :: IsGroup(side[i]) && values[i] == Value(side[i], 16)
  {
    seq(|side|, i requires 0 <= i < |side| && IsGroup(side[i]) => Value(side[i], 16))
  }

  /** What the rest of the parser makes of a text without a dotted tail. */
  function WorkBits(work: string): Option<Ip> {
    var (leftSide, rightSide) := Sides(work);
    Assemble(ElisionAt(work) != -1, GroupValues(leftSide), GroupValues(rightSide))
  }

  /** `::` stands for at least one zero group; without it there are eight groups. */
  function Assemble(elided: bool, left: Option<seq<nat>>, right: Option<seq<nat>>): Option<Ip> {
    match (left, right)
    case (Some(l), Some(r)) =>
      if !elided then if |l| != 8 then None else Some(Ip(Positional(l), V6))
      else if |l| + |r| > 7 then None
      else Some(Ip(Positional(l + Zeros(8 - |l| - |r|) + r), V6))
    case _ => None
  }

  function Ipv6Bits(address: string): Option<Ip>
    decreases |address|, 1
  {
    if !InAlphabet(address) || '%' in address then None
    else if CountElisions(address) > 1 then None
    else AfterRewrite(RewriteTail(address))
  }

  function AfterRewrite(work: Option<string>): Option<Ip> {
    if work.None? then None else WorkBits(work.value)
  }

  // ------------------------------------------------------------- the loops

  lemma GroupBound(f: string)
    requires IsGroup(f)
    ensures Value(f, 16) < 0x1_0000
  {
    ValueBound(f, 16);
    assert Pow(16, 1) == 16 && Pow(16, 2) == 256 && Pow(16, 3) == 4096 && Pow(16, 4) == 65536;
  }

  method ParseGroups(side: seq<string>) returns (r: Option<seq<nat>>)
    ensures r == GroupValues(side)
    ensures r.Some? ==> forall i | 0 <= i < |r.value| :: r.value[i] < 0x1_0000
  {
    var values: seq<nat> := [];
    for n := 0 to |side|
      invariant |values| == n
      invariant forall i | 0 <= i < n :: IsGroup(side[i]) && values[i] == Value(side[i], 16) < 0x1_0000
    {
      var group := side[n];
      if group == "" || |group| > 4 || !IsNumeral(group, 16) {
        assert !IsGroup(side[n]);
        return None;
      }
      GroupBound(group);
      values := values + [Value(group, 16)];
    }
    assert values == HexValues(side);
    return Some(values);
  }

  /** Folds eight 16-bit groups into one integer; `None` is the internal error
      thrown for any other number. `(bits << 16n) | group` is an addition,
      because the group is below 2^16. */
  method GroupsToBits(groups: seq<nat>) returns (r: Option<nat>)
    requires forall i | 0 <= i < |groups| :: groups[i] < 0x1_0000
    ensures r == if |groups| == 8 then Some(Positional(groups)) else None
  {
    if |groups| != 8 {
      return None;
    }
    var bits: nat := 0;
    for n := 0 to |groups|
      invariant bits == Positional(groups[..n])
    {
      bits := bits * 0x1_0000 + groups[n];
      assert groups[..n + 1][..n] == groups[..n];
    }
    assert groups[..|groups|] == groups;
    return Some(bits);
  }

  /** The step-by-step parser: checks, rewrites `work`, splits it and folds the groups. */
  method ParseIpv6(address: string) returns (r: Option<Ip>)
    ensures r == Ipv6Bits(address)
  {
    if !InAlphabet(address) || '%' in address {
      return None;
    }
    if CountElisions(address) > 1 {
      return None;
    }
    var work := RewriteDottedTail(address);
    if work.None? {
      return None;
    }
    r := ParseWork(work.value);
  }

  /** The middle of `parseIpv6`, which reassigns `work`. */
  method RewriteDottedTail(address: string) returns (r: Option<string>)
    ensures r == RewriteTail(address)
  {
    var work := address;
    var colon := LastIndexOf(work, ':');
    if colon != -1 && IsQuadShape(work[colon + 1..]) {
      var tail := work[colon + 1..];
      var v4 := IpBits(tail);
      if v4.None? || v4.value.family != V4 {
        return None;
      }
      var hi := Numeral(v4.value.bits / 0x1_0000 % 0x1_0000, 16);
      var lo := Numeral(v4.value.bits % 0x1_0000, 16);
      assert RewriteTail(address) == WithHexTail(work[..|work| - |tail|], v4);
      work := work[..|work| - |tail|] + (hi + ":" + lo);
    }
    return Some(work);
  }

  /** The second half of `parseIpv6`, after the rewriting. */
  method ParseWork(work: string) returns (r: Option<Ip>)
    ensures r == WorkBits(work)
  {
    var sides := Sides(work);
    var left := ParseGroups(sides.0);
    var right := ParseGroups(sides.1);
    if left.None? || right.None? {
      return None;
    }
    r := AssembleGroups(ElisionAt(work) != -1, left.value, right.value);
  }

  method AssembleGroups(elided: bool, left: seq<nat>, right: seq<nat>) returns (r: Option<Ip>)
    requires forall i | 0 <= i < |left| :: left[i] < 0x1_0000
    requires forall i | 0 <= i < |right| :: right[i] < 0x1_0000
    ensures r == Assemble(elided, Some(left), Some(right))
  {
    if !elided {
      if |left| != 8 {
        return None;
      }
      var whole := GroupsToBits(left);
      return Some(Ip(whole.value, V6));
    }
    if |left| + |right| > 7 {
      return None;
    }
    var fill := Zeros(8 - |left| - |right|);
    var bits := GroupsToBits(left + fill + right);
    return Some(Ip(bits.value, V6));
  }
}
