/** Tokens of a command line: the `splitFlag` shared by the scripts of scripts/billing. */
module Flags {
  import opened Results
  import opened Text

  /** A token's flag name and the value attached to it with `=`, if any. */
  datatype Flag = Flag(name: string, attached: Option<string>)

  predicate Dashed(token: string) {
    |token| >= 2 && token[0] == '-' && token[1] == '-'
  }

  /** `s.indexOf(c)`: where the first `c` is, or -1. */
  function IndexOf(s: string, c: char): (i: int)
    ensures -1 <= i < |s|
  {
    if s == "" then -1
    else if s[0] == c then 0
    else
      var later := IndexOf(s[1..], c);
      if later == -1 then -1 else later + 1
  }

  lemma {:induction false} IndexOfIsFirst(s: string, c: char)
    ensures IndexOf(s, c) == -1 <==> Free(s, c)
    ensures IndexOf(s, c) >= 0 ==> s[IndexOf(s, c)] == c && Free(s[..IndexOf(s, c)], c)
  {
    if s != "" && s[0] != c {
      IndexOfIsFirst(s[1..], c);
      var i := IndexOf(s, c);
      if i >= 0 {
        assert s[..i] == [s[0]] + s[1..][..i - 1];
      }
    }
  }

  lemma {:induction false} IndexOfAfter(k: string, c: char, v: string)
    requires Free(k, c)
    ensures IndexOf(k + [c] + v, c) == |k|
  {
    if k == "" {
      assert k + [c] + v == [c] + v;
    } else {
      IndexOfAfter(k[1..], c, v);
      assert (k + [c] + v)[1..] == k[1..] + [c] + v;
    }
  }

  function SplitFlag(token: string): Flag {
    var equals := IndexOf(token, '=');
    if equals == -1 then Flag(token, None) else Flag(token[..equals], Some(token[equals + 1..]))
  }

  /** A token at a flag position: only `--` tokens are split. */
  function HeadFlag(token: string): Flag {
    if Dashed(token) then SplitFlag(token) else Flag(token, None)
  }

  /** A flag as it is written in one token. */
  function Written(f: Flag): string {
    if f.attached.None? then f.name else f.name + "=" + f.attached.value
  }

  /** Splitting and writing a flag are inverse. */
  lemma SplitWritten(f: Flag)
    requires Free(f.name, '=')
    ensures SplitFlag(Written(f)) == f
    ensures Dashed(f.name) ==> Dashed(Written(f)) && HeadFlag(Written(f)) == f
  {
    if f.attached.None? {
      IndexOfIsFirst(f.name, '=');
    } else {
      IndexOfAfter(f.name, '=', f.attached.value);
      assert Written(f) == f.name + ['='] + f.attached.value;
    }
  }

  lemma WrittenSplit(token: string)
    ensures Written(SplitFlag(token)) == token && Free(SplitFlag(token).name, '=')
    ensures Written(HeadFlag(token)) == token
  {
    IndexOfIsFirst(token, '=');
  }

  /** The value a flag at position `i` is given: the attached text, or else the next token. */
  function ValueAt(argv: seq<string>, i: nat): Option<string>
    requires i < |argv|
  {
    var f := HeadFlag(argv[i]);
    if f.attached.Some? then f.attached
    else if i + 1 < |argv| then Some(argv[i + 1])
    else None
  }

  /** The value under a key of the values given so far. */
  function Lookup(values: map<string, Option<string>>, key: string): Option<string> {
    if key in values then values[key] else None
  }
}
