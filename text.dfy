/** String helpers the components rely on: JavaScript's `String.prototype.trim`,
    the `s.trim() || "Anonymous"` defaulting idiom, and `split("\n")`. */
module Text {

  /** The code points `trim` strips: ECMAScript WhiteSpace and LineTerminator. */
  predicate IsWhitespace(c: char)
  {
    || c == '\t' || c == '\n' || c == '\U{000B}' || c == '\U{000C}' || c == '\r' || c == ' '
    || c == '\U{00A0}' || c == '\U{1680}' || ('\U{2000}' <= c <= '\U{200A}')
    || c == '\U{2028}' || c == '\U{2029}' || c == '\U{202F}' || c == '\U{205F}'
    || c == '\U{3000}' || c == '\U{FEFF}'
  }

  /** A string whose trimmed form is "" (JavaScript treats "" as falsy). */
  predicate IsBlank(s: string)
  {
    forall i | 0 <= i < |s| :: IsWhitespace(s[i])
  }

  /** Drops leading whitespace: the result is a suffix of `s`, everything cut was
      whitespace, and it does not start with whitespace. */
  function TrimStart(s: string): (r: string)
    ensures |r| <= |s| && r == s[|s| - |r|..]
    ensures forall i | 0 <= i < |s| - |r| :: IsWhitespace(s[i])
    ensures r != [] ==> !IsWhitespace(r[0])
  {
    if |s| > 0 && IsWhitespace(s[0]) then TrimStart(s[1..]) else s
  }

  /** Drops trailing whitespace: the result is a prefix of `s`, everything cut was
      whitespace, and it does not end with whitespace. */
  function TrimEnd(s: string): (r: string)
    ensures |r| <= |s| && r == s[..|r|]
    ensures forall i | |r| <= i < |s| :: IsWhitespace(s[i])
    ensures r != [] ==> !IsWhitespace(r[|r| - 1])
  {
    if |s| > 0 && IsWhitespace(s[|s| - 1]) then TrimEnd(s[..|s| - 1]) else s
  }

  /** `s.trim()`. */
  function Trim(s: string): (r: string)
    ensures |r| <= |s|
    ensures r == [] <==> IsBlank(s)
    ensures r != [] ==> !IsWhitespace(r[0]) && !IsWhitespace(r[|r| - 1])
  {
    var e := TrimEnd(s);
    var r := TrimStart(e);
    TrimFacts(s, e, r);
    r
  }

  lemma TrimFacts(s: string, e: string, r: string)
    requires e == TrimEnd(s) && r == TrimStart(e)
    ensures r == [] <==> IsBlank(s)
    ensures r != [] ==> !IsWhitespace(r[|r| - 1])
  {
    var cut := |e| - |r|;
    if r != [] {
      assert r[|r| - 1] == e[|e| - 1];
      assert r[0] == s[cut];
      assert !IsBlank(s);
    } else {
      forall i | 0 <= i < |s| ensures IsWhitespace(s[i]) {
        if i < |e| { assert s[i] == e[i]; }
      }
    }
  }

  /** The trimmed string is the slice of `s` between its leading and its trailing
      whitespace. */
  lemma TrimIsSlice(s: string) returns (start: nat)
    ensures start + |Trim(s)| <= |s| && Trim(s) == s[start..start + |Trim(s)|]
    ensures IsBlank(s[..start]) && IsBlank(s[start + |Trim(s)|..])
  {
    var e := TrimEnd(s);
    start := |e| - |Trim(s)|;
    assert e == s[..|e|];
  }

  /** Trimming twice is trimming once. */
  lemma TrimIdempotent(s: string)
    ensures Trim(Trim(s)) == Trim(s)
  {
    var t := Trim(s);
    if t != [] {
      assert TrimEnd(t) == t;
      assert TrimStart(t) == t;
    }
  }

  /** `name.trim() || "Anonymous"`: the author recorded for a comment. */
  function OrAnonymous(name: string): (r: string)
    ensures r != []
    ensures IsBlank(name) ==> r == "Anonymous"
    ensures !IsBlank(name) ==> r == Trim(name)
  {
    var t := Trim(name);
    if t == [] then "Anonymous" else t
  }

  /** Number of line feeds in `s`. */
  function LineFeeds(s: string): nat
  {
    multiset(s)['\n']
  }

  /** `s.split("\n")`: one piece per line feed plus one, none containing a line feed. */
  function SplitLines(s: string): (r: seq<string>)
    ensures |r| == LineFeeds(s) + 1
    ensures forall i | 0 <= i < |r| :: '\n' !in r[i]
    decreases |s|
  {
    if s == [] then [[]]
    else
      var rest := SplitLines(s[1..]);
      assert s == [s[0]] + s[1..];
      if s[0] == '\n' then [[]] + rest
      else [[s[0]] + rest[0]] + rest[1..]
  }

  /** `pieces.join("\n")`. */
  function JoinLines(pieces: seq<string>): string
  {
    if |pieces| == 0 then []
    else if |pieces| == 1 then pieces[0]
    else pieces[0] + "\n" + JoinLines(pieces[1..])
  }

  /** Joining a first piece with the rest. */
  lemma JoinCons(p: string, rest: seq<string>)
    requires |rest| >= 1
    ensures JoinLines([p] + rest) == p + "\n" + JoinLines(rest)
  {
    assert ([p] + rest)[1..] == rest;
  }

  /** Concatenation regroups freely. */
  lemma ConcatAssoc(a: string, b: string, c: string, d: string)
    ensures ((a + b) + c) + d == a + ((b + c) + d)
  {
  }

  /** Prefixing a character to the first of several pieces prefixes it to their join. */
  lemma JoinPrepend(c: char, rest: seq<string>)
    requires |rest| > 1
    ensures JoinLines([[c] + rest[0]] + rest[1..]) == [c] + JoinLines(rest)
  {
    var tail := JoinLines(rest[1..]);
    JoinCons([c] + rest[0], rest[1..]);
    JoinCons(rest[0], rest[1..]);
    assert [rest[0]] + rest[1..] == rest;
    ConcatAssoc([c], rest[0], "\n", tail);
  }

  /** Splitting on line feeds loses nothing: joining the pieces gives back the text. */
  lemma {:induction false} JoinSplitLines(s: string)
    ensures JoinLines(SplitLines(s)) == s
    decreases |s|
  {
    if s != [] {
      var rest := SplitLines(s[1..]);
      JoinSplitLines(s[1..]);
      assert s == [s[0]] + s[1..];
      if s[0] == '\n' {
        JoinCons([], rest);
      } else if |rest| == 1 {
        assert SplitLines(s) == [[s[0]] + rest[0]];
      } else {
        assert SplitLines(s) == [[s[0]] + rest[0]] + rest[1..];
        JoinPrepend(s[0], rest);
      }
    }
  }
}
