/** The part of the highlight adapter that is not the tokenizer: the line-break
    normalisation applied to the code before it is highlighted, and the list of
    languages the highlighter is created with. */
module SyntaxHighlight {
  import opened Text

  /** `code.replace(/\r\n/g, '\n')`: a left-to-right scan that rewrites each
      carriage-return/line-feed pair, without overlaps, into a single line feed. */
  function NormalizeLineBreaks(s: string): (r: string)
    ensures |r| <= |s|
    decreases |s|
  {
    if |s| >= 2 && s[0] == '\r' && s[1] == '\n' then "\n" + NormalizeLineBreaks(s[2..])
    else if s == [] then []
    else [s[0]] + NormalizeLineBreaks(s[1..])
  }

  /** Position `i` of `s` holds a carriage return that a line feed follows. */
  predicate CrBeforeLf(s: string, i: int)
  {
    0 <= i < |s| - 1 && s[i] == '\r' && s[i + 1] == '\n'
  }

  /** Reference definition, position by position: every character of `s` in order,
      except each carriage return that a line feed immediately follows. */
  function DropCrBeforeLf(s: string): (r: string)
    ensures |r| <= |s|
    decreases |s|
  {
    if s == [] then []
    else (if CrBeforeLf(s, 0) then [] else [s[0]]) + DropCrBeforeLf(s[1..])
  }

  /** Number of carriage-return/line-feed pairs in `s`. */
  function CrLfPairs(s: string): nat
    decreases |s|
  {
    if s == [] then 0 else (if CrBeforeLf(s, 0) then 1 else 0) + CrLfPairs(s[1..])
  }

  /** The scan deletes exactly the carriage returns that precede a line feed and
      keeps every other character in order. */
  lemma {:induction false} NormalizeDropsCrBeforeLf(s: string)
    ensures NormalizeLineBreaks(s) == DropCrBeforeLf(s)
    decreases |s|
  {
    if CrBeforeLf(s, 0) {
      NormalizeDropsCrBeforeLf(s[2..]);
      assert s[1..][1..] == s[2..];
      assert !CrBeforeLf(s[1..], 0);
      assert DropCrBeforeLf(s[1..]) == "\n" + DropCrBeforeLf(s[2..]);
    } else if s != [] {
      NormalizeDropsCrBeforeLf(s[1..]);
    }
  }

  /** The normalised text is shorter than the input by exactly the number of pairs. */
  lemma {:induction false} NormalizeLength(s: string)
    ensures |NormalizeLineBreaks(s)| + CrLfPairs(s) == |s|
    decreases |s|
  {
    if CrBeforeLf(s, 0) {
      NormalizeLength(s[2..]);
      assert s[1..][1..] == s[2..];
      assert !CrBeforeLf(s[1..], 0);
      assert CrLfPairs(s[1..]) == CrLfPairs(s[2..]);
    } else if s != [] {
      NormalizeLength(s[1..]);
    }
  }

  /** Without a carriage-return/line-feed pair the text comes back unchanged. */
  lemma {:induction false} NormalizeWithoutPairs(s: string)
    requires forall i | 0 <= i < |s| - 1 :: !CrBeforeLf(s, i)
    ensures NormalizeLineBreaks(s) == s
    decreases |s|
  {
    if s != [] {
      assert !CrBeforeLf(s, 0);
      forall i | 0 <= i < |s[1..]| - 1 ensures !CrBeforeLf(s[1..], i) {
        assert !CrBeforeLf(s, i + 1);
      }
      NormalizeWithoutPairs(s[1..]);
    }
  }

  /** The normalisation keeps the number of line feeds. */
  lemma {:induction false} NormalizeKeepsLineFeeds(s: string)
    ensures LineFeeds(NormalizeLineBreaks(s)) == LineFeeds(s)
    decreases |s|
  {
    if CrBeforeLf(s, 0) {
      NormalizeKeepsLineFeeds(s[2..]);
      assert s == [s[0], s[1]] + s[2..];
    } else if s != [] {
      NormalizeKeepsLineFeeds(s[1..]);
      assert s == [s[0]] + s[1..];
    }
  }

  /** Hence the highlighted body has as many lines as `code.split("\n")` of the raw
      code: the gutter and the body agree on the line count. */
  lemma SameLineCountAsRaw(s: string)
    ensures |SplitLines(NormalizeLineBreaks(s))| == |SplitLines(s)|
  {
    NormalizeKeepsLineFeeds(s);
  }

  /** The normalisation is not idempotent: "\r\r\n" becomes "\r\n", which becomes "\n". */
  lemma NormalizeNotIdempotent()
    ensures NormalizeLineBreaks("\r\r\n") == "\r\n"
    ensures NormalizeLineBreaks(NormalizeLineBreaks("\r\r\n")) != NormalizeLineBreaks("\r\r\n")
  {
    assert NormalizeLineBreaks("\n") == "\n";
    assert NormalizeLineBreaks("\r\n") == "\n";
  }

  /** The languages the highlighter instance is created with. */
  const LoadedLanguages: seq<string> := [
    "javascript", "typescript", "jsx", "tsx", "html", "css", "scss", "less",
    "python", "java", "cpp", "csharp", "go", "rust", "ruby", "php",
    "swift", "kotlin", "scala", "json", "yaml", "markdown", "bash", "sql"
  ]

  /** No language is listed twice. */
  predicate Distinct(langs: seq<string>)
  {
    forall i, j | 0 <= i < j < |langs| :: langs[i] != langs[j]
  }

  /** `getSupportedLanguages()`: a second, separately written list. It names exactly
      the loaded languages, in the same order, each once. */
  function SupportedLanguages(): (r: seq<string>)
    ensures r == LoadedLanguages
    ensures |r| == 24 && Distinct(r)
  {
    [
      "javascript", "typescript", "jsx", "tsx", "html", "css", "scss", "less",
      "python", "java", "cpp", "csharp", "go", "rust", "ruby", "php",
      "swift", "kotlin", "scala", "json", "yaml", "markdown", "bash", "sql"
    ]
  }
}
