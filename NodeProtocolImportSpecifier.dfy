/** The `nodeProtocolImportSpecifier` build plugin
    (src/commands/functions/plugins/nodeProtocolImportSpecifier.ts): it rewrites
    `import … from "m"` of a supported built-in `m` into `"node:m"`, line by
    line, and marks every `node:` specifier as external. */
module NodeProtocolImportSpecifier {
  import opened JsText
  import opened Wrappers
  import RuntimeModules

  /** The plugin's own copy of the supported built-ins. */
  const RuntimeModuleNames: seq<string> := [
    "buffer",
    "crypto",
    "domain",
    "events",
    "http",
    "https",
    "path",
    "punycode",
    "stream",
    "string_decoder",
    "url",
    "util",
    "zlib"
  ]

  /** The copy agrees element for element with the registry. */
  lemma CopyMatchesRegistry()
    ensures RuntimeModuleNames == RuntimeModules.Names
  {
  }

  // ---------------------------------------------------------------------
  // The two regular expressions built for module `m`
  // ---------------------------------------------------------------------

  predicate IsQuote(c: char) {
    c == '"' || c == '\''
  }

  /** `["']m["']` matches at `i`: a quote of either kind, `m` itself and a
      quote of either kind. The name is taken literally: none of the
      supported names holds a regular-expression metacharacter. */
  predicate IsTokenAt(s: string, i: nat, m: string) {
    i + |m| + 2 <= |s| && IsQuote(s[i]) && s[i + 1..i + 1 + |m|] == m && IsQuote(s[i + 1 + |m|])
  }

  /** What each token is replaced with: `"node:m"`, in double quotes. */
  function Convention(m: string): (c: string)
    ensures |c| == |m| + 7
    ensures c[0] == '"' && c[|c| - 1] == '"' && c[1..6] == RuntimeModules.NodePrefix && c[6..6 + |m|] == m
  {
    "\"" + RuntimeModules.NodePrefix + m + "\""
  }

  /** The tail `from\s+["']m["']` of the import pattern matches at `q`. The
      greedy `\s+` takes the whole whitespace run, because a quote is not
      whitespace. */
  predicate IsFromTailAt(s: string, q: nat, m: string) {
    HasAt(s, q, "from") && WhitespaceRun(s, q + 4) >= 1 && IsTokenAt(s, q + 4 + WhitespaceRun(s, q + 4), m)
  }

  /** Where a match whose tail is at `q` ends. */
  function TailEnd(s: string, q: nat, m: string): (e: nat)
    requires IsFromTailAt(s, q, m)
    ensures q < e <= |s|
  {
    q + 4 + WhitespaceRun(s, q + 4) + |m| + 2
  }

  /** The reference meaning of `import\s*[\w\W]*?\s*from\s+["']m["']` tried
      from index `lastIndex`: `import` somewhere at or after it, and the tail
      anywhere after that `import`. */
  ghost predicate MatchesFrom(s: string, m: string, lastIndex: nat) {
    exists i: nat, q: nat :: lastIndex <= i && i + 6 <= q && HasAt(s, i, "import") && IsFromTailAt(s, q, m)
  }

  /** The first tail at or after `q`: the lazy `[\w\W]*?` grows one character
      at a time, so the first `from` that completes the tail is the one used. */
  function FirstTail(s: string, q: nat, m: string): (r: Option<nat>)
    requires q <= |s|
    ensures r.Some? ==> q <= r.value && IsFromTailAt(s, r.value, m)
    ensures r.Some? ==> forall p :: q <= p < r.value ==> !IsFromTailAt(s, p, m)
    ensures r.None? ==> forall p :: q <= p ==> !IsFromTailAt(s, p, m)
    decreases |s| - q
  {
    if IsFromTailAt(s, q, m) then Some(q)
    else if q == |s| then None
    else FirstTail(s, q + 1, m)
  }

  /** The tail position of a match starting exactly at `i`, if there is one. */
  function MatchAt(s: string, i: nat, m: string): Option<nat> {
    if HasAt(s, i, "import") then FirstTail(s, i + 6, m) else None
  }

  /** The leftmost match at or after `i`: its `import` and its tail. */
  function LeftmostMatch(s: string, i: nat, m: string): (r: Option<(nat, nat)>)
    requires i <= |s|
    ensures r.Some? ==> i <= r.value.0 && r.value.0 + 6 <= r.value.1
    ensures r.Some? ==> HasAt(s, r.value.0, "import") && IsFromTailAt(s, r.value.1, m)
    ensures r.Some? ==> forall p :: i <= p < r.value.0 ==> MatchAt(s, p, m).None?
    ensures r.None? <==> !MatchesFrom(s, m, i)
    decreases |s| - i
  {
    MatchesFromUnfold(s, m, i);
    match MatchAt(s, i, m)
    case Some(q) => Some((i, q))
    case None =>
      if i == |s| then None else LeftmostMatch(s, i + 1, m)
  }

  /** A match from `i` starts exactly at `i` or is a match from `i + 1`. */
  lemma MatchesFromUnfold(s: string, m: string, i: nat)
    requires i <= |s|
    ensures MatchesFrom(s, m, i) <==> MatchAt(s, i, m).Some? || (i < |s| && MatchesFrom(s, m, i + 1))
  {
    if MatchesFrom(s, m, i) {
      var a: nat, q: nat :| i <= a && a + 6 <= q && HasAt(s, a, "import") && IsFromTailAt(s, q, m);
      if a == i {
        assert FirstTail(s, i + 6, m).Some?;
      } else {
        assert i + 1 <= a;
      }
    }
    match MatchAt(s, i, m)
    case Some(q) =>
      assert HasAt(s, i, "import") && IsFromTailAt(s, q, m);
    case None =>
  }

  /** The outcome of `reImportSyntax.test(line)` and the regex's new `lastIndex`. */
  datatype TestResult = TestResult(matched: bool, lastIndex: nat)

  /** `RegExp.prototype.test` on a global regex that starts at `lastIndex`:
      past the end it fails; on failure `lastIndex` goes back to 0; on
      success it is the end of the match. */
  function ImportTest(s: string, m: string, lastIndex: nat): (t: TestResult)
    ensures t.matched <==> MatchesFrom(s, m, lastIndex)
    ensures !t.matched ==> t.lastIndex == 0
    ensures t.matched ==> lastIndex < t.lastIndex <= |s|
    ensures t.matched ==>
      (LeftmostMatch(s, lastIndex, m).Some? && t.lastIndex == TailEnd(s, LeftmostMatch(s, lastIndex, m).value.1, m))
  {
    if lastIndex > |s| then TestResult(false, 0)
    else
      match LeftmostMatch(s, lastIndex, m)
      case Some((_, q)) => TestResult(true, TailEnd(s, q, m))
      case None => TestResult(false, 0)
  }

  /** A test from a later index succeeds only where one from 0 would. */
  lemma MatchesFromZero(s: string, m: string, lastIndex: nat)
    requires MatchesFrom(s, m, lastIndex)
    ensures MatchesFrom(s, m, 0)
  {
    var i: nat, q: nat :| lastIndex <= i && i + 6 <= q && HasAt(s, i, "import") && IsFromTailAt(s, q, m);
    assert 0 <= i;
  }

  /** A line with no `import` never passes the test. */
  lemma NoImportNoMatch(s: string, m: string, lastIndex: nat)
    requires !Contains(s, "import")
    ensures !MatchesFrom(s, m, lastIndex)
  {
  }

  /** A line with no quoted `m` never passes the test. */
  lemma NoTokenNoMatch(s: string, m: string, lastIndex: nat)
    requires forall i :: 0 <= i < |s| ==> !IsTokenAt(s, i, m)
    ensures !MatchesFrom(s, m, lastIndex)
  {
    forall q: nat ensures !IsFromTailAt(s, q, m) {
      if HasAt(s, q, "from") {
        assert !IsTokenAt(s, q + 4 + WhitespaceRun(s, q + 4), m);
      }
    }
  }

  // ---------------------------------------------------------------------
  // `ln.replace(reModuleName, convention)`
  // ---------------------------------------------------------------------

  /** Every token, scanning left to right and never overlapping, replaced by
      `Convention(m)`. A `replace` with a global regex starts from 0 and
      leaves `lastIndex` at 0, so no state is carried here. */
  function ReplaceTokens(s: string, m: string): string
    decreases |s|
  {
    if |s| == 0 then ""
    else if IsTokenAt(s, 0, m) then Convention(m) + ReplaceTokens(s[|m| + 2..], m)
    else [s[0]] + ReplaceTokens(s[1..], m)
  }

  lemma TokenShift(s: string, k: nat, i: nat, m: string)
    requires k <= |s|
    ensures IsTokenAt(s[k..], i, m) <==> IsTokenAt(s, k + i, m)
  {
    if k + i + |m| + 2 <= |s| {
      assert s[k..][i + 1..i + 1 + |m|] == s[k + i + 1..k + i + 1 + |m|];
    }
  }

  lemma TokenAppend(a: string, b: string, i: nat, m: string)
    ensures IsTokenAt(a + b, |a| + i, m) <==> IsTokenAt(b, i, m)
  {
    TokenShift(a + b, |a|, i, m);
    assert (a + b)[|a|..] == b;
  }

  /** A text without a token comes back unchanged. */
  lemma {:induction false} NoTokenUnchanged(s: string, m: string)
    requires forall i :: 0 <= i < |s| ==> !IsTokenAt(s, i, m)
    ensures ReplaceTokens(s, m) == s
    decreases |s|
  {
    if |s| > 0 {
      forall i | 0 <= i < |s| - 1 ensures !IsTokenAt(s[1..], i, m) {
        TokenShift(s, 1, i, m);
      }
      NoTokenUnchanged(s[1..], m);
      assert [s[0]] + s[1..] == s;
    }
  }

  /** Everything before the first token is copied as it is, the token becomes
      `Convention(m)`, and the scan goes on right after the token. */
  lemma {:induction false} FirstTokenSplit(s: string, m: string, i: nat)
    requires IsTokenAt(s, i, m)
    requires forall k :: 0 <= k < i ==> !IsTokenAt(s, k, m)
    ensures ReplaceTokens(s, m) == s[..i] + Convention(m) + ReplaceTokens(s[i + |m| + 2..], m)
    decreases i
  {
    var c := Convention(m);
    if i == 0 {
      assert s[..0] + c == c;
    } else {
      var t := s[1..];
      var tail := ReplaceTokens(s[i + |m| + 2..], m);
      assert ReplaceTokens(t, m) == t[..i - 1] + c + tail by {
        FirstTokenShift(s, m, i);
        FirstTokenSplit(t, m, i - 1);
        assert t[i - 1 + |m| + 2..] == s[i + |m| + 2..];
      }
      assert ReplaceTokens(s, m) == [s[0]] + ReplaceTokens(t, m) by {
        assert !IsTokenAt(s, 0, m);
      }
      assert [s[0]] + t[..i - 1] == s[..i];
      ConsAssociates(s[0], t[..i - 1], c, tail);
    }
  }

  lemma ConsAssociates(x: char, a: string, b: string, d: string)
    ensures [x] + (a + b + d) == [x] + a + b + d
  {
  }

  /** Dropping the first character moves the first token one place left. */
  lemma FirstTokenShift(s: string, m: string, i: nat)
    requires 0 < i && IsTokenAt(s, i, m)
    requires forall k :: 0 <= k < i ==> !IsTokenAt(s, k, m)
    ensures IsTokenAt(s[1..], i - 1, m)
    ensures forall k :: 0 <= k < i - 1 ==> !IsTokenAt(s[1..], k, m)
  {
    forall k | 0 <= k < i - 1 ensures !IsTokenAt(s[1..], k, m) {
      TokenShift(s, 1, k, m);
    }
    TokenShift(s, 1, i - 1, m);
  }

  /** No newline is introduced when `m` has none. */
  lemma {:induction false} ReplaceKeepsNoNewline(s: string, m: string)
    requires '\n' !in s && '\n' !in m
    ensures '\n' !in ReplaceTokens(s, m)
    decreases |s|
  {
    if |s| > 0 {
      if IsTokenAt(s, 0, m) {
        ReplaceKeepsNoNewline(s[|m| + 2..], m);
        assert '\n' !in Convention(m) by {
          assert Convention(m) == "\"" + RuntimeModules.NodePrefix + m + "\"";
        }
      } else {
        ReplaceKeepsNoNewline(s[1..], m);
      }
    }
  }

  predicate NoQuotes(w: string) {
    forall k :: 0 <= k < |w| ==> !IsQuote(w[k])
  }

  /** If the rewritten text starts with quote-free `w` and then a quote, the
      original did too: a replacement always begins with a quote. */
  lemma {:induction false} QuoteAfterPlainPrefix(u: string, m: string, w: string)
    requires NoQuotes(w)
    ensures |w| < |ReplaceTokens(u, m)| && ReplaceTokens(u, m)[..|w|] == w && IsQuote(ReplaceTokens(u, m)[|w|])
      ==> |w| < |u| && u[..|w|] == w && IsQuote(u[|w|])
    decreases |w|
  {
    var r := ReplaceTokens(u, m);
    if |u| == 0 {
    } else if IsTokenAt(u, 0, m) {
      assert r[0] == '"';
    } else {
      var r' := ReplaceTokens(u[1..], m);
      assert r == [u[0]] + r';
      if |w| > 0 {
        QuoteAfterPlainPrefix(u[1..], m, w[1..]);
        if |w| < |r| {
          assert r[..|w|] == [u[0]] + r'[..|w| - 1];
        }
        if |w| < |u| {
          assert u[..|w|] == [u[0]] + u[1..][..|w| - 1];
        }
      }
    }
  }

  /** The rewritten text never starts with a token. */
  lemma NoTokenAtStart(t: string, m: string)
    requires RuntimeModules.IsPlainName(m)
    ensures !IsTokenAt(ReplaceTokens(t, m), 0, m)
  {
    var r := ReplaceTokens(t, m);
    if |t| == 0 {
    } else if IsTokenAt(t, 0, m) {
      // `r` starts with `"node:m"`, and its character `|m| + 1` is not a quote
      var c := Convention(m);
      assert r[..|c|] == c;
      assert r[1 + |m|] == c[1 + |m|];
      if |m| >= 5 {
        assert c[1 + |m|] == m[|m| - 5];
      } else {
        assert c[1 + |m|] == RuntimeModules.NodePrefix[|m|];
      }
    } else {
      var r' := ReplaceTokens(t[1..], m);
      assert r == [t[0]] + r';
      QuoteAfterPlainPrefix(t[1..], m, m);
      if |r| >= |m| + 2 {
        assert r'[..|m|] == r[1..1 + |m|];
        assert r'[|m|] == r[1 + |m|];
      }
      if |t| >= |m| + 2 {
        assert t[1..][..|m|] == t[1..1 + |m|];
        assert t[1..][|m|] == t[1 + |m|];
      }
    }
  }

  /** In rewritten text no token follows a whitespace character. */
  lemma {:induction false} NoTokenAfterWhitespace(s: string, m: string)
    requires RuntimeModules.IsPlainName(m)
    ensures forall j :: 0 < j <= |ReplaceTokens(s, m)| && IsWhitespace(ReplaceTokens(s, m)[j - 1]) ==> !IsTokenAt(ReplaceTokens(s, m), j, m)
    decreases |s|
  {
    var r := ReplaceTokens(s, m);
    if |s| > 0 {
      if IsTokenAt(s, 0, m) {
        var c := Convention(m);
        var rest := s[|m| + 2..];
        NoTokenAfterWhitespace(rest, m);
        var r' := ReplaceTokens(rest, m);
        assert r == c + r';
        forall j | 0 < j <= |r| ensures IsWhitespace(r[j - 1]) ==> !IsTokenAt(r, j, m) {
          if j <= |c| {
            assert r[j - 1] == c[j - 1];
            assert !IsWhitespace(c[j - 1]) by {
              if j - 1 == 0 || j - 1 == |c| - 1 {
              } else if j - 1 < 6 {
                assert c[j - 1] == RuntimeModules.NodePrefix[j - 2];
              } else {
                assert c[j - 1] == m[j - 7];
              }
            }
          } else {
            TokenAppend(c, r', j - |c|, m);
            assert r'[j - |c| - 1] == r[j - 1];
          }
        }
      } else {
        NoTokenAfterWhitespace(s[1..], m);
        NoTokenAtStart(s[1..], m);
        var r' := ReplaceTokens(s[1..], m);
        assert r == [s[0]] + r';
        forall j | 0 < j <= |r| ensures IsWhitespace(r[j - 1]) ==> !IsTokenAt(r, j, m) {
          TokenAppend([s[0]], r', j - 1, m);
          if j > 1 {
            assert r'[j - 2] == r[j - 1];
          }
        }
      }
    }
  }

  /** Rewritten text has no import tail left for `m`: every quoted `m` after
      `from` and whitespace has become `"node:m"`. */
  lemma RewrittenHasNoTail(s: string, m: string)
    requires RuntimeModules.IsPlainName(m)
    ensures forall q :: !IsFromTailAt(ReplaceTokens(s, m), q, m)
  {
    var r := ReplaceTokens(s, m);
    NoTokenAfterWhitespace(s, m);
    forall q: nat ensures !IsFromTailAt(r, q, m) {
      if HasAt(r, q, "from") && WhitespaceRun(r, q + 4) >= 1 {
        var w := WhitespaceRun(r, q + 4);
        assert IsWhitespace(r[q + 4 + w - 1]);
      }
    }
  }

  // ---------------------------------------------------------------------
  // `replaceLineByMatchRegExpr`
  // ---------------------------------------------------------------------

  /** One line through the `map` callback and the regex's `lastIndex` after it. */
  datatype LineStep = LineStep(text: string, lastIndex: nat)

  function RewriteLine(line: string, m: string, lastIndex: nat): (r: LineStep)
    ensures MatchesFrom(line, m, lastIndex) ==> r.text == ReplaceTokens(line, m) && lastIndex < r.lastIndex <= |line|
    ensures MatchesFrom(line, m, lastIndex) ==>
      (LeftmostMatch(line, lastIndex, m).Some? && r.lastIndex == TailEnd(line, LeftmostMatch(line, lastIndex, m).value.1, m))
    ensures !MatchesFrom(line, m, lastIndex) ==> r.text == line && r.lastIndex == 0
  {
    var t := ImportTest(line, m, lastIndex);
    LineStep(if t.matched then ReplaceTokens(line, m) else line, t.lastIndex)
  }

  /** The `map` over the lines, with the one regex object, and so its
      `lastIndex`, shared by all of them. */
  function RewriteLines(lines: seq<string>, m: string, lastIndex: nat): (r: seq<string>)
    ensures |r| == |lines|
    ensures forall k :: 0 <= k < |lines| ==> r[k] == lines[k] || r[k] == ReplaceTokens(lines[k], m)
    ensures forall k :: 0 <= k < |lines| && !MatchesFrom(lines[k], m, 0) ==> r[k] == lines[k]
    ensures |lines| > 0 && MatchesFrom(lines[0], m, lastIndex) ==> r[0] == ReplaceTokens(lines[0], m)
    decreases |lines|
  {
    if |lines| == 0 then []
    else
      var step := RewriteLine(lines[0], m, lastIndex);
      assert MatchesFrom(lines[0], m, lastIndex) ==> MatchesFrom(lines[0], m, 0) by {
        if MatchesFrom(lines[0], m, lastIndex) { MatchesFromZero(lines[0], m, lastIndex); }
      }
      var rest := RewriteLines(lines[1..], m, step.lastIndex);
      var r := [step.text] + rest;
      assert forall k :: 1 <= k < |lines| ==> r[k] == rest[k - 1] && lines[k] == lines[1..][k - 1];
      r
  }

  /** `replaceLineByMatchRegExpr({contents, moduleName: m})` as written. */
  function ReplaceLineByMatchRegExpr(contents: string, m: string): string {
    JoinLines(RewriteLines(SplitLines(contents), m, 0))
  }

  /** The rewrite keeps the number of lines; every line is either kept or has
      its tokens replaced; a line that fails the test even from index 0 comes
      back unchanged. */
  lemma ReplaceLineShape(contents: string, m: string)
    requires RuntimeModules.IsPlainName(m)
    ensures |SplitLines(ReplaceLineByMatchRegExpr(contents, m))| == |SplitLines(contents)|
    ensures forall k :: 0 <= k < |SplitLines(contents)| ==>
      SplitLines(ReplaceLineByMatchRegExpr(contents, m))[k] == SplitLines(contents)[k] ||
      SplitLines(ReplaceLineByMatchRegExpr(contents, m))[k] == ReplaceTokens(SplitLines(contents)[k], m)
    ensures forall k :: 0 <= k < |SplitLines(contents)| && !MatchesFrom(SplitLines(contents)[k], m, 0) ==>
      SplitLines(ReplaceLineByMatchRegExpr(contents, m))[k] == SplitLines(contents)[k]
  {
    var lines := SplitLines(contents);
    var out := RewriteLines(lines, m, 0);
    RewrittenLinesSplit(lines, out, m);
  }

  lemma RewrittenLinesSplit(lines: seq<string>, out: seq<string>, m: string)
    requires RuntimeModules.IsPlainName(m)
    requires |lines| >= 1 && NoNewlines(lines) && |out| == |lines|
    requires forall k :: 0 <= k < |lines| ==> out[k] == lines[k] || out[k] == ReplaceTokens(lines[k], m)
    ensures SplitLines(JoinLines(out)) == out
  {
    forall k | 0 <= k < |out| ensures '\n' !in out[k] {
      if out[k] != lines[k] {
        ReplaceKeepsNoNewline(lines[k], m);
      }
    }
    SplitJoin(out);
  }

  /** Contents on which no line passes the test come back unchanged. */
  lemma ReplaceLineUnchanged(contents: string, m: string)
    requires forall k :: 0 <= k < |SplitLines(contents)| ==> !MatchesFrom(SplitLines(contents)[k], m, 0)
    ensures ReplaceLineByMatchRegExpr(contents, m) == contents
  {
    var lines := SplitLines(contents);
    assert RewriteLines(lines, m, 0) == lines;
    JoinSplit(contents);
  }

  /** The per-line rewrite the author evidently meant: each line tested on its
      own, from index 0. */
  function RewriteEachLine(lines: seq<string>, m: string): (r: seq<string>)
    ensures |r| == |lines|
    ensures forall k :: 0 <= k < |lines| ==> (MatchesFrom(lines[k], m, 0) ==> r[k] == ReplaceTokens(lines[k], m))
    ensures forall k :: 0 <= k < |lines| ==> (!MatchesFrom(lines[k], m, 0) ==> r[k] == lines[k])
  {
    seq(|lines|, k requires 0 <= k < |lines| => RewriteLine(lines[k], m, 0).text)
  }

  /** `replaceLineByMatchRegExpr` with each line tested from index 0. */
  function ReplaceLineIntended(contents: string, m: string): string {
    JoinLines(RewriteEachLine(SplitLines(contents), m))
  }

  /** The intended rewrite keeps the number of lines, rewrites every line
      that passes the test and leaves every other line as it is. */
  lemma ReplaceLineIntendedShape(contents: string, m: string)
    requires RuntimeModules.IsPlainName(m)
    ensures |SplitLines(ReplaceLineIntended(contents, m))| == |SplitLines(contents)|
    ensures forall k :: 0 <= k < |SplitLines(contents)| && MatchesFrom(SplitLines(contents)[k], m, 0) ==>
      SplitLines(ReplaceLineIntended(contents, m))[k] == ReplaceTokens(SplitLines(contents)[k], m)
    ensures forall k :: 0 <= k < |SplitLines(contents)| && !MatchesFrom(SplitLines(contents)[k], m, 0) ==>
      SplitLines(ReplaceLineIntended(contents, m))[k] == SplitLines(contents)[k]
  {
    var lines := SplitLines(contents);
    RewrittenLinesSplit(lines, RewriteEachLine(lines, m), m);
  }

  /** Applying the intended rewrite twice gives what applying it once does. */
  lemma ReplaceLineIntendedIdempotent(contents: string, m: string)
    requires RuntimeModules.IsPlainName(m)
    ensures ReplaceLineIntended(ReplaceLineIntended(contents, m), m) == ReplaceLineIntended(contents, m)
  {
    var lines := SplitLines(contents);
    var once := RewriteEachLine(lines, m);
    RewrittenLinesSplit(lines, once, m);
    forall k | 0 <= k < |once| ensures !MatchesFrom(once[k], m, 0) {
      if MatchesFrom(lines[k], m, 0) {
        RewrittenHasNoTail(lines[k], m);
      }
    }
    assert RewriteEachLine(once, m) == once;
  }

  /** Each line of the rewrite as written is the intended line or the
      original line: the shared `lastIndex` can only make it skip lines. */
  lemma AsWrittenWithinIntended(contents: string, m: string)
    requires RuntimeModules.IsPlainName(m)
    ensures |SplitLines(ReplaceLineByMatchRegExpr(contents, m))| == |SplitLines(contents)|
    ensures |SplitLines(ReplaceLineIntended(contents, m))| == |SplitLines(contents)|
    ensures forall k :: 0 <= k < |SplitLines(contents)| ==>
      SplitLines(ReplaceLineByMatchRegExpr(contents, m))[k] == SplitLines(ReplaceLineIntended(contents, m))[k] ||
      SplitLines(ReplaceLineByMatchRegExpr(contents, m))[k] == SplitLines(contents)[k]
  {
    var lines := SplitLines(contents);
    ReplaceLineShape(contents, m);
    RewrittenLinesSplit(lines, RewriteEachLine(lines, m), m);
  }

  /** A one-line import that the counterexample repeats. */
  const ImportPathLine: string := "import a from 'path'"

  lemma ImportPathLineTest()
    ensures ImportTest(ImportPathLine, "path", 0) == TestResult(true, 20)
    ensures !MatchesFrom(ImportPathLine, "path", 20)
  {
    ImportPathLineTail();
    ImportPathLineNoEarlierFrom();
    assert HasAt(ImportPathLine, 0, "import") by { assert ImportPathLine[..6] == "import"; }
    assert FirstTail(ImportPathLine, 6, "path") == Some(9);
  }

  lemma ImportPathLineTail()
    ensures IsFromTailAt(ImportPathLine, 9, "path") && TailEnd(ImportPathLine, 9, "path") == 20
  {
    var s := ImportPathLine;
    assert s[9..13] == "from";
    assert WhitespaceRun(s, 14) == 0 by { assert s[14] == '\''; }
    assert WhitespaceRun(s, 13) == 1 by { assert s[13] == ' '; }
    assert IsTokenAt(s, 14, "path") by { assert s[15..19] == "path"; }
  }

  lemma ImportPathLineNoEarlierFrom()
    ensures !IsFromTailAt(ImportPathLine, 6, "path")
    ensures !IsFromTailAt(ImportPathLine, 7, "path")
    ensures !IsFromTailAt(ImportPathLine, 8, "path")
  {
    var s := ImportPathLine;
    assert s[6] == ' ' && s[7] == 'a' && s[8] == ' ';
    NoTailWithoutF(s, 6, "path");
    NoTailWithoutF(s, 7, "path");
    NoTailWithoutF(s, 8, "path");
  }

  /** A tail starts with the letter `f`. */
  lemma NoTailWithoutF(s: string, q: nat, m: string)
    ensures q < |s| && s[q] != 'f' ==> !IsFromTailAt(s, q, m)
  {
    if IsFromTailAt(s, q, m) {
      assert s[q..q + 4][0] == 'f';
    }
  }

  lemma ImportPathLineReplaced()
    ensures ReplaceTokens(ImportPathLine, "path") == "import a from \"node:path\""
  {
    var s := ImportPathLine;
    ImportPathLineFirstToken();
    FirstTokenSplit(s, "path", 14);
    assert s[20..] == "";
    assert s[..14] == "import a from ";
    ConventionForPath();
  }

  lemma ConventionForPath()
    ensures "import a from " + Convention("path") == "import a from \"node:path\""
  {
    var c := "\"" + RuntimeModules.NodePrefix + "path" + "\"";
    assert forall k :: 0 <= k < 11 ==> c[k] == "\"node:path\""[k];
  }

  lemma ImportPathLineFirstToken()
    ensures IsTokenAt(ImportPathLine, 14, "path")
    ensures forall k :: 0 <= k < 14 ==> !IsTokenAt(ImportPathLine, k, "path")
  {
    var s := ImportPathLine;
    assert s[15..19] == "path";
    assert s[..14] == "import a from ";
    forall k | 0 <= k < 14 ensures !IsQuote(s[k]) {
      assert s[k] == s[..14][k];
    }
  }

  /** That import with its specifier converted. */
  const RewrittenPathLine: string := "import a from \"node:path\""

  /** The rewrite as written leaves the second of two identical imports
      alone: after the first line `lastIndex` is 20, and the second line is
      searched only from there. The intended rewrite converts both. */
  lemma LastIndexSkipsNextImport()
    ensures ReplaceLineByMatchRegExpr(ImportPathLine + "\n" + ImportPathLine, "path")
         == RewrittenPathLine + "\n" + ImportPathLine
    ensures ReplaceLineIntended(ImportPathLine + "\n" + ImportPathLine, "path")
         == RewrittenPathLine + "\n" + RewrittenPathLine
  {
    ImportPathLineTest();
    ImportPathLineReplaced();
    ImportPathLineNoNewline();
    RepeatedLineSkipped(ImportPathLine, "path", RewrittenPathLine);
  }

  /** The same for any line whose match runs to its end: the regex's
      `lastIndex` is then the length of the line, and an identical next
      line has no match starting there. */
  lemma RepeatedLineSkipped(s: string, m: string, r: string)
    requires ImportTest(s, m, 0) == TestResult(true, |s|)
    requires ReplaceTokens(s, m) == r
    requires '\n' !in s
    ensures ReplaceLineByMatchRegExpr(s + "\n" + s, m) == r + "\n" + s
    ensures ReplaceLineIntended(s + "\n" + s, m) == r + "\n" + r
  {
    TwoLines(s);
    RepeatedLineAsWritten(s, m, r);
    RepeatedLineIntended(s, m, r);
  }

  lemma TwoLines(s: string)
    requires '\n' !in s
    ensures SplitLines(s + "\n" + s) == [s, s]
  {
    SplitThroughLine(s, s);
    SplitNoNewline(s);
  }

  lemma RepeatedLineAsWritten(s: string, m: string, r: string)
    requires ImportTest(s, m, 0) == TestResult(true, |s|)
    requires ReplaceTokens(s, m) == r
    requires SplitLines(s + "\n" + s) == [s, s]
    ensures ReplaceLineByMatchRegExpr(s + "\n" + s, m) == r + "\n" + s
  {
    assert RewriteLine(s, m, 0).text == r && RewriteLine(s, m, 0).lastIndex == |s|;
    assert !MatchesFrom(s, m, |s|);
    assert RewriteLine(s, m, |s|).text == s;
    assert RewriteLines([s, s], m, 0) == [r, s] by {
      assert [s, s][1..] == [s];
      assert RewriteLines([s], m, |s|) == [s];
    }
    assert JoinLines([r, s]) == r + "\n" + s by { assert [r, s][1..] == [s]; }
  }

  lemma RepeatedLineIntended(s: string, m: string, r: string)
    requires ImportTest(s, m, 0).matched
    requires ReplaceTokens(s, m) == r
    requires SplitLines(s + "\n" + s) == [s, s]
    ensures ReplaceLineIntended(s + "\n" + s, m) == r + "\n" + r
  {
    assert RewriteEachLine([s, s], m) == [r, r];
    assert JoinLines([r, r]) == r + "\n" + r by { assert [r, r][1..] == [r]; }
  }

  lemma ImportPathLineNoNewline()
    ensures '\n' !in ImportPathLine
  {
  }

  // ---------------------------------------------------------------------
  // `applyNodeProtocolConvention`
  // ---------------------------------------------------------------------

  /** `modules.reduce((acc, m) => replaceLineByMatchRegExpr(acc, m), contents)`,
      as written: each module gets a fresh regex, whose `lastIndex` is then
      shared by the lines of the text. Because a line can be skipped, the
      fold is not idempotent: on the text of `ConventionSkipsRepeatedImport`
      a second pass rewrites the line the first pass skipped. Idempotence is
      proved only for the corrected rewrite (`ReplaceLineIntendedIdempotent`). */
  function ApplyConvention(modules: seq<string>, contents: string): string
    decreases |modules|
  {
    if |modules| == 0 then contents
    else ApplyConvention(modules[1..], ReplaceLineByMatchRegExpr(contents, modules[0]))
  }

  /** The whole-file conversion the load hook returns as the new contents. */
  function ApplyNodeProtocolConvention(contents: string): string {
    ApplyConvention(RuntimeModuleNames, contents)
  }

  predicate AllPlain(modules: seq<string>) {
    forall k :: 0 <= k < |modules| ==> RuntimeModules.IsPlainName(modules[k])
  }

  /** The fold keeps the number of lines, and every line with no `import` in
      it comes back unchanged. */
  lemma {:induction false} ApplyConventionLines(modules: seq<string>, contents: string)
    requires AllPlain(modules)
    ensures |SplitLines(ApplyConvention(modules, contents))| == |SplitLines(contents)|
    ensures forall k :: 0 <= k < |SplitLines(contents)| && !Contains(SplitLines(contents)[k], "import") ==>
      SplitLines(ApplyConvention(modules, contents))[k] == SplitLines(contents)[k]
    decreases |modules|
  {
    if |modules| > 0 {
      var next := ReplaceLineByMatchRegExpr(contents, modules[0]);
      ReplaceLineShape(contents, modules[0]);
      forall k | 0 <= k < |SplitLines(contents)| && !Contains(SplitLines(contents)[k], "import")
        ensures SplitLines(next)[k] == SplitLines(contents)[k]
      {
        NoImportNoMatch(SplitLines(contents)[k], modules[0], 0);
      }
      ApplyConventionLines(modules[1..], next);
    }
  }

  /** Contents none of whose lines holds `import` come back unchanged. */
  lemma ApplyConventionUnchanged(modules: seq<string>, contents: string)
    requires AllPlain(modules)
    requires forall k :: 0 <= k < |SplitLines(contents)| ==> !Contains(SplitLines(contents)[k], "import")
    ensures ApplyConvention(modules, contents) == contents
  {
    var out := ApplyConvention(modules, contents);
    ApplyConventionLines(modules, contents);
    assert SplitLines(out) == SplitLines(contents);
    JoinSplit(out);
    JoinSplit(contents);
  }

  /** The same two facts for the conversion over the supported built-ins. */
  lemma ConventionKeepsLines(contents: string)
    ensures |SplitLines(ApplyNodeProtocolConvention(contents))| == |SplitLines(contents)|
    ensures forall k :: 0 <= k < |SplitLines(contents)| && !Contains(SplitLines(contents)[k], "import") ==>
      SplitLines(ApplyNodeProtocolConvention(contents))[k] == SplitLines(contents)[k]
  {
    RuntimeModules.NamesArePlain();
    ApplyConventionLines(RuntimeModuleNames, contents);
  }

  /** The fold with the corrected per-line rewrite, each line tested on its
      own (see `ReplaceLineIntended`). */
  function ApplyConventionIntended(modules: seq<string>, contents: string): string
    decreases |modules|
  {
    if |modules| == 0 then contents
    else ApplyConventionIntended(modules[1..], ReplaceLineIntended(contents, modules[0]))
  }

  /** The corrected fold keeps the number of lines, and every line with no
      `import` in it comes back unchanged. */
  lemma {:induction false} ApplyConventionIntendedLines(modules: seq<string>, contents: string)
    requires AllPlain(modules)
    ensures |SplitLines(ApplyConventionIntended(modules, contents))| == |SplitLines(contents)|
    ensures forall k :: 0 <= k < |SplitLines(contents)| && !Contains(SplitLines(contents)[k], "import") ==>
      SplitLines(ApplyConventionIntended(modules, contents))[k] == SplitLines(contents)[k]
    decreases |modules|
  {
    if |modules| > 0 {
      var next := ReplaceLineIntended(contents, modules[0]);
      ReplaceLineIntendedShape(contents, modules[0]);
      forall k | 0 <= k < |SplitLines(contents)| && !Contains(SplitLines(contents)[k], "import")
        ensures SplitLines(next)[k] == SplitLines(contents)[k]
      {
        NoImportNoMatch(SplitLines(contents)[k], modules[0], 0);
      }
      ApplyConventionIntendedLines(modules[1..], next);
    }
  }

  /** Folding over `a + b` is folding over `a`, then over `b`. */
  lemma {:induction false} ApplyConventionSplit(a: seq<string>, b: seq<string>, contents: string)
    ensures ApplyConvention(a + b, contents) == ApplyConvention(b, ApplyConvention(a, contents))
    decreases |a|
  {
    if |a| == 0 {
      assert a + b == b;
    } else {
      assert (a + b)[1..] == a[1..] + b;
      ApplyConventionSplit(a[1..], b, ReplaceLineByMatchRegExpr(contents, a[0]));
    }
  }

  lemma {:induction false} ApplyConventionIntendedSplit(a: seq<string>, b: seq<string>, contents: string)
    ensures ApplyConventionIntended(a + b, contents) == ApplyConventionIntended(b, ApplyConventionIntended(a, contents))
    decreases |a|
  {
    if |a| == 0 {
      assert a + b == b;
    } else {
      assert (a + b)[1..] == a[1..] + b;
      ApplyConventionIntendedSplit(a[1..], b, ReplaceLineIntended(contents, a[0]));
    }
  }

  /** Modules quoted on no line of `contents` leave it as it is, in either fold. */
  lemma {:induction false} FoldWithoutTokens(modules: seq<string>, contents: string)
    requires forall j, k, i: nat :: 0 <= j < |modules| && 0 <= k < |SplitLines(contents)| ==>
      !IsTokenAt(SplitLines(contents)[k], i, modules[j])
    ensures ApplyConvention(modules, contents) == contents
    ensures ApplyConventionIntended(modules, contents) == contents
    decreases |modules|
  {
    if |modules| > 0 {
      var lines := SplitLines(contents);
      forall k | 0 <= k < |lines| ensures !MatchesFrom(lines[k], modules[0], 0) {
        NoTokenNoMatch(lines[k], modules[0], 0);
      }
      ReplaceLineUnchanged(contents, modules[0]);
      assert RewriteEachLine(lines, modules[0]) == lines;
      JoinSplit(contents);
      FoldWithoutTokens(modules[1..], contents);
    }
  }

  /** The file of the counterexample: the same import of `path` twice. */
  const RepeatedImport: string := ImportPathLine + "\n" + ImportPathLine

  /** A quoted name in a line whose only quotes are at `a` and `b` is the
      text between them. */
  lemma OnlyQuotedName(s: string, a: nat, b: nat, m: string, i: nat)
    requires a < b
    requires forall j :: 0 <= j < |s| && IsQuote(s[j]) ==> j == a || j == b
    requires IsTokenAt(s, i, m)
    ensures i == a && b <= |s| && m == s[a + 1..b]
  {
  }

  lemma ImportPathLineQuotes()
    ensures forall j :: 0 <= j < |ImportPathLine| && IsQuote(ImportPathLine[j]) ==> j == 14 || j == 19
    ensures ImportPathLine[15..19] == "path"
  {
  }

  lemma RewrittenPathLineQuotes()
    ensures forall j :: 0 <= j < |RewrittenPathLine| && IsQuote(RewrittenPathLine[j]) ==> j == 14 || j == 24
    ensures RewrittenPathLine[15..24] == "node:path"
  {
  }

  /** Only `path` is quoted in the import line, and only `node:path` in its
      rewritten form. */
  lemma OnlyPathQuoted(m: string, line: string, i: nat)
    requires line == ImportPathLine || line == RewrittenPathLine
    requires m != "path" && m != "node:path"
    ensures !IsTokenAt(line, i, m)
  {
    if IsTokenAt(line, i, m) {
      if line == ImportPathLine {
        ImportPathLineQuotes();
        OnlyQuotedName(line, 14, 19, m, i);
      } else {
        RewrittenPathLineQuotes();
        OnlyQuotedName(line, 14, 24, m, i);
      }
    }
  }

  /** Both folds over modules other than `path` leave a text made of those
      two lines as it is. */
  lemma PathLinesFold(modules: seq<string>, contents: string)
    requires forall j :: 0 <= j < |modules| ==> modules[j] != "path" && modules[j] != "node:path"
    requires forall k :: 0 <= k < |SplitLines(contents)| ==>
      SplitLines(contents)[k] == ImportPathLine || SplitLines(contents)[k] == RewrittenPathLine
    ensures ApplyConvention(modules, contents) == contents
    ensures ApplyConventionIntended(modules, contents) == contents
  {
    forall j, k, i: nat | 0 <= j < |modules| && 0 <= k < |SplitLines(contents)|
      ensures !IsTokenAt(SplitLines(contents)[k], i, modules[j])
    {
      OnlyPathQuoted(modules[j], SplitLines(contents)[k], i);
    }
    FoldWithoutTokens(modules, contents);
  }

  lemma OtherModules()
    ensures PathOnlyAt(RuntimeModuleNames, 6)
  {
  }

  lemma RewrittenPathLineNoNewline()
    ensures '\n' !in RewrittenPathLine
  {
  }

  /** The lines the three texts of the counterexample split into. */
  lemma PathLinesSplit()
    ensures SplitLines(RepeatedImport) == [ImportPathLine, ImportPathLine]
    ensures SplitLines(RewrittenPathLine + "\n" + ImportPathLine) == [RewrittenPathLine, ImportPathLine]
    ensures SplitLines(RewrittenPathLine + "\n" + RewrittenPathLine) == [RewrittenPathLine, RewrittenPathLine]
  {
    ImportPathLineNoNewline();
    RewrittenPathLineNoNewline();
    TwoLines(ImportPathLine);
    TwoLines(RewrittenPathLine);
    SplitThroughLine(RewrittenPathLine, ImportPathLine);
    SplitNoNewline(ImportPathLine);
  }

  /** The modules around `path` are quoted in neither line. */
  predicate PathOnlyAt(modules: seq<string>, k: nat) {
    k < |modules| && modules[k] == "path" &&
    forall j :: 0 <= j < |modules| && j != k ==> modules[j] != "path" && modules[j] != "node:path"
  }

  /** A fold in which only the module `m` changes the text. */
  lemma FoldThroughOne(before: seq<string>, m: string, after: seq<string>, x: string, y: string)
    requires ApplyConvention(before, x) == x
    requires ReplaceLineByMatchRegExpr(x, m) == y
    requires ApplyConvention(after, y) == y
    ensures ApplyConvention(before + [m] + after, x) == y
  {
    assert [m][1..] == [];
    ApplyConventionSplit(before + [m], after, x);
    ApplyConventionSplit(before, [m], x);
  }

  lemma FoldIntendedThroughOne(before: seq<string>, m: string, after: seq<string>, x: string, y: string)
    requires ApplyConventionIntended(before, x) == x
    requires ReplaceLineIntended(x, m) == y
    requires ApplyConventionIntended(after, y) == y
    ensures ApplyConventionIntended(before + [m] + after, x) == y
  {
    assert [m][1..] == [];
    ApplyConventionIntendedSplit(before + [m], after, x);
    ApplyConventionIntendedSplit(before, [m], x);
  }

  /** Neither fold over modules other than `path` changes a text of the
      counterexample. */
  lemma PathTextsUnchanged(modules: seq<string>, text: string)
    requires NoPathIn(modules)
    requires text == RepeatedImport || text == RewrittenPathLine + "\n" + ImportPathLine ||
      text == RewrittenPathLine + "\n" + RewrittenPathLine
    ensures ApplyConvention(modules, text) == text
    ensures ApplyConventionIntended(modules, text) == text
  {
    PathLinesSplit();
    PathLinesFold(modules, text);
  }

  predicate NoPathIn(modules: seq<string>) {
    forall j :: 0 <= j < |modules| ==> modules[j] != "path" && modules[j] != "node:path"
  }

  /** The modules before and after `path`. */
  lemma AroundPath(modules: seq<string>, k: nat)
    requires PathOnlyAt(modules, k)
    ensures modules == modules[..k] + ["path"] + modules[k + 1..]
    ensures NoPathIn(modules[..k]) && NoPathIn(modules[k + 1..])
  {
    var after := modules[k + 1..];
    assert forall j :: 0 <= j < |after| ==> after[j] == modules[k + 1 + j];
  }

  /** The fold as written over such a module list, on the counterexample's file. */
  lemma FoldAroundPath(modules: seq<string>, k: nat, file: string)
    requires PathOnlyAt(modules, k) && file == RepeatedImport
    ensures ApplyConvention(modules, file) == RewrittenPathLine + "\n" + ImportPathLine
  {
    AroundPath(modules, k);
    PathTextsUnchanged(modules[..k], file);
    LastIndexSkipsNextImport();
    PathTextsUnchanged(modules[k + 1..], RewrittenPathLine + "\n" + ImportPathLine);
    FoldThroughOne(modules[..k], "path", modules[k + 1..], file, RewrittenPathLine + "\n" + ImportPathLine);
  }

  /** The corrected fold over such a module list, on the same file. */
  lemma FoldIntendedAroundPath(modules: seq<string>, k: nat, file: string)
    requires PathOnlyAt(modules, k) && file == RepeatedImport
    ensures ApplyConventionIntended(modules, file) == RewrittenPathLine + "\n" + RewrittenPathLine
  {
    AroundPath(modules, k);
    PathTextsUnchanged(modules[..k], file);
    LastIndexSkipsNextImport();
    PathTextsUnchanged(modules[k + 1..], RewrittenPathLine + "\n" + RewrittenPathLine);
    FoldIntendedThroughOne(modules[..k], "path", modules[k + 1..], file, RewrittenPathLine + "\n" + RewrittenPathLine);
  }

  /** The whole-file conversion as written converts only the first of two
      identical imports of `path`; the corrected one converts both. */
  lemma ConventionSkipsRepeatedImport(file: string)
    requires file == RepeatedImport
    ensures ApplyNodeProtocolConvention(file) == RewrittenPathLine + "\n" + ImportPathLine
    ensures ApplyConventionIntended(RuntimeModuleNames, file) == RewrittenPathLine + "\n" + RewrittenPathLine
  {
    OtherModules();
    FoldAroundPath(RuntimeModuleNames, 6, file);
    FoldIntendedAroundPath(RuntimeModuleNames, 6, file);
  }

  /** The load hook as written hands esbuild a `.js` file holding the same
      import of `path` twice with only the first one converted. */
  lemma OnLoadSkipsRepeatedImport(path: string, file: string)
    requires EndsWith(path, ".js") && file == RepeatedImport
    ensures OnLoad(path, file) == Some(RewrittenPathLine + "\n" + ImportPathLine)
  {
    ConventionSkipsRepeatedImport(file);
  }

  /** A subpath specifier is not the module: `'path/posix'` is left alone. */
  lemma SubpathNotRewritten()
    ensures ReplaceLineByMatchRegExpr("import p from 'path/posix'", "path") == "import p from 'path/posix'"
  {
    var s := "import p from 'path/posix'";
    forall i | 0 <= i < |s| ensures !IsTokenAt(s, i, "path") {
      if i == 14 {
        assert s[19] == '/';
      } else if i + 6 <= |s| {
        assert !IsQuote(s[i]);
      }
    }
    NoTokenNoMatch(s, "path", 0);
    SplitNoNewline(s);
  }

  /** A specifier already carrying the protocol is left alone. */
  lemma PrefixedNotRewritten()
    ensures ReplaceLineByMatchRegExpr("import c from \"node:crypto\"", "crypto") == "import c from \"node:crypto\""
  {
    var s := "import c from \"node:crypto\"";
    forall i | 0 <= i < |s| ensures !IsTokenAt(s, i, "crypto") {
      if i == 14 {
        assert s[15] == 'n';
      } else if i + 8 <= |s| {
        assert !IsQuote(s[i]);
      }
    }
    NoTokenNoMatch(s, "crypto", 0);
    SplitNoNewline(s);
  }

  // ---------------------------------------------------------------------
  // The plugin's two hooks
  // ---------------------------------------------------------------------

  /** The `onLoad` hook: for a path matching `/\.js$/` the converted
      contents of the file, read as `fileText`; no answer for other paths. */
  function OnLoad(path: string, fileText: string): (r: Option<string>)
    ensures r.Some? <==> EndsWith(path, ".js")
    ensures r.Some? ==> r.value == ApplyNodeProtocolConvention(fileText)
  {
    if EndsWith(path, ".js") then Some(ApplyNodeProtocolConvention(fileText)) else None
  }

  /** What `onResolve` answers: the path, and that it stays external. */
  datatype Resolution = Resolution(path: string, external: bool)

  /** The `onResolve` hook with filter `/^node:/`. */
  function OnResolve(path: string): (r: Option<Resolution>)
    ensures r.Some? <==> StartsWith(path, RuntimeModules.NodePrefix)
    ensures r.Some? ==> r.value.path == path && r.value.external
  {
    if StartsWith(path, RuntimeModules.NodePrefix) then Some(Resolution(path, true)) else None
  }

  /** Every specifier the rewrite produces is resolved as external, unchanged. */
  lemma RewrittenSpecifiersExternal(m: string)
    ensures OnResolve(RuntimeModules.NodePrefix + m) == Some(Resolution(RuntimeModules.NodePrefix + m, true))
  {
    assert (RuntimeModules.NodePrefix + m)[..|RuntimeModules.NodePrefix|] == RuntimeModules.NodePrefix;
  }
}
