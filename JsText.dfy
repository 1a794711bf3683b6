/** The few pieces of JavaScript string behaviour the model relies on: the
    characters `\s` matches in a regular expression, substring tests, and
    `String.prototype.split` / `Array.prototype.join` on a one-character
    separator. */
module JsText {

  /** The characters matched by `\s` in an ECMAScript regular expression:
      the WhiteSpace and LineTerminator code points. */
  predicate IsWhitespace(c: char) {
    || c == ' ' || c == '\t' || c == '\n' || c == '\U{000B}' || c == '\U{000C}' || c == '\r'
    || c == '\U{00A0}' || c == '\U{1680}' || ('\U{2000}' <= c <= '\U{200A}')
    || c == '\U{2028}' || c == '\U{2029}' || c == '\U{202F}' || c == '\U{205F}'
    || c == '\U{3000}' || c == '\U{FEFF}'
  }

  /** `w` occurs in `s` starting at index `i`. */
  predicate HasAt(s: string, i: nat, w: string) {
    i + |w| <= |s| && s[i..i + |w|] == w
  }

  predicate StartsWith(s: string, prefix: string) {
    HasAt(s, 0, prefix)
  }

  predicate EndsWith(s: string, suffix: string) {
    |suffix| <= |s| && s[|s| - |suffix|..] == suffix
  }

  /** `w` occurs somewhere in `s`. */
  predicate Contains(s: string, w: string) {
    exists i: nat :: i <= |s| && HasAt(s, i, w)
  }

  /** Length of the longest run of whitespace in `s` starting at `i`: what a
      greedy `\s*` consumes there. */
  function WhitespaceRun(s: string, i: nat): (n: nat)
    requires i <= |s|
    ensures i + n <= |s|
    ensures forall k :: i <= k < i + n ==> IsWhitespace(s[k])
    ensures i + n == |s| || !IsWhitespace(s[i + n])
    decreases |s| - i
  {
    if i < |s| && IsWhitespace(s[i]) then 1 + WhitespaceRun(s, i + 1) else 0
  }

  /** `s.split('\n')`: the pieces between newlines, always at least one. */
  function SplitLines(s: string): (r: seq<string>)
    ensures |r| >= 1
    ensures forall k :: 0 <= k < |r| ==> '\n' !in r[k]
  {
    if |s| == 0 then [""]
    else if s[0] == '\n' then [""] + SplitLines(s[1..])
    else
      var rest := SplitLines(s[1..]);
      [[s[0]] + rest[0]] + rest[1..]
  }

  /** `lines.join('\n')`. */
  function JoinLines(lines: seq<string>): string {
    if |lines| == 0 then ""
    else if |lines| == 1 then lines[0]
    else lines[0] + "\n" + JoinLines(lines[1..])
  }

  /** `items.join(sep)` for an arbitrary separator. */
  function JoinWith(items: seq<string>, sep: string): string {
    if |items| == 0 then ""
    else if |items| == 1 then items[0]
    else items[0] + sep + JoinWith(items[1..], sep)
  }

  predicate NoNewlines(lines: seq<string>) {
    forall k :: 0 <= k < |lines| ==> '\n' !in lines[k]
  }

  /** Joining the pieces of a split gives back the original text. */
  lemma {:induction false} JoinSplit(s: string)
    ensures JoinLines(SplitLines(s)) == s
  {
    if |s| == 0 {
    } else if s[0] == '\n' {
      JoinSplit(s[1..]);
      var rest := SplitLines(s[1..]);
      assert SplitLines(s) == [""] + rest;
      assert ([""] + rest)[1..] == rest;
    } else {
      JoinSplit(s[1..]);
      var rest := SplitLines(s[1..]);
      var r := [[s[0]] + rest[0]] + rest[1..];
      assert SplitLines(s) == r;
      if |rest| == 1 {
        assert JoinLines(r) == [s[0]] + rest[0];
      } else {
        assert r[1..] == rest[1..];
        assert JoinLines(rest) == rest[0] + "\n" + JoinLines(rest[1..]);
        assert JoinLines(r) == [s[0]] + rest[0] + "\n" + JoinLines(rest[1..]);
      }
      assert s == [s[0]] + s[1..];
    }
  }

  /** Splitting a join of newline-free pieces gives back the pieces. */
  lemma {:induction false} SplitJoin(lines: seq<string>)
    requires |lines| >= 1
    requires NoNewlines(lines)
    ensures SplitLines(JoinLines(lines)) == lines
  {
    if |lines| == 1 {
      SplitNoNewline(lines[0]);
    } else {
      SplitJoin(lines[1..]);
      SplitThroughLine(lines[0], JoinLines(lines[1..]));
      assert [lines[0]] + lines[1..] == lines;
    }
  }

  lemma {:induction false} SplitNoNewline(s: string)
    requires '\n' !in s
    ensures SplitLines(s) == [s]
  {
    if |s| > 0 {
      assert '\n' !in s[1..] by {
        forall k | 0 <= k < |s| - 1 ensures s[1..][k] != '\n' { assert s[1..][k] == s[k + 1]; }
      }
      SplitNoNewline(s[1..]);
      assert [s[0]] + s[1..] == s;
    }
  }

  lemma {:induction false} SplitThroughLine(line: string, rest: string)
    requires '\n' !in line
    ensures SplitLines(line + "\n" + rest) == [line] + SplitLines(rest)
  {
    if |line| == 0 {
      assert line + "\n" + rest == "\n" + rest;
      assert ("\n" + rest)[1..] == rest;
    } else {
      var t := line + "\n" + rest;
      assert t[0] == line[0];
      assert t[1..] == line[1..] + "\n" + rest;
      assert '\n' !in line[1..] by {
        forall k | 0 <= k < |line| - 1 ensures line[1..][k] != '\n' { assert line[1..][k] == line[k + 1]; }
      }
      SplitThroughLine(line[1..], rest);
      assert [line[0]] + line[1..] == line;
    }
  }
  /** Where `items[k]` starts in `items.join(sep)`. */
  function JoinOffset(items: seq<string>, sep: string, k: nat): nat
    requires k < |items|
  {
    if k == 0 then 0 else |items[0]| + |sep| + JoinOffset(items[1..], sep, k - 1)
  }

  lemma HasAtAppend(a: string, b: string, i: nat, w: string)
    requires HasAt(b, i, w)
    ensures HasAt(a + b, |a| + i, w)
  {
    assert (a + b)[|a| + i..|a| + i + |w|] == b[i..i + |w|];
  }

  lemma HasAtPrepend(j: string, t: string, o: nat, w: string)
    requires HasAt(j, o, w)
    ensures HasAt(j + t, o, w)
  {
    assert (j + t)[o..o + |w|] == j[o..o + |w|];
  }

  /** An occurrence inside an occurrence. */
  lemma HasAtNested(s: string, e: nat, x: string, p: nat, w: string)
    requires HasAt(s, e, x) && HasAt(x, p, w)
    ensures HasAt(s, e + p, w)
  {
    var inner := s[e..e + |x|];
    assert inner == x;
    forall k | 0 <= k < |w| ensures s[e + p..e + p + |w|][k] == w[k] {
      assert s[e + p..e + p + |w|][k] == inner[p + k] == x[p + k];
    }
  }

  /** Each item occurs in the join at its offset, and the separator follows
      every item but the last: the items appear in order, `sep` between
      neighbours. */
  lemma {:induction false} JoinWithAt(items: seq<string>, sep: string, k: nat)
    requires k < |items|
    ensures HasAt(JoinWith(items, sep), JoinOffset(items, sep, k), items[k])
    ensures k + 1 < |items| ==> HasAt(JoinWith(items, sep), JoinOffset(items, sep, k) + |items[k]|, sep)
    ensures k + 1 < |items| ==> JoinOffset(items, sep, k + 1) == JoinOffset(items, sep, k) + |items[k]| + |sep|
    decreases k
  {
    var j := JoinWith(items, sep);
    if |items| == 1 {
      assert j == items[0];
    } else {
      var rest := JoinWith(items[1..], sep);
      assert j == items[0] + sep + rest;
      if k == 0 {
        assert j[..|items[0]|] == items[0];
        assert j[|items[0]|..|items[0]| + |sep|] == sep;
      } else {
        var tail := items[1..];
        assert tail[k - 1] == items[k];
        JoinWithAt(tail, sep, k - 1);
        HasAtAppend(items[0] + sep, rest, JoinOffset(tail, sep, k - 1), items[k]);
        if k + 1 < |items| {
          assert tail[k] == items[k + 1];
          HasAtAppend(items[0] + sep, rest, JoinOffset(tail, sep, k - 1) + |items[k]|, sep);
        }
      }
    }
  }
}
