/** The few Python `str` operations the feed parser relies on: `isspace`,
    `strip()`, `rstrip(chars)`, `startswith` and `splitlines()`, over strings
    as sequences of Unicode scalar values. */
module PyStr {

  /** The code points for which Python's `str.isspace()` holds, and hence the
      ones `str.strip()` with no argument removes. */
  predicate IsSpace(c: char) {
    ('\t' <= c <= '\r') || ('\U{1C}' <= c <= ' ') || c == '\U{85}' || c == '\U{A0}'
    || c == '\U{1680}' || ('\U{2000}' <= c <= '\U{200A}') || c == '\U{2028}' || c == '\U{2029}'
    || c == '\U{202F}' || c == '\U{205F}' || c == '\U{3000}'
  }

  predicate AllSpace(s: string) {
    forall k :: 0 <= k < |s| ==> IsSpace(s[k])
  }

  /** `s.startswith(p)` */
  predicate StartsWith(s: string, p: string) {
    |p| <= |s| && s[..|p|] == p
  }

  /** The number of whitespace characters at the start of `s`. */
  function LeadingSpace(s: string): (i: nat)
    ensures i <= |s| && AllSpace(s[..i])
    ensures i < |s| ==> !IsSpace(s[i])
  {
    if s == [] || !IsSpace(s[0]) then 0
    else
      var i := 1 + LeadingSpace(s[1..]);
      assert s[..i] == [s[0]] + s[1..][..i - 1];
      i
  }

  /** The length of `s` without its trailing whitespace. */
  function TrailingStart(s: string): (j: nat)
    ensures j <= |s| && AllSpace(s[j..])
    ensures 0 < j ==> !IsSpace(s[j - 1])
  {
    if s == [] || !IsSpace(s[|s| - 1]) then |s|
    else
      var j := TrailingStart(s[..|s| - 1]);
      assert s[j..] == s[..|s| - 1][j..] + [s[|s| - 1]];
      j
  }

  /** Python's `s.strip()`: `s` without its leading and trailing whitespace.
      The result neither starts nor ends with whitespace. */
  function Strip(s: string): (r: string)
    ensures r == [] || (!IsSpace(r[0]) && !IsSpace(r[|r| - 1]))
  {
    var i := LeadingSpace(s);
    var j := TrailingStart(s);
    if i == |s| then []
    else
      assert i < j;
      var r := s[i..j];
      assert r[0] == s[i] && r[j - i - 1] == s[j - 1];
      r
  }

  /** `Strip(s)` is the piece of `s` after its leading whitespace, and what
      follows that piece is whitespace. */
  lemma StripSlice(s: string)
    ensures var i := LeadingSpace(s);
      && i + |Strip(s)| <= |s|
      && s[i..i + |Strip(s)|] == Strip(s)
      && AllSpace(s[i + |Strip(s)|..])
  {
    var i, j := LeadingSpace(s), TrailingStart(s);
    if i == |s| {
      assert Strip(s) == [] && s[i..] == [];
    } else {
      assert Strip(s) == s[i..j];
    }
  }

  /** What `Strip` removes is whitespace at the two ends of `s`: its result is
      the piece of `s` left between two all-whitespace pieces. */
  lemma StripIsInfix(s: string)
    ensures exists i ::
              && 0 <= i <= |s| - |Strip(s)|
              && s[i..i + |Strip(s)|] == Strip(s)
              && AllSpace(s[..i]) && AllSpace(s[i + |Strip(s)|..])
  {
    StripSlice(s);
    var i := LeadingSpace(s);
    assert AllSpace(s[..i]);
  }

  /** `LeadingSpace` is determined by its contract. */
  lemma {:induction false} LeadingSpaceIs(s: string, n: nat)
    requires n <= |s| && AllSpace(s[..n])
    requires n < |s| ==> !IsSpace(s[n])
    ensures LeadingSpace(s) == n
    decreases n
  {
    if n > 0 {
      assert IsSpace(s[..n][0]);
      var t := s[1..][..n - 1];
      assert AllSpace(t) by {
        forall k | 0 <= k < |t| ensures IsSpace(t[k]) {
          assert t[k] == s[..n][k + 1];
        }
      }
      LeadingSpaceIs(s[1..], n - 1);
    }
  }

  /** `TrailingStart` is determined by its contract. */
  lemma {:induction false} TrailingStartIs(s: string, n: nat)
    requires n <= |s| && AllSpace(s[n..])
    requires 0 < n ==> !IsSpace(s[n - 1])
    ensures TrailingStart(s) == n
    decreases |s|
  {
    if n < |s| {
      var t := s[..|s| - 1];
      assert IsSpace(s[n..][|s| - 1 - n]);
      assert AllSpace(t[n..]) by {
        forall k | 0 <= k < |t| - n ensures IsSpace(t[n..][k]) {
          assert t[n..][k] == s[n..][k];
        }
      }
      assert 0 < n ==> t[n - 1] == s[n - 1];
      TrailingStartIs(t, n);
    }
  }

  /** `Strip` is determined by its contract: any split of `s` into whitespace,
      a middle with no whitespace at either end, and whitespace, strips to
      that middle. */
  lemma StripUnique(s: string, pre: string, mid: string, post: string)
    requires s == pre + mid + post
    requires AllSpace(pre) && AllSpace(post)
    requires mid == [] || (!IsSpace(mid[0]) && !IsSpace(mid[|mid| - 1]))
    ensures Strip(s) == mid
  {
    var m := |pre| + |mid|;
    if mid == [] {
      assert AllSpace(s[..|s|]) by {
        forall k | 0 <= k < |s| ensures IsSpace(s[..|s|][k]) {
          if k < |pre| { assert s[k] == pre[k]; } else { assert s[k] == post[k - |pre|]; }
        }
      }
      LeadingSpaceIs(s, |s|);
    } else {
      assert s[..|pre|] == pre && s[|pre|] == mid[0];
      assert s[m..] == post && s[m - 1] == mid[|mid| - 1];
      LeadingSpaceIs(s, |pre|);
      TrailingStartIs(s, m);
      assert s[|pre|..m] == mid;
    }
  }

  /** Python's `s.rstrip(c)` for a one-character argument: every trailing
      copy of `c` is removed, and nothing else. The result is a prefix of `s`
      that does not end in `c`, and what was cut off is all `c`. */
  function RStripChar(s: string, c: char): (r: string)
    ensures |r| <= |s| && r == s[..|r|]
    ensures r == [] || r[|r| - 1] != c
    ensures forall k :: |r| <= k < |s| ==> s[k] == c
  {
    if s != [] && s[|s| - 1] == c then
      var r := RStripChar(s[..|s| - 1], c);
      assert forall k :: |r| <= k < |s| - 1 ==> s[k] == s[..|s| - 1][k];
      r
    else s
  }

  /** The characters at which Python's `str.splitlines()` breaks a line:
      `\n`, `\r`, `\x0b`, `\x0c`, `\x1c`, `\x1d`, `\x1e`, `\x85`, `\u2028`
      and `\u2029` (the pair `\r\n` counts as one break). */
  predicate IsLineBreak(c: char) {
    ('\n' <= c <= '\r') || ('\U{1C}' <= c <= '\U{1E}') || c == '\U{85}' || c == '\U{2028}' || c == '\U{2029}'
  }

  predicate NoBreak(s: string) {
    forall k :: 0 <= k < |s| ==> !IsLineBreak(s[k])
  }

  /** The index of the first line break in `s`, or `|s|` when it has none. */
  function LineEnd(s: string): (i: nat)
    ensures i <= |s| && NoBreak(s[..i])
    ensures i < |s| ==> IsLineBreak(s[i])
  {
    if s == [] || IsLineBreak(s[0]) then 0
    else
      var i := 1 + LineEnd(s[1..]);
      assert s[..i] == [s[0]] + s[1..][..i - 1];
      i
  }

  /** Where the line after the break at `i` starts: `\r\n` is one break. */
  function AfterBreak(s: string, i: nat): (next: nat)
    requires i < |s|
    ensures i < next <= |s|
  {
    if s[i] == '\r' && i + 1 < |s| && s[i + 1] == '\n' then i + 2 else i + 1
  }

  /** Python's `s.splitlines()`: the lines of `s` without their line breaks;
      a final line break does not start an empty last line, and the empty
      string has no lines. No line holds a line break. */
  function SplitLines(s: string): (lines: seq<string>)
    ensures forall k :: 0 <= k < |lines| ==> NoBreak(lines[k])
    ensures s == [] <==> lines == []
    decreases |s|
  {
    if s == [] then []
    else
      var i := LineEnd(s);
      if i == |s| then
        assert s[..i] == s;
        [s]
      else
        [s[..i]] + SplitLines(s[AfterBreak(s, i)..])
  }

  /** The lines, each followed by `\n`: the text a file of these lines holds. */
  function Terminated(lines: seq<string>): string {
    if lines == [] then [] else lines[0] + "\n" + Terminated(lines[1..])
  }

  lemma LineEndAt(a: string, b: char, t: string)
    requires NoBreak(a) && IsLineBreak(b)
    ensures LineEnd(a + [b] + t) == |a|
  {
    var s := a + [b] + t;
    var i := LineEnd(s);
    assert s[|a|] == b;
  }

  lemma JoinSlices(a: string, c: char, b: string)
    ensures (a + [c] + b)[..|a|] == a && (a + [c] + b)[|a|] == c && (a + [c] + b)[|a| + 1..] == b
  {
  }

  /** Splitting newline-terminated lines gives the lines back. */
  lemma {:induction false} SplitTerminated(lines: seq<string>)
    requires forall k :: 0 <= k < |lines| ==> NoBreak(lines[k])
    ensures SplitLines(Terminated(lines)) == lines
  {
    if lines != [] {
      var l, rest := lines[0], Terminated(lines[1..]);
      var s := Terminated(lines);
      assert lines == [l] + lines[1..];
      TerminatedCons(l, lines[1..]);
      assert s == l + ['\n'] + rest;
      LineEndAt(l, '\n', rest);
      JoinSlices(l, '\n', rest);
      SplitAtNewline(s);
      SplitTerminated(lines[1..]);
    }
  }

  /** The only line breaks in `s` are `\n`. */
  predicate OnlyNewlines(s: string) {
    forall k :: 0 <= k < |s| ==> s[k] == '\n' || !IsLineBreak(s[k])
  }

  /** In a text whose only line breaks are `\n` and which ends in one, the
      first line ends at a `\n`. */
  lemma {:induction false} FirstLineEndsAtNewline(s: string)
    requires OnlyNewlines(s) && s != [] && s[|s| - 1] == '\n'
    ensures LineEnd(s) < |s| && s[LineEnd(s)] == '\n'
    decreases |s|
  {
    if !IsLineBreak(s[0]) {
      assert |s| > 1;
      OnlyNewlinesSuffix(s, 1);
      assert s[1..][|s| - 2] == s[|s| - 1];
      FirstLineEndsAtNewline(s[1..]);
      assert s[1 + LineEnd(s[1..])] == s[1..][LineEnd(s[1..])];
    }
  }

  lemma SplitAtNewline(s: string)
    requires LineEnd(s) < |s| && s[LineEnd(s)] == '\n'
    ensures SplitLines(s) == [s[..LineEnd(s)]] + SplitLines(s[LineEnd(s) + 1..])
  {
  }

  lemma CutAt(s: string, i: nat)
    requires i < |s|
    ensures s == s[..i] + [s[i]] + s[i + 1..]
  {
  }

  lemma TerminatedCons(l: string, ls: seq<string>)
    ensures Terminated([l] + ls) == l + "\n" + Terminated(ls)
  {
    assert ([l] + ls)[0] == l && ([l] + ls)[1..] == ls;
  }

  lemma OnlyNewlinesSuffix(s: string, n: nat)
    requires OnlyNewlines(s) && n <= |s|
    ensures OnlyNewlines(s[n..])
  {
    forall k | 0 <= k < |s[n..]| ensures s[n..][k] == '\n' || !IsLineBreak(s[n..][k]) {
      assert s[n..][k] == s[n + k];
    }
  }

  /** Conversely, a text whose only line breaks are `\n` and which is empty
      or ends in one is exactly its lines, each followed by `\n`. */
  lemma {:induction false} TerminatedSplit(s: string)
    requires OnlyNewlines(s)
    requires s == [] || s[|s| - 1] == '\n'
    ensures Terminated(SplitLines(s)) == s
    decreases |s|
  {
    if s != [] {
      FirstLineEndsAtNewline(s);
      var i := LineEnd(s);
      var rest := s[i + 1..];
      OnlyNewlinesSuffix(s, i + 1);
      assert rest == [] || rest[|rest| - 1] == s[|s| - 1];
      SplitAtNewline(s);
      TerminatedSplit(rest);
      TerminatedCons(s[..i], SplitLines(rest));
      CutAt(s, i);
      assert [s[i]] == "\n";
    }
  }

  // ---------------------------------------------------------------------------
  // What `splitlines()` gives for every text

  /** `s` with every line break written as `\n`: the pair `\r\n` becomes one
      `\n`, and every other break character becomes `\n`. */
  function Normalize(s: string): string
    decreases |s|
  {
    if s == [] then [] else Normalized(s[0]) + Normalize(s[AfterBreak(s, 0)..])
  }

  /** A character as it stands in the normalized text. */
  function Normalized(c: char): string {
    if IsLineBreak(c) then "\n" else [c]
  }

  /** `s` with `\n` added when it is non-empty and does not end in a break. */
  function Ended(s: string): string {
    if s != [] && !IsLineBreak(s[|s| - 1]) then s + "\n" else s
  }

  /** A piece without breaks is left as it is, whatever follows it. */
  lemma {:induction false} NormalizeAfterLine(line: string, rest: string)
    requires NoBreak(line)
    ensures Normalize(line + rest) == line + Normalize(rest)
    decreases |line|
  {
    if line == [] {
      assert line + rest == rest;
    } else {
      var c, cs := line[0], line[1..];
      assert NoBreak(cs) by {
        forall k | 0 <= k < |cs| ensures !IsLineBreak(cs[k]) {
          assert cs[k] == line[k + 1];
        }
      }
      assert Normalize(line + rest) == [c] + Normalize(cs + rest) by {
        assert (line + rest)[0] == c && (line + rest)[1..] == cs + rest;
      }
      NormalizeAfterLine(cs, rest);
      assert line == [c] + cs;
    }
  }

  /** The normalized text holds no break other than `\n`. */
  lemma {:induction false} NormalizeOnlyNewlines(s: string)
    ensures OnlyNewlines(Normalize(s))
    decreases |s|
  {
    if s != [] {
      var head, rest := Normalized(s[0]), s[AfterBreak(s, 0)..];
      NormalizeOnlyNewlines(rest);
      var n := Normalize(s);
      assert n == head + Normalize(rest);
      forall k | 0 <= k < |n| ensures n[k] == '\n' || !IsLineBreak(n[k]) {
        if k > 0 {
          assert n[k] == Normalize(rest)[k - 1];
        }
      }
    }
  }

  /** A text that ends in a break normalizes to a text that ends in `\n`. */
  lemma {:induction false} NormalizeEndsInNewline(s: string)
    requires s != [] && IsLineBreak(s[|s| - 1])
    ensures Normalize(s) != [] && Normalize(s)[|Normalize(s)| - 1] == '\n'
    decreases |s|
  {
    var rest := s[AfterBreak(s, 0)..];
    if rest == [] {
      assert s[|s| - 1] == s[0] || (s[0] == '\r' && s[|s| - 1] == '\n');
    } else {
      assert rest[|rest| - 1] == s[|s| - 1];
      NormalizeEndsInNewline(rest);
    }
  }

  /** `Ended` and then `Normalize` give a text that is empty or ends in `\n`. */
  lemma NormalizeEnded(s: string)
    ensures var n := Normalize(Ended(s));
      OnlyNewlines(n) && (n == [] || n[|n| - 1] == '\n')
  {
    NormalizeOnlyNewlines(Ended(s));
    if s != [] {
      if IsLineBreak(s[|s| - 1]) {
        NormalizeEndsInNewline(s);
      } else {
        NormalizeEndsInNewline(s + "\n");
      }
    }
  }

  /** `LineEnd` is determined by its contract. */
  lemma {:induction false} LineEndIs(s: string, n: nat)
    requires n < |s| && NoBreak(s[..n]) && IsLineBreak(s[n])
    ensures LineEnd(s) == n
    decreases n
  {
    if n > 0 {
      assert !IsLineBreak(s[..n][0]);
      var t := s[1..];
      var u := t[..n - 1];
      assert NoBreak(u) by {
        forall k | 0 <= k < |u| ensures !IsLineBreak(u[k]) {
          assert u[k] == s[..n][k + 1];
        }
      }
      assert t[n - 1] == s[n];
      LineEndIs(t, n - 1);
    }
  }

  lemma SplitAtBreak(s: string)
    requires LineEnd(s) < |s|
    ensures SplitLines(s) == [s[..LineEnd(s)]] + SplitLines(s[AfterBreak(s, LineEnd(s))..])
  {
  }

  /** Normalizing a text that starts with a break. */
  lemma NormalizeBreakFirst(t: string)
    requires t != [] && IsLineBreak(t[0])
    ensures Normalize(t) == ['\n'] + Normalize(t[AfterBreak(t, 0)..])
  {
  }

  lemma AfterBreakSuffix(s: string, i: nat)
    requires i < |s|
    ensures AfterBreak(s[i..], 0) == AfterBreak(s, i) - i
    ensures s[i..][AfterBreak(s[i..], 0)..] == s[AfterBreak(s, i)..]
  {
    assert s[i..][0] == s[i];
    if i + 1 < |s| {
      assert s[i..][1] == s[i + 1];
    }
  }

  /** Normalizing a text with a break: its first line, `\n`, and the rest
      normalized. */
  lemma NormalizeAtBreak(s: string, i: nat)
    requires i < |s| && NoBreak(s[..i]) && IsLineBreak(s[i])
    ensures Normalize(s) == s[..i] + (['\n'] + Normalize(s[AfterBreak(s, i)..]))
  {
    NormalizeLineFirst(s, i);
    NormalizeBreakAt(s, i);
  }

  lemma NormalizeLineFirst(s: string, i: nat)
    requires i <= |s| && NoBreak(s[..i])
    ensures Normalize(s) == s[..i] + Normalize(s[i..])
  {
    assert s == s[..i] + s[i..];
    NormalizeAfterLine(s[..i], s[i..]);
  }

  lemma NormalizeBreakAt(s: string, i: nat)
    requires i < |s| && IsLineBreak(s[i])
    ensures Normalize(s[i..]) == ['\n'] + Normalize(s[AfterBreak(s, i)..])
  {
    AfterBreakSuffix(s, i);
    NormalizeBreakFirst(s[i..]);
  }



  /** A line without a break, `\n`, and more text split into that line and
      the lines of the rest. */
  lemma SplitAfterLine(line: string, rest: string)
    requires NoBreak(line)
    ensures SplitLines(line + (['\n'] + rest)) == [line] + SplitLines(rest)
  {
    var x := line + (['\n'] + rest);
    assert x[..|line|] == line && x[|line|] == '\n' && x[|line| + 1..] == rest;
    LineEndIs(x, |line|);
    SplitAtNewline(x);
  }


  /** `splitlines()` does not tell the breaks apart: it gives the same lines
      for `s` as for `s` with every break written as `\n`. */
  lemma {:induction false} SplitNormalized(s: string)
    ensures SplitLines(s) == SplitLines(Normalize(s))
    decreases |s|
  {
    if s != [] {
      var i := LineEnd(s);
      if i == |s| {
        assert s[..i] == s;
        NormalizeAfterLine(s, []);
        assert s + [] == s;
      } else {
        var rest := s[AfterBreak(s, i)..];
        SplitAtBreak(s);
        SplitNormalized(rest);
        NormalizeAtBreak(s, i);
        SplitAfterLine(s[..i], Normalize(rest));
      }
    }
  }

  /** A missing final break changes nothing: `splitlines()` gives the same
      lines for a non-empty `s` that does not end in a break as for `s`
      followed by `\n`. */
  lemma {:induction false} SplitFinalBreak(s: string)
    requires s != [] && !IsLineBreak(s[|s| - 1])
    ensures SplitLines(s) == SplitLines(s + "\n")
    decreases |s|
  {
    var t := s + "\n";
    var i := LineEnd(s);
    if i == |s| {
      assert s[..i] == s;
      assert t[..i] == s && t[i] == '\n';
      LineEndIs(t, i);
      JoinSlices(s, '\n', []);
      SplitAtNewline(t);
      assert SplitLines(t) == [s] + SplitLines([]);
    } else {
      assert t[..i] == s[..i] && t[i] == s[i];
      LineEndIs(t, i);
      var next := AfterBreak(s, i);
      assert i + 1 < |s|;
      var rest := s[next..];
      assert t[i + 1] == s[i + 1];
      assert t[next..] == rest + "\n";
      assert rest[|rest| - 1] == s[|s| - 1];
      SplitFinalBreak(rest);
    }
  }

  /** What `splitlines()` gives for every text: its lines, each followed by
      `\n`, are the text with every break written as `\n` and a final `\n`
      added when the text does not end in a break. Since no line holds a
      break, this determines the lines (`SplitTerminated`). */
  lemma SplitLinesSpec(s: string)
    ensures Terminated(SplitLines(s)) == Normalize(Ended(s))
  {
    if s != [] && !IsLineBreak(s[|s| - 1]) {
      SplitFinalBreak(s);
    }
    SplitNormalized(Ended(s));
    NormalizeEnded(s);
    TerminatedSplit(Normalize(Ended(s)));
  }
}
