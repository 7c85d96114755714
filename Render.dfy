/** The feed a list of records is written as: each record a header line,
    its name followed by `:`, then one line `  - <package>` per package.
    Parsing that feed gives the records back. */
module FeedRender {
  import opened PyStr
  import opened TransitionFeed

  /** A name that can head a record and come back unchanged: it does not
      start with a space and does not end with `:`. */
  predicate ValidName(n: string) {
    n == [] || (n[0] != ' ' && n[|n| - 1] != ':')
  }

  /** A package that comes back unchanged from a `  - ` line: it is not
      empty and does not end in whitespace. */
  predicate ValidPackage(p: string) {
    p != [] && !IsSpace(p[|p| - 1])
  }

  /** Records that are all named, with valid names and packages. */
  predicate Renderable(ts: seq<Transition>) {
    forall i :: 0 <= i < |ts| ==>
      && ts[i].name.Some?
      && ValidName(ts[i].name.value)
      && forall j :: 0 <= j < |ts[i].packages| ==> ValidPackage(ts[i].packages[j])
  }

  function PackageLines(ps: seq<string>): seq<string> {
    if ps == [] then [] else ["  - " + ps[0]] + PackageLines(ps[1..])
  }

  function SectionLines(t: Transition): seq<string> {
    (match t.name case Some(n) => [n + ":"] case None => []) + PackageLines(t.packages)
  }

  /** The lines of a feed holding the records `ts`. */
  function Render(ts: seq<Transition>): seq<string> {
    if ts == [] then [] else SectionLines(ts[0]) + Render(ts[1..])
  }

  lemma ColonStripped(n: string)
    requires ValidName(n)
    ensures IsHeader(n + ":") && HeaderName(n + ":") == n
  {
    assert (n + ":")[..|n|] == n;
  }

  /** Package lines are indented, so none of them is a header. */
  lemma {:induction false} PackageLinesIndented(ps: seq<string>)
    ensures forall k :: 0 <= k < |PackageLines(ps)| ==> !IsHeader(PackageLines(ps)[k])
    decreases |ps|
  {
    if ps != [] {
      var lines, rest := PackageLines(ps), PackageLines(ps[1..]);
      PackageLinesIndented(ps[1..]);
      forall k | 0 <= k < |lines| ensures !IsHeader(lines[k]) {
        if k == 0 {
          assert lines[0] == "  - " + ps[0];
        } else {
          assert lines[k] == rest[k - 1];
        }
      }
    }
  }

  /** Package lines give back their packages in order. */
  lemma {:induction false} PackageLinesPayloads(ps: seq<string>)
    requires forall j :: 0 <= j < |ps| ==> ValidPackage(ps[j])
    ensures Payloads(Classified(PackageLines(ps))) == ps
    decreases |ps|
  {
    if ps != [] {
      var l, rest := "  - " + ps[0], PackageLines(ps[1..]);
      PackageLinesPayloads(ps[1..]);
      TwoSpacePackage(ps[0]);
      ClassifiedAppend([l], rest);
      ClassifiedOne(l);
      PayloadsAppend([Package(ps[0])], Classified(rest));
      PayloadsOne(ps[0]);
      assert ps == [ps[0]] + ps[1..];
    }
  }

  /** One named record, written out, parses back to itself. */
  lemma SectionRoundTrip(t: Transition)
    requires Renderable([t])
    ensures Parse(SectionLines(t)) == [t]
  {
    assert [t][0] == t;
    var n := t.name.value;
    ColonStripped(n);
    PackageLinesIndented(t.packages);
    PackageLinesPayloads(t.packages);
    SingleSection(n + ":", PackageLines(t.packages));
  }

  lemma RenderUnfold(ts: seq<Transition>)
    requires ts != [] && ts[0].name.Some?
    ensures var n := ts[0].name.value;
      Render(ts) == [n + ":"] + (PackageLines(ts[0].packages) + Render(ts[1..]))
  {
  }

  /** A record written out in front of a feed that starts with a header
      parses to that record in front of what the feed parses to. */
  lemma ParseInFront(t: Transition, rest: seq<Transition>)
    requires Renderable([t])
    requires rest != [] && rest[0].name.Some? && ValidName(rest[0].name.value)
    ensures Parse(SectionLines(t) + Render(rest)) == [t] + Parse(Render(rest))
  {
    var n := rest[0].name.value;
    var a, b := SectionLines(t), PackageLines(rest[0].packages) + Render(rest[1..]);
    RenderUnfold(rest);
    ColonStripped(n);
    assert a + Render(rest) == a + [n + ":"] + b;
    HeaderStartsRecord(a, n + ":", b);
    SectionRoundTrip(t);
  }

  lemma RenderableParts(ts: seq<Transition>)
    requires Renderable(ts) && ts != []
    ensures Renderable([ts[0]]) && Renderable(ts[1..])
  {
    assert [ts[0]][0] == ts[0];
    forall i | 0 <= i < |ts[1..]| ensures ts[1..][i] == ts[i + 1] {
    }
  }

  /** Writing records out as a feed and parsing the feed gives the records
      back: every record keeps its name and its packages in order, and no
      record is added or lost. */
  lemma {:induction false} RoundTrip(ts: seq<Transition>)
    requires Renderable(ts)
    ensures Parse(Render(ts)) == ts
    decreases |ts|
  {
    if ts != [] {
      var t, rest := ts[0], ts[1..];
      RenderableParts(ts);
      RoundTrip(rest);
      if rest == [] {
        assert Render(ts) == SectionLines(t) by {
          assert Render(ts) == SectionLines(t) + Render(rest) && Render(rest) == [];
          assert SectionLines(t) + [] == SectionLines(t);
        }
        SectionRoundTrip(t);
      } else {
        assert Render(ts) == SectionLines(t) + Render(rest);
        assert rest[0] == ts[1];
        ParseInFront(t, rest);
      }
      assert ts == [t] + rest;
    }
  }

  // ---------------------------------------------------------------------------
  // As text

  predicate AllNoBreak(lines: seq<string>) {
    forall k :: 0 <= k < |lines| ==> NoBreak(lines[k])
  }

  /** Records whose names and packages hold no line break. */
  predicate SingleLine(ts: seq<Transition>) {
    forall i :: 0 <= i < |ts| ==>
      && (ts[i].name.Some? ==> NoBreak(ts[i].name.value))
      && forall j :: 0 <= j < |ts[i].packages| ==> NoBreak(ts[i].packages[j])
  }

  lemma AllNoBreakAppend(a: seq<string>, b: seq<string>)
    requires AllNoBreak(a) && AllNoBreak(b)
    ensures AllNoBreak(a + b)
  {
    forall k | 0 <= k < |a + b| ensures NoBreak((a + b)[k]) {
      if k < |a| {
        assert (a + b)[k] == a[k];
      } else {
        assert (a + b)[k] == b[k - |a|];
      }
    }
  }

  lemma NoBreakAppend(a: string, b: string)
    requires NoBreak(a) && NoBreak(b)
    ensures NoBreak(a + b)
  {
    forall k | 0 <= k < |a + b| ensures !IsLineBreak((a + b)[k]) {
      if k < |a| {
        assert (a + b)[k] == a[k];
      } else {
        assert (a + b)[k] == b[k - |a|];
      }
    }
  }

  lemma {:induction false} PackageLinesNoBreak(ps: seq<string>)
    requires forall j :: 0 <= j < |ps| ==> NoBreak(ps[j])
    ensures AllNoBreak(PackageLines(ps))
    decreases |ps|
  {
    if ps != [] {
      PackageLinesNoBreak(ps[1..]);
      NoBreakAppend("  - ", ps[0]);
      AllNoBreakAppend(["  - " + ps[0]], PackageLines(ps[1..]));
    }
  }

  lemma {:induction false} RenderNoBreak(ts: seq<Transition>)
    requires SingleLine(ts)
    ensures AllNoBreak(Render(ts))
    decreases |ts|
  {
    if ts != [] {
      var t := ts[0];
      assert SingleLine(ts[1..]) by {
        forall i | 0 <= i < |ts[1..]| ensures ts[1..][i] == ts[i + 1] {
        }
      }
      RenderNoBreak(ts[1..]);
      PackageLinesNoBreak(t.packages);
      match t.name {
        case Some(n) =>
          NoBreakAppend(n, ":");
          AllNoBreakAppend([n + ":"], PackageLines(t.packages));
        case None =>
          assert SectionLines(t) == PackageLines(t.packages);
      }
      AllNoBreakAppend(SectionLines(t), Render(ts[1..]));
    }
  }

  /** The same round trip through the text of the feed, each line ended by
      `\n` and split again by `splitlines()`. */
  lemma TextRoundTrip(ts: seq<Transition>)
    requires Renderable(ts) && SingleLine(ts)
    ensures ParseText(Terminated(Render(ts))) == ts
  {
    RenderNoBreak(ts);
    ParseTextOfLines(Render(ts));
    RoundTrip(ts);
  }
}
