/** The transitions-export parser of `_fetch_transitions`: a single pass over
    the lines of the feed that turns them into an ordered list of records,
    each a name and a list of package names.

    `Classify` is the test the loop body makes on one line; `Parse` is the
    pass written as a fold of `Step` over the classified lines; `ParseFeed`
    is the loop itself, proved equal to `ParseText`. `Grouped` is an
    independent description of the result (an optional nameless record for
    the package lines before the first header, then one record per header
    with the package lines up to the next header), proved equal to `Parse`.
    The remaining lemmas state what the pass promises in terms of the lines. */
module TransitionFeed {
  import opened PyStr

  datatype Option<T> = None | Some(value: T)

  /** One output record. `name` is `None` for the record that a package line
      before any header creates: that dict has no "name" key. */
  datatype Transition = Transition(name: Option<string>, packages: seq<string>)

  /** The accumulator `current`: the empty dict, which is falsy, or an open
      record, which always holds a "packages" key and so is truthy. */
  datatype Current = Closed | Open(record: Transition)

  /** The two accumulators of the loop: `transitions` and `current`. */
  datatype State = State(transitions: seq<Transition>, current: Current)

  /** The branch of the loop body a line takes, with the value it uses. */
  datatype LineKind = Header(name: string) | Package(payload: string) | Ignored

  // ---------------------------------------------------------------------------
  // Line classification

  /** A non-empty line that does not start with a space starts a record.
      Only a space counts as indentation: a leading tab does not. */
  predicate IsHeader(line: string) {
    |line| > 0 && line[0] != ' '
  }

  /** A line that is not a header and whose stripped form begins with `- `. */
  predicate IsPackageLine(line: string) {
    !IsHeader(line) && StartsWith(Strip(line), "- ")
  }

  /** The record name of a header: the line with every trailing `:` removed
      and nothing else trimmed. */
  function HeaderName(line: string): string {
    RStripChar(line, ':')
  }

  /** The package a package line names: its stripped form after the two
      characters of the marker. It is never empty and never ends in
      whitespace, while whitespace right after the marker is kept. */
  function Payload(line: string): (p: string)
    requires IsPackageLine(line)
    ensures Strip(line) == "- " + p
    ensures p != [] && !IsSpace(p[|p| - 1])
  {
    var t := Strip(line);
    MarkerRest(t);
    t[2..]
  }

  /** A stripped line that starts with `- ` holds something after it. */
  lemma MarkerRest(t: string)
    requires StartsWith(t, "- ")
    requires t == [] || (!IsSpace(t[0]) && !IsSpace(t[|t| - 1]))
    ensures var p := t[2..]; t == "- " + p && p != [] && !IsSpace(p[|p| - 1])
  {
    var p := t[2..];
    assert t[1] == "- "[1];
    assert t == t[..2] + p;
    assert p[|p| - 1] == t[|t| - 1];
  }

  function Classify(line: string): LineKind {
    if IsHeader(line) then Header(HeaderName(line))
    else if IsPackageLine(line) then Package(Payload(line))
    else Ignored
  }

  function Classified(lines: seq<string>): seq<LineKind> {
    if lines == [] then [] else [Classify(lines[0])] + Classified(lines[1..])
  }

  // ---------------------------------------------------------------------------
  // The pass as a fold

  /** What `if current: transitions.append(current)` contributes. */
  function Emitted(c: Current): seq<Transition> {
    if c.Open? then [c.record] else []
  }

  /** `current.setdefault("packages", []).append(p)`: on the empty dict this
      creates a record with packages `[p]` and no name. */
  function AddPackage(c: Current, p: string): Transition {
    match c
    case Closed => Transition(None, [p])
    case Open(t) => t.(packages := t.packages + [p])
  }

  /** One iteration of the loop body. */
  function Step(st: State, k: LineKind): State {
    match k
    case Header(name) => State(st.transitions + Emitted(st.current), Open(Transition(Some(name), [])))
    case Package(p) => State(st.transitions, Open(AddPackage(st.current, p)))
    case Ignored => st
  }

  /** The loop over the classified lines `ks`, from state `st`. */
  function Run(st: State, ks: seq<LineKind>): State
    decreases |ks|
  {
    if ks == [] then st else Run(Step(st, ks[0]), ks[1..])
  }

  /** The records returned from a state: the ones emitted and the open one. */
  function Flush(st: State): seq<Transition> {
    st.transitions + Emitted(st.current)
  }

  const Start := State([], Closed)

  /** The records the parser returns for `lines`. */
  function Parse(lines: seq<string>): seq<Transition> {
    Flush(Run(Start, Classified(lines)))
  }

  /** The records the parser returns for the text of a feed. */
  function ParseText(text: string): seq<Transition> {
    Parse(SplitLines(text))
  }

  /** The parsing loop of `_fetch_transitions`, over the lines of the
      decoded response body. */
  method ParseFeed(text: string) returns (transitions: seq<Transition>)
    ensures transitions == ParseText(text)
  {
    var lines := SplitLines(text);
    transitions := [];
    var current := Closed;
    for i := 0 to |lines|
      invariant Run(State(transitions, current), Classified(lines[i..])) == Run(Start, Classified(lines))
    {
      var line := lines[i];
      ghost var before := State(transitions, current);
      assert Classified(lines[i..]) == [Classify(line)] + Classified(lines[i + 1..]) by {
        assert lines[i..][0] == line && lines[i..][1..] == lines[i + 1..];
      }
      if IsHeader(line) {
        if current.Open? {
          transitions := transitions + [current.record];
        }
        current := Open(Transition(Some(HeaderName(line)), []));
      } else if IsPackageLine(line) {
        current := Open(AddPackage(current, Payload(line)));
      }
      assert State(transitions, current) == Step(before, Classify(line));
    }
    if current.Open? {
      transitions := transitions + [current.record];
    }
  }

  // ---------------------------------------------------------------------------
  // An independent description of the result

  /** The index of the first header in `ks`, or `|ks|` when none. */
  function FirstHeader(ks: seq<LineKind>): (k: nat)
    ensures k <= |ks|
    ensures forall j :: 0 <= j < k ==> !ks[j].Header?
    ensures k < |ks| ==> ks[k].Header?
  {
    if ks == [] || ks[0].Header? then 0
    else 1 + FirstHeader(ks[1..])
  }

  /** The payloads of the package lines, in order. */
  function Payloads(ks: seq<LineKind>): seq<string> {
    if ks == [] then []
    else (if ks[0].Package? then [ks[0].payload] else []) + Payloads(ks[1..])
  }

  /** The names of the headers, in order. */
  function HeaderNames(ks: seq<LineKind>): seq<Option<string>> {
    if ks == [] then []
    else (if ks[0].Header? then [Some(ks[0].name)] else []) + HeaderNames(ks[1..])
  }

  /** One record per header of `ks` (which is empty or starts with a header),
      holding the payloads of the lines up to the next header. */
  function Sections(ks: seq<LineKind>): seq<Transition>
    requires ks == [] || ks[0].Header?
    decreases |ks|
  {
    if ks == [] then []
    else
      var k := FirstHeader(ks[1..]);
      [Transition(Some(ks[0].name), Payloads(ks[1..][..k]))] + Sections(ks[1..][k..])
  }

  /** The payloads of the package lines before the first header. */
  function Orphans(ks: seq<LineKind>): seq<string> {
    Payloads(ks[..FirstHeader(ks)])
  }

  /** The nameless record of the package lines before the first header, when
      there are any. */
  function OrphanRecord(ks: seq<LineKind>): seq<Transition> {
    if Orphans(ks) == [] then [] else [Transition(None, Orphans(ks))]
  }

  /** The orphan record, if any, then the records of the headers. */
  function Grouped(ks: seq<LineKind>): seq<Transition> {
    OrphanRecord(ks) + Sections(ks[FirstHeader(ks)..])
  }

  function Names(ts: seq<Transition>): seq<Option<string>> {
    if ts == [] then [] else [ts[0].name] + Names(ts[1..])
  }

  function AllPackages(ts: seq<Transition>): seq<string> {
    if ts == [] then [] else ts[0].packages + AllPackages(ts[1..])
  }

  // ---------------------------------------------------------------------------
  // Lemmas about the fold

  lemma {:induction false} RunAppend(st: State, a: seq<LineKind>, b: seq<LineKind>)
    ensures Run(st, a + b) == Run(Run(st, a), b)
    decreases |a|
  {
    if a != [] {
      assert (a + b)[0] == a[0] && (a + b)[1..] == a[1..] + b;
      assert Run(st, a + b) == Run(Step(st, a[0]), a[1..] + b);
      RunAppend(Step(st, a[0]), a[1..], b);
    } else {
      assert a + b == b;
    }
  }

  lemma StepKeepsEmitted(out: seq<Transition>, t: seq<Transition>, c: Current, k: LineKind)
    ensures var s := Step(State(t, c), k);
      Step(State(out + t, c), k) == State(out + s.transitions, s.current)
  {
    if k.Header? {
      assert out + t + Emitted(c) == out + (t + Emitted(c));
    }
  }

  /** Records already emitted are never touched again. */
  lemma {:induction false} RunKeepsEmitted(out: seq<Transition>, t: seq<Transition>, c: Current, ks: seq<LineKind>)
    ensures var s := Run(State(t, c), ks);
      Run(State(out + t, c), ks) == State(out + s.transitions, s.current)
    decreases |ks|
  {
    if ks != [] {
      var s0 := Step(State(t, c), ks[0]);
      StepKeepsEmitted(out, t, c, ks[0]);
      RunKeepsEmitted(out, s0.transitions, s0.current, ks[1..]);
    }
  }

  /** `current` is the empty dict only while nothing has been emitted. */
  ghost predicate ClosedOnlyAtStart(st: State) {
    st.current.Closed? ==> st.transitions == []
  }

  lemma {:induction false} RunKeepsClosedOnlyAtStart(st: State, ks: seq<LineKind>)
    requires ClosedOnlyAtStart(st)
    ensures ClosedOnlyAtStart(Run(st, ks))
    ensures st.current.Open? ==> Run(st, ks).current.Open?
    decreases |ks|
  {
    if ks != [] {
      RunKeepsClosedOnlyAtStart(Step(st, ks[0]), ks[1..]);
    }
  }

  /** `current` with the packages `ps` appended, one at a time. */
  function Absorb(c: Current, ps: seq<string>): Current {
    if ps == [] then c
    else match c
      case Closed => Open(Transition(None, ps))
      case Open(t) => Open(t.(packages := t.packages + ps))
  }

  /** Lines without a header only add their payloads to the open record. */
  lemma {:induction false} RunBody(st: State, body: seq<LineKind>)
    requires forall j :: 0 <= j < |body| ==> !body[j].Header?
    ensures Run(st, body) == State(st.transitions, Absorb(st.current, Payloads(body)))
    decreases |body|
  {
    if body != [] {
      var k := body[0];
      var rest := Payloads(body[1..]);
      RunBody(Step(st, k), body[1..]);
      if k.Package? {
        var p := k.payload;
        assert Payloads(body) == [p] + rest;
        assert Absorb(Open(AddPackage(st.current, p)), rest) == Absorb(st.current, [p] + rest) by {
          match st.current
          case Closed =>
          case Open(t) =>
            assert t.packages + [p] + rest == t.packages + ([p] + rest);
        }
      } else {
        assert Payloads(body) == rest;
      }
    }
  }

  /** A header and the lines up to the next header make one record. */
  lemma HeaderThenBody(st: State, name: string, body: seq<LineKind>)
    requires forall j :: 0 <= j < |body| ==> !body[j].Header?
    ensures Run(st, [Header(name)] + body) == State(Flush(st), Open(Transition(Some(name), Payloads(body))))
  {
    var s1 := State(Flush(st), Open(Transition(Some(name), [])));
    assert Run(st, [Header(name)] + body) == Run(s1, body) by {
      assert ([Header(name)] + body)[0] == Header(name) && ([Header(name)] + body)[1..] == body;
    }
    RunBody(s1, body);
    assert [] + Payloads(body) == Payloads(body);
  }

  lemma SectionsUnfold(ks: seq<LineKind>)
    requires ks != [] && ks[0].Header?
    ensures var k := FirstHeader(ks[1..]);
      ks == [Header(ks[0].name)] + ks[1..][..k] + ks[1..][k..] &&
      Sections(ks) == [Transition(Some(ks[0].name), Payloads(ks[1..][..k]))] + Sections(ks[1..][k..])
  {
    var k := FirstHeader(ks[1..]);
    assert ks == [ks[0]] + ks[1..][..k] + ks[1..][k..];
  }

  lemma FlushAfterHeader(st: State, rec: Transition, more: seq<Transition>)
    ensures Flush(State(Flush(st), Open(rec))) + more == Flush(st) + ([rec] + more)
  {
  }

  /** From a header on, the fold emits exactly the records of `Sections`. */
  lemma {:induction false} RunSections(st: State, ks: seq<LineKind>)
    requires ks == [] || ks[0].Header?
    ensures Flush(Run(st, ks)) == Flush(st) + Sections(ks)
    decreases |ks|
  {
    if ks != [] {
      var k := FirstHeader(ks[1..]);
      var name, body, tail := ks[0].name, ks[1..][..k], ks[1..][k..];
      SectionsUnfold(ks);
      RunAppend(st, [Header(name)] + body, tail);
      HeaderThenBody(st, name, body);
      var rec := Transition(Some(name), Payloads(body));
      var s2 := State(Flush(st), Open(rec));
      assert Run(st, ks) == Run(s2, tail);
      RunSections(s2, tail);
      FlushAfterHeader(st, rec, Sections(tail));
    }
  }

  /** The fold computes the grouped description. */
  lemma {:induction false} RunIsGrouped(ks: seq<LineKind>)
    ensures Flush(Run(Start, ks)) == Grouped(ks)
  {
    var k := FirstHeader(ks);
    assert ks == ks[..k] + ks[k..];
    RunAppend(Start, ks[..k], ks[k..]);
    RunBody(Start, ks[..k]);
    RunSections(Run(Start, ks[..k]), ks[k..]);
  }

  // ---------------------------------------------------------------------------
  // From lines to classified lines

  lemma {:induction false} ClassifiedAppend(a: seq<string>, b: seq<string>)
    ensures Classified(a + b) == Classified(a) + Classified(b)
    decreases |a|
  {
    if a != [] {
      assert (a + b)[0] == a[0] && (a + b)[1..] == a[1..] + b;
      ClassifiedAppend(a[1..], b);
    } else {
      assert a + b == b;
    }
  }

  lemma ClassifiedOne(l: string)
    ensures Classified([l]) == [Classify(l)]
  {
    assert [l][1..] == [];
  }

  lemma {:induction false} ClassifiedLength(lines: seq<string>)
    ensures |Classified(lines)| == |lines|
    decreases |lines|
  {
    if lines != [] {
      ClassifiedLength(lines[1..]);
    }
  }

  lemma {:induction false} ClassifiedAt(lines: seq<string>, j: nat)
    requires j < |lines|
    ensures |Classified(lines)| == |lines| && Classified(lines)[j] == Classify(lines[j])
    decreases j
  {
    ClassifiedLength(lines);
    if j > 0 {
      ClassifiedAt(lines[1..], j - 1);
    }
  }

  /** Lines without a header classify to kinds without a header. */
  lemma NoHeaderKinds(lines: seq<string>)
    requires forall j :: 0 <= j < |lines| ==> !IsHeader(lines[j])
    ensures forall j :: 0 <= j < |Classified(lines)| ==> !Classified(lines)[j].Header?
  {
    ClassifiedLength(lines);
    forall j | 0 <= j < |lines| ensures !Classified(lines)[j].Header? {
      ClassifiedAt(lines, j);
    }
  }

  /** The parser's output is the orphan record (if any) followed by one
      record per header, each holding the package lines up to the next
      header. */
  lemma ParseIsGrouped(lines: seq<string>)
    ensures Parse(lines) == Grouped(Classified(lines))
  {
    RunIsGrouped(Classified(lines));
  }

  // ---------------------------------------------------------------------------
  // What the grouped description says

  lemma {:induction false} PayloadsAppend(a: seq<LineKind>, b: seq<LineKind>)
    ensures Payloads(a + b) == Payloads(a) + Payloads(b)
    decreases |a|
  {
    if a != [] {
      assert (a + b)[1..] == a[1..] + b;
      PayloadsAppend(a[1..], b);
    } else {
      assert a + b == b;
    }
  }

  lemma {:induction false} HeaderNamesAppend(a: seq<LineKind>, b: seq<LineKind>)
    ensures HeaderNames(a + b) == HeaderNames(a) + HeaderNames(b)
    decreases |a|
  {
    if a != [] {
      assert (a + b)[1..] == a[1..] + b;
      HeaderNamesAppend(a[1..], b);
    } else {
      assert a + b == b;
    }
  }

  lemma {:induction false} NoHeaderNames(body: seq<LineKind>)
    requires forall j :: 0 <= j < |body| ==> !body[j].Header?
    ensures HeaderNames(body) == []
    decreases |body|
  {
    if body != [] {
      NoHeaderNames(body[1..]);
    }
  }

  lemma {:induction false} NamesAppend(a: seq<Transition>, b: seq<Transition>)
    ensures Names(a + b) == Names(a) + Names(b)
    decreases |a|
  {
    if a != [] {
      assert (a + b)[1..] == a[1..] + b;
      NamesAppend(a[1..], b);
    } else {
      assert a + b == b;
    }
  }

  lemma {:induction false} AllPackagesAppend(a: seq<Transition>, b: seq<Transition>)
    ensures AllPackages(a + b) == AllPackages(a) + AllPackages(b)
    decreases |a|
  {
    if a != [] {
      assert (a + b)[1..] == a[1..] + b;
      AllPackagesAppend(a[1..], b);
    } else {
      assert a + b == b;
    }
  }

  lemma Singletons(name: string, rec: Transition)
    ensures HeaderNames([Header(name)]) == [Some(name)] && Payloads([Header(name)]) == []
    ensures Names([rec]) == [rec.name] && AllPackages([rec]) == rec.packages
  {
    assert [Header(name)][1..] == [];
    assert [rec][1..] == [];
  }

  lemma {:induction false} SectionsNames(ks: seq<LineKind>)
    requires ks == [] || ks[0].Header?
    ensures Names(Sections(ks)) == HeaderNames(ks)
    decreases |ks|
  {
    if ks != [] {
      var k := FirstHeader(ks[1..]);
      var name, body, tail := ks[0].name, ks[1..][..k], ks[1..][k..];
      var rec := Transition(Some(name), Payloads(body));
      SectionsUnfold(ks);
      SectionsNames(tail);
      NamesAppend([rec], Sections(tail));
      HeaderNamesAppend([Header(name)] + body, tail);
      HeaderNamesAppend([Header(name)], body);
      NoHeaderNames(body);
      Singletons(name, rec);
      assert HeaderNames([Header(name)]) + [] == HeaderNames([Header(name)]);
    }
  }

  lemma {:induction false} SectionsPackages(ks: seq<LineKind>)
    requires ks == [] || ks[0].Header?
    ensures AllPackages(Sections(ks)) == Payloads(ks)
    decreases |ks|
  {
    if ks != [] {
      var k := FirstHeader(ks[1..]);
      var name, body, tail := ks[0].name, ks[1..][..k], ks[1..][k..];
      var rec := Transition(Some(name), Payloads(body));
      SectionsUnfold(ks);
      SectionsPackages(tail);
      AllPackagesAppend([rec], Sections(tail));
      PayloadsAppend([Header(name)] + body, tail);
      PayloadsAppend([Header(name)], body);
      Singletons(name, rec);
      assert [] + Payloads(body) == Payloads(body);
    }
  }

  lemma OrphanRecordContents(ks: seq<LineKind>)
    ensures Names(OrphanRecord(ks)) == (if Orphans(ks) == [] then [] else [None])
    ensures AllPackages(OrphanRecord(ks)) == Orphans(ks)
  {
    var pre := OrphanRecord(ks);
    if pre != [] {
      assert pre[1..] == [];
    }
  }

  lemma {:induction false} NamesLength(ts: seq<Transition>)
    ensures |Names(ts)| == |ts|
    decreases |ts|
  {
    if ts != [] {
      NamesLength(ts[1..]);
    }
  }

  lemma {:induction false} NamesAt(ts: seq<Transition>, j: nat)
    requires j < |ts|
    ensures |Names(ts)| == |ts| && Names(ts)[j] == ts[j].name
    decreases j
  {
    NamesLength(ts);
    if j > 0 {
      NamesAt(ts[1..], j - 1);
    }
  }

  lemma {:induction false} HeaderNamesAreSome(ks: seq<LineKind>)
    ensures forall j :: 0 <= j < |HeaderNames(ks)| ==> HeaderNames(ks)[j].Some?
    decreases |ks|
  {
    if ks != [] {
      HeaderNamesAreSome(ks[1..]);
    }
  }

  lemma GroupedNames(ks: seq<LineKind>)
    ensures Names(Grouped(ks)) == (if Orphans(ks) == [] then [] else [None]) + HeaderNames(ks)
  {
    var k := FirstHeader(ks);
    OrphanRecordContents(ks);
    assert ks == ks[..k] + ks[k..];
    SectionsNames(ks[k..]);
    NamesAppend(OrphanRecord(ks), Sections(ks[k..]));
    HeaderNamesAppend(ks[..k], ks[k..]);
    NoHeaderNames(ks[..k]);
    assert [] + HeaderNames(ks[k..]) == HeaderNames(ks[k..]);
  }

  /** Records appear in the order of their headers, one per header, preceded
      by a nameless record exactly when a package line comes before the first
      header; so the number of records is the number of headers, plus one in
      that case. */
  lemma RecordsFollowHeaders(lines: seq<string>)
    ensures var ks := Classified(lines);
      Names(Parse(lines)) == (if Orphans(ks) == [] then [] else [None]) + HeaderNames(ks)
    ensures var ks := Classified(lines);
      |Parse(lines)| == |HeaderNames(ks)| + (if Orphans(ks) == [] then 0 else 1)
  {
    ParseIsGrouped(lines);
    GroupedNames(Classified(lines));
    NamesLength(Parse(lines));
  }

  /** No package line is dropped or reordered: the packages of the records,
      concatenated in order, are the payloads of the package lines in input
      order. */
  lemma PackagesPreserved(lines: seq<string>)
    ensures AllPackages(Parse(lines)) == Payloads(Classified(lines))
  {
    ParseIsGrouped(lines);
    GroupedPackages(Classified(lines));
  }

  lemma GroupedPackages(ks: seq<LineKind>)
    ensures AllPackages(Grouped(ks)) == Payloads(ks)
  {
    var post := ks[FirstHeader(ks)..];
    GroupedPackagesSplit(ks);
    SectionsPackages(post);
    OrphansThenRest(ks);
  }

  lemma GroupedPackagesSplit(ks: seq<LineKind>)
    ensures AllPackages(Grouped(ks)) == Orphans(ks) + AllPackages(Sections(ks[FirstHeader(ks)..]))
  {
    AllPackagesAppend(OrphanRecord(ks), Sections(ks[FirstHeader(ks)..]));
    OrphanRecordContents(ks);
  }

  lemma OrphansThenRest(ks: seq<LineKind>)
    ensures Orphans(ks) + Payloads(ks[FirstHeader(ks)..]) == Payloads(ks)
  {
    var k := FirstHeader(ks);
    assert ks == ks[..k] + ks[k..];
    PayloadsAppend(ks[..k], ks[k..]);
  }

  /** A package line before any header is kept: the first record is then a
      nameless record holding those package lines, and it is the only
      nameless record. Without such a line every record has a name. */
  lemma OrphansKept(lines: seq<string>)
    ensures var o := Orphans(Classified(lines));
      o != [] ==> Parse(lines) != [] && Parse(lines)[0] == Transition(None, o)
    ensures var o := Orphans(Classified(lines));
      forall j :: 0 <= j < |Parse(lines)| ==> (Parse(lines)[j].name == None <==> j == 0 && o != [])
  {
    var ts := Parse(lines);
    ParseIsGrouped(lines);
    RecordsFollowHeaders(lines);
    HeaderNamesAreSome(Classified(lines));
    forall j | 0 <= j < |ts| ensures ts[j].name == Names(ts)[j] {
      NamesAt(ts, j);
    }
  }

  // ---------------------------------------------------------------------------
  // What each kind of line does

  lemma RunFromHeader(st: State, name: string, b: seq<LineKind>)
    ensures Run(st, [Header(name)] + b) == Run(State(Flush(st), Open(Transition(Some(name), []))), b)
  {
    assert ([Header(name)] + b)[0] == Header(name) && ([Header(name)] + b)[1..] == b;
  }

  lemma FlushAppend(out: seq<Transition>, st: State)
    ensures Flush(State(out + st.transitions, st.current)) == out + Flush(st)
  {
  }

  /** The record a header starts comes first in what follows it. */
  lemma HeaderRecordFirst(name: string, b: seq<LineKind>)
    ensures Flush(Run(Start, [Header(name)] + b)) != []
    ensures Flush(Run(Start, [Header(name)] + b))[0] == Transition(Some(name), Payloads(b[..FirstHeader(b)]))
  {
    var k := FirstHeader(b);
    var rec := Transition(Some(name), Payloads(b[..k]));
    assert [Header(name)] + b == ([Header(name)] + b[..k]) + b[k..];
    RunAppend(Start, [Header(name)] + b[..k], b[k..]);
    HeaderThenBody(Start, name, b[..k]);
    assert Flush(Start) == [];
    RunSections(State([], Open(rec)), b[k..]);
    assert Flush(State([], Open(rec))) == [rec];
  }

  lemma HeaderSplits(a: seq<LineKind>, name: string, b: seq<LineKind>)
    ensures Flush(Run(Start, a + [Header(name)] + b)) == Flush(Run(Start, a)) + Flush(Run(Start, [Header(name)] + b))
  {
    var sa := Run(Start, a);
    var started := Open(Transition(Some(name), []));
    assert a + [Header(name)] + b == a + ([Header(name)] + b);
    RunAppend(Start, a, [Header(name)] + b);
    RunFromHeader(sa, name, b);
    RunFromHeader(Start, name, b);
    assert Flush(Start) == [];
    assert Flush(sa) + [] == Flush(sa);
    RunKeepsEmitted(Flush(sa), [], started, b);
    FlushAppend(Flush(sa), Run(State([], started), b));
  }

  /** A header closes the record open before it (emitting it, even with no
      packages) and starts a new record named after it: what comes before
      the header and what comes from the header on are parsed independently. */
  lemma HeaderStartsRecord(a: seq<string>, h: string, b: seq<string>)
    requires IsHeader(h)
    ensures Parse(a + [h] + b) == Parse(a) + Parse([h] + b)
    ensures Parse([h] + b) != [] && Parse([h] + b)[0].name == Some(HeaderName(h))
  {
    ClassifiedAppend(a + [h], b);
    ClassifiedAppend(a, [h]);
    ClassifiedAppend([h], b);
    ClassifiedOne(h);
    HeaderSplits(Classified(a), HeaderName(h), Classified(b));
    HeaderRecordFirst(HeaderName(h), Classified(b));
  }

  /** A line that is neither a header nor a package line (an empty line, or
      a space-indented line whose stripped form does not begin with `- `)
      changes nothing. */
  lemma IgnoredLine(a: seq<string>, l: string, b: seq<string>)
    requires !IsHeader(l) && !IsPackageLine(l)
    ensures Parse(a + [l] + b) == Parse(a + b)
  {
    var ka, kb := Classified(a), Classified(b);
    ClassifiedAppend(a + [l], b);
    ClassifiedAppend(a, [l]);
    ClassifiedAppend(a, b);
    ClassifiedOne(l);
    RunAppend(Start, ka + [Ignored], kb);
    RunAppend(Start, ka, [Ignored]);
    RunAppend(Start, ka, kb);
    assert Run(Run(Start, ka), [Ignored]) == Run(Start, ka);
  }

  /** A package line appends its payload to the last record, or, when no
      record is open yet, makes a nameless record of it. */
  lemma PackageLineAppends(a: seq<string>, p: string)
    requires IsPackageLine(p)
    ensures var ts := Parse(a);
      Parse(a + [p]) ==
        if ts == [] then [Transition(None, [Payload(p)])]
        else ts[..|ts| - 1] + [ts[|ts| - 1].(packages := ts[|ts| - 1].packages + [Payload(p)])]
  {
    var ka := Classified(a);
    ClassifiedAppend(a, [p]);
    ClassifiedOne(p);
    RunAppend(Start, ka, [Package(Payload(p))]);
    RunKeepsClosedOnlyAtStart(Start, ka);
    var sa := Run(Start, ka);
    assert Run(sa, [Package(Payload(p))]) == Step(sa, Package(Payload(p)));
    if sa.current.Open? {
      var ts := Parse(a);
      assert ts[..|ts| - 1] == sa.transitions;
    }
  }

  /** A header followed by lines without a header gives one record: the
      header's name and the payloads of the package lines after it. */
  lemma SingleSection(h: string, body: seq<string>)
    requires IsHeader(h)
    requires forall j :: 0 <= j < |body| ==> !IsHeader(body[j])
    ensures Parse([h] + body) == [Transition(Some(HeaderName(h)), Payloads(Classified(body)))]
  {
    ClassifiedAppend([h], body);
    ClassifiedOne(h);
    NoHeaderKinds(body);
    HeaderThenBody(Start, HeaderName(h), Classified(body));
    assert Flush(Start) == [];
  }

  /** Flush on end: when the lines hold a header, the last record is that of
      the last header, with the package lines after it. */
  lemma LastRecordFlushed(lines: seq<string>, k: nat)
    requires k < |lines| && IsHeader(lines[k])
    requires forall j :: k < j < |lines| ==> !IsHeader(lines[j])
    ensures Parse(lines) != []
    ensures Parse(lines)[|Parse(lines)| - 1]
         == Transition(Some(HeaderName(lines[k])), Payloads(Classified(lines[k + 1..])))
  {
    var h, b := lines[k], lines[k + 1..];
    assert lines == lines[..k] + [h] + b;
    HeaderStartsRecord(lines[..k], h, b);
    SingleSection(h, b);
  }

  // ---------------------------------------------------------------------------
  // From text to records

  /** The text of a feed whose lines hold no line break, each line ended by
      `\n`, parses to the records of those lines. */
  lemma ParseTextOfLines(lines: seq<string>)
    requires forall k :: 0 <= k < |lines| ==> NoBreak(lines[k])
    ensures ParseText(Terminated(lines)) == Parse(lines)
  {
    SplitTerminated(lines);
  }

  /** The records do not depend on which break characters the feed uses
      (`\r\n`, `\r` or any other) nor on whether it ends with a break: the
      feed parses as its text with every break written as `\n` and a final
      `\n` added when missing. */
  lemma ParseTextBreaks(text: string)
    ensures ParseText(text) == ParseText(Normalize(Ended(text)))
  {
    if text != [] && !IsLineBreak(text[|text| - 1]) {
      SplitFinalBreak(text);
    }
    SplitNormalized(Ended(text));
  }

  // ---------------------------------------------------------------------------
  // Concrete cases

  /** An indented `- ` line names the package after the marker, with the
      whitespace before the marker and at the end of the line removed. */
  lemma IndentedPackage(indent: string, pkg: string, trail: string)
    requires indent != [] && indent[0] == ' ' && AllSpace(indent) && AllSpace(trail)
    requires pkg != [] && !IsSpace(pkg[|pkg| - 1])
    ensures Classify(indent + "- " + pkg + trail) == Package(pkg)
  {
    var line := indent + "- " + pkg + trail;
    StripUnique(line, indent, "- " + pkg, trail);
    assert ("- " + pkg)[|"- " + pkg| - 1] == pkg[|pkg| - 1];
    assert Strip(line)[..2] == "- ";
    assert line[0] == ' ';
  }

  lemma ParseOne(l: string)
    ensures Parse([l]) == Flush(Step(Start, Classify(l)))
  {
    ClassifiedOne(l);
    assert Run(Start, [Classify(l)]) == Run(Step(Start, Classify(l)), []);
  }

  /** Only a space indents: a space-indented `- ` line is a package line,
      here before any header, so it makes a nameless record. */
  lemma SpaceIndentedMarker(pkg: string)
    requires pkg != [] && !IsSpace(pkg[|pkg| - 1])
    ensures Parse(["  - " + pkg]) == [Transition(None, [pkg])]
  {
    assert "  " + "- " + pkg + [] == "  - " + pkg;
    IndentedPackage("  ", pkg, []);
    ParseOne("  - " + pkg);
  }

  /** A header on its own, without a trailing colon, is a record named by
      the whole line with no packages. */
  lemma LoneHeader(h: string)
    requires IsHeader(h) && h[|h| - 1] != ':'
    ensures Parse([h]) == [Transition(Some(h), [])]
  {
    ParseOne(h);
  }

  /** A line that is empty or a space followed by whitespace only is
      ignored. */
  lemma IgnoredBlank(l: string)
    requires AllSpace(l) && !IsHeader(l)
    ensures Parse([l]) == []
  {
    StripUnique(l, l, [], []);
    ParseOne(l);
  }

  /** A tab-indented `- ` line, and a `- ` line in column 0, are headers:
      each starts a record of its own, named by the whole line. */
  lemma TabIndentedMarker(pkg: string)
    requires pkg != [] && pkg[|pkg| - 1] != ':'
    ensures Parse(["\t- " + pkg]) == [Transition(Some("\t- " + pkg), [])]
    ensures Parse(["- " + pkg]) == [Transition(Some("- " + pkg), [])]
  {
    assert ("\t- " + pkg)[|"\t- " + pkg| - 1] == pkg[|pkg| - 1];
    assert ("- " + pkg)[|"- " + pkg| - 1] == pkg[|pkg| - 1];
    LoneHeader("\t- " + pkg);
    LoneHeader("- " + pkg);
  }

  /** A line holding only a tab starts a record named by the tab, while an
      empty line or a line of spaces is ignored. */
  lemma BlankLines()
    ensures Parse(["\t"]) == [Transition(Some("\t"), [])]
    ensures Parse(["   "]) == [] && Parse([""]) == []
  {
    LoneHeader("\t");
    IgnoredBlank("   ");
    IgnoredBlank("");
  }

  lemma TwoSpacePackage(pkg: string)
    requires pkg != [] && !IsSpace(pkg[|pkg| - 1])
    ensures Classify("  - " + pkg) == Package(pkg)
  {
    assert "  " + "- " + pkg + [] == "  - " + pkg;
    IndentedPackage("  ", pkg, []);
  }

  lemma NameWithColon(n: string)
    requires n != [] && n[|n| - 1] != ':'
    ensures HeaderName(n + ":") == n
  {
    assert (n + ":")[..|n|] == n;
  }

  lemma PayloadsOne(p: string)
    ensures Payloads([Package(p)]) == [p]
  {
    assert [Package(p)][1..] == [];
  }

  lemma TwoPackages(a: string, b: string)
    requires a != [] && !IsSpace(a[|a| - 1]) && b != [] && !IsSpace(b[|b| - 1])
    ensures Payloads(Classified(["  - " + a, "  - " + b])) == [a, b]
  {
    var l1, l2 := "  - " + a, "  - " + b;
    TwoSpacePackage(a);
    TwoSpacePackage(b);
    assert [l1, l2] == [l1] + [l2];
    ClassifiedAppend([l1], [l2]);
    ClassifiedOne(l1);
    ClassifiedOne(l2);
    PayloadsAppend([Package(a)], [Package(b)]);
    PayloadsOne(a);
    PayloadsOne(b);
  }

  lemma OnePackage(c: string)
    requires c != [] && !IsSpace(c[|c| - 1])
    ensures Payloads(Classified(["  - " + c])) == [c]
  {
    TwoSpacePackage(c);
    ClassifiedOne("  - " + c);
    PayloadsOne(c);
  }

  lemma SectionOfTwo(n: string, a: string, b: string)
    requires IsHeader(n) && n[|n| - 1] != ':'
    requires a != [] && !IsSpace(a[|a| - 1]) && b != [] && !IsSpace(b[|b| - 1])
    ensures Parse([n + ":", "  - " + a, "  - " + b]) == [Transition(Some(n), [a, b])]
  {
    var h, p1, p2 := n + ":", "  - " + a, "  - " + b;
    assert [h, p1, p2] == [h] + [p1, p2];
    assert p1[0] == ' ' && p2[0] == ' ';
    SingleSection(h, [p1, p2]);
    NameWithColon(n);
    TwoPackages(a, b);
  }

  lemma SectionOfOne(n: string, c: string)
    requires IsHeader(n) && n[|n| - 1] != ':'
    requires c != [] && !IsSpace(c[|c| - 1])
    ensures Parse([n, "  - " + c]) == [Transition(Some(n), [c])]
  {
    var p := "  - " + c;
    assert [n, p] == [n] + [p];
    assert p[0] == ' ';
    SingleSection(n, [p]);
    OnePackage(c);
  }

  /** A feed of two transitions, the first header ending in a colon and
      followed by two package lines, the second without a colon and
      followed by one, gives the two records with their packages in order. */
  lemma TwoTransitionFeed(n1: string, a: string, b: string, n2: string, c: string)
    requires IsHeader(n1) && n1[|n1| - 1] != ':' && IsHeader(n2) && n2[|n2| - 1] != ':'
    requires a != [] && !IsSpace(a[|a| - 1]) && b != [] && !IsSpace(b[|b| - 1])
    requires c != [] && !IsSpace(c[|c| - 1])
    ensures Parse([n1 + ":", "  - " + a, "  - " + b, n2, "  - " + c])
         == [Transition(Some(n1), [a, b]), Transition(Some(n2), [c])]
  {
    var first, p3 := [n1 + ":", "  - " + a, "  - " + b], "  - " + c;
    assert [n1 + ":", "  - " + a, "  - " + b, n2, p3] == first + [n2] + [p3];
    assert [n2] + [p3] == [n2, p3];
    HeaderStartsRecord(first, n2, [p3]);
    SectionOfTwo(n1, a, b);
    SectionOfOne(n2, c);
  }

  /** `rstrip(":")` removes every trailing colon and nothing else: a header
      of colons alone gives the empty name. */
  lemma HeaderNameExamples()
    ensures HeaderName("foo::") == "foo"
    ensures HeaderName(":::") == ""
    ensures HeaderName("foo") == "foo"
    ensures HeaderName("foo: ") == "foo: "
  {
    assert "foo::"[..4] == "foo:" && "foo:"[..3] == "foo";
    assert ":::"[..2] == "::" && "::"[..1] == ":" && ":"[..0] == "";
  }
}
