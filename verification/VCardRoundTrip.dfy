/** Writing, folding, unfolding and parsing vCard properties undo each other
    (sections 3.2 and 3.4 of RFC 6350). */
module VCardRoundTrip {
  import opened Text
  import opened DavText

  // ------------------------------------------------------- escape and decode

  function EscapeOne(c: char): string {
    if c == '\n' then "\\n" else if c == '\\' || c == ',' || c == ';' then ['\\', c] else [c]
  }

  /** The four chained replacements are one pass. */
  lemma {:induction false} EscapeValueStep(s: string)
    requires s != []
    ensures EscapeValue(s) == EscapeOne(s[0]) + EscapeValue(s[1..])
  {
    var head, tail := s[..1], s[1..];
    assert s == head + tail;
    ReplaceCharConcat(head, tail, '\\', "\\\\");
    var h1, t1 := ReplaceChar(head, '\\', "\\\\"), ReplaceChar(tail, '\\', "\\\\");
    ReplaceCharConcat(h1, t1, ',', "\\,");
    var h2, t2 := ReplaceChar(h1, ',', "\\,"), ReplaceChar(t1, ',', "\\,");
    ReplaceCharConcat(h2, t2, ';', "\\;");
    var h3, t3 := ReplaceChar(h2, ';', "\\;"), ReplaceChar(t2, ';', "\\;");
    ReplaceCharConcat(h3, t3, '\n', "\\n");
    EscapeSingle(s[0]);
    assert head == [s[0]];
  }

  lemma {:induction false} EscapeSingle(c: char)
    ensures EscapeValue([c]) == EscapeOne(c)
  {
    ReplaceSingle(c, '\\', "\\\\");
    ReplaceSingle(c, ',', "\\,");
    ReplaceSingle(c, ';', "\\;");
    ReplaceSingle(c, '\n', "\\n");
    ReplaceAbsent("\\\\", ',', "\\,");
    ReplaceAbsent("\\\\", ';', "\\;");
    ReplaceAbsent("\\\\", '\n', "\\n");
    ReplaceAbsent("\\,", ';', "\\;");
    ReplaceAbsent("\\,", '\n', "\\n");
    ReplaceAbsent("\\;", '\n', "\\n");
  }

  /** Decoding undoes escaping, for every value. */
  lemma {:induction false} DecodeEscape(v: string)
    ensures Decoded(EscapeValue(v)) == v
  {
    if v != [] {
      var tail := EscapeValue(v[1..]);
      EscapeValueStep(v);
      DecodeEscape(v[1..]);
      var s := EscapeValue(v);
      assert s[|EscapeOne(v[0])|..] == tail;
      if |EscapeOne(v[0])| == 2 {
        assert s[0] == '\\' && s[1] == EscapeOne(v[0])[1];
      }
      assert v == [v[0]] + v[1..];
    }
  }

  /** An escaped value has no line feed, and a carriage return only if the value has. */
  lemma {:induction false} EscapeHasNoBreak(v: string)
    ensures '\n' !in EscapeValue(v)
    ensures '\r' in EscapeValue(v) <==> '\r' in v
  {
    if v != [] {
      EscapeValueStep(v);
      EscapeHasNoBreak(v[1..]);
      assert v == [v[0]] + v[1..];
    }
  }

  // -------------------------------------------------------------- folded text

  /** One physical line: the start of a logical line or a continuation with its
      one whitespace character, and the line break after it. */
  datatype Segment = Start(content: string, eol: string) | Continue(ws: char, content: string, eol: string)

  predicate Plain(s: string) { '\n' !in s && '\r' !in s }

  predicate IsEol(s: string) { s == "\r\n" || s == "\n" || s == "\r" }

  predicate SegmentOk(g: Segment, last: bool) {
    && Plain(g.content)
    && (IsEol(g.eol) || (last && g.eol == ""))
    && (g.Start? ==> g.content != [] && !IsContinuation(g.content))
    && (g.Continue? ==> g.ws == ' ' || g.ws == '\t')
  }

  /** Lines folded at arbitrary places with any accepted breaks; the last break
      may be missing. */
  ghost predicate Folding(gs: seq<Segment>) {
    && (gs != [] ==> gs[0].Start?)
    && forall i | 0 <= i < |gs| :: SegmentOk(gs[i], i == |gs| - 1)
  }

  /** The same without asking for a start: what is left of a folding. */
  ghost predicate FoldingTail(gs: seq<Segment>) {
    forall i | 0 <= i < |gs| :: SegmentOk(gs[i], i == |gs| - 1)
  }

  function LineText(g: Segment): string {
    if g.Start? then g.content else [g.ws] + g.content
  }

  function RawText(gs: seq<Segment>): string {
    if gs == [] then "" else LineText(gs[0]) + gs[0].eol + RawText(gs[1..])
  }

  function PhysicalLines(gs: seq<Segment>): seq<string> {
    seq(|gs|, i requires 0 <= i < |gs| => LineText(gs[i]))
  }

  /** The lines that were folded. */
  function LogicalLines(gs: seq<Segment>): seq<string> {
    if gs == [] then [] else
    AddSegment(LogicalLines(gs[..|gs| - 1]), gs[|gs| - 1])
  }

  /** A start opens a line, a continuation extends the last one. */
  function AddSegment(before: seq<string>, g: Segment): seq<string> {
    if g.Start? || before == [] then before + [g.content]
    else before[..|before| - 1] + [before[|before| - 1] + g.content]
  }

  function WithFeeds(gs: seq<Segment>): string {
    if gs == [] then "" else LineText(gs[0]) + (if gs[0].eol == "" then "" else "\n") + WithFeeds(gs[1..])
  }

  lemma {:induction false} CrLfSkipsPlain(a: string, b: string)
    requires '\r' !in a
    ensures ReplaceCrLf(a + b) == a + ReplaceCrLf(b)
  {
    if a == [] {
      assert a + b == b;
    } else {
      assert (a + b)[1..] == a[1..] + b;
      CrLfSkipsPlain(a[1..], b);
    }
  }

  lemma {:induction false} CrLfAtEol(eol: string, b: string)
    requires IsEol(eol) && (b == [] || b[0] != '\n')
    ensures ReplaceCrLf(eol + b) == (if eol == "\r\n" then "\n" else eol) + ReplaceCrLf(b)
  {
    assert (eol + b)[|eol|..] == b;
  }

  lemma {:induction false} NormalizeStep(a: string, eol: string, b: string)
    requires Plain(a) && IsEol(eol) && (b == [] || b[0] != '\n')
    ensures NormalizeBreaks(a + eol + b) == a + "\n" + NormalizeBreaks(b)
  {
    assert a + eol + b == a + (eol + b);
    CrLfSkipsPlain(a, eol + b);
    CrLfAtEol(eol, b);
    FeedsStep(a, if eol == "\r\n" then "\n" else eol, ReplaceCrLf(b));
  }

  lemma {:induction false} FeedsStep(a: string, e: string, r: string)
    requires '\r' !in a && (e == "\n" || e == "\r")
    ensures ReplaceChar(a + (e + r), '\r', "\n") == a + "\n" + ReplaceChar(r, '\r', "\n")
  {
    ReplaceCharConcat(a, e + r, '\r', "\n");
    ReplaceCharConcat(e, r, '\r', "\n");
    ReplaceAbsent(a, '\r', "\n");
    ReplaceSingle(e[0], '\r', "\n");
    assert e == [e[0]];
  }

  lemma {:induction false} NormalizePlain(a: string)
    requires Plain(a)
    ensures NormalizeBreaks(a) == a
  {
    CrLfSkipsPlain(a, "");
    assert a + "" == a;
    ReplaceAbsent(a, '\r', "\n");
  }

  lemma {:induction false} TailOf(gs: seq<Segment>)
    requires FoldingTail(gs) && gs != []
    ensures FoldingTail(gs[1..]) && SegmentOk(gs[0], |gs| == 1)
  {
    assert forall i | 0 <= i < |gs[1..]| :: gs[1..][i] == gs[i + 1];
  }

  lemma {:induction false} RawTextStart(gs: seq<Segment>)
    requires FoldingTail(gs)
    ensures RawText(gs) == [] || RawText(gs)[0] != '\n'
  {
    if gs != [] {
      TailOf(gs);
      assert LineText(gs[0]) != [] && LineText(gs[0])[0] != '\n';
      assert RawText(gs)[0] == LineText(gs[0])[0];
    }
  }

  /** Every accepted line break becomes one line feed. */
  lemma {:induction false} NormalizeFolded(gs: seq<Segment>)
    requires FoldingTail(gs)
    ensures NormalizeBreaks(RawText(gs)) == WithFeeds(gs)
  {
    if gs != [] {
      TailOf(gs);
      NormalizeFolded(gs[1..]);
      var a := LineText(gs[0]);
      assert Plain(a);
      if gs[0].eol == "" {
        assert gs[1..] == [];
        assert RawText(gs) == a && WithFeeds(gs) == a;
        NormalizePlain(a);
      } else {
        RawTextStart(gs[1..]);
        NormalizeStep(a, gs[0].eol, RawText(gs[1..]));
      }
    }
  }

  lemma {:induction false} FirstBreakOf(a: string, b: string)
    requires '\n' !in a && (b == [] || b[0] == '\n')
    ensures FirstBreak(a + b) == |a|
  {
    if a == [] {
      assert a + b == b;
    } else {
      assert (a + b)[1..] == a[1..] + b;
      FirstBreakOf(a[1..], b);
    }
  }

  lemma {:induction false} LinesStep(a: string, b: string)
    requires '\n' !in a
    ensures Lines(a + "\n" + b) == [a] + Lines(b)
  {
    var s := a + "\n" + b;
    assert s == a + ("\n" + b);
    FirstBreakOf(a, "\n" + b);
    assert s[..|a|] == a && s[|a| + 1..] == b;
  }

  lemma {:induction false} LinesLast(a: string)
    requires '\n' !in a && a != []
    ensures Lines(a) == [a]
  {
    FirstBreakOf(a, "");
    assert a + "" == a && a[..|a|] == a;
  }

  /** The lines are the physical lines. */
  lemma {:induction false} LinesOfFolded(gs: seq<Segment>)
    requires FoldingTail(gs)
    ensures Lines(WithFeeds(gs)) == PhysicalLines(gs)
  {
    if gs != [] {
      TailOf(gs);
      LinesOfFolded(gs[1..]);
      var a := LineText(gs[0]);
      assert PhysicalLines(gs) == [a] + PhysicalLines(gs[1..]);
      if gs[0].eol == "" {
        assert gs[1..] == [] && WithFeeds(gs) == a;
        LinesLast(a);
      } else {
        LinesStep(a, WithFeeds(gs[1..]));
      }
    }
  }

  lemma {:induction false} JoinSnoc(parts: seq<string>, last: string, sep: string)
    ensures Join(parts + [last], sep) == if parts == [] then last else Join(parts, sep) + sep + last
  {
    if parts == [] {
      assert parts + [last] == [last];
    } else {
      assert (parts + [last])[1..] == parts[1..] + [last];
      JoinSnoc(parts[1..], last, sep);
      if |parts| == 1 {
        assert parts[1..] == [];
      }
    }
  }

  lemma {:induction false} JoinExtendLast(parts: seq<string>, last: string, more: string, sep: string)
    ensures Join(parts + [last + more], sep) == Join(parts + [last], sep) + more
  {
    JoinSnoc(parts, last, sep);
    JoinSnoc(parts, last + more, sep);
    if parts != [] {
      assert Join(parts, sep) + sep + (last + more) == Join(parts, sep) + sep + last + more;
    }
  }

  /** Segments one by one, whatever their line breaks. */
  ghost predicate Pieces(gs: seq<Segment>) {
    (gs != [] ==> gs[0].Start?) && forall i | 0 <= i < |gs| :: SegmentOk(gs[i], true)
  }

  /** Unfolding the physical lines gives the logical lines, one per line. */
  lemma {:induction false} UnfoldFolded(gs: seq<Segment>)
    requires Pieces(gs)
    ensures UnfoldAll(PhysicalLines(gs)) == Join(LogicalLines(gs), "\n")
    ensures gs != [] ==> LogicalLines(gs) != [] && UnfoldAll(PhysicalLines(gs)) != []
    ensures forall i | 0 <= i < |LogicalLines(gs)| :: LogicalLines(gs)[i] != [] && Plain(LogicalLines(gs)[i])
  {
    if gs != [] {
      var n := |gs| - 1;
      assert Pieces(gs[..n]);
      UnfoldFolded(gs[..n]);
      var before := LogicalLines(gs[..n]);
      var lines := PhysicalLines(gs);
      assert lines[..n] == PhysicalLines(gs[..n]) && lines[n] == LineText(gs[n]);
      UnfoldStep(before, UnfoldAll(lines[..n]), gs[n]);
    }
  }

  lemma {:induction false} UnfoldStep(before: seq<string>, acc: string, g: Segment)
    requires SegmentOk(g, true) && (before == [] ==> g.Start?)
    requires acc == Join(before, "\n") && (before != [] ==> acc != [])
    requires forall i | 0 <= i < |before| :: before[i] != [] && Plain(before[i])
    ensures UnfoldLine(acc, LineText(g)) == Join(AddSegment(before, g), "\n") != []
    ensures forall i | 0 <= i < |AddSegment(before, g)| :: AddSegment(before, g)[i] != [] && Plain(AddSegment(before, g)[i])
  {
    if g.Start? {
      JoinSnoc(before, g.content, "\n");
    } else {
      var init, last := before[..|before| - 1], before[|before| - 1];
      assert LineText(g)[1..] == g.content;
      assert init + [last] == before;
      JoinExtendLast(init, last, g.content, "\n");
    }
  }

  /** Splitting the unfolded text into lines gives the logical lines back. */
  lemma {:induction false} LinesOfJoin(ls: seq<string>)
    requires forall i | 0 <= i < |ls| :: ls[i] != [] && '\n' !in ls[i]
    ensures Lines(Join(ls, "\n")) == ls
  {
    if |ls| == 1 {
      LinesLast(ls[0]);
    } else if |ls| > 1 {
      LinesOfJoin(ls[1..]);
      LinesStep(ls[0], Join(ls[1..], "\n"));
    }
  }

  /** However lines are folded, and with whatever accepted breaks, unfolding and
      splitting returns exactly the lines that were folded. */
  lemma {:induction false} UnfoldReturnsLines(gs: seq<Segment>)
    requires Folding(gs)
    ensures Lines(Unfolded(RawText(gs))) == LogicalLines(gs)
  {
    NormalizeFolded(gs);
    LinesOfFolded(gs);
    assert Pieces(gs);
    UnfoldFolded(gs);
    LinesOfJoin(LogicalLines(gs));
  }

  // ------------------------------------------------------------- whole properties

  datatype Param = Pair(key: string, value: string) | Bare(value: string)

  datatype Property = Property(name: string, params: seq<Param>, value: string)

  predicate Token(s: string) {
    Plain(s) && ':' !in s && ';' !in s
  }

  predicate ParamOk(p: Param) {
    match p case Pair(k, v) => Token(k) && '=' !in k && Token(v) case Bare(v) => Token(v) && '=' !in v
  }

  /** A name that does not start a continuation line; no delimiter in name or parameters. */
  predicate HeadOk(p: Property) {
    && p.name != [] && Token(p.name) && !IsContinuation(p.name)
    && forall i | 0 <= i < |p.params| :: ParamOk(p.params[i])
  }

  function ParamText(p: Param): string {
    match p case Pair(k, v) => k + "=" + v case Bare(v) => v
  }

  function ParamValue(p: Param): (string, string) {
    match p case Pair(k, v) => (k, v) case Bare(v) => ("TYPE", v)
  }

  function HeadText(p: Property): string {
    Join([p.name] + ParamTexts(p.params), ";")
  }

  function ParamTexts(ps: seq<Param>): seq<string> {
    seq(|ps|, i requires 0 <= i < |ps| => ParamText(ps[i]))
  }

  function ParamValues(ps: seq<Param>): seq<(string, string)> {
    seq(|ps|, i requires 0 <= i < |ps| => ParamValue(ps[i]))
  }

  /** The line that a writer emits for the property. */
  function PropertyText(p: Property): string {
    HeadText(p) + ":" + EscapeValue(p.value)
  }

  lemma {:induction false} IndexOfIn(a: string, c: char, b: string)
    requires c !in a
    ensures IndexOf(a + [c] + b, c) == |a|
    ensures IndexOf(a, c) == |a|
  {
    if a == [] {
      assert a + [c] + b == [c] + b;
    } else {
      assert (a + [c] + b)[1..] == a[1..] + [c] + b;
      IndexOfIn(a[1..], c, b);
    }
  }

  lemma {:induction false} SplitJoin(parts: seq<string>, c: char)
    requires parts != [] && forall i | 0 <= i < |parts| :: c !in parts[i]
    ensures Split(Join(parts, [c]), c) == parts
  {
    var s := Join(parts, [c]);
    if |parts| == 1 {
      IndexOfIn(parts[0], c, "");
    } else {
      var rest := Join(parts[1..], [c]);
      IndexOfIn(parts[0], c, rest);
      assert s[..|parts[0]|] == parts[0] && s[|parts[0]| + 1..] == rest;
      SplitJoin(parts[1..], c);
    }
  }

  lemma {:induction false} ParseParamText(p: Param)
    requires ParamOk(p)
    ensures ParseParam(ParamText(p)) == ParamValue(p)
  {
    match p
    case Pair(k, v) =>
      IndexOfIn(k, '=', v);
      assert (k + "=" + v)[..|k|] == k && (k + "=" + v)[|k| + 1..] == v;
    case Bare(v) => IndexOfIn(v, '=', "");
  }

  lemma {:induction false} JoinAvoids(parts: seq<string>, sep: char, c: char)
    requires c != sep && forall i | 0 <= i < |parts| :: c !in parts[i]
    ensures c !in Join(parts, [sep])
  {
    if |parts| > 1 {
      JoinAvoids(parts[1..], sep, c);
    }
  }

  lemma {:induction false} HeadParts(p: Property, c: char)
    requires HeadOk(p) && c in "\r\n:;"
    ensures forall i | 0 <= i < |[p.name] + ParamTexts(p.params)| :: c !in ([p.name] + ParamTexts(p.params))[i]
  {
    forall i | 0 <= i < |p.params| ensures c !in ParamText(p.params[i]) {
      assert ParamOk(p.params[i]);
    }
  }

  lemma {:induction false} ParsesParams(ps: seq<Param>)
    requires forall i | 0 <= i < |ps| :: ParamOk(ps[i])
    ensures ParseParams(ParamTexts(ps)) == ParamValues(ps)
  {
    forall i | 0 <= i < |ps| ensures ParseParam(ParamTexts(ps)[i]) == ParamValue(ps[i]) {
      ParseParamText(ps[i]);
    }
  }

  lemma {:induction false} ParsesHead(p: Property)
    requires HeadOk(p)
    ensures ':' !in HeadText(p)
    ensures
      var parts := Split(HeadText(p), ';');
      parts[0] == p.name && ParseParams(parts[1..]) == ParamValues(p.params)
  {
    var parts := [p.name] + ParamTexts(p.params);
    HeadParts(p, ':');
    HeadParts(p, ';');
    JoinAvoids(parts, ';', ':');
    SplitJoin(parts, ';');
    assert parts[1..] == ParamTexts(p.params);
    ParsesParams(p.params);
  }

  lemma {:induction false} SplitsAtColon(head: string, value: string)
    requires ':' !in head && '\r' !in value
    ensures
      var line := head + ":" + value;
      && line[|line| - 1] != '\r'
      && IndexOf(line, ':') == |head| < |line|
      && line[..|head|] == head && line[|head| + 1..] == value
  {
    IndexOfIn(head, ':', value);
    var line := head + ":" + value;
    if value == [] {
      assert line[|line| - 1] == ':';
    } else {
      assert line[|line| - 1] == value[|value| - 1];
    }
  }

  /** A written line parses to its name, its parameters and its escaped value. */
  lemma {:induction false} ParseReturnsProperty(p: Property)
    requires HeadOk(p) && '\r' !in p.value
    ensures ParsePropertyLine(PropertyText(p)) == Some(PropertyLine(p.name, ParamValues(p.params), EscapeValue(p.value)))
  {
    EscapeHasNoBreak(p.value);
    ParsesHead(p);
    SplitsAtColon(HeadText(p), EscapeValue(p.value));
  }

  lemma {:induction false} PropertyTextIsPlain(p: Property)
    requires HeadOk(p) && '\r' !in p.value
    ensures Plain(PropertyText(p)) && PropertyText(p) != [] && !IsContinuation(PropertyText(p))
  {
    var parts := [p.name] + ParamTexts(p.params);
    HeadParts(p, '\r');
    HeadParts(p, '\n');
    JoinAvoids(parts, ';', '\r');
    JoinAvoids(parts, ';', '\n');
    EscapeHasNoBreak(p.value);
    HeadStart(p);
  }

  lemma {:induction false} HeadStart(p: Property)
    requires HeadOk(p)
    ensures HeadText(p) != [] && HeadText(p)[0] == p.name[0]
  {
    var parts := [p.name] + ParamTexts(p.params);
    if |parts| > 1 {
      assert Join(parts, ";") == parts[0] + ";" + Join(parts[1..], ";");
    }
  }

  /** What a reader makes of a text: the properties of its lines, values decoded. */
  function ReadLine(line: string): Option<PropertyLine> {
    var p := ParsePropertyLine(line);
    if p.None? then None else Some(p.value.(value := Decoded(p.value.value)))
  }

  function Reads(ps: seq<Property>): seq<Option<PropertyLine>> {
    seq(|ps|, i requires 0 <= i < |ps| => Some(PropertyLine(ps[i].name, ParamValues(ps[i].params), ps[i].value)))
  }

  function ReadAll(lines: seq<string>): seq<Option<PropertyLine>> {
    seq(|lines|, i requires 0 <= i < |lines| => ReadLine(lines[i]))
  }

  function PropertyTexts(ps: seq<Property>): seq<string> {
    seq(|ps|, i requires 0 <= i < |ps| => PropertyText(ps[i]))
  }

  /** The whole pipeline: properties with values free of carriage returns, written
      as lines, folded anywhere with any accepted breaks, come back as they were. */
  lemma {:induction false} PipelineRoundTrip(ps: seq<Property>, gs: seq<Segment>)
    requires forall i | 0 <= i < |ps| :: HeadOk(ps[i]) && '\r' !in ps[i].value
    requires Folding(gs) && LogicalLines(gs) == PropertyTexts(ps)
    ensures ReadAll(Lines(Unfolded(RawText(gs)))) == Reads(ps)
  {
    UnfoldReturnsLines(gs);
    forall i | 0 <= i < |ps| ensures ReadLine(PropertyText(ps[i])) == Reads(ps)[i] {
      ParseReturnsProperty(ps[i]);
      DecodeEscape(ps[i].value);
    }
  }

  // ------------------------------------------------------ carriage returns

  lemma {:induction false} UnfoldHasNoCr(lines: seq<string>)
    requires forall i | 0 <= i < |lines| :: '\r' !in lines[i]
    ensures '\r' !in UnfoldAll(lines)
  {
    if lines != [] {
      UnfoldHasNoCr(lines[..|lines| - 1]);
    }
  }

  lemma {:induction false} ReplacedIsGone(s: string, c: char, to: string)
    requires c !in to
    ensures c !in ReplaceChar(s, c, to)
  {
    if s != [] {
      ReplacedIsGone(s[1..], c, to);
    }
  }

  lemma {:induction false} LinesKeepAbsent(s: string, c: char)
    requires c !in s
    ensures forall i | 0 <= i < |Lines(s)| :: c !in Lines(s)[i]
    decreases |s|
  {
    if s != [] {
      var n := FirstBreak(s);
      if n < |s| {
        LinesKeepAbsent(s[n + 1..], c);
      }
    }
  }

  lemma {:induction false} DecodeHasNoCr(s: string)
    requires '\r' !in s
    ensures '\r' !in Decoded(s)
    decreases |s|
  {
    if s != [] {
      if s[0] == '\\' && |s| > 1 && Unescape(s[1]).Some? {
        DecodeHasNoCr(s[2..]);
      } else {
        DecodeHasNoCr(s[1..]);
      }
    }
  }

  /** Nothing read from any text has a carriage return in its value. */
  lemma {:induction false} ReadValuesHaveNoCr(raw: string, i: nat)
    requires i < |Lines(Unfolded(raw))| && ReadLine(Lines(Unfolded(raw))[i]).Some?
    ensures '\r' !in ReadLine(Lines(Unfolded(raw))[i]).value.value
  {
    ReplacedIsGone(ReplaceCrLf(raw), '\r', "\n");
    LinesKeepAbsent(NormalizeBreaks(raw), '\r');
    UnfoldHasNoCr(Lines(NormalizeBreaks(raw)));
    LinesKeepAbsent(Unfolded(raw), '\r');
    var line := Lines(Unfolded(raw))[i];
    assert '\r' !in line;
    DecodeHasNoCr(ParsePropertyLine(line).value.value);
  }

  /** One property written as one line comes back exactly when its value has no
      carriage return: the writer does not escape them, and the reader takes each
      one for a line break. */
  lemma {:induction false} RoundTripIff(p: Property)
    requires HeadOk(p)
    ensures ReadAll(Lines(Unfolded(PropertyText(p) + "\r\n"))) == Reads([p]) <==> '\r' !in p.value
  {
    var raw := PropertyText(p) + "\r\n";
    if '\r' !in p.value {
      var gs := [Start(PropertyText(p), "\r\n")];
      PropertyTextIsPlain(p);
      assert gs[1..] == [] && gs[..0] == [];
      assert RawText(gs) == raw;
      assert LogicalLines(gs) == PropertyTexts([p]);
      PipelineRoundTrip([p], gs);
    } else {
      var got := ReadAll(Lines(Unfolded(raw)));
      if got == Reads([p]) {
        assert got[0] == Reads([p])[0];
        ReadValuesHaveNoCr(raw, 0);
        assert false;
      }
    }
  }
}
