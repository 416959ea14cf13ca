/** Line unfolding and escape decoding for vCard and iCalendar text, and the
    vCard writer's escaping and property-line parsing. */
module DavText {
  import opened Text

  // ------------------------------------------------------------------ unfolding

  /** `str::replace("\r\n", "\n")`. */
  function ReplaceCrLf(s: string): string {
    if s == [] then []
    else if |s| >= 2 && s[0] == '\r' && s[1] == '\n' then "\n" + ReplaceCrLf(s[2..])
    else [s[0]] + ReplaceCrLf(s[1..])
  }

  function NormalizeBreaks(raw: string): string {
    ReplaceChar(ReplaceCrLf(raw), '\r', "\n")
  }

  /** The index of the first line feed, or the length of the text. */
  function FirstBreak(s: string): (n: nat)
    ensures n <= |s| && (n < |s| ==> s[n] == '\n') && forall i | 0 <= i < n :: s[i] != '\n'
  {
    if s == [] || s[0] == '\n' then 0 else 1 + FirstBreak(s[1..])
  }

  /** `str::lines` on text without carriage returns: a final break adds no line. */
  function Lines(s: string): seq<string>
    decreases |s|
  {
    if s == [] then [] else
    var n := FirstBreak(s);
    [s[..n]] + if n < |s| then Lines(s[n + 1..]) else []
  }

  predicate IsContinuation(line: string) {
    line != [] && (line[0] == ' ' || line[0] == '\t')
  }

  /** The text so far, extended by one physical line. */
  function UnfoldLine(acc: string, line: string): string {
    if IsContinuation(line) then acc + line[1..]
    else if acc == [] then line
    else acc + "\n" + line
  }

  function UnfoldAll(lines: seq<string>): string {
    if lines == [] then "" else UnfoldLine(UnfoldAll(lines[..|lines| - 1]), lines[|lines| - 1])
  }

  function Unfolded(raw: string): string {
    UnfoldAll(Lines(NormalizeBreaks(raw)))
  }

  /** `unfold_lines`. */
  method UnfoldLines(raw: string) returns (result: string)
    ensures result == Unfolded(raw)
  {
    var lines := Lines(NormalizeBreaks(raw));
    result := "";
    var i := 0;
    while i < |lines|
      invariant 0 <= i <= |lines|
      invariant result == UnfoldAll(lines[..i])
    {
      var line := lines[i];
      assert lines[..i + 1][..i] == lines[..i];
      if line != [] && (line[0] == ' ' || line[0] == '\t') {
        result := result + line[1..];
      } else {
        if result != [] {
          result := result + ['\n'];
        }
        result := result + line;
      }
      i := i + 1;
    }
    assert lines[..i] == lines;
  }

  // ------------------------------------------------------------------- escaping

  /** What follows a backslash to form an escape, and what the escape stands for. */
  function Unescape(c: char): Option<char> {
    if c == 'n' then Some('\n') else if c == ',' || c == ';' || c == '\\' then Some(c) else None
  }

  function Decoded(s: string): string {
    if s == [] then []
    else if s[0] == '\\' && |s| > 1 && Unescape(s[1]).Some? then [Unescape(s[1]).value] + Decoded(s[2..])
    else [s[0]] + Decoded(s[1..])
  }

  lemma {:induction false} DecodeStep(value: string, i: nat)
    requires i < |value|
    ensures
      var escape := value[i] == '\\' && i + 1 < |value| && Unescape(value[i + 1]).Some?;
      && (escape ==> Decoded(value[i..]) == [Unescape(value[i + 1]).value] + Decoded(value[i + 2..]))
      && (!escape ==> Decoded(value[i..]) == [value[i]] + Decoded(value[i + 1..]))
  {
    assert value[i..][1..] == value[i + 1..];
    if i + 1 < |value| {
      assert value[i..][2..] == value[i + 2..];
    }
  }

  lemma {:induction false} MoveOver(done: string, c: char, rest: string)
    ensures (done + [c]) + rest == done + ([c] + rest)
  {
  }

  /** `decode_escaped_value`: one pass with one character of lookahead; unknown
      escapes and a final backslash are kept. */
  method DecodeEscapedValue(value: string) returns (result: string)
    ensures result == Decoded(value)
  {
    result := "";
    var i := 0;
    assert value[0..] == value;
    while i < |value|
      invariant 0 <= i <= |value|
      invariant result + Decoded(value[i..]) == Decoded(value)
    {
      DecodeStep(value, i);
      var c := value[i];
      i := i + 1;
      if c == '\\' && i < |value| && Unescape(value[i]).Some? {
        c := Unescape(value[i]).value;
        i := i + 1;
      }
      MoveOver(result, c, Decoded(value[i..]));
      result := result + [c];
    }
    assert result + [] == result;
  }

  /** `escape_value`: four replacements, the backslash first. */
  function EscapeValue(s: string): string {
    ReplaceChar(ReplaceChar(ReplaceChar(ReplaceChar(s, '\\', "\\\\"), ',', "\\,"), ';', "\\;"), '\n', "\\n")
  }

  // ------------------------------------------------------------- property lines

  /** `NAME=value`, or a bare value that stands for a TYPE. */
  function ParseParam(p: string): (string, string) {
    var n := IndexOf(p, '=');
    if n < |p| then (p[..n], p[n + 1..]) else ("TYPE", p)
  }

  function ParseParams(parts: seq<string>): seq<(string, string)> {
    seq(|parts|, i requires 0 <= i < |parts| => ParseParam(parts[i]))
  }

  datatype PropertyLine = PropertyLine(name: string, params: seq<(string, string)>, value: string)

  /** `parse_property_line`: nothing without a colon. */
  function ParsePropertyLine(line: string): Option<PropertyLine> {
    var l := if line != [] && line[|line| - 1] == '\r' then line[..|line| - 1] else line;
    var n := IndexOf(l, ':');
    if n == |l| then None else
    var parts := Split(l[..n], ';');
    Some(PropertyLine(parts[0], ParseParams(parts[1..]), l[n + 1..]))
  }

  /** A line without a colon is no property, and only that. */
  lemma {:induction false} PropertyIff(line: string)
    ensures ParsePropertyLine(line).Some? <==> ':' in line
  {
    if line != [] {
      assert line == line[..|line| - 1] + [line[|line| - 1]];
    }
  }

  /** One carriage return at the end belongs to the line break: the line reads as it
      does without it … */
  lemma {:induction false} CarriageReturnDropped(line: string)
    requires line == [] || line[|line| - 1] != '\r'
    ensures ParsePropertyLine(line + ['\r']) == ParsePropertyLine(line)
  {
    assert (line + ['\r'])[..|line|] == line;
  }

  /** … and one before it stays in the value. */
  lemma {:induction false} CarriageReturnKept(line: string)
    requires ':' in line
    ensures
      var value := line[IndexOf(line, ':') + 1..];
      var p := ParsePropertyLine((line + ['\r']) + ['\r']);
      p.Some? && p.value.value == value + ['\r']
  {
    var once, n := line + ['\r'], IndexOf(line, ':');
    assert (once + ['\r'])[..|once|] == once;
    assert once[n] == ':' && forall i | 0 <= i < n :: once[i] == line[i];
    assert IndexOf(once, ':') == n;
    assert once[n + 1..] == line[n + 1..] + ['\r'];
  }

  /** An escaped `n` is a line feed, an escaped comma, semicolon or backslash is itself,
      and before any other character the backslash is kept. */
  lemma {:induction false} EscapeDecoded(c: char, rest: string)
    ensures Decoded(['\\', c] + rest) == (if c == 'n' then ['\n'] + Decoded(rest)
                                          else if c == ',' || c == ';' || c == '\\' then [c] + Decoded(rest)
                                          else ['\\'] + Decoded([c] + rest))
  {
    assert (['\\', c] + rest)[1..] == [c] + rest;
    assert (['\\', c] + rest)[2..] == rest;
  }

  /** Other characters, and a backslash at the end, are kept. */
  lemma {:induction false} PlainDecoded(c: char, rest: string)
    requires c != '\\' || rest == []
    ensures Decoded([c] + rest) == [c] + Decoded(rest)
  {
    assert ([c] + rest)[1..] == rest;
  }
}
