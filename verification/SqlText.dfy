/** The text of the WHERE clauses that the PostgreSQL storage adapter writes,
    and the lexical structure by which the server reads such text back. */
module SqlText {
  import opened Text

  datatype ComparisonOp = Gte | Lte | Gt | Lt

  datatype Connective = And | Or

  /** One condition on a row; `ph` is the number of its placeholder. */
  datatype Atom =
    | PluginIs(ph: nat)
    | CollectionIs(ph: nat)
    | FieldEquals(field: string, ph: nat)
    | FieldCompares(field: string, op: ComparisonOp, ph: nat)
    | FieldLike(field: string, ph: nat)

  /** A condition or a parenthesised group of conditions. */
  datatype Clause = Leaf(atom: Atom) | Group(conn: Connective, parts: seq<Clause>)

  // ---------------------------------------------------------------- rendering

  function OpText(op: ComparisonOp): string {
    match op case Gte => ">=" case Lte => "<=" case Gt => ">" case Lt => "<"
  }

  function Separator(conn: Connective): string {
    if conn == And then " AND " else " OR "
  }

  function RenderAtom(a: Atom): string {
    match a
    case PluginIs(ph) => "plugin_id = $" + Decimal(ph)
    case CollectionIs(ph) => "collection = $" + Decimal(ph)
    case FieldEquals(f, ph) => "data->>'" + f + "' = $" + Decimal(ph)
    case FieldCompares(f, op, ph) =>
      "CAST(data->>'" + f + "' AS NUMERIC) " + OpText(op) + " CAST($" + Decimal(ph) + " AS NUMERIC)"
    case FieldLike(f, ph) => "data->>'" + f + "' ILIKE $" + Decimal(ph) + " ESCAPE '\\'"
  }

  function RenderClause(c: Clause): string
    decreases c
  {
    match c
    case Leaf(a) => RenderAtom(a)
    case Group(conn, parts) => "(" + Join(RenderAll(parts), Separator(conn)) + ")"
  }

  function RenderAll(cs: seq<Clause>): (r: seq<string>)
    ensures |r| == |cs|
    decreases cs
  {
    if cs == [] then [] else [RenderClause(cs[0])] + RenderAll(cs[1..])
  }

  lemma {:induction false} RenderAllConcat(a: seq<Clause>, b: seq<Clause>)
    ensures RenderAll(a + b) == RenderAll(a) + RenderAll(b)
  {
    if a == [] {
      assert a + b == b;
    } else {
      assert (a + b)[1..] == a[1..] + b;
      RenderAllConcat(a[1..], b);
    }
  }

  // ------------------------------------------------------------------- lexing

  datatype Token =
    | Word(name: string)
    | Literal(text: string)
    | Placeholder(number: nat)
    | Symbol(sym: string)

  predicate IsWordChar(c: char) {
    'a' <= c <= 'z' || 'A' <= c <= 'Z' || IsDigit(c) || c == '_'
  }

  /** The longest prefix of `s` made of word characters. */
  function WordPrefix(s: string): (n: nat)
    ensures n <= |s| && forall i | 0 <= i < n :: IsWordChar(s[i])
  {
    if s == [] || !IsWordChar(s[0]) then 0 else 1 + WordPrefix(s[1..])
  }

  /** The longest prefix of `s` made of digits. */
  function DigitPrefix(s: string): (n: nat)
    ensures n <= |s| && forall i | 0 <= i < n :: IsDigit(s[i])
  {
    if s == [] || !IsDigit(s[0]) then 0 else 1 + DigitPrefix(s[1..])
  }

  /** Reads the rest of a quoted literal: its text and how many characters it
      takes, closing quote included; a doubled quote stands for one quote. */
  function QuotedRest(s: string): (r: Option<(string, nat)>)
    ensures r.Some? ==> 0 < r.value.1 <= |s|
  {
    if s == [] then None
    else if s[0] != '\'' then
      var rest := QuotedRest(s[1..]);
      if rest.None? then None else Some(([s[0]] + rest.value.0, 1 + rest.value.1))
    else if |s| > 1 && s[1] == '\'' then
      var rest := QuotedRest(s[2..]);
      if rest.None? then None else Some((['\''] + rest.value.0, 2 + rest.value.1))
    else Some(("", 1))
  }

  function SymbolPrefix(s: string): (n: nat)
    ensures n <= |s|
  {
    if |s| >= 3 && s[..3] == "->>" then 3
    else if |s| >= 2 && s[..2] in [">=", "<="] then 2
    else if |s| >= 1 && s[0] in "()=<>" then 1
    else 0
  }

  function Cons(t: Token, rest: Option<seq<Token>>): Option<seq<Token>> {
    if rest.None? then None else Some([t] + rest.value)
  }

  function LexWord(s: string): Option<seq<Token>>
    requires s != [] && IsWordChar(s[0])
    decreases |s|, 0
  {
    var n := WordPrefix(s);
    Cons(Word(s[..n]), Lex(s[n..]))
  }

  function LexPlaceholder(s: string): Option<seq<Token>>
    requires s != []
    decreases |s|, 0
  {
    var n := DigitPrefix(s[1..]);
    if n == 0 then None else Cons(Placeholder(DecimalValue(s[1..1 + n])), Lex(s[1 + n..]))
  }

  /** Splits the text into tokens; `None` when it has no lexical reading. */
  function Lex(s: string): Option<seq<Token>>
    decreases |s|, 1
  {
    if s == [] then Some([])
    else if s[0] == ' ' then Lex(s[1..])
    else if IsWordChar(s[0]) then LexWord(s)
    else if s[0] == '\'' then
      var q := QuotedRest(s[1..]);
      if q.None? then None else Cons(Literal(q.value.0), Lex(s[1 + q.value.1..]))
    else if s[0] == '$' then LexPlaceholder(s)
    else
      var n := SymbolPrefix(s);
      if n == 0 then None else Cons(Symbol(s[..n]), Lex(s[n..]))
  }

  // ------------------------------------------- what rendered text lexes back to

  function Prepend(ts: seq<Token>, rest: Option<seq<Token>>): Option<seq<Token>> {
    if rest.None? then None else Some(ts + rest.value)
  }

  /** `s` starts with text that lexes to `ts`, and continues with `rest`. */
  predicate Reads(s: string, ts: seq<Token>, rest: string) {
    Lex(s) == Prepend(ts, Lex(rest))
  }

  lemma {:induction false} PrependTwice(ts: seq<Token>, us: seq<Token>, r: Option<seq<Token>>)
    ensures Prepend(ts, Prepend(us, r)) == Prepend(ts + us, r)
  {
    if r.Some? {
      assert ts + (us + r.value) == (ts + us) + r.value;
    }
  }

  lemma {:induction false} Chain(s: string, ts: seq<Token>, mid: string, us: seq<Token>, rest: string, all: seq<Token>)
    requires Reads(s, ts, mid) && Reads(mid, us, rest)
    requires all == ts + us
    ensures Reads(s, all, rest)
  {
    PrependTwice(ts, us, Lex(rest));
  }

  function FieldTokens(f: string): seq<Token> {
    [Word("data"), Symbol("->>"), Literal(f)]
  }

  function AtomTokens(a: Atom): seq<Token> {
    match a
    case PluginIs(ph) => [Word("plugin_id"), Symbol("="), Placeholder(ph)]
    case CollectionIs(ph) => [Word("collection"), Symbol("="), Placeholder(ph)]
    case FieldEquals(f, ph) => FieldTokens(f) + [Symbol("="), Placeholder(ph)]
    case FieldCompares(f, op, ph) =>
      [Word("CAST"), Symbol("(")] + FieldTokens(f) +
      [Word("AS"), Word("NUMERIC"), Symbol(")"), Symbol(OpText(op)),
       Word("CAST"), Symbol("("), Placeholder(ph), Word("AS"), Word("NUMERIC"), Symbol(")")]
    case FieldLike(f, ph) =>
      FieldTokens(f) + [Word("ILIKE"), Placeholder(ph), Word("ESCAPE"), Literal("\\")]
  }

  function ConnectiveToken(conn: Connective): Token {
    Word(if conn == And then "AND" else "OR")
  }

  function ClauseTokens(c: Clause): seq<Token>
    decreases c
  {
    match c
    case Leaf(a) => AtomTokens(a)
    case Group(conn, parts) => [Symbol("(")] + JoinTokens(parts, conn) + [Symbol(")")]
  }

  function JoinTokens(cs: seq<Clause>, conn: Connective): seq<Token>
    decreases cs
  {
    if cs == [] then []
    else if |cs| == 1 then ClauseTokens(cs[0])
    else ClauseTokens(cs[0]) + [ConnectiveToken(conn)] + JoinTokens(cs[1..], conn)
  }

  /** `validate_field_name`: a non-empty name of ASCII letters, digits, `_` and `.`. */
  predicate ValidFieldName(field: string) {
    field != [] && forall i | 0 <= i < |field| :: IsWordChar(field[i]) || field[i] == '.'
  }

  predicate ValidAtom(a: Atom) {
    (a.FieldEquals? || a.FieldCompares? || a.FieldLike?) ==> ValidFieldName(a.field)
  }

  /** Every field name is valid and no group is empty. */
  predicate ValidClause(c: Clause)
    decreases c
  {
    match c
    case Leaf(a) => ValidAtom(a)
    case Group(_, parts) => parts != [] && ValidClauses(parts)
  }

  predicate ValidClauses(cs: seq<Clause>)
    decreases cs
  {
    cs == [] || (ValidClause(cs[0]) && ValidClauses(cs[1..]))
  }

  /** Text after which a word or a number has certainly ended. */
  predicate AtBoundary(rest: string) {
    rest == [] || (!IsWordChar(rest[0]) && rest[0] != '\'')
  }

  lemma {:induction false} WordPrefixOf(w: string, rest: string)
    requires forall i | 0 <= i < |w| :: IsWordChar(w[i])
    requires AtBoundary(rest)
    ensures WordPrefix(w + rest) == |w|
  {
    if w == [] {
      assert w + rest == rest;
    } else {
      assert (w + rest)[1..] == w[1..] + rest;
      WordPrefixOf(w[1..], rest);
    }
  }

  lemma {:induction false} LexesWord(w: string, rest: string)
    requires w != [] && forall i | 0 <= i < |w| :: IsWordChar(w[i])
    requires AtBoundary(rest)
    ensures Reads(w + rest, [Word(w)], rest)
  {
    WordPrefixOf(w, rest);
    assert (w + rest)[..|w|] == w && (w + rest)[|w|..] == rest;
  }

  lemma {:induction false} LexesSpace(rest: string)
    ensures Reads(" " + rest, [], rest)
  {
    assert (" " + rest)[1..] == rest;
    assert Lex(rest).Some? ==> [] + Lex(rest).value == Lex(rest).value;
  }

  lemma {:induction false} ReadsSpaced(ts: seq<Token>, mid: string, rest: string)
    requires Reads(mid, ts, rest)
    ensures Reads(" " + mid, ts, rest)
  {
    LexesSpace(mid);
    Chain(" " + mid, [], mid, ts, rest, ts);
  }

  lemma {:induction false} LexesSymbol(sym: string, rest: string)
    requires sym in ["(", ")", "=", ">=", "<=", ">", "<", "->>"]
    requires rest != [] && rest[0] in "><=-" ==> sym in ["(", ")"]
    ensures Reads(sym + rest, [Symbol(sym)], rest)
  {
    var s := sym + rest;
    assert s[..|sym|] == sym && s[|sym|..] == rest;
    assert SymbolPrefix(s) == |sym| by {
      if |s| >= 3 { assert s[..3][0] == s[0]; }
      if |s| >= 2 { assert s[..2][0] == s[0] && s[..2][1] == s[1]; }
    }
  }

  lemma {:induction false} DigitPrefixOf(d: string, rest: string)
    requires forall i | 0 <= i < |d| :: IsDigit(d[i])
    requires AtBoundary(rest)
    ensures DigitPrefix(d + rest) == |d|
  {
    if d == [] {
      assert d + rest == rest;
    } else {
      assert (d + rest)[1..] == d[1..] + rest;
      DigitPrefixOf(d[1..], rest);
    }
  }

  lemma {:induction false} LexesDigits(s: string, d: string, rest: string)
    requires d != [] && forall i | 0 <= i < |d| :: IsDigit(d[i])
    requires AtBoundary(rest)
    requires s != [] && s[0] == '$' && s[1..] == d + rest
    ensures LexPlaceholder(s) == Prepend([Placeholder(DecimalValue(d))], Lex(rest))
  {
    DigitPrefixOf(d, rest);
    assert s[1..1 + |d|] == s[1..][..|d|] == d;
    assert s[1 + |d|..] == s[1..][|d|..] == rest;
  }

  lemma {:induction false} LexesPlaceholder(ph: nat, rest: string)
    requires AtBoundary(rest)
    ensures Reads("$" + Decimal(ph) + rest, [Placeholder(ph)], rest)
  {
    var s := "$" + Decimal(ph) + rest;
    assert s[1..] == Decimal(ph) + rest;
    LexesDigits(s, Decimal(ph), rest);
    DecimalRoundTrip(ph);
    assert Lex(s) == LexPlaceholder(s);
  }

  lemma {:induction false} QuotedRestOf(text: string, rest: string)
    requires '\'' !in text
    requires rest == [] || rest[0] != '\''
    ensures QuotedRest(text + "'" + rest) == Some((text, |text| + 1))
  {
    if text == [] {
      assert text + "'" + rest == "'" + rest;
    } else {
      assert (text + "'" + rest)[1..] == text[1..] + "'" + rest;
      QuotedRestOf(text[1..], rest);
      assert [text[0]] + text[1..] == text;
    }
  }

  lemma {:induction false} LexesLiteral(text: string, rest: string)
    requires '\'' !in text
    requires rest == [] || rest[0] != '\''
    ensures Reads("'" + text + "'" + rest, [Literal(text)], rest)
  {
    var s := "'" + text + "'" + rest;
    QuotedRestOf(text, rest);
    assert s[1..] == text + "'" + rest;
    assert s[1 + (|text| + 1)..] == rest;
  }

  lemma {:induction false} LexesField(f: string, rest: string)
    requires ValidFieldName(f)
    requires rest == [] || rest[0] != '\''
    ensures Reads("data->>'" + f + "'" + rest, FieldTokens(f), rest)
  {
    var s2 := "'" + f + "'" + rest;
    var s1 := "->>" + s2;
    assert "data->>'" + f + "'" + rest == "data" + s1;
    LexesWord("data", s1);
    LexesSymbol("->>", s2);
    LexesLiteral(f, rest);
    Chain(s1, [Symbol("->>")], s2, [Literal(f)], rest, [Symbol("->>"), Literal(f)]);
    Chain("data" + s1, [Word("data")], s1, [Symbol("->>"), Literal(f)], rest, FieldTokens(f));
  }

  lemma {:induction false} LexesEqualsPlaceholder(ph: nat, rest: string)
    requires AtBoundary(rest)
    ensures Reads(" = $" + Decimal(ph) + rest, [Symbol("="), Placeholder(ph)], rest)
  {
    var s3 := "$" + Decimal(ph) + rest;
    var s2 := "=" + (" " + s3);
    assert " = $" + Decimal(ph) + rest == " " + s2;
    LexesPlaceholder(ph, rest);
    ReadsSpaced([Placeholder(ph)], s3, rest);
    LexesSymbol("=", " " + s3);
    Chain(s2, [Symbol("=")], " " + s3, [Placeholder(ph)], rest, [Symbol("="), Placeholder(ph)]);
    ReadsSpaced([Symbol("="), Placeholder(ph)], s2, rest);
  }

  lemma {:induction false} LexesColumn(column: string, ph: nat, rest: string)
    requires column != [] && forall i | 0 <= i < |column| :: IsWordChar(column[i])
    requires AtBoundary(rest)
    ensures Reads(column + " = $" + Decimal(ph) + rest, [Word(column), Symbol("="), Placeholder(ph)], rest)
  {
    var s1 := " = $" + Decimal(ph) + rest;
    assert column + " = $" + Decimal(ph) + rest == column + s1;
    LexesWord(column, s1);
    LexesEqualsPlaceholder(ph, rest);
    Chain(column + s1, [Word(column)], s1, [Symbol("="), Placeholder(ph)], rest, [Word(column), Symbol("="), Placeholder(ph)]);
  }

  lemma {:induction false} LexesAsNumeric(rest: string)
    ensures Reads(" AS NUMERIC)" + rest, [Word("AS"), Word("NUMERIC"), Symbol(")")], rest)
  {
    var s3 := ")" + rest;
    var s2 := "NUMERIC" + s3;
    var s1 := "AS" + (" " + s2);
    assert " AS NUMERIC)" + rest == " " + s1;
    LexesSymbol(")", rest);
    LexesWord("NUMERIC", s3);
    Chain(s2, [Word("NUMERIC")], s3, [Symbol(")")], rest, [Word("NUMERIC"), Symbol(")")]);
    ReadsSpaced([Word("NUMERIC"), Symbol(")")], s2, rest);
    LexesWord("AS", " " + s2);
    Chain(s1, [Word("AS")], " " + s2, [Word("NUMERIC"), Symbol(")")], rest, [Word("AS"), Word("NUMERIC"), Symbol(")")]);
    ReadsSpaced([Word("AS"), Word("NUMERIC"), Symbol(")")], s1, rest);
  }

  lemma {:induction false} LexesCastOpen(rest: string)
    ensures Reads("CAST(" + rest, [Word("CAST"), Symbol("(")], rest)
  {
    assert "CAST(" + rest == "CAST" + ("(" + rest);
    LexesWord("CAST", "(" + rest);
    LexesSymbol("(", rest);
    Chain("CAST(" + rest, [Word("CAST")], "(" + rest, [Symbol("(")], rest, [Word("CAST"), Symbol("(")]);
  }

  lemma {:induction false} LexesCastField(f: string, rest: string)
    requires ValidFieldName(f)
    ensures Reads("CAST(data->>'" + f + "' AS NUMERIC)" + rest,
                  [Word("CAST"), Symbol("(")] + FieldTokens(f) + [Word("AS"), Word("NUMERIC"), Symbol(")")], rest)
  {
    var s2 := " AS NUMERIC)" + rest;
    var s1 := "data->>'" + f + "'" + s2;
    assert "CAST(data->>'" + f + "' AS NUMERIC)" + rest == "CAST(" + s1;
    LexesCastOpen(s1);
    LexesField(f, s2);
    LexesAsNumeric(rest);
    Chain("CAST(" + s1, [Word("CAST"), Symbol("(")], s1, FieldTokens(f), s2, [Word("CAST"), Symbol("(")] + FieldTokens(f));
    Chain("CAST(" + s1, [Word("CAST"), Symbol("(")] + FieldTokens(f), s2, [Word("AS"), Word("NUMERIC"), Symbol(")")], rest,
      [Word("CAST"), Symbol("(")] + FieldTokens(f) + [Word("AS"), Word("NUMERIC"), Symbol(")")]);
  }

  lemma {:induction false} LexesCastPlaceholder(ph: nat, rest: string)
    ensures Reads("CAST($" + Decimal(ph) + " AS NUMERIC)" + rest,
                  [Word("CAST"), Symbol("("), Placeholder(ph), Word("AS"), Word("NUMERIC"), Symbol(")")], rest)
  {
    var s2 := " AS NUMERIC)" + rest;
    var s1 := "$" + Decimal(ph) + s2;
    assert "CAST($" + Decimal(ph) + " AS NUMERIC)" + rest == "CAST(" + s1;
    LexesCastOpen(s1);
    LexesPlaceholder(ph, s2);
    LexesAsNumeric(rest);
    Chain(s1, [Placeholder(ph)], s2, [Word("AS"), Word("NUMERIC"), Symbol(")")], rest,
      [Placeholder(ph), Word("AS"), Word("NUMERIC"), Symbol(")")]);
    Chain("CAST(" + s1, [Word("CAST"), Symbol("(")], s1, [Placeholder(ph), Word("AS"), Word("NUMERIC"), Symbol(")")], rest,
      [Word("CAST"), Symbol("("), Placeholder(ph), Word("AS"), Word("NUMERIC"), Symbol(")")]);
  }

  lemma {:induction false} LexesOp(op: ComparisonOp, rest: string)
    ensures Reads(" " + OpText(op) + " " + rest, [Symbol(OpText(op))], rest)
  {
    var s1 := OpText(op) + (" " + rest);
    assert " " + OpText(op) + " " + rest == " " + s1;
    LexesSpace(rest);
    LexesSymbol(OpText(op), " " + rest);
    Chain(s1, [Symbol(OpText(op))], " " + rest, [], rest, [Symbol(OpText(op))]);
    ReadsSpaced([Symbol(OpText(op))], s1, rest);
  }

  lemma {:induction false} LexesComparison(f: string, op: ComparisonOp, ph: nat, rest: string)
    requires ValidFieldName(f)
    ensures Reads(RenderAtom(FieldCompares(f, op, ph)) + rest, AtomTokens(FieldCompares(f, op, ph)), rest)
  {
    var cast := [Word("CAST"), Symbol("(")] + FieldTokens(f) + [Word("AS"), Word("NUMERIC"), Symbol(")")];
    var against := [Word("CAST"), Symbol("("), Placeholder(ph), Word("AS"), Word("NUMERIC"), Symbol(")")];
    var s2 := "CAST($" + Decimal(ph) + " AS NUMERIC)" + rest;
    var s1 := " " + OpText(op) + " " + s2;
    var s0 := "CAST(data->>'" + f + "' AS NUMERIC)" + s1;
    assert RenderAtom(FieldCompares(f, op, ph)) + rest == s0;
    LexesCastField(f, s1);
    LexesOp(op, s2);
    LexesCastPlaceholder(ph, rest);
    Chain(s1, [Symbol(OpText(op))], s2, against, rest, [Symbol(OpText(op))] + against);
    Chain(s0, cast, s1, [Symbol(OpText(op))] + against, rest, AtomTokens(FieldCompares(f, op, ph)));
  }

  lemma {:induction false} LexesEscapeClause(rest: string)
    requires rest == [] || rest[0] != '\''
    ensures Reads(" ESCAPE '\\'" + rest, [Word("ESCAPE"), Literal("\\")], rest)
  {
    var s2 := "'" + "\\" + "'" + rest;
    var s1 := "ESCAPE" + (" " + s2);
    assert " ESCAPE '\\'" + rest == " " + s1;
    LexesLiteral("\\", rest);
    ReadsSpaced([Literal("\\")], s2, rest);
    LexesWord("ESCAPE", " " + s2);
    Chain(s1, [Word("ESCAPE")], " " + s2, [Literal("\\")], rest, [Word("ESCAPE"), Literal("\\")]);
    ReadsSpaced([Word("ESCAPE"), Literal("\\")], s1, rest);
  }

  lemma {:induction false} LexesIlike(ph: nat, rest: string)
    requires AtBoundary(rest)
    ensures Reads(" ILIKE $" + Decimal(ph) + rest, [Word("ILIKE"), Placeholder(ph)], rest)
  {
    var s2 := "$" + Decimal(ph) + rest;
    var s1 := "ILIKE" + (" " + s2);
    assert " ILIKE $" + Decimal(ph) + rest == " " + s1;
    LexesPlaceholder(ph, rest);
    ReadsSpaced([Placeholder(ph)], s2, rest);
    LexesWord("ILIKE", " " + s2);
    Chain(s1, [Word("ILIKE")], " " + s2, [Placeholder(ph)], rest, [Word("ILIKE"), Placeholder(ph)]);
    ReadsSpaced([Word("ILIKE"), Placeholder(ph)], s1, rest);
  }

  lemma {:induction false} LexesLike(f: string, ph: nat, rest: string)
    requires ValidFieldName(f) && AtBoundary(rest)
    ensures Reads(RenderAtom(FieldLike(f, ph)) + rest, AtomTokens(FieldLike(f, ph)), rest)
  {
    var s2 := " ESCAPE '\\'" + rest;
    var s1 := " ILIKE $" + Decimal(ph) + s2;
    var s0 := "data->>'" + f + "'" + s1;
    assert RenderAtom(FieldLike(f, ph)) + rest == s0;
    LexesField(f, s1);
    LexesIlike(ph, s2);
    LexesEscapeClause(rest);
    Chain(s1, [Word("ILIKE"), Placeholder(ph)], s2, [Word("ESCAPE"), Literal("\\")], rest,
      [Word("ILIKE"), Placeholder(ph), Word("ESCAPE"), Literal("\\")]);
    Chain(s0, FieldTokens(f), s1, [Word("ILIKE"), Placeholder(ph), Word("ESCAPE"), Literal("\\")], rest,
      AtomTokens(FieldLike(f, ph)));
  }

  lemma {:induction false} LexesEquality(f: string, ph: nat, rest: string)
    requires ValidFieldName(f) && AtBoundary(rest)
    ensures Reads(RenderAtom(FieldEquals(f, ph)) + rest, AtomTokens(FieldEquals(f, ph)), rest)
  {
    var s1 := " = $" + Decimal(ph) + rest;
    assert RenderAtom(FieldEquals(f, ph)) + rest == "data->>'" + f + "'" + s1;
    LexesField(f, s1);
    LexesEqualsPlaceholder(ph, rest);
    Chain("data->>'" + f + "'" + s1, FieldTokens(f), s1, [Symbol("="), Placeholder(ph)], rest, AtomTokens(FieldEquals(f, ph)));
  }

  lemma {:induction false} LexesAtom(a: Atom, rest: string)
    requires ValidAtom(a) && AtBoundary(rest)
    ensures Reads(RenderAtom(a) + rest, AtomTokens(a), rest)
  {
    match a
    case PluginIs(ph) =>
      LexesColumn("plugin_id", ph, rest);
      assert "plugin_id = $" == "plugin_id" + " = $";
    case CollectionIs(ph) =>
      LexesColumn("collection", ph, rest);
      assert "collection = $" == "collection" + " = $";
    case FieldEquals(f, ph) => LexesEquality(f, ph, rest);
    case FieldCompares(f, op, ph) => LexesComparison(f, op, ph, rest);
    case FieldLike(f, ph) => LexesLike(f, ph, rest);
  }

  lemma {:induction false} LexesConnective(conn: Connective, rest: string)
    ensures Reads(Separator(conn) + rest, [ConnectiveToken(conn)], rest)
  {
    var w := if conn == And then "AND" else "OR";
    var s1 := w + (" " + rest);
    assert Separator(conn) + rest == " " + s1;
    LexesSpace(rest);
    LexesWord(w, " " + rest);
    Chain(s1, [Word(w)], " " + rest, [], rest, [Word(w)]);
    ReadsSpaced([Word(w)], s1, rest);
  }

  lemma {:induction false} LexesClause(c: Clause, rest: string)
    requires ValidClause(c) && AtBoundary(rest)
    ensures Reads(RenderClause(c) + rest, ClauseTokens(c), rest)
    decreases c
  {
    match c
    case Leaf(a) => LexesAtom(a, rest);
    case Group(conn, parts) =>
      var s2 := ")" + rest;
      var s1 := Join(RenderAll(parts), Separator(conn)) + s2;
      assert RenderClause(c) + rest == "(" + s1;
      LexesSymbol("(", s1);
      LexesJoin(parts, conn, s2);
      LexesSymbol(")", rest);
      Chain("(" + s1, [Symbol("(")], s1, JoinTokens(parts, conn), s2, [Symbol("(")] + JoinTokens(parts, conn));
      Chain("(" + s1, [Symbol("(")] + JoinTokens(parts, conn), s2, [Symbol(")")], rest, ClauseTokens(c));
  }

  /** Joined fragments lex back to the joined tokens of their clauses. */
  lemma {:induction false} LexesJoin(cs: seq<Clause>, conn: Connective, rest: string)
    requires cs != [] && ValidClauses(cs) && AtBoundary(rest)
    ensures Reads(Join(RenderAll(cs), Separator(conn)) + rest, JoinTokens(cs, conn), rest)
    decreases cs
  {
    if |cs| == 1 {
      LexesClause(cs[0], rest);
    } else {
      var s2 := Join(RenderAll(cs[1..]), Separator(conn)) + rest;
      var s1 := Separator(conn) + s2;
      var s0 := RenderClause(cs[0]) + s1;
      assert RenderAll(cs)[1..] == RenderAll(cs[1..]);
      JoinUnfolds(RenderAll(cs), Separator(conn), rest);
      LexesClause(cs[0], s1);
      LexesConnective(conn, s2);
      LexesJoin(cs[1..], conn, rest);
      Chain(s0, ClauseTokens(cs[0]), s1, [ConnectiveToken(conn)], s2, ClauseTokens(cs[0]) + [ConnectiveToken(conn)]);
      Chain(s0, ClauseTokens(cs[0]) + [ConnectiveToken(conn)], s2, JoinTokens(cs[1..], conn), rest, JoinTokens(cs, conn));
    }
  }

  /** The tokens of a whole WHERE clause are read back exactly. */
  lemma {:induction false} LexesWhere(cs: seq<Clause>, conn: Connective)
    requires cs != [] && ValidClauses(cs)
    ensures Lex(Join(RenderAll(cs), Separator(conn))) == Some(JoinTokens(cs, conn))
  {
    LexesJoin(cs, conn, "");
    assert Join(RenderAll(cs), Separator(conn)) + "" == Join(RenderAll(cs), Separator(conn));
    assert JoinTokens(cs, conn) + [] == JoinTokens(cs, conn);
  }
}
