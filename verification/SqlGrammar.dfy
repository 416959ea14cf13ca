/** How the server parses a WHERE condition: AND binds tighter than OR, and
    parentheses group. Rendered clauses are read back as the intended tree. */
module SqlGrammar {
  import opened Text
  import opened SqlText

  type Parsed<T> = Option<(T, seq<Token>)>

  /** `data ->> '<field>'` at the start of the tokens. */
  predicate StartsWithField(ts: seq<Token>) {
    |ts| >= 3 && ts[0] == Word("data") && ts[1] == Symbol("->>") && ts[2].Literal?
  }

  function ParseOp(t: Token): Option<ComparisonOp> {
    if t == Symbol(">=") then Some(Gte)
    else if t == Symbol("<=") then Some(Lte)
    else if t == Symbol(">") then Some(Gt)
    else if t == Symbol("<") then Some(Lt)
    else None
  }

  /** `AS NUMERIC )` at the start of the tokens. */
  predicate StartsWithAsNumeric(ts: seq<Token>) {
    |ts| >= 3 && ts[0] == Word("AS") && ts[1] == Word("NUMERIC") && ts[2] == Symbol(")")
  }

  /** `CAST ( data ->> '<field>' AS NUMERIC ) <op> CAST ( $n AS NUMERIC )`. */
  function ParseComparison(ts: seq<Token>): (r: Parsed<Atom>)
    ensures r.Some? ==> |r.value.1| < |ts|
  {
    if |ts| >= 15 && ts[0] == Word("CAST") && ts[1] == Symbol("(") && StartsWithField(ts[2..]) &&
       StartsWithAsNumeric(ts[5..]) && ParseOp(ts[8]).Some? &&
       ts[9] == Word("CAST") && ts[10] == Symbol("(") && ts[11].Placeholder? && StartsWithAsNumeric(ts[12..])
    then Some((FieldCompares(ts[4].text, ParseOp(ts[8]).value, ts[11].number), ts[15..]))
    else None
  }

  function ParseAtom(ts: seq<Token>): (r: Parsed<Atom>)
    ensures r.Some? ==> |r.value.1| < |ts|
  {
    if |ts| >= 3 && ts[0] == Word("plugin_id") && ts[1] == Symbol("=") && ts[2].Placeholder? then
      Some((PluginIs(ts[2].number), ts[3..]))
    else if |ts| >= 3 && ts[0] == Word("collection") && ts[1] == Symbol("=") && ts[2].Placeholder? then
      Some((CollectionIs(ts[2].number), ts[3..]))
    else if StartsWithField(ts) && |ts| >= 5 && ts[3] == Symbol("=") && ts[4].Placeholder? then
      Some((FieldEquals(ts[2].text, ts[4].number), ts[5..]))
    else if StartsWithField(ts) && |ts| >= 7 && ts[3] == Word("ILIKE") && ts[4].Placeholder? &&
            ts[5] == Word("ESCAPE") && ts[6] == Literal("\\") then
      Some((FieldLike(ts[2].text, ts[4].number), ts[7..]))
    else
      ParseComparison(ts)
  }

  /** One operand alone needs no group. */
  function Collapse(conn: Connective, cs: seq<Clause>): Clause {
    if |cs| == 1 then cs[0] else Group(conn, cs)
  }

  /** A condition or a parenthesised expression. */
  function ParseFactor(ts: seq<Token>): (r: Parsed<Clause>)
    ensures r.Some? ==> |r.value.1| < |ts|
    decreases |ts|, 0
  {
    if ts != [] && ts[0] == Symbol("(") then
      var e := ParseJoined(ts[1..], Or);
      if e.Some? && e.value.1 != [] && e.value.1[0] == Symbol(")") then Some((e.value.0, e.value.1[1..])) else None
    else
      var a := ParseAtom(ts);
      if a.None? then None else Some((Leaf(a.value.0), a.value.1))
  }

  /** Operands separated by one connective; the operands of OR are themselves
      AND-expressions, the operands of AND are factors. */
  function ParseOperands(ts: seq<Token>, conn: Connective): (r: Parsed<seq<Clause>>)
    ensures r.Some? ==> |r.value.1| < |ts| && r.value.0 != []
    decreases |ts|, if conn == Or then 3 else 1
  {
    var first := if conn == Or then ParseJoined(ts, And) else ParseFactor(ts);
    if first.None? then None
    else if first.value.1 != [] && first.value.1[0] == ConnectiveToken(conn) then
      var more := ParseOperands(first.value.1[1..], conn);
      if more.None? then None else Some(([first.value.0] + more.value.0, more.value.1))
    else Some(([first.value.0], first.value.1))
  }

  function ParseJoined(ts: seq<Token>, conn: Connective): (r: Parsed<Clause>)
    ensures r.Some? ==> |r.value.1| < |ts|
    decreases |ts|, if conn == Or then 4 else 2
  {
    var ops := ParseOperands(ts, conn);
    if ops.None? then None else Some((Collapse(conn, ops.value.0), ops.value.1))
  }

  /** The whole condition, with nothing left over. */
  function ParseCondition(ts: seq<Token>): Option<Clause> {
    var e := ParseJoined(ts, Or);
    if e.Some? && e.value.1 == [] then Some(e.value.0) else None
  }

  /** The server's reading of a WHERE text. */
  function ReadCondition(text: string): Option<Clause> {
    var ts := Lex(text);
    if ts.None? then None else ParseCondition(ts.value)
  }

  /** The tree with one-element groups collapsed: parentheses around a single
      condition leave no trace in the parse. */
  function Normal(c: Clause): Clause
    decreases c
  {
    match c
    case Leaf(_) => c
    case Group(conn, parts) => Collapse(conn, NormalAll(parts))
  }

  function NormalAll(cs: seq<Clause>): (r: seq<Clause>)
    ensures |r| == |cs|
    decreases cs
  {
    if cs == [] then [] else [Normal(cs[0])] + NormalAll(cs[1..])
  }

  lemma {:induction false} ParsesComparison(f: string, op: ComparisonOp, ph: nat, rest: seq<Token>)
    ensures ParseAtom(AtomTokens(FieldCompares(f, op, ph)) + rest) == Some((FieldCompares(f, op, ph), rest))
  {
    var a := AtomTokens(FieldCompares(f, op, ph));
    assert a == [Word("CAST"), Symbol("("), Word("data"), Symbol("->>"), Literal(f),
                 Word("AS"), Word("NUMERIC"), Symbol(")"), Symbol(OpText(op)),
                 Word("CAST"), Symbol("("), Placeholder(ph), Word("AS"), Word("NUMERIC"), Symbol(")")];
    var ts := a + rest;
    assert ts[15..] == rest;
    assert forall i | 0 <= i < 15 :: ts[i] == a[i];
    assert ParseOp(ts[8]) == Some(op);
  }

  lemma {:induction false} ParsesAtom(a: Atom, rest: seq<Token>)
    ensures ParseAtom(AtomTokens(a) + rest) == Some((a, rest))
  {
    var ts := AtomTokens(a) + rest;
    assert ts[|AtomTokens(a)|..] == rest;
    if a.FieldCompares? {
      ParsesComparison(a.field, a.op, a.ph, rest);
    }
  }

  /** Text after a complete operand: the end or a closing parenthesis. */
  predicate AtEnd(rest: seq<Token>) {
    rest == [] || rest[0] == Symbol(")")
  }

  lemma {:induction false} ParsesFactor(c: Clause, rest: seq<Token>)
    requires ValidClause(c)
    ensures ParseFactor(ClauseTokens(c) + rest) == Some((Normal(c), rest))
    decreases c, 0
  {
    var ts := ClauseTokens(c) + rest;
    match c
    case Leaf(a) =>
      assert ts[0] == AtomTokens(a)[0];
      ParsesAtom(a, rest);
    case Group(conn, parts) =>
      var tail := [Symbol(")")] + rest;
      assert ts[1..] == JoinTokens(parts, conn) + tail;
      ParsesJoined(parts, conn, tail);
      assert tail[1..] == rest;
  }

  lemma {:induction false} JoinTokensUnfolds(cs: seq<Clause>, conn: Connective, rest: seq<Token>)
    requires |cs| > 1
    ensures JoinTokens(cs, conn) + rest
         == ClauseTokens(cs[0]) + ([ConnectiveToken(conn)] + (JoinTokens(cs[1..], conn) + rest))
  {
  }

  function Operand(ts: seq<Token>, conn: Connective): Parsed<Clause> {
    if conn == Or then ParseJoined(ts, And) else ParseFactor(ts)
  }

  lemma {:induction false} OperandsStep(ts: seq<Token>, conn: Connective, c: Clause, more: seq<Token>, cs: seq<Clause>, rest: seq<Token>)
    requires Operand(ts, conn) == Some((c, [ConnectiveToken(conn)] + more))
    requires ParseOperands(more, conn) == Some((cs, rest))
    ensures ParseOperands(ts, conn) == Some(([c] + cs, rest))
  {
    assert ([ConnectiveToken(conn)] + more)[1..] == more;
  }

  lemma {:induction false} ParsesOperands(cs: seq<Clause>, conn: Connective, rest: seq<Token>)
    requires cs != [] && ValidClauses(cs) && AtEnd(rest)
    ensures ParseOperands(JoinTokens(cs, conn) + rest, conn) == Some((NormalAll(cs), rest))
    decreases cs, 0
  {
    var ts := JoinTokens(cs, conn) + rest;
    if |cs| == 1 {
      ParsesOperand(cs[0], conn, rest);
      assert NormalAll(cs) == [Normal(cs[0])];
    } else {
      var more := JoinTokens(cs[1..], conn) + rest;
      JoinTokensUnfolds(cs, conn, rest);
      ParsesOperand(cs[0], conn, [ConnectiveToken(conn)] + more);
      ParsesOperands(cs[1..], conn, rest);
      OperandsStep(ts, conn, Normal(cs[0]), more, NormalAll(cs[1..]), rest);
    }
  }

  /** A single clause parses as one operand of either connective. */
  lemma {:induction false} ParsesOperand(c: Clause, conn: Connective, rest: seq<Token>)
    requires ValidClause(c)
    requires AtEnd(rest) || rest[0] == ConnectiveToken(conn)
    ensures Operand(ClauseTokens(c) + rest, conn) == Some((Normal(c), rest))
    decreases c, 1
  {
    var ts := ClauseTokens(c) + rest;
    ParsesFactor(c, rest);
    if conn == Or {
      assert ParseOperands(ts, And) == Some(([Normal(c)], rest));
    }
  }

  lemma {:induction false} ParsesJoined(cs: seq<Clause>, conn: Connective, rest: seq<Token>)
    requires cs != [] && ValidClauses(cs) && AtEnd(rest)
    ensures ParseJoined(JoinTokens(cs, conn) + rest, Or) == Some((Collapse(conn, NormalAll(cs)), rest))
    decreases cs, 1
  {
    var ts := JoinTokens(cs, conn) + rest;
    ParsesOperands(cs, conn, rest);
    if conn == And {
      assert ParseJoined(ts, And) == Some((Collapse(And, NormalAll(cs)), rest));
      assert ParseOperands(ts, Or) == Some(([Collapse(And, NormalAll(cs))], rest));
    }
  }

  /** The text of any non-empty list of valid clauses is read back as exactly
      the intended tree, whatever the nesting. */
  lemma {:induction false} ReadsBack(cs: seq<Clause>, conn: Connective)
    requires cs != [] && ValidClauses(cs)
    ensures ReadCondition(Join(RenderAll(cs), Separator(conn))) == Some(Collapse(conn, NormalAll(cs)))
  {
    LexesWhere(cs, conn);
    ParsesJoined(cs, conn, []);
    assert JoinTokens(cs, conn) + [] == JoinTokens(cs, conn);
  }
}
