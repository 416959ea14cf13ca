/** The PostgreSQL filter compiler: a tree of query filters becomes the text of
    a parameterised WHERE clause and the vector of its parameters. */
module PgFilter {
  import opened Text
  import opened SqlText
  import opened SqlGrammar
  import Like

  // ------------------------------------------------------------ query filters

  /** A filter value; numbers and compound values carry their JSON text. */
  datatype Json = Null | Bool(b: bool) | Number(repr: string) | Str(s: string) | Compound(repr: string)

  datatype FieldFilter = FieldFilter(field: string, value: Json)
  datatype ComparisonFilter = ComparisonFilter(field: string, operator: ComparisonOp, value: Json)
  datatype TextFilter = TextFilter(field: string, contains: string)

  datatype QueryFilters = QueryFilters(
    equality: seq<FieldFilter>,
    comparison: seq<ComparisonFilter>,
    textSearch: seq<TextFilter>,
    and: seq<QueryFilters>,
    or: seq<QueryFilters>)

  function JsonValueToString(v: Json): string {
    match v
    case Str(s) => s
    case Number(n) => n
    case Bool(b) => if b then "true" else "false"
    case Null => ""
    case Compound(t) => t
  }

  /** The test of one leaf filter, with its value already turned into text. */
  datatype Test = Equals(text: string) | Compares(op: ComparisonOp, text: string) | Contains(text: string)

  datatype LeafFilter = LeafFilter(field: string, test: Test)

  function EqualityLeaves(fs: seq<FieldFilter>): seq<LeafFilter> {
    seq(|fs|, i requires 0 <= i < |fs| => LeafFilter(fs[i].field, Equals(JsonValueToString(fs[i].value))))
  }

  function ComparisonLeaves(fs: seq<ComparisonFilter>): seq<LeafFilter> {
    seq(|fs|, i requires 0 <= i < |fs| => LeafFilter(fs[i].field, Compares(fs[i].operator, JsonValueToString(fs[i].value))))
  }

  function TextLeaves(fs: seq<TextFilter>): seq<LeafFilter> {
    seq(|fs|, i requires 0 <= i < |fs| => LeafFilter(fs[i].field, Contains(fs[i].contains)))
  }

  function Leaves(f: QueryFilters): seq<LeafFilter> {
    EqualityLeaves(f.equality) + ComparisonLeaves(f.comparison) + TextLeaves(f.textSearch)
  }

  // ------------------------------------------------- what the filters mean

  /** What the server decides: which texts are numbers, and which characters
      ILIKE identifies. */
  datatype Server = Server(numeric: string -> Option<real>, same: (char, char) -> bool)

  /** A stored row; `data` holds the text of each top-level JSON field that is
      present and not null. */
  datatype Row = Row(pluginId: string, collection: string, data: map<string, string>)

  predicate NumbersCompare(op: ComparisonOp, a: real, b: real) {
    match op case Gte => a >= b case Lte => a <= b case Gt => a > b case Lt => a < b
  }

  /** The row has the field and its value passes the test. */
  predicate LeafHolds(sv: Server, row: Row, l: LeafFilter) {
    l.field in row.data &&
    var v := row.data[l.field];
    match l.test
    case Equals(t) => v == t
    case Compares(op, t) => sv.numeric(v).Some? && sv.numeric(t).Some? && NumbersCompare(op, sv.numeric(v).value, sv.numeric(t).value)
    case Contains(t) => Like.Contains(sv.same, t, v)
  }

  /** The filter tree has at least one leaf on a valid field. */
  ghost predicate HasLeaf(f: QueryFilters)
    decreases f
  {
    || (exists l :: l in Leaves(f) && ValidFieldName(l.field))
    || (exists g :: g in f.and && HasLeaf(g))
    || (exists g :: g in f.or && HasLeaf(g))
  }

  /** The direct meaning of a filter tree whose parts are combined by `conn`:
      leaves on invalid fields and groups without a leaf do not take part. */
  ghost predicate FiltersHold(sv: Server, row: Row, f: QueryFilters, conn: Connective)
    decreases f
  {
    match conn
    case And =>
      && (forall l :: l in Leaves(f) && ValidFieldName(l.field) ==> LeafHolds(sv, row, l))
      && (forall g :: g in f.and && HasLeaf(g) ==> FiltersHold(sv, row, g, And))
      && (forall g :: g in f.or && HasLeaf(g) ==> FiltersHold(sv, row, g, Or))
    case Or =>
      || (exists l :: l in Leaves(f) && ValidFieldName(l.field) && LeafHolds(sv, row, l))
      || (exists g :: g in f.and && HasLeaf(g) && FiltersHold(sv, row, g, And))
      || (exists g :: g in f.or && HasLeaf(g) && FiltersHold(sv, row, g, Or))
  }

  /** The numeric casts of one leaf succeed on this row. */
  predicate LeafCasts(sv: Server, row: Row, l: LeafFilter) {
    l.test.Compares? ==>
      sv.numeric(l.test.text).Some? && (l.field in row.data ==> sv.numeric(row.data[l.field]).Some?)
  }

  /** Every numeric cast that the filters ask for succeeds on this row. */
  ghost predicate Casts(sv: Server, row: Row, f: QueryFilters)
    decreases f
  {
    && (forall l :: l in Leaves(f) && ValidFieldName(l.field) ==> LeafCasts(sv, row, l))
    && (forall g :: g in f.and ==> Casts(sv, row, g))
    && (forall g :: g in f.or ==> Casts(sv, row, g))
  }

  // --------------------------------------------------- what the SQL text means

  /** SQL's three truth values, and failure of the statement. */
  datatype Truth = True | False | Unknown | Fails

  function ToTruth(b: bool): Truth { if b then True else False }

  function EvalAtom(sv: Server, row: Row, params: seq<string>, a: Atom): Truth {
    if !(1 <= a.ph <= |params|) then Fails else
    var p := params[a.ph - 1];
    match a
    case PluginIs(_) => ToTruth(row.pluginId == p)
    case CollectionIs(_) => ToTruth(row.collection == p)
    case FieldEquals(f, _) => if f in row.data then ToTruth(row.data[f] == p) else Unknown
    case FieldLike(f, _) => if f in row.data then ToTruth(Like.Matches(sv.same, p, row.data[f])) else Unknown
    case FieldCompares(f, op, _) =>
      if sv.numeric(p).None? then Fails
      else if f !in row.data then Unknown
      else if sv.numeric(row.data[f]).None? then Fails
      else ToTruth(NumbersCompare(op, sv.numeric(row.data[f]).value, sv.numeric(p).value))
  }

  function Unit(conn: Connective): Truth { if conn == And then True else False }

  /** Three-valued AND and OR; a failing operand fails the statement. */
  function Combine(conn: Connective, a: Truth, b: Truth): Truth {
    if a == Fails || b == Fails then Fails
    else if conn == And then
      if a == False || b == False then False else if a == Unknown || b == Unknown then Unknown else True
    else
      if a == True || b == True then True else if a == Unknown || b == Unknown then Unknown else False
  }

  function Eval(sv: Server, row: Row, params: seq<string>, c: Clause): Truth
    decreases c
  {
    match c
    case Leaf(a) => EvalAtom(sv, row, params, a)
    case Group(conn, parts) => EvalAll(sv, row, params, conn, parts)
  }

  function EvalAll(sv: Server, row: Row, params: seq<string>, conn: Connective, cs: seq<Clause>): Truth
    decreases cs
  {
    if cs == [] then Unit(conn)
    else Combine(conn, Eval(sv, row, params, cs[0]), EvalAll(sv, row, params, conn, cs[1..]))
  }

  // ------------------------------------------------------------ the compiler

  function ParamText(t: Test): string {
    match t
    case Equals(s) => s
    case Compares(_, s) => s
    case Contains(s) => Like.ContainsPattern(s)
  }

  function AtomFor(l: LeafFilter, ph: nat): Atom {
    match l.test
    case Equals(_) => FieldEquals(l.field, ph)
    case Compares(op, _) => FieldCompares(l.field, op, ph)
    case Contains(_) => FieldLike(l.field, ph)
  }

  /** Compiled clauses and the parameters that they consume. */
  datatype Output = Output(clauses: seq<Clause>, params: seq<string>)

  function Append(a: Output, b: Output): Output {
    Output(a.clauses + b.clauses, a.params + b.params)
  }

  /** The compiled parts of a group as one parenthesised clause, if any. */
  function Grouped(conn: Connective, inner: Output): Output {
    if inner.clauses == [] then inner else inner.(clauses := [Group(conn, inner.clauses)])
  }

  function CompileLeaves(ls: seq<LeafFilter>, next: nat): Output {
    if ls == [] then Output([], [])
    else if !ValidFieldName(ls[0].field) then CompileLeaves(ls[1..], next)
    else Append(Output([Leaf(AtomFor(ls[0], next))], [ParamText(ls[0].test)]), CompileLeaves(ls[1..], next + 1))
  }

  function CompileGroups(gs: seq<QueryFilters>, conn: Connective, next: nat): Output
    decreases gs
  {
    if gs == [] then Output([], []) else
    var inner := Compile(gs[0], next);
    Append(Grouped(conn, inner), CompileGroups(gs[1..], conn, next + |inner.params|))
  }

  /** The clauses of a filter tree when the next free placeholder is `next`. */
  function Compile(f: QueryFilters, next: nat): Output
    decreases f
  {
    var leaves := CompileLeaves(Leaves(f), next);
    var ands := CompileGroups(f.and, And, next + |leaves.params|);
    var ors := CompileGroups(f.or, Or, next + |leaves.params| + |ands.params|);
    Append(Append(leaves, ands), ors)
  }
}
