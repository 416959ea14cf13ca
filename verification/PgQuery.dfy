/** `build_pg_filter_clauses` and the clause and parameter assembly of `query`,
    statement by statement, proved against the compiler's specification. */
module PgQuery {
  import opened Text
  import opened SqlText
  import opened SqlGrammar
  import opened PgFilter
  import opened PgMeaning
  import Doc = PgDocument
  import Like

  // --------------------------------------------------- the accumulating buffers

  /** What the loops carry: rendered fragments, parameters, and the number of
      the next placeholder. */
  datatype Buffers = Buffers(parts: seq<string>, params: seq<string>, next: nat) {
    function Push(part: string, param: string): Buffers {
      Buffers(parts + [part], params + [param], next + 1)
    }

    /** The buffers after everything in `o` has been emitted. */
    function Emit(o: Output): Buffers {
      Buffers(parts + RenderAll(o.clauses), params + o.params, next + |o.params|)
    }
  }

  lemma {:induction false} EmitNothing(b: Buffers)
    ensures b.Emit(Output([], [])) == b
  {
  }

  lemma {:induction false} EmitAppend(b: Buffers, o: Output, p: Output)
    ensures b.Emit(Append(o, p)) == b.Emit(o).Emit(p)
  {
    RenderAllConcat(o.clauses, p.clauses);
    assert b.parts + (RenderAll(o.clauses) + RenderAll(p.clauses)) == b.parts + RenderAll(o.clauses) + RenderAll(p.clauses);
    assert b.params + (o.params + p.params) == b.params + o.params + p.params;
  }

  lemma {:induction false} CompileLeavesConcat(a: seq<LeafFilter>, b: seq<LeafFilter>, next: nat)
    ensures CompileLeaves(a + b, next) == Append(CompileLeaves(a, next), CompileLeaves(b, next + |CompileLeaves(a, next).params|))
  {
    if a == [] {
      assert a + b == b;
    } else {
      assert (a + b)[1..] == a[1..] + b;
      if ValidFieldName(a[0].field) {
        CompileLeavesConcat(a[1..], b, next + 1);
      } else {
        CompileLeavesConcat(a[1..], b, next);
      }
    }
  }

  /** The buffers after all leaves in `ls`. */
  function EmitLeaves(b: Buffers, ls: seq<LeafFilter>): Buffers {
    b.Emit(CompileLeaves(ls, b.next))
  }

  /** One turn of a leaf loop: an invalid field is skipped, a valid one pushed. */
  lemma {:induction false} EmitLeafStep(b: Buffers, ls: seq<LeafFilter>)
    requires ls != []
    ensures EmitLeaves(b, ls) ==
      EmitLeaves(if ValidFieldName(ls[0].field) then b.Push(RenderAtom(AtomFor(ls[0], b.next)), ParamText(ls[0].test)) else b, ls[1..])
  {
    if ValidFieldName(ls[0].field) {
      var head := Output([Leaf(AtomFor(ls[0], b.next))], [ParamText(ls[0].test)]);
      EmitAppend(b, head, CompileLeaves(ls[1..], b.next + 1));
      assert RenderAll(head.clauses) == [RenderAtom(AtomFor(ls[0], b.next))];
    }
  }

  lemma {:induction false} LeavesSplit(b: Buffers, f: QueryFilters)
    ensures EmitLeaves(b, Leaves(f)) ==
      EmitLeaves(EmitLeaves(EmitLeaves(b, EqualityLeaves(f.equality)), ComparisonLeaves(f.comparison)), TextLeaves(f.textSearch))
  {
    EmitLeavesConcat(b, EqualityLeaves(f.equality) + ComparisonLeaves(f.comparison), TextLeaves(f.textSearch));
    EmitLeavesConcat(b, EqualityLeaves(f.equality), ComparisonLeaves(f.comparison));
  }

  lemma {:induction false} EmitLeavesConcat(b: Buffers, x: seq<LeafFilter>, y: seq<LeafFilter>)
    ensures EmitLeaves(b, x + y) == EmitLeaves(EmitLeaves(b, x), y)
  {
    CompileLeavesConcat(x, y, b.next);
    EmitAppend(b, CompileLeaves(x, b.next), CompileLeaves(y, b.next + |CompileLeaves(x, b.next).params|));
  }

  // ------------------------------------------------------- the three leaf loops

  method PushEqualities(fs: seq<FieldFilter>, b0: Buffers) returns (b: Buffers)
    ensures b == EmitLeaves(b0, EqualityLeaves(fs))
  {
    b := b0;
    ghost var ls := EqualityLeaves(fs);
    var i := 0;
    assert ls[0..] == ls;
    while i < |fs|
      invariant 0 <= i <= |fs|
      invariant EmitLeaves(b, ls[i..]) == EmitLeaves(b0, ls)
    {
      EmitLeafStep(b, ls[i..]);
      assert ls[i..][1..] == ls[i + 1..];
      if ValidFieldName(fs[i].field) {
        b := b.Push("data->>'" + fs[i].field + "' = $" + Decimal(b.next), JsonValueToString(fs[i].value));
      }
      i := i + 1;
    }
    EmitNothing(b);
  }

  method PushComparisons(fs: seq<ComparisonFilter>, b0: Buffers) returns (b: Buffers)
    ensures b == EmitLeaves(b0, ComparisonLeaves(fs))
  {
    b := b0;
    ghost var ls := ComparisonLeaves(fs);
    var i := 0;
    assert ls[0..] == ls;
    while i < |fs|
      invariant 0 <= i <= |fs|
      invariant EmitLeaves(b, ls[i..]) == EmitLeaves(b0, ls)
    {
      EmitLeafStep(b, ls[i..]);
      assert ls[i..][1..] == ls[i + 1..];
      if ValidFieldName(fs[i].field) {
        b := b.Push("CAST(data->>'" + fs[i].field + "' AS NUMERIC) " + OpText(fs[i].operator) + " CAST($" + Decimal(b.next) + " AS NUMERIC)",
                    JsonValueToString(fs[i].value));
      }
      i := i + 1;
    }
    EmitNothing(b);
  }

  method PushTexts(fs: seq<TextFilter>, b0: Buffers) returns (b: Buffers)
    ensures b == EmitLeaves(b0, TextLeaves(fs))
  {
    b := b0;
    ghost var ls := TextLeaves(fs);
    var i := 0;
    assert ls[0..] == ls;
    while i < |fs|
      invariant 0 <= i <= |fs|
      invariant EmitLeaves(b, ls[i..]) == EmitLeaves(b0, ls)
    {
      EmitLeafStep(b, ls[i..]);
      assert ls[i..][1..] == ls[i + 1..];
      if ValidFieldName(fs[i].field) {
        b := b.Push("data->>'" + fs[i].field + "' ILIKE $" + Decimal(b.next) + " ESCAPE '\\'",
                    "%" + Like.EscapeLike(fs[i].contains) + "%");
      }
      i := i + 1;
    }
    EmitNothing(b);
  }

  // ------------------------------------------------ the group loops and the whole

  /** The buffers after a group whose recursive call returned `inner`. */
  function PushGroup(b: Buffers, conn: Connective, inner: Buffers): Buffers {
    Buffers(b.parts + (if inner.parts == [] then [] else ["(" + Join(inner.parts, Separator(conn)) + ")"]),
            inner.params, inner.next)
  }

  lemma {:induction false} PushGroupEmits(b: Buffers, conn: Connective, o: Output)
    ensures PushGroup(b, conn, Buffers([], b.params, b.next).Emit(o)) == b.Emit(Grouped(conn, o))
  {
    assert RenderAll([Group(conn, o.clauses)]) == [RenderClause(Group(conn, o.clauses))];
    assert [] + RenderAll(o.clauses) == RenderAll(o.clauses);
  }

  lemma {:induction false} EmitGroupStep(b: Buffers, gs: seq<QueryFilters>, conn: Connective)
    requires gs != []
    ensures b.Emit(CompileGroups(gs, conn, b.next)) ==
      var after := b.Emit(Grouped(conn, Compile(gs[0], b.next)));
      after.Emit(CompileGroups(gs[1..], conn, after.next))
  {
    var o := Compile(gs[0], b.next);
    EmitAppend(b, Grouped(conn, o), CompileGroups(gs[1..], conn, b.next + |o.params|));
  }

  method PushGroups(gs: seq<QueryFilters>, conn: Connective, b0: Buffers) returns (b: Buffers)
    ensures b == b0.Emit(CompileGroups(gs, conn, b0.next))
    decreases gs, 0
  {
    b := b0;
    var i := 0;
    assert gs[0..] == gs;
    while i < |gs|
      invariant 0 <= i <= |gs|
      invariant b.Emit(CompileGroups(gs[i..], conn, b.next)) == b0.Emit(CompileGroups(gs, conn, b0.next))
    {
      var inner := BuildPgFilterClauses(gs[i], Buffers([], b.params, b.next));
      EmitGroupStep(b, gs[i..], conn);
      PushGroupEmits(b, conn, Compile(gs[i], b.next));
      assert gs[i..][1..] == gs[i + 1..];
      b := PushGroup(b, conn, inner);
      i := i + 1;
    }
    EmitNothing(b);
  }

  lemma {:induction false} EmitThree(b: Buffers, x: Output, y: Output, z: Output)
    ensures b.Emit(Append(Append(x, y), z)) == b.Emit(x).Emit(y).Emit(z)
  {
    EmitAppend(b, x, y);
    EmitAppend(b, Append(x, y), z);
  }

  lemma {:induction false} EmitParts(f: QueryFilters, b0: Buffers, b1: Buffers, b2: Buffers, b3: Buffers)
    requires b1 == EmitLeaves(b0, Leaves(f))
    requires b2 == b1.Emit(CompileGroups(f.and, And, b1.next))
    requires b3 == b2.Emit(CompileGroups(f.or, Or, b2.next))
    ensures b3 == b0.Emit(Compile(f, b0.next))
  {
    CompileParts(f, b0.next);
    assert b1 == b0.Emit(LeavesPart(f, b0.next)) && b1.next == AndsNext(f, b0.next);
    assert b2 == b1.Emit(AndsPart(f, b0.next)) && b2.next == OrsNext(f, b0.next);
    EmitThree(b0, LeavesPart(f, b0.next), AndsPart(f, b0.next), OrsPart(f, b0.next));
  }

  /** Appends the text of every clause of the filters, its parameters in step,
      and advances the counter by the number of parameters pushed. */
  method BuildPgFilterClauses(filters: QueryFilters, b0: Buffers) returns (b: Buffers)
    ensures b == b0.Emit(Compile(filters, b0.next))
    decreases filters
  {
    LeavesSplit(b0, filters);
    b := PushEqualities(filters.equality, b0);
    b := PushComparisons(filters.comparison, b);
    b := PushTexts(filters.textSearch, b);
    ghost var b1 := b;
    b := PushGroups(filters.and, And, b);
    ghost var b2 := b;
    b := PushGroups(filters.or, Or, b);
    EmitParts(filters, b0, b1, b2, b);
  }

  // ------------------------------------------------------------ the whole query

  datatype SortOptions = SortOptions(sortBy: string, descending: bool)

  predicate ValidSortField(s: string) {
    forall i | 0 <= i < |s| :: IsWordChar(s[i])
  }

  /** The statements that `query` sends: the count uses `countParams`, the page
      uses `params` with its last two as limit and offset. */
  datatype QueryPlan = QueryPlan(
    whereClause: string,
    countParams: seq<string>,
    orderClause: string,
    params: seq<string>,
    limitParam: nat,
    offsetParam: nat)

  /** The server's verdict on a row: the WHERE text is parsed, then evaluated. */
  function Verdict(sv: Server, row: Row, text: string, params: seq<string>): Truth {
    var c := ReadCondition(text);
    if c.None? then Fails else Eval(sv, row, params, c.value)
  }

  function WhereClauses(f: QueryFilters): seq<Clause> {
    [Leaf(PluginIs(1)), Leaf(CollectionIs(2))] + Compile(f, 3).clauses
  }

  function WhereText(f: QueryFilters): string {
    Join(RenderAll(WhereClauses(f)), " AND ")
  }

  function WhereParams(pluginId: string, collection: string, f: QueryFilters): seq<string> {
    [pluginId, collection] + Compile(f, 3).params
  }

  /** The row belongs to the requested plugin and collection and the filters hold. */
  ghost predicate Selected(sv: Server, row: Row, pluginId: string, collection: string, f: QueryFilters) {
    row.pluginId == pluginId && row.collection == collection && FiltersHold(sv, row, f, And)
  }

  /** The text is read back as the conjunction of the scope and the filters. */
  lemma {:induction false} WhereReadsBack(f: QueryFilters)
    ensures ReadCondition(WhereText(f)) == Some(Group(And, NormalAll(WhereClauses(f))))
  {
    CompileValid(f, 3);
    ValidClausesConcat([Leaf(PluginIs(1)), Leaf(CollectionIs(2))], Compile(f, 3).clauses);
    assert [Leaf(PluginIs(1)), Leaf(CollectionIs(2))][1..] == [Leaf(CollectionIs(2))];
    ReadsBack(WhereClauses(f), And);
  }

  lemma {:induction false} ScopeDenotes(sv: Server, row: Row, params: seq<string>, pluginId: string, collection: string)
    requires |params| >= 2 && params[0] == pluginId && params[1] == collection
    ensures Denotes(EvalAll(sv, row, params, And, [Leaf(PluginIs(1)), Leaf(CollectionIs(2))]),
                    true, row.pluginId == pluginId && row.collection == collection)
  {
    assert [Leaf(PluginIs(1)), Leaf(CollectionIs(2))][1..] == [Leaf(CollectionIs(2))];
    assert [Leaf(CollectionIs(2))][1..] == [];
  }

  /** For every row, filter tree and further parameters: the WHERE text accepts
      the row exactly when it is in scope and the filters hold, and fails exactly
      when a numeric cast does. Later parameters change nothing. */
  lemma {:induction false} WhereMeans(sv: Server, row: Row, pluginId: string, collection: string, f: QueryFilters, more: seq<string>)
    ensures Denotes(Verdict(sv, row, WhereText(f), WhereParams(pluginId, collection, f) + more),
                    Casts(sv, row, f), Selected(sv, row, pluginId, collection, f))
  {
    var params := WhereParams(pluginId, collection, f) + more;
    var scope := Output([Leaf(PluginIs(1)), Leaf(CollectionIs(2))], []);
    WhereReadsBack(f);
    NormalAllSameTruth(sv, row, params, And, WhereClauses(f));
    ScopeDenotes(sv, row, params, pluginId, collection);
    assert forall i | 0 <= i < |Compile(f, 3).params| :: params[3 - 1 + i] == Compile(f, 3).params[i];
    FiltersDenote(sv, row, params, f, 3, And);
    AppendDenotes(sv, row, params, And, scope, true, row.pluginId == pluginId && row.collection == collection,
      Compile(f, 3), Casts(sv, row, f), FiltersHold(sv, row, f, And));
  }

  /** The WHERE text selects, among all stored documents, exactly those in scope that
      satisfy the filters, and fails exactly where a comparison is not of numbers. */
  ghost predicate SelectsDocuments(text: string, params: seq<string>, pluginId: string, collection: string, f: QueryFilters) {
    forall sv, show, plugin, coll, m ::
      Denotes(Verdict(sv, Doc.RowOf(plugin, coll, m, show), text, params), Doc.AllNumbers(sv, m, show, f),
              plugin == pluginId && coll == collection && Doc.Satisfies(sv, m, show, f, true))
  }

  lemma {:induction false} WhereSelects(pluginId: string, collection: string, f: QueryFilters, more: seq<string>)
    ensures SelectsDocuments(WhereText(f), WhereParams(pluginId, collection, f) + more, pluginId, collection, f)
  {
    var params := WhereParams(pluginId, collection, f) + more;
    forall sv, show, plugin, coll, m
      ensures Denotes(Verdict(sv, Doc.RowOf(plugin, coll, m, show), WhereText(f), params), Doc.AllNumbers(sv, m, show, f),
                      plugin == pluginId && coll == collection && Doc.Satisfies(sv, m, show, f, true))
    {
      WhereMeans(sv, Doc.RowOf(plugin, coll, m, show), pluginId, collection, f, more);
      Doc.SatisfiesMeans(sv, plugin, coll, m, show, f, true);
      Doc.NumbersMean(sv, plugin, coll, m, show, f);
    }
  }

  /** The sort field, read like a filter's, with the direction asked for. */
  predicate OrderCorrect(order: string, sort: Option<SortOptions>) {
    match sort
    case None => order == ""
    case Some(SortOptions(field, true)) => order == "ORDER BY data->>'" + field + "' DESC"
    case Some(SortOptions(field, false)) => order == "ORDER BY data->>'" + field + "' ASC"
  }

  /** Both statements select exactly the documents in scope that satisfy the filters;
      each placeholder of the text has its own parameter, the last two parameters are
      the limit, at most 1000, and the offset, and the page is ordered as asked. */
  ghost predicate PlanCorrect(p: QueryPlan, pluginId: string, collection: string, f: QueryFilters, sort: Option<SortOptions>, limit: nat, offset: nat) {
    && SelectsDocuments(p.whereClause, p.countParams, pluginId, collection, f)
    && SelectsDocuments(p.whereClause, p.params, pluginId, collection, f)
    && p.params == p.countParams + [Decimal(if limit <= 1000 then limit else 1000), Decimal(offset)]
    && p.limitParam == |p.countParams| + 1
    && p.offsetParam == |p.countParams| + 2
    && Placeholders(WhereClauses(f)) == Range(1, |p.countParams|)
    && OrderCorrect(p.orderClause, sort)
  }

  lemma {:induction false} PlanIsCorrect(p: QueryPlan, pluginId: string, collection: string, f: QueryFilters, sort: Option<SortOptions>, limit: nat, offset: nat)
    requires p.whereClause == WhereText(f)
    requires p.countParams == WhereParams(pluginId, collection, f)
    requires p.params == p.countParams + [Decimal(if limit <= 1000 then limit else 1000), Decimal(offset)]
    requires p.limitParam == |p.countParams| + 1 && p.offsetParam == |p.countParams| + 2 && OrderCorrect(p.orderClause, sort)
    ensures PlanCorrect(p, pluginId, collection, f, sort, limit, offset)
  {
    WherePlaceholders(f);
    WhereSelects(pluginId, collection, f, []);
    assert p.countParams + [] == p.countParams;
    WhereSelects(pluginId, collection, f, [Decimal(if limit <= 1000 then limit else 1000), Decimal(offset)]);
  }

  /** Builds the statements of a query; refused exactly for a sort field with a
      character other than an ASCII letter, a digit or an underscore. */
  method BuildQuery(pluginId: string, collection: string, filters: QueryFilters, sort: Option<SortOptions>, limit: nat, offset: nat)
    returns (r: Option<QueryPlan>)
    ensures r.None? <==> sort.Some? && exists i | 0 <= i < |sort.value.sortBy| ::
      var c := sort.value.sortBy[i]; !('a' <= c <= 'z' || 'A' <= c <= 'Z' || '0' <= c <= '9' || c == '_')
    ensures r.Some? ==> PlanCorrect(r.value, pluginId, collection, filters, sort, limit, offset)
  {
    var clamped := if limit <= 1000 then limit else 1000;
    var b := Buffers(["plugin_id = $1", "collection = $2"], [pluginId, collection], 3);
    b := BuildPgFilterClauses(filters, b);
    WhereRendered(filters);
    var whereClause := Join(b.parts, " AND ");

    var order := "";
    if sort.Some? {
      if !ValidSortField(sort.value.sortBy) {
        return None;
      }
      order := "ORDER BY data->>'" + sort.value.sortBy + (if sort.value.descending then "' DESC" else "' ASC");
    }
    var params := b.params + [Decimal(clamped), Decimal(offset)];
    var plan := QueryPlan(whereClause, b.params, order, params, b.next, b.next + 1);
    PlanIsCorrect(plan, pluginId, collection, filters, sort, limit, offset);
    r := Some(plan);
  }

  lemma {:induction false} WhereRendered(f: QueryFilters)
    ensures RenderAll(WhereClauses(f)) == ["plugin_id = $1", "collection = $2"] + RenderAll(Compile(f, 3).clauses)
  {
    var scope := [Leaf(PluginIs(1)), Leaf(CollectionIs(2))];
    RenderAllConcat(scope, Compile(f, 3).clauses);
    assert scope[1..] == [Leaf(CollectionIs(2))];
    assert RenderAll(scope[1..]) == [RenderClause(Leaf(CollectionIs(2)))];
    assert Decimal(1) == "1" && Decimal(2) == "2";
    assert RenderAtom(PluginIs(1)) == "plugin_id = $1";
    assert RenderAtom(CollectionIs(2)) == "collection = $2";
  }

  lemma {:induction false} ScopePlaceholders()
    ensures Placeholders([Leaf(PluginIs(1)), Leaf(CollectionIs(2))]) == Range(1, 2)
  {
    var scope := [Leaf(PluginIs(1)), Leaf(CollectionIs(2))];
    assert scope[1..] == [Leaf(CollectionIs(2))];
    assert Placeholders(scope[1..]) == [2];
    assert Placeholders(scope) == [1, 2] == Range(1, 2);
  }

  /** Scope and filters together use `$1, $2, …` once each, left to right. */
  lemma {:induction false} WherePlaceholders(f: QueryFilters)
    ensures Placeholders(WhereClauses(f)) == Range(1, 2 + |Compile(f, 3).params|)
  {
    ScopePlaceholders();
    PlaceholdersConcat([Leaf(PluginIs(1)), Leaf(CollectionIs(2))], Compile(f, 3).clauses);
    CompileInOrder(f, 3);
    RangeSplit(1, 2, |Compile(f, 3).params|);
  }
}
