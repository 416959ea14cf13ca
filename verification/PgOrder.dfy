/** The WHERE clause under a server that evaluates operands in any order and may
    leave out an operand whose value cannot matter, so that a cast that would fail
    is sometimes never tried. */
module PgOrder {
  import opened Text
  import opened SqlText
  import opened SqlGrammar
  import opened PgFilter
  import opened PgMeaning
  import opened PgQuery
  import Doc = PgDocument

  // --------------------------------------------------- the possible outcomes

  /** The value that decides a connective on its own. */
  function Deciding(conn: Connective): Truth { if conn == And then False else True }

  /** Both operands are evaluated, or one that decides is enough. */
  predicate MayCombine(conn: Connective, a: Truth, b: Truth, t: Truth) {
    t == Combine(conn, a, b) || (t == Deciding(conn) && (a == Deciding(conn) || b == Deciding(conn)))
  }

  /** `t` is a possible outcome of the clause. */
  ghost predicate MayEval(sv: Server, row: Row, params: seq<string>, c: Clause, t: Truth)
    decreases c
  {
    match c
    case Leaf(a) => t == EvalAtom(sv, row, params, a)
    case Group(conn, parts) => MayEvalAll(sv, row, params, conn, parts, t)
  }

  ghost predicate MayEvalAll(sv: Server, row: Row, params: seq<string>, conn: Connective, cs: seq<Clause>, t: Truth)
    decreases cs
  {
    if cs == [] then t == Unit(conn)
    else exists a, b :: MayEval(sv, row, params, cs[0], a) && MayEvalAll(sv, row, params, conn, cs[1..], b) && MayCombine(conn, a, b, t)
  }

  /** Evaluating everything is one of the possibilities. */
  lemma {:induction false} StrictIsPossible(sv: Server, row: Row, params: seq<string>, c: Clause)
    ensures MayEval(sv, row, params, c, Eval(sv, row, params, c))
    decreases c
  {
    if c.Group? {
      StrictAllIsPossible(sv, row, params, c.conn, c.parts);
    }
  }

  lemma {:induction false} StrictAllIsPossible(sv: Server, row: Row, params: seq<string>, conn: Connective, cs: seq<Clause>)
    ensures MayEvalAll(sv, row, params, conn, cs, EvalAll(sv, row, params, conn, cs))
    decreases cs
  {
    if cs != [] {
      StrictIsPossible(sv, row, params, cs[0]);
      StrictAllIsPossible(sv, row, params, conn, cs[1..]);
      var a, b := Eval(sv, row, params, cs[0]), EvalAll(sv, row, params, conn, cs[1..]);
      assert MayCombine(conn, a, b, Combine(conn, a, b));
    }
  }

  // --------------------------------------------------- what they have in common

  /** The clause in two-valued logic, a condition that fails counting as false. */
  predicate Holds(sv: Server, row: Row, params: seq<string>, c: Clause)
    decreases c
  {
    match c
    case Leaf(a) => EvalAtom(sv, row, params, a) == True
    case Group(conn, parts) => HoldsAll(sv, row, params, conn, parts)
  }

  predicate HoldsAll(sv: Server, row: Row, params: seq<string>, conn: Connective, cs: seq<Clause>)
    decreases cs
  {
    if cs == [] then conn == And else Both(conn, Holds(sv, row, params, cs[0]), HoldsAll(sv, row, params, conn, cs[1..]))
  }

  /** The outcome is the two-valued one, or a failure of a clause that fails when
      everything is evaluated. */
  predicate Fits(t: Truth, strict: Truth, holds: bool) {
    if t == Fails then strict == Fails else (t == True <==> holds)
  }

  lemma {:induction false} CombineFits(conn: Connective, a: Truth, b: Truth, t: Truth, sa: Truth, sb: Truth, ha: bool, hb: bool)
    requires Fits(a, sa, ha) && Fits(b, sb, hb) && MayCombine(conn, a, b, t)
    ensures Fits(t, Combine(conn, sa, sb), Both(conn, ha, hb))
  {
  }

  /** Every possible outcome fits. */
  lemma {:induction false} OutcomeFits(sv: Server, row: Row, params: seq<string>, c: Clause, t: Truth)
    requires MayEval(sv, row, params, c, t)
    ensures Fits(t, Eval(sv, row, params, c), Holds(sv, row, params, c))
    decreases c
  {
    if c.Group? {
      OutcomesFit(sv, row, params, c.conn, c.parts, t);
    }
  }

  lemma {:induction false} OutcomesFit(sv: Server, row: Row, params: seq<string>, conn: Connective, cs: seq<Clause>, t: Truth)
    requires MayEvalAll(sv, row, params, conn, cs, t)
    ensures Fits(t, EvalAll(sv, row, params, conn, cs), HoldsAll(sv, row, params, conn, cs))
    decreases cs
  {
    if cs != [] {
      var a, b :| MayEval(sv, row, params, cs[0], a) && MayEvalAll(sv, row, params, conn, cs[1..], b) && MayCombine(conn, a, b, t);
      OutcomeFits(sv, row, params, cs[0], a);
      OutcomesFit(sv, row, params, conn, cs[1..], b);
      CombineFits(conn, a, b, t, Eval(sv, row, params, cs[0]), EvalAll(sv, row, params, conn, cs[1..]),
        Holds(sv, row, params, cs[0]), HoldsAll(sv, row, params, conn, cs[1..]));
    }
  }

  // --------------------------------------- the compiled clauses, two-valued

  lemma {:induction false} HoldsAllConcat(sv: Server, row: Row, params: seq<string>, conn: Connective, a: seq<Clause>, b: seq<Clause>)
    ensures HoldsAll(sv, row, params, conn, a + b) <==> Both(conn, HoldsAll(sv, row, params, conn, a), HoldsAll(sv, row, params, conn, b))
  {
    if a == [] {
      assert a + b == b;
    } else {
      assert (a + b)[1..] == a[1..] + b;
      HoldsAllConcat(sv, row, params, conn, a[1..], b);
    }
  }

  lemma {:induction false} HoldsOne(sv: Server, row: Row, params: seq<string>, conn: Connective, c: Clause)
    ensures HoldsAll(sv, row, params, conn, [c]) <==> Holds(sv, row, params, c)
  {
    assert [c][1..] == [];
  }

  lemma {:induction false} LeafIsTrueIff(sv: Server, row: Row, params: seq<string>, l: LeafFilter, next: nat)
    requires Binds(params, next, [ParamText(l.test)])
    ensures EvalAtom(sv, row, params, AtomFor(l, next)) == True <==> LeafHolds(sv, row, l)
  {
    LeafDenotes(sv, row, params, l, next);
  }

  lemma {:induction false} LeavesHoldIff(sv: Server, row: Row, params: seq<string>, ls: seq<LeafFilter>, next: nat, conn: Connective)
    requires Binds(params, next, CompileLeaves(ls, next).params)
    ensures HoldsAll(sv, row, params, conn, CompileLeaves(ls, next).clauses) <==> LeavesHold(sv, row, ls, conn)
  {
    if ls != [] {
      var l := ls[0];
      LeavesHoldStep(sv, row, ls, conn);
      if ValidFieldName(l.field) {
        var head, rest := Leaf(AtomFor(l, next)), CompileLeaves(ls[1..], next + 1);
        BindsSplit(params, next, [ParamText(l.test)], rest.params);
        LeafIsTrueIff(sv, row, params, l, next);
        LeavesHoldIff(sv, row, params, ls[1..], next + 1, conn);
        HoldsOne(sv, row, params, conn, head);
        HoldsAllConcat(sv, row, params, conn, [head], rest.clauses);
      } else {
        LeavesHoldIff(sv, row, params, ls[1..], next, conn);
      }
    }
  }

  lemma {:induction false} GroupedHolds(sv: Server, row: Row, params: seq<string>, conn: Connective, inner: Connective, out: Output, rest: seq<Clause>)
    ensures HoldsAll(sv, row, params, conn, Grouped(inner, out).clauses + rest)
       <==> Both(conn, if out.clauses == [] then conn == And else HoldsAll(sv, row, params, inner, out.clauses), HoldsAll(sv, row, params, conn, rest))
  {
    HoldsAllConcat(sv, row, params, conn, Grouped(inner, out).clauses, rest);
    HoldsOne(sv, row, params, conn, Group(inner, out.clauses));
  }

  /** The compiled groups are as the facts say. */
  ghost predicate Matches(sv: Server, row: Row, params: seq<string>, gs: seq<QueryFilters>, next: nat, inner: Connective, facts: seq<GroupFact>)
    decreases |gs|
  {
    |facts| == |gs| && (gs != [] ==>
      var out := Compile(gs[0], next);
      && (out.clauses != [] <==> facts[0].counts)
      && (HoldsAll(sv, row, params, inner, out.clauses) <==> facts[0].holds)
      && Matches(sv, row, params, gs[1..], next + |out.params|, inner, facts[1..]))
  }

  lemma {:induction false} MatchingGroups(sv: Server, row: Row, params: seq<string>, gs: seq<QueryFilters>, next: nat, conn: Connective, inner: Connective, facts: seq<GroupFact>)
    requires Matches(sv, row, params, gs, next, inner, facts)
    ensures HoldsAll(sv, row, params, conn, CompileGroups(gs, inner, next).clauses) <==> Joined(conn, facts)
    decreases |gs|
  {
    if gs != [] {
      var out := Compile(gs[0], next);
      MatchingGroups(sv, row, params, gs[1..], next + |out.params|, conn, inner, facts[1..]);
      CompileGroupsStep(gs, inner, next);
      GroupedHolds(sv, row, params, conn, inner, out, CompileGroups(gs[1..], inner, next + |out.params|).clauses);
    }
  }

  lemma {:induction false} MatchesCons(sv: Server, row: Row, params: seq<string>, gs: seq<QueryFilters>, next: nat, inner: Connective, fact: GroupFact, rest: seq<GroupFact>)
    requires gs != []
    requires
      var out := Compile(gs[0], next);
      && (out.clauses != [] <==> fact.counts)
      && (HoldsAll(sv, row, params, inner, out.clauses) <==> fact.holds)
      && Matches(sv, row, params, gs[1..], next + |out.params|, inner, rest)
    ensures Matches(sv, row, params, gs, next, inner, [fact] + rest)
  {
    assert ([fact] + rest)[1..] == rest;
  }

  lemma {:induction false} GroupsMatch(sv: Server, row: Row, params: seq<string>, gs: seq<QueryFilters>, next: nat, inner: Connective)
    requires Binds(params, next, CompileGroups(gs, inner, next).params)
    ensures Matches(sv, row, params, gs, next, inner, FactsOf(sv, row, gs, inner))
    decreases gs, 0
  {
    if gs != [] {
      GroupsBind(params, gs, next, inner);
      GroupsMatch(sv, row, params, gs[1..], next + |Compile(gs[0], next).params|, inner);
      FiltersHoldIff(sv, row, params, gs[0], next, inner);
      CompiledIffLeaf(gs[0], next);
      MatchesCons(sv, row, params, gs, next, inner,
        GroupFact(HasLeaf(gs[0]), Casts(sv, row, gs[0]), FiltersHold(sv, row, gs[0], inner)), FactsOf(sv, row, gs[1..], inner));
    }
  }

  lemma {:induction false} GroupsHoldIff(sv: Server, row: Row, params: seq<string>, gs: seq<QueryFilters>, next: nat, conn: Connective, inner: Connective)
    requires Binds(params, next, CompileGroups(gs, inner, next).params)
    ensures HoldsAll(sv, row, params, conn, CompileGroups(gs, inner, next).clauses) <==> GroupsHold(sv, row, gs, conn, inner)
    decreases gs, 1
  {
    GroupsMatch(sv, row, params, gs, next, inner);
    MatchingGroups(sv, row, params, gs, next, conn, inner, FactsOf(sv, row, gs, inner));
    FactsJoined(sv, row, gs, conn, inner);
  }

  /** For every filter tree and row: the compiled clauses hold, conditions that fail
      counting as false, exactly when the filters do. */
  lemma {:induction false} FiltersHoldIff(sv: Server, row: Row, params: seq<string>, f: QueryFilters, next: nat, conn: Connective)
    requires Binds(params, next, Compile(f, next).params)
    ensures HoldsAll(sv, row, params, conn, Compile(f, next).clauses) <==> FiltersHold(sv, row, f, conn)
    decreases f, 2
  {
    PartsBind(params, f, next);
    LeavesHoldIff(sv, row, params, Leaves(f), next, conn);
    GroupsHoldIff(sv, row, params, f.and, AndsNext(f, next), conn, And);
    GroupsHoldIff(sv, row, params, f.or, OrsNext(f, next), conn, Or);
    CompileParts(f, next);
    HoldsAllConcat(sv, row, params, conn, LeavesPart(f, next).clauses, AndsPart(f, next).clauses);
    HoldsAllConcat(sv, row, params, conn, LeavesPart(f, next).clauses + AndsPart(f, next).clauses, OrsPart(f, next).clauses);
    FiltersHoldParts(sv, row, f, conn);
  }

  // -------------------------------------------------- parentheses are harmless

  lemma {:induction false} NormalHolds(sv: Server, row: Row, params: seq<string>, c: Clause)
    ensures Holds(sv, row, params, Normal(c)) <==> Holds(sv, row, params, c)
    decreases c
  {
    if c.Group? {
      NormalAllHolds(sv, row, params, c.conn, c.parts);
      if |NormalAll(c.parts)| == 1 {
        assert NormalAll(c.parts) == [NormalAll(c.parts)[0]];
        HoldsOne(sv, row, params, c.conn, NormalAll(c.parts)[0]);
      }
    }
  }

  lemma {:induction false} NormalAllHolds(sv: Server, row: Row, params: seq<string>, conn: Connective, cs: seq<Clause>)
    ensures HoldsAll(sv, row, params, conn, NormalAll(cs)) <==> HoldsAll(sv, row, params, conn, cs)
    decreases cs
  {
    if cs != [] {
      NormalHolds(sv, row, params, cs[0]);
      NormalAllHolds(sv, row, params, conn, cs[1..]);
    }
  }

  // ------------------------------------------------------------ the statement

  /** `t` is a possible outcome of the WHERE text on the row. */
  ghost predicate PossibleVerdict(sv: Server, row: Row, text: string, params: seq<string>, t: Truth) {
    var c := ReadCondition(text);
    if c.None? then t == Fails else MayEval(sv, row, params, c.value, t)
  }

  /** Whatever the server evaluates, in whatever order: an outcome that is not a
      failure accepts the row exactly when it is in scope and the filters hold, and
      a failure is possible only where a numeric cast of the filters fails. */
  lemma {:induction false} WhereInAnyOrder(sv: Server, row: Row, pluginId: string, collection: string, f: QueryFilters, more: seq<string>, t: Truth)
    requires PossibleVerdict(sv, row, WhereText(f), WhereParams(pluginId, collection, f) + more, t)
    ensures if t == Fails then !Casts(sv, row, f) else t == True <==> Selected(sv, row, pluginId, collection, f)
  {
    var params := WhereParams(pluginId, collection, f) + more;
    var c := Group(And, NormalAll(WhereClauses(f)));
    WhereReadsBack(f);
    OutcomeFits(sv, row, params, c, t);
    WhereMeans(sv, row, pluginId, collection, f, more);
    NormalAllHolds(sv, row, params, And, WhereClauses(f));
    WhereHolds(sv, row, params, pluginId, collection, f, more);
  }

  /** The same of stored documents. */
  lemma {:induction false} DocumentsInAnyOrder(sv: Server, plugin: string, coll: string, m: Doc.Fields, show: Json -> string,
                                               pluginId: string, collection: string, f: QueryFilters, more: seq<string>, t: Truth)
    requires PossibleVerdict(sv, Doc.RowOf(plugin, coll, m, show), WhereText(f), WhereParams(pluginId, collection, f) + more, t)
    ensures if t == Fails then !Doc.AllNumbers(sv, m, show, f)
            else t == True <==> plugin == pluginId && coll == collection && Doc.Satisfies(sv, m, show, f, true)
  {
    WhereInAnyOrder(sv, Doc.RowOf(plugin, coll, m, show), pluginId, collection, f, more, t);
    Doc.SatisfiesMeans(sv, plugin, coll, m, show, f, true);
    Doc.NumbersMean(sv, plugin, coll, m, show, f);
  }

  lemma {:induction false} WhereHolds(sv: Server, row: Row, params: seq<string>, pluginId: string, collection: string, f: QueryFilters, more: seq<string>)
    requires params == WhereParams(pluginId, collection, f) + more
    ensures HoldsAll(sv, row, params, And, WhereClauses(f)) <==> Selected(sv, row, pluginId, collection, f)
  {
    var scope := [Leaf(PluginIs(1)), Leaf(CollectionIs(2))];
    assert scope[1..] == [Leaf(CollectionIs(2))];
    HoldsOne(sv, row, params, And, Leaf(CollectionIs(2)));
    assert forall i | 0 <= i < |Compile(f, 3).params| :: params[3 - 1 + i] == Compile(f, 3).params[i];
    FiltersHoldIff(sv, row, params, f, 3, And);
    HoldsAllConcat(sv, row, params, And, scope, Compile(f, 3).clauses);
  }
}
