/** Correctness of the filter compiler: the clauses that it produces, read under
    SQL's three-valued logic, mean what the filters mean. */
module PgMeaning {
  import opened Text
  import opened SqlText
  import opened SqlGrammar
  import opened PgFilter
  import Like

  // ------------------------------------------- the three parts of a compilation

  function LeavesPart(f: QueryFilters, next: nat): Output { CompileLeaves(Leaves(f), next) }

  function AndsNext(f: QueryFilters, next: nat): nat { next + |LeavesPart(f, next).params| }

  function AndsPart(f: QueryFilters, next: nat): Output { CompileGroups(f.and, And, AndsNext(f, next)) }

  function OrsNext(f: QueryFilters, next: nat): nat { AndsNext(f, next) + |AndsPart(f, next).params| }

  function OrsPart(f: QueryFilters, next: nat): Output { CompileGroups(f.or, Or, OrsNext(f, next)) }

  lemma {:induction false} CompileParts(f: QueryFilters, next: nat)
    ensures Compile(f, next) == Append(Append(LeavesPart(f, next), AndsPart(f, next)), OrsPart(f, next))
  {
    var leaves := CompileLeaves(Leaves(f), next);
    var ands := CompileGroups(f.and, And, next + |leaves.params|);
    assert AndsNext(f, next) == next + |leaves.params|;
    assert AndsPart(f, next) == ands;
    assert OrsNext(f, next) == next + |leaves.params| + |ands.params|;
  }

  // ---------------------------------------------------------- well-formedness

  lemma {:induction false} ValidClausesConcat(a: seq<Clause>, b: seq<Clause>)
    ensures ValidClauses(a + b) <==> ValidClauses(a) && ValidClauses(b)
  {
    if a == [] {
      assert a + b == b;
    } else {
      assert (a + b)[1..] == a[1..] + b;
      ValidClausesConcat(a[1..], b);
    }
  }

  lemma {:induction false} CompileLeavesValid(ls: seq<LeafFilter>, next: nat)
    ensures ValidClauses(CompileLeaves(ls, next).clauses)
  {
    if ls != [] {
      if ValidFieldName(ls[0].field) {
        CompileLeavesValid(ls[1..], next + 1);
        ValidClausesConcat([Leaf(AtomFor(ls[0], next))], CompileLeaves(ls[1..], next + 1).clauses);
      } else {
        CompileLeavesValid(ls[1..], next);
      }
    }
  }

  lemma {:induction false} GroupedValid(conn: Connective, inner: Output)
    requires ValidClauses(inner.clauses)
    ensures ValidClauses(Grouped(conn, inner).clauses)
  {
    assert [Group(conn, inner.clauses)][1..] == [];
  }

  lemma {:induction false} CompileGroupsValid(gs: seq<QueryFilters>, conn: Connective, next: nat)
    ensures ValidClauses(CompileGroups(gs, conn, next).clauses)
    decreases gs
  {
    if gs != [] {
      var inner := Compile(gs[0], next);
      CompileValid(gs[0], next);
      CompileGroupsValid(gs[1..], conn, next + |inner.params|);
      GroupedValid(conn, inner);
      ValidClausesConcat(Grouped(conn, inner).clauses, CompileGroups(gs[1..], conn, next + |inner.params|).clauses);
    }
  }

  /** Compiled clauses have valid field names and no empty group. */
  lemma {:induction false} CompileValid(f: QueryFilters, next: nat)
    ensures ValidClauses(Compile(f, next).clauses)
    decreases f
  {
    CompileParts(f, next);
    CompileLeavesValid(Leaves(f), next);
    CompileGroupsValid(f.and, And, AndsNext(f, next));
    CompileGroupsValid(f.or, Or, OrsNext(f, next));
    ValidClausesConcat(LeavesPart(f, next).clauses, AndsPart(f, next).clauses);
    ValidClausesConcat(LeavesPart(f, next).clauses + AndsPart(f, next).clauses, OrsPart(f, next).clauses);
  }

  // ------------------------------------------------------------- placeholders

  function Placeholders(cs: seq<Clause>): seq<nat>
    decreases cs
  {
    if cs == [] then [] else
    (match cs[0] case Leaf(a) => [a.ph] case Group(_, parts) => Placeholders(parts)) + Placeholders(cs[1..])
  }

  function Range(first: nat, n: nat): seq<nat> {
    seq(n, i requires 0 <= i => first + i)
  }

  lemma {:induction false} RangeSplit(first: nat, m: nat, n: nat)
    ensures Range(first, m) + Range(first + m, n) == Range(first, m + n)
  {
  }

  lemma {:induction false} PlaceholdersConcat(a: seq<Clause>, b: seq<Clause>)
    ensures Placeholders(a + b) == Placeholders(a) + Placeholders(b)
  {
    if a == [] {
      assert a + b == b;
    } else {
      assert (a + b)[1..] == a[1..] + b;
      PlaceholdersConcat(a[1..], b);
    }
  }

  /** Consumes the placeholders `next, next + 1, …` once each, left to right. */
  predicate InOrder(o: Output, next: nat) {
    Placeholders(o.clauses) == Range(next, |o.params|)
  }

  lemma {:induction false} InOrderAppend(a: Output, b: Output, next: nat)
    requires InOrder(a, next) && InOrder(b, next + |a.params|)
    ensures InOrder(Append(a, b), next)
  {
    PlaceholdersConcat(a.clauses, b.clauses);
    RangeSplit(next, |a.params|, |b.params|);
  }

  lemma {:induction false} LeavesInOrder(ls: seq<LeafFilter>, next: nat)
    ensures InOrder(CompileLeaves(ls, next), next)
  {
    if ls != [] {
      if ValidFieldName(ls[0].field) {
        LeavesInOrder(ls[1..], next + 1);
        var head := Output([Leaf(AtomFor(ls[0], next))], [ParamText(ls[0].test)]);
        assert Placeholders(head.clauses) == [next] == Range(next, 1);
        InOrderAppend(head, CompileLeaves(ls[1..], next + 1), next);
      } else {
        LeavesInOrder(ls[1..], next);
      }
    }
  }

  lemma {:induction false} GroupedInOrder(conn: Connective, inner: Output, next: nat)
    requires InOrder(inner, next)
    ensures InOrder(Grouped(conn, inner), next)
  {
    assert [Group(conn, inner.clauses)][1..] == [];
  }

  lemma {:induction false} GroupsInOrder(gs: seq<QueryFilters>, conn: Connective, next: nat)
    ensures InOrder(CompileGroups(gs, conn, next), next)
    decreases gs
  {
    if gs != [] {
      var inner := Compile(gs[0], next);
      CompileInOrder(gs[0], next);
      GroupsInOrder(gs[1..], conn, next + |inner.params|);
      GroupedInOrder(conn, inner, next);
      InOrderAppend(Grouped(conn, inner), CompileGroups(gs[1..], conn, next + |inner.params|), next);
    }
  }

  /** The placeholders of the compiled clauses are `next, next + 1, …`, each
      used exactly once, left to right, one for each parameter. */
  lemma {:induction false} CompileInOrder(f: QueryFilters, next: nat)
    ensures InOrder(Compile(f, next), next)
    decreases f
  {
    CompileParts(f, next);
    LeavesInOrder(Leaves(f), next);
    GroupsInOrder(f.and, And, AndsNext(f, next));
    GroupsInOrder(f.or, Or, OrsNext(f, next));
    InOrderAppend(LeavesPart(f, next), AndsPart(f, next), next);
    InOrderAppend(Append(LeavesPart(f, next), AndsPart(f, next)), OrsPart(f, next), next);
  }

  // ------------------------------------------------------------------ meaning

  /** The placeholders from `next` on denote the parameters `ps`. */
  predicate Binds(params: seq<string>, next: nat, ps: seq<string>) {
    1 <= next && next - 1 + |ps| <= |params| && forall i | 0 <= i < |ps| :: params[next - 1 + i] == ps[i]
  }

  lemma {:induction false} BindsSplit(params: seq<string>, next: nat, ps: seq<string>, qs: seq<string>)
    requires Binds(params, next, ps + qs)
    ensures Binds(params, next, ps) && Binds(params, next + |ps|, qs)
  {
    forall i | 0 <= i < |ps| ensures params[next - 1 + i] == ps[i] {
      assert (ps + qs)[i] == ps[i];
    }
    forall i | 0 <= i < |qs| ensures params[next + |ps| - 1 + i] == qs[i] {
      assert (ps + qs)[|ps| + i] == qs[i];
      assert params[next - 1 + (|ps| + i)] == (ps + qs)[|ps| + i];
    }
  }

  /** The truth value fails exactly when a cast does, and is otherwise true
      exactly when the condition holds. */
  predicate Denotes(t: Truth, casts: bool, holds: bool) {
    if casts then t != Fails && (t == True <==> holds) else t == Fails
  }

  predicate Both(conn: Connective, a: bool, b: bool) {
    if conn == And then a && b else a || b
  }

  lemma {:induction false} EvalAllConcat(sv: Server, row: Row, params: seq<string>, conn: Connective, a: seq<Clause>, b: seq<Clause>)
    ensures EvalAll(sv, row, params, conn, a + b)
         == Combine(conn, EvalAll(sv, row, params, conn, a), EvalAll(sv, row, params, conn, b))
  {
    if a == [] {
      assert a + b == b;
    } else {
      assert (a + b)[1..] == a[1..] + b;
      EvalAllConcat(sv, row, params, conn, a[1..], b);
    }
  }

  lemma {:induction false} AppendDenotes(sv: Server, row: Row, params: seq<string>, conn: Connective,
                      a: Output, castsA: bool, holdsA: bool, b: Output, castsB: bool, holdsB: bool)
    requires Denotes(EvalAll(sv, row, params, conn, a.clauses), castsA, holdsA)
    requires Denotes(EvalAll(sv, row, params, conn, b.clauses), castsB, holdsB)
    ensures Denotes(EvalAll(sv, row, params, conn, Append(a, b).clauses), castsA && castsB, Both(conn, holdsA, holdsB))
  {
    EvalAllConcat(sv, row, params, conn, a.clauses, b.clauses);
  }

  /** A group counts as one condition, and not at all when it is empty. */
  lemma {:induction false} GroupedDenotes(sv: Server, row: Row, params: seq<string>, conn: Connective, inner: Connective,
                       o: Output, casts: bool, holds: bool)
    requires Denotes(EvalAll(sv, row, params, inner, o.clauses), casts, holds)
    requires o.clauses == [] ==> casts
    ensures Denotes(EvalAll(sv, row, params, conn, Grouped(inner, o).clauses),
                    casts, if o.clauses == [] then conn == And else holds)
  {
    assert [Group(inner, o.clauses)][1..] == [];
  }

  ghost predicate LeavesHold(sv: Server, row: Row, ls: seq<LeafFilter>, conn: Connective) {
    match conn
    case And => forall l :: l in ls && ValidFieldName(l.field) ==> LeafHolds(sv, row, l)
    case Or => exists l :: l in ls && ValidFieldName(l.field) && LeafHolds(sv, row, l)
  }

  ghost predicate LeavesCast(sv: Server, row: Row, ls: seq<LeafFilter>) {
    forall l :: l in ls && ValidFieldName(l.field) ==> LeafCasts(sv, row, l)
  }

  ghost predicate GroupsHold(sv: Server, row: Row, gs: seq<QueryFilters>, conn: Connective, inner: Connective) {
    match conn
    case And => forall g :: g in gs && HasLeaf(g) ==> FiltersHold(sv, row, g, inner)
    case Or => exists g :: g in gs && HasLeaf(g) && FiltersHold(sv, row, g, inner)
  }

  ghost predicate GroupsCast(sv: Server, row: Row, gs: seq<QueryFilters>) {
    forall g :: g in gs ==> Casts(sv, row, g)
  }

  /** One compiled leaf: the bound text gives the atom the leaf's meaning. */
  lemma {:induction false} LeafDenotes(sv: Server, row: Row, params: seq<string>, l: LeafFilter, next: nat)
    requires Binds(params, next, [ParamText(l.test)])
    ensures Denotes(EvalAtom(sv, row, params, AtomFor(l, next)), LeafCasts(sv, row, l), LeafHolds(sv, row, l))
  {
    assert params[next - 1 + 0] == [ParamText(l.test)][0];
    if l.test.Contains? && l.field in row.data {
      Like.ContainsPatternIsSubstring(sv.same, l.test.text, row.data[l.field]);
    }
  }

  lemma {:induction false} LeavesDenote(sv: Server, row: Row, params: seq<string>, ls: seq<LeafFilter>, next: nat, conn: Connective)
    requires Binds(params, next, CompileLeaves(ls, next).params)
    ensures Denotes(EvalAll(sv, row, params, conn, CompileLeaves(ls, next).clauses),
                    LeavesCast(sv, row, ls), LeavesHold(sv, row, ls, conn))
  {
    if ls != [] {
      var l := ls[0];
      LeavesHoldStep(sv, row, ls, conn);
      if ValidFieldName(l.field) {
        var head, rest := Output([Leaf(AtomFor(l, next))], [ParamText(l.test)]), CompileLeaves(ls[1..], next + 1);
        BindsSplit(params, next, head.params, rest.params);
        LeafDenotes(sv, row, params, l, next);
        SingleDenotes(sv, row, params, conn, AtomFor(l, next), LeafCasts(sv, row, l), LeafHolds(sv, row, l));
        LeavesDenote(sv, row, params, ls[1..], next + 1, conn);
        AppendDenotes(sv, row, params, conn, head, LeafCasts(sv, row, l), LeafHolds(sv, row, l),
          rest, LeavesCast(sv, row, ls[1..]), LeavesHold(sv, row, ls[1..], conn));
      } else {
        LeavesDenote(sv, row, params, ls[1..], next, conn);
      }
    }
  }

  lemma {:induction false} SingleDenotes(sv: Server, row: Row, params: seq<string>, conn: Connective, a: Atom, casts: bool, holds: bool)
    requires Denotes(EvalAtom(sv, row, params, a), casts, holds)
    ensures Denotes(EvalAll(sv, row, params, conn, [Leaf(a)]), casts, holds)
  {
    assert [Leaf(a)][1..] == [];
  }

  lemma {:induction false} LeavesHoldStep(sv: Server, row: Row, ls: seq<LeafFilter>, conn: Connective)
    requires ls != []
    ensures
      var counts := ValidFieldName(ls[0].field);
      && (LeavesCast(sv, row, ls) <==> (counts ==> LeafCasts(sv, row, ls[0])) && LeavesCast(sv, row, ls[1..]))
      && (LeavesHold(sv, row, ls, conn) <==>
            if counts then Both(conn, LeafHolds(sv, row, ls[0]), LeavesHold(sv, row, ls[1..], conn)) else LeavesHold(sv, row, ls[1..], conn))
  {
    assert forall x :: x in ls <==> x == ls[0] || x in ls[1..];
  }

  ghost predicate AnyValidLeaf(ls: seq<LeafFilter>) {
    exists l :: l in ls && ValidFieldName(l.field)
  }

  ghost predicate AnyHasLeaf(gs: seq<QueryFilters>) {
    exists g :: g in gs && HasLeaf(g)
  }

  lemma {:induction false} LeavesCompiledIff(ls: seq<LeafFilter>, next: nat)
    ensures CompileLeaves(ls, next).clauses != [] <==> AnyValidLeaf(ls)
  {
    if ls != [] {
      assert forall x :: x in ls <==> x == ls[0] || x in ls[1..];
      if !ValidFieldName(ls[0].field) {
        LeavesCompiledIff(ls[1..], next);
      }
    }
  }

  lemma {:induction false} GroupsCompiledIff(gs: seq<QueryFilters>, conn: Connective, next: nat)
    ensures CompileGroups(gs, conn, next).clauses != [] <==> AnyHasLeaf(gs)
    decreases gs, 0
  {
    if gs != [] {
      CompiledIffLeaf(gs[0], next);
      GroupsCompiledIff(gs[1..], conn, next + |Compile(gs[0], next).params|);
      AnyHasLeafStep(gs);
    }
  }

  lemma {:induction false} AnyHasLeafStep(gs: seq<QueryFilters>)
    requires gs != []
    ensures AnyHasLeaf(gs) <==> HasLeaf(gs[0]) || AnyHasLeaf(gs[1..])
  {
    assert forall x :: x in gs <==> x == gs[0] || x in gs[1..];
  }

  lemma {:induction false} HasLeafParts(f: QueryFilters)
    ensures HasLeaf(f) <==> AnyValidLeaf(Leaves(f)) || AnyHasLeaf(f.and) || AnyHasLeaf(f.or)
  {
  }

  lemma {:induction false} CompileEmptyParts(f: QueryFilters, next: nat, a: bool, b: bool, c: bool)
    requires LeavesPart(f, next).clauses != [] <==> a
    requires AndsPart(f, next).clauses != [] <==> b
    requires OrsPart(f, next).clauses != [] <==> c
    ensures Compile(f, next).clauses != [] <==> a || b || c
  {
    CompileParts(f, next);
  }

  /** Nothing is compiled exactly when the filters have no valid leaf. */
  lemma {:induction false} CompiledIffLeaf(f: QueryFilters, next: nat)
    ensures Compile(f, next).clauses != [] <==> HasLeaf(f)
    decreases f, 1
  {
    LeavesCompiledIff(Leaves(f), next);
    GroupsCompiledIff(f.and, And, AndsNext(f, next));
    GroupsCompiledIff(f.or, Or, OrsNext(f, next));
    CompileEmptyParts(f, next, AnyValidLeaf(Leaves(f)), AnyHasLeaf(f.and), AnyHasLeaf(f.or));
    HasLeafParts(f);
  }

  lemma {:induction false} CompileGroupsStep(gs: seq<QueryFilters>, conn: Connective, next: nat)
    requires gs != []
    ensures
      var out := Compile(gs[0], next);
      var rest := CompileGroups(gs[1..], conn, next + |out.params|);
      && CompileGroups(gs, conn, next).clauses == Append(Grouped(conn, out), rest).clauses
      && CompileGroups(gs, conn, next).params == out.params + rest.params
  {
  }

  lemma {:induction false} GroupsBind(params: seq<string>, gs: seq<QueryFilters>, next: nat, inner: Connective)
    requires gs != [] && Binds(params, next, CompileGroups(gs, inner, next).params)
    ensures Binds(params, next, Compile(gs[0], next).params)
    ensures
      var after := next + |Compile(gs[0], next).params|;
      Binds(params, after, CompileGroups(gs[1..], inner, after).params)
  {
    CompileGroupsStep(gs, inner, next);
    var after := next + |Compile(gs[0], next).params|;
    BindsSplit(params, next, Compile(gs[0], next).params, CompileGroups(gs[1..], inner, after).params);
  }

  /** A group in front of other clauses. */
  lemma {:induction false} GroupThenRest(sv: Server, row: Row, params: seq<string>, conn: Connective, inner: Connective,
                                         out: Output, casts: bool, holds: bool, leaf: bool, rest: Output, castsR: bool, holdsR: bool)
    requires Denotes(EvalAll(sv, row, params, inner, out.clauses), casts, holds)
    requires (out.clauses != [] <==> leaf) && (leaf || casts)
    requires Denotes(EvalAll(sv, row, params, conn, rest.clauses), castsR, holdsR)
    ensures Denotes(EvalAll(sv, row, params, conn, Append(Grouped(inner, out), rest).clauses),
                    casts && castsR, Both(conn, if leaf then holds else conn == And, holdsR))
  {
    GroupedDenotes(sv, row, params, conn, inner, out, casts, holds);
    AppendDenotes(sv, row, params, conn, Grouped(inner, out), casts, if leaf then holds else conn == And, rest, castsR, holdsR);
  }

  lemma {:induction false} GroupsHoldStep(sv: Server, row: Row, gs: seq<QueryFilters>, conn: Connective, inner: Connective)
    requires gs != []
    ensures GroupsHold(sv, row, gs, conn, inner)
       <==> Both(conn, if HasLeaf(gs[0]) then FiltersHold(sv, row, gs[0], inner) else conn == And,
                 GroupsHold(sv, row, gs[1..], conn, inner))
    ensures GroupsCast(sv, row, gs) <==> Casts(sv, row, gs[0]) && GroupsCast(sv, row, gs[1..])
  {
    assert forall x :: x in gs <==> x == gs[0] || x in gs[1..];
  }

  /** What matters of a group: whether it takes part, casts and holds. */
  datatype GroupFact = GroupFact(counts: bool, casts: bool, holds: bool)

  predicate AllCast(facts: seq<GroupFact>) {
    facts == [] || (facts[0].casts && AllCast(facts[1..]))
  }

  predicate Joined(conn: Connective, facts: seq<GroupFact>) {
    if facts == [] then conn == And
    else Both(conn, if facts[0].counts then facts[0].holds else conn == And, Joined(conn, facts[1..]))
  }

  ghost function FactsOf(sv: Server, row: Row, gs: seq<QueryFilters>, inner: Connective): seq<GroupFact> {
    if gs == [] then []
    else [GroupFact(HasLeaf(gs[0]), Casts(sv, row, gs[0]), FiltersHold(sv, row, gs[0], inner))] + FactsOf(sv, row, gs[1..], inner)
  }

  lemma {:induction false} FactsJoined(sv: Server, row: Row, gs: seq<QueryFilters>, conn: Connective, inner: Connective)
    ensures Joined(conn, FactsOf(sv, row, gs, inner)) <==> GroupsHold(sv, row, gs, conn, inner)
    ensures AllCast(FactsOf(sv, row, gs, inner)) <==> GroupsCast(sv, row, gs)
  {
    if gs != [] {
      FactsJoined(sv, row, gs[1..], conn, inner);
      GroupsHoldStep(sv, row, gs, conn, inner);
      assert FactsOf(sv, row, gs, inner)[1..] == FactsOf(sv, row, gs[1..], inner);
    }
  }

  /** The groups, each compiled on its own. */
  function CompileEach(gs: seq<QueryFilters>, next: nat): seq<Output>
    decreases |gs|
  {
    if gs == [] then [] else [Compile(gs[0], next)] + CompileEach(gs[1..], next + |Compile(gs[0], next).params|)
  }

  function JoinEach(inner: Connective, outs: seq<Output>): Output {
    if outs == [] then Output([], []) else Append(Grouped(inner, outs[0]), JoinEach(inner, outs[1..]))
  }

  lemma {:induction false} GroupsAreJoined(gs: seq<QueryFilters>, inner: Connective, next: nat)
    ensures CompileGroups(gs, inner, next).clauses == JoinEach(inner, CompileEach(gs, next)).clauses
    decreases |gs|
  {
    if gs != [] {
      var after := next + |Compile(gs[0], next).params|;
      GroupsAreJoined(gs[1..], inner, after);
      CompileGroupsStep(gs, inner, next);
      assert CompileEach(gs, next)[1..] == CompileEach(gs[1..], after);
    }
  }

  /** The outputs are as the facts say. */
  ghost predicate StatedEach(sv: Server, row: Row, params: seq<string>, inner: Connective, outs: seq<Output>, facts: seq<GroupFact>) {
    |facts| == |outs| && forall i | 0 <= i < |outs| :: StatedOne(sv, row, params, inner, outs[i], facts[i])
  }

  predicate StatedOne(sv: Server, row: Row, params: seq<string>, inner: Connective, out: Output, fact: GroupFact) {
    && (out.clauses != [] <==> fact.counts) && (fact.counts || fact.casts)
    && Denotes(EvalAll(sv, row, params, inner, out.clauses), fact.casts, fact.holds)
  }

  lemma {:induction false} StatedDenote(sv: Server, row: Row, params: seq<string>, conn: Connective, inner: Connective, outs: seq<Output>, facts: seq<GroupFact>)
    requires StatedEach(sv, row, params, inner, outs, facts)
    ensures Denotes(EvalAll(sv, row, params, conn, JoinEach(inner, outs).clauses), AllCast(facts), Joined(conn, facts))
    decreases |outs|
  {
    if outs != [] {
      StatedDenote(sv, row, params, conn, inner, outs[1..], facts[1..]);
      assert StatedOne(sv, row, params, inner, outs[0], facts[0]);
      FirstThenRest(sv, row, params, conn, inner, outs[0], facts[0], JoinEach(inner, outs[1..]), facts[1..]);
      assert facts == [facts[0]] + facts[1..];
    }
  }

  lemma {:induction false} FirstThenRest(sv: Server, row: Row, params: seq<string>, conn: Connective, inner: Connective,
                                         out: Output, fact: GroupFact, rest: Output, facts: seq<GroupFact>)
    requires Denotes(EvalAll(sv, row, params, inner, out.clauses), fact.casts, fact.holds)
    requires (out.clauses != [] <==> fact.counts) && (fact.counts || fact.casts)
    requires Denotes(EvalAll(sv, row, params, conn, rest.clauses), AllCast(facts), Joined(conn, facts))
    ensures Denotes(EvalAll(sv, row, params, conn, Append(Grouped(inner, out), rest).clauses),
                    AllCast([fact] + facts), Joined(conn, [fact] + facts))
  {
    GroupThenRest(sv, row, params, conn, inner, out, fact.casts, fact.holds, fact.counts, rest, AllCast(facts), Joined(conn, facts));
    assert ([fact] + facts)[1..] == facts;
  }

  /** The compiled groups are as the facts say. */
  ghost predicate Stated(sv: Server, row: Row, params: seq<string>, gs: seq<QueryFilters>, next: nat, inner: Connective, facts: seq<GroupFact>)
    decreases |gs|
  {
    |facts| == |gs| && (gs != [] ==>
      var out := Compile(gs[0], next);
      && StatedOne(sv, row, params, inner, out, facts[0])
      && Stated(sv, row, params, gs[1..], next + |out.params|, inner, facts[1..]))
  }

  lemma {:induction false} StatedCons(sv: Server, row: Row, params: seq<string>, gs: seq<QueryFilters>, next: nat, inner: Connective,
                                      fact: GroupFact, rest: seq<GroupFact>)
    requires gs != []
    requires
      var out := Compile(gs[0], next);
      && (out.clauses != [] <==> fact.counts) && (fact.counts || fact.casts)
      && Denotes(EvalAll(sv, row, params, inner, out.clauses), fact.casts, fact.holds)
      && Stated(sv, row, params, gs[1..], next + |out.params|, inner, rest)
    ensures Stated(sv, row, params, gs, next, inner, [fact] + rest)
  {
    assert ([fact] + rest)[1..] == rest;
  }

  lemma {:induction false} StatedIsEach(sv: Server, row: Row, params: seq<string>, gs: seq<QueryFilters>, next: nat, inner: Connective, facts: seq<GroupFact>)
    requires Stated(sv, row, params, gs, next, inner, facts)
    ensures StatedEach(sv, row, params, inner, CompileEach(gs, next), facts)
    decreases |gs|
  {
    if gs != [] {
      StatedIsEach(sv, row, params, gs[1..], next + |Compile(gs[0], next).params|, inner, facts[1..]);
    }
  }

  lemma {:induction false} GroupsStated(sv: Server, row: Row, params: seq<string>, gs: seq<QueryFilters>, next: nat, inner: Connective)
    requires Binds(params, next, CompileGroups(gs, inner, next).params)
    ensures Stated(sv, row, params, gs, next, inner, FactsOf(sv, row, gs, inner))
    decreases gs, 0
  {
    if gs != [] {
      GroupsBind(params, gs, next, inner);
      GroupsStated(sv, row, params, gs[1..], next + |Compile(gs[0], next).params|, inner);
      FiltersDenote(sv, row, params, gs[0], next, inner);
      CompiledIffLeaf(gs[0], next);
      if !HasLeaf(gs[0]) {
        NoLeafCasts(sv, row, gs[0]);
      }
      StatedCons(sv, row, params, gs, next, inner, GroupFact(HasLeaf(gs[0]), Casts(sv, row, gs[0]), FiltersHold(sv, row, gs[0], inner)),
        FactsOf(sv, row, gs[1..], inner));
    }
  }

  lemma {:induction false} GroupsDenote(sv: Server, row: Row, params: seq<string>, gs: seq<QueryFilters>, next: nat, conn: Connective, inner: Connective)
    requires Binds(params, next, CompileGroups(gs, inner, next).params)
    ensures Denotes(EvalAll(sv, row, params, conn, CompileGroups(gs, inner, next).clauses),
                    GroupsCast(sv, row, gs), GroupsHold(sv, row, gs, conn, inner))
    decreases gs, 1
  {
    GroupsStated(sv, row, params, gs, next, inner);
    StatedIsEach(sv, row, params, gs, next, inner, FactsOf(sv, row, gs, inner));
    StatedDenote(sv, row, params, conn, inner, CompileEach(gs, next), FactsOf(sv, row, gs, inner));
    GroupsAreJoined(gs, inner, next);
    FactsJoined(sv, row, gs, conn, inner);
  }

  lemma {:induction false} NoLeafCasts(sv: Server, row: Row, f: QueryFilters)
    requires !HasLeaf(f)
    ensures Casts(sv, row, f)
    decreases f
  {
    forall g | g in f.and ensures Casts(sv, row, g) {
      NoLeafCasts(sv, row, g);
    }
    forall g | g in f.or ensures Casts(sv, row, g) {
      NoLeafCasts(sv, row, g);
    }
  }

  ghost predicate PartsHold(sv: Server, row: Row, f: QueryFilters, conn: Connective) {
    Both(conn, Both(conn, LeavesHold(sv, row, Leaves(f), conn), GroupsHold(sv, row, f.and, conn, And)),
         GroupsHold(sv, row, f.or, conn, Or))
  }

  ghost predicate PartsCast(sv: Server, row: Row, f: QueryFilters) {
    LeavesCast(sv, row, Leaves(f)) && GroupsCast(sv, row, f.and) && GroupsCast(sv, row, f.or)
  }

  lemma {:induction false} PartsBind(params: seq<string>, f: QueryFilters, next: nat)
    requires Binds(params, next, Compile(f, next).params)
    ensures Binds(params, next, LeavesPart(f, next).params)
    ensures Binds(params, AndsNext(f, next), AndsPart(f, next).params)
    ensures Binds(params, OrsNext(f, next), OrsPart(f, next).params)
  {
    CompileParts(f, next);
    BindsSplit(params, next, LeavesPart(f, next).params + AndsPart(f, next).params, OrsPart(f, next).params);
    BindsSplit(params, next, LeavesPart(f, next).params, AndsPart(f, next).params);
  }

  lemma {:induction false} PartsCombine(sv: Server, row: Row, params: seq<string>, f: QueryFilters, next: nat, conn: Connective,
                     c1: bool, h1: bool, c2: bool, h2: bool, c3: bool, h3: bool)
    requires Denotes(EvalAll(sv, row, params, conn, LeavesPart(f, next).clauses), c1, h1)
    requires Denotes(EvalAll(sv, row, params, conn, AndsPart(f, next).clauses), c2, h2)
    requires Denotes(EvalAll(sv, row, params, conn, OrsPart(f, next).clauses), c3, h3)
    ensures Denotes(EvalAll(sv, row, params, conn, Compile(f, next).clauses),
                    c1 && c2 && c3, Both(conn, Both(conn, h1, h2), h3))
  {
    CompileParts(f, next);
    AppendDenotes(sv, row, params, conn, LeavesPart(f, next), c1, h1, AndsPart(f, next), c2, h2);
    AppendDenotes(sv, row, params, conn, Append(LeavesPart(f, next), AndsPart(f, next)), c1 && c2, Both(conn, h1, h2),
      OrsPart(f, next), c3, h3);
  }

  /** For every filter tree, row and connective: the compiled clauses, with
      their placeholders bound, are true exactly when the filters hold directly,
      and fail exactly when a numeric cast does. */
  lemma {:induction false} FiltersDenote(sv: Server, row: Row, params: seq<string>, f: QueryFilters, next: nat, conn: Connective)
    requires Binds(params, next, Compile(f, next).params)
    ensures Denotes(EvalAll(sv, row, params, conn, Compile(f, next).clauses), Casts(sv, row, f), FiltersHold(sv, row, f, conn))
    decreases f, 2
  {
    PartsBind(params, f, next);
    LeavesDenote(sv, row, params, Leaves(f), next, conn);
    GroupsDenote(sv, row, params, f.and, AndsNext(f, next), conn, And);
    GroupsDenote(sv, row, params, f.or, OrsNext(f, next), conn, Or);
    PartsCombine(sv, row, params, f, next, conn,
      LeavesCast(sv, row, Leaves(f)), LeavesHold(sv, row, Leaves(f), conn),
      GroupsCast(sv, row, f.and), GroupsHold(sv, row, f.and, conn, And),
      GroupsCast(sv, row, f.or), GroupsHold(sv, row, f.or, conn, Or));
    FiltersHoldParts(sv, row, f, conn);
  }

  lemma {:induction false} FiltersHoldParts(sv: Server, row: Row, f: QueryFilters, conn: Connective)
    ensures FiltersHold(sv, row, f, conn) <==> PartsHold(sv, row, f, conn)
    ensures Casts(sv, row, f) <==> PartsCast(sv, row, f)
  {
  }

  // -------------------------------------------------- parentheses are harmless

  lemma {:induction false} NormalSameTruth(sv: Server, row: Row, params: seq<string>, c: Clause)
    ensures Eval(sv, row, params, Normal(c)) == Eval(sv, row, params, c)
    decreases c
  {
    if c.Group? {
      NormalAllSameTruth(sv, row, params, c.conn, c.parts);
      CollapseSameTruth(sv, row, params, c.conn, NormalAll(c.parts));
    }
  }

  lemma {:induction false} NormalAllSameTruth(sv: Server, row: Row, params: seq<string>, conn: Connective, cs: seq<Clause>)
    ensures EvalAll(sv, row, params, conn, NormalAll(cs)) == EvalAll(sv, row, params, conn, cs)
    decreases cs
  {
    if cs != [] {
      NormalSameTruth(sv, row, params, cs[0]);
      NormalAllSameTruth(sv, row, params, conn, cs[1..]);
    }
  }

  lemma {:induction false} CollapseSameTruth(sv: Server, row: Row, params: seq<string>, conn: Connective, cs: seq<Clause>)
    ensures Eval(sv, row, params, Collapse(conn, cs)) == EvalAll(sv, row, params, conn, cs)
  {
    if |cs| == 1 {
      assert cs[1..] == [];
    }
  }
}
