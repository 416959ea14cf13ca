/** What the filters select among stored documents. Fields hold typed JSON values,
    the server reads them with `->>`, and the meaning of a filter is stated on its
    own field, operator and value. */
module PgDocument {
  import opened Text
  import opened SqlText
  import opened SqlGrammar
  import opened PgFilter
  import opened PgMeaning
  import Like

  type Fields = map<string, Json>

  /** `->>` on one value: NULL for a JSON null, the word of a boolean, the characters
      of a string; `show` writes numbers, arrays and objects. */
  function Reads(v: Json, show: Json -> string): Option<string> {
    match v
    case Null => None
    case Bool(b) => Some(if b then "true" else "false")
    case Str(s) => Some(s)
    case _ => Some(show(v))
  }

  /** The row as the WHERE clause sees it. */
  function RowOf(plugin: string, collection: string, m: Fields, show: Json -> string): Row {
    Row(plugin, collection, map k | k in m && Reads(m[k], show).Some? :: Reads(m[k], show).value)
  }

  // ------------------------------------------------- what one filter asks for

  /** Letters, digits, underscores and dots of the ASCII range, at least one. */
  predicate GoodName(field: string) {
    field != "" &&
    forall i | 0 <= i < |field| ::
      'A' <= field[i] <= 'Z' || 'a' <= field[i] <= 'z' || '0' <= field[i] <= '9' || field[i] == '_' || field[i] == '.'
  }

  /** The stored value is written with exactly this text. */
  predicate Written(v: Json, text: string, show: Json -> string) {
    match v
    case Null => false
    case Bool(true) => text == "true"
    case Bool(false) => text == "false"
    case Str(s) => s == text
    case _ => show(v) == text
  }

  /** The field holds the value asked for, going by what is written. */
  predicate EqualityHolds(m: Fields, show: Json -> string, f: FieldFilter) {
    f.field in m &&
    match f.value
    case Str(s) => Written(m[f.field], s, show)
    case Bool(true) => Written(m[f.field], "true", show)
    case Bool(false) => Written(m[f.field], "false", show)
    case Null => Written(m[f.field], "", show)
    case Number(repr) => Written(m[f.field], repr, show)
    case Compound(repr) => Written(m[f.field], repr, show)
  }

  /** The number that a filter's value stands for, if the server takes it for one. */
  function NumberAsked(sv: Server, v: Json): Option<real> {
    match v
    case Number(repr) => sv.numeric(repr)
    case Str(s) => sv.numeric(s)
    case Compound(repr) => sv.numeric(repr)
    case Bool(b) => sv.numeric(if b then "true" else "false")
    case Null => sv.numeric("")
  }

  function NumberStored(sv: Server, v: Json, show: Json -> string): Option<real> {
    if v.Null? then None else sv.numeric(Reads(v, show).value)
  }

  predicate ComparisonHolds(sv: Server, m: Fields, show: Json -> string, f: ComparisonFilter) {
    f.field in m && NumberStored(sv, m[f.field], show).Some? && NumberAsked(sv, f.value).Some? &&
    var a, b := NumberStored(sv, m[f.field], show).value, NumberAsked(sv, f.value).value;
    match f.operator
    case Gte => a >= b
    case Lte => a <= b
    case Gt => a > b
    case Lt => a < b
  }

  /** Both sides of the comparison are numbers, or the field has no value. */
  predicate ComparisonCasts(sv: Server, m: Fields, show: Json -> string, f: ComparisonFilter) {
    && NumberAsked(sv, f.value).Some?
    && (f.field in m && !m[f.field].Null? ==> NumberStored(sv, m[f.field], show).Some?)
  }

  predicate TextHolds(sv: Server, m: Fields, show: Json -> string, f: TextFilter) {
    f.field in m && !m[f.field].Null? && Like.Contains(sv.same, f.contains, Reads(m[f.field], show).value)
  }

  // ------------------------------------------------------ what a tree asks for

  ghost predicate AnyGoodName(f: QueryFilters) {
    || (exists i | 0 <= i < |f.equality| :: GoodName(f.equality[i].field))
    || (exists i | 0 <= i < |f.comparison| :: GoodName(f.comparison[i].field))
    || (exists i | 0 <= i < |f.textSearch| :: GoodName(f.textSearch[i].field))
  }

  /** Some filter in the tree, at any depth, is on a good name. */
  ghost predicate Asks(f: QueryFilters)
    decreases f
  {
    || AnyGoodName(f)
    || (exists i | 0 <= i < |f.and| :: Asks(f.and[i]))
    || (exists i | 0 <= i < |f.or| :: Asks(f.or[i]))
  }

  ghost predicate AllOwn(sv: Server, m: Fields, show: Json -> string, f: QueryFilters) {
    && (forall i | 0 <= i < |f.equality| && GoodName(f.equality[i].field) :: EqualityHolds(m, show, f.equality[i]))
    && (forall i | 0 <= i < |f.comparison| && GoodName(f.comparison[i].field) :: ComparisonHolds(sv, m, show, f.comparison[i]))
    && (forall i | 0 <= i < |f.textSearch| && GoodName(f.textSearch[i].field) :: TextHolds(sv, m, show, f.textSearch[i]))
  }

  ghost predicate SomeOwn(sv: Server, m: Fields, show: Json -> string, f: QueryFilters) {
    || (exists i | 0 <= i < |f.equality| :: GoodName(f.equality[i].field) && EqualityHolds(m, show, f.equality[i]))
    || (exists i | 0 <= i < |f.comparison| :: GoodName(f.comparison[i].field) && ComparisonHolds(sv, m, show, f.comparison[i]))
    || (exists i | 0 <= i < |f.textSearch| :: GoodName(f.textSearch[i].field) && TextHolds(sv, m, show, f.textSearch[i]))
  }

  /** The document satisfies all of the tree's parts, or some of them for an OR
      group; filters on other names and groups that ask for nothing are left out. */
  ghost predicate Satisfies(sv: Server, m: Fields, show: Json -> string, f: QueryFilters, all: bool)
    decreases f
  {
    if all then
      && AllOwn(sv, m, show, f)
      && (forall i | 0 <= i < |f.and| && Asks(f.and[i]) :: Satisfies(sv, m, show, f.and[i], true))
      && (forall i | 0 <= i < |f.or| && Asks(f.or[i]) :: Satisfies(sv, m, show, f.or[i], false))
    else
      || SomeOwn(sv, m, show, f)
      || (exists i | 0 <= i < |f.and| :: Asks(f.and[i]) && Satisfies(sv, m, show, f.and[i], true))
      || (exists i | 0 <= i < |f.or| :: Asks(f.or[i]) && Satisfies(sv, m, show, f.or[i], false))
  }

  /** Every comparison of the tree is between numbers. */
  ghost predicate AllNumbers(sv: Server, m: Fields, show: Json -> string, f: QueryFilters)
    decreases f
  {
    && (forall i | 0 <= i < |f.comparison| && GoodName(f.comparison[i].field) :: ComparisonCasts(sv, m, show, f.comparison[i]))
    && (forall i | 0 <= i < |f.and| :: AllNumbers(sv, m, show, f.and[i]))
    && (forall i | 0 <= i < |f.or| :: AllNumbers(sv, m, show, f.or[i]))
  }

  // ------------------------------------------- the leaves mean the same filters

  lemma {:induction false} GoodNameIff(field: string)
    ensures GoodName(field) <==> ValidFieldName(field)
  {
  }

  lemma {:induction false} EqualityMeans(sv: Server, plugin: string, collection: string, m: Fields, show: Json -> string, f: FieldFilter)
    ensures
      var l := LeafFilter(f.field, Equals(JsonValueToString(f.value)));
      && (LeafHolds(sv, RowOf(plugin, collection, m, show), l) <==> EqualityHolds(m, show, f))
      && LeafCasts(sv, RowOf(plugin, collection, m, show), l)
  {
  }

  lemma {:induction false} ComparisonMeans(sv: Server, plugin: string, collection: string, m: Fields, show: Json -> string, f: ComparisonFilter)
    ensures
      var l := LeafFilter(f.field, Compares(f.operator, JsonValueToString(f.value)));
      && (LeafHolds(sv, RowOf(plugin, collection, m, show), l) <==> ComparisonHolds(sv, m, show, f))
      && (LeafCasts(sv, RowOf(plugin, collection, m, show), l) <==> ComparisonCasts(sv, m, show, f))
  {
    assert NumberAsked(sv, f.value) == sv.numeric(JsonValueToString(f.value));
  }

  lemma {:induction false} TextMeans(sv: Server, plugin: string, collection: string, m: Fields, show: Json -> string, f: TextFilter)
    ensures
      var l := LeafFilter(f.field, Contains(f.contains));
      && (LeafHolds(sv, RowOf(plugin, collection, m, show), l) <==> TextHolds(sv, m, show, f))
      && LeafCasts(sv, RowOf(plugin, collection, m, show), l)
  {
  }

  /** The leaves of a tree are its own filters, one for each. */
  lemma {:induction false} LeafIsFilter(f: QueryFilters, l: LeafFilter)
    ensures l in Leaves(f) <==>
      || (exists i | 0 <= i < |f.equality| :: l == LeafFilter(f.equality[i].field, Equals(JsonValueToString(f.equality[i].value))))
      || (exists i | 0 <= i < |f.comparison| :: l == LeafFilter(f.comparison[i].field, Compares(f.comparison[i].operator, JsonValueToString(f.comparison[i].value))))
      || (exists i | 0 <= i < |f.textSearch| :: l == LeafFilter(f.textSearch[i].field, Contains(f.textSearch[i].contains)))
  {
    InConcat(EqualityLeaves(f.equality) + ComparisonLeaves(f.comparison), TextLeaves(f.textSearch), l);
    InConcat(EqualityLeaves(f.equality), ComparisonLeaves(f.comparison), l);
    InEqualities(f.equality, l);
    InComparisons(f.comparison, l);
    InTexts(f.textSearch, l);
  }

  lemma {:induction false} InConcat(a: seq<LeafFilter>, b: seq<LeafFilter>, l: LeafFilter)
    ensures l in a + b <==> l in a || l in b
  {
  }

  lemma {:induction false} InEqualities(fs: seq<FieldFilter>, l: LeafFilter)
    ensures l in EqualityLeaves(fs) <==> exists i | 0 <= i < |fs| :: l == LeafFilter(fs[i].field, Equals(JsonValueToString(fs[i].value)))
  {
    if i :| 0 <= i < |fs| && l == LeafFilter(fs[i].field, Equals(JsonValueToString(fs[i].value))) {
      assert EqualityLeaves(fs)[i] == l;
    }
  }

  lemma {:induction false} InComparisons(fs: seq<ComparisonFilter>, l: LeafFilter)
    ensures l in ComparisonLeaves(fs) <==> exists i | 0 <= i < |fs| :: l == LeafFilter(fs[i].field, Compares(fs[i].operator, JsonValueToString(fs[i].value)))
  {
    if i :| 0 <= i < |fs| && l == LeafFilter(fs[i].field, Compares(fs[i].operator, JsonValueToString(fs[i].value))) {
      assert ComparisonLeaves(fs)[i] == l;
    }
  }

  lemma {:induction false} InTexts(fs: seq<TextFilter>, l: LeafFilter)
    ensures l in TextLeaves(fs) <==> exists i | 0 <= i < |fs| :: l == LeafFilter(fs[i].field, Contains(fs[i].contains))
  {
    if i :| 0 <= i < |fs| && l == LeafFilter(fs[i].field, Contains(fs[i].contains)) {
      assert TextLeaves(fs)[i] == l;
    }
  }

  /** One filter's leaf is a leaf of the tree. */
  lemma {:induction false} FilterIsLeaf(f: QueryFilters)
    ensures forall i | 0 <= i < |f.equality| :: LeafFilter(f.equality[i].field, Equals(JsonValueToString(f.equality[i].value))) in Leaves(f)
    ensures forall i | 0 <= i < |f.comparison| ::
      LeafFilter(f.comparison[i].field, Compares(f.comparison[i].operator, JsonValueToString(f.comparison[i].value))) in Leaves(f)
    ensures forall i | 0 <= i < |f.textSearch| :: LeafFilter(f.textSearch[i].field, Contains(f.textSearch[i].contains)) in Leaves(f)
  {
    forall i | 0 <= i < |f.equality| ensures LeafFilter(f.equality[i].field, Equals(JsonValueToString(f.equality[i].value))) in Leaves(f) {
      LeafIsFilter(f, LeafFilter(f.equality[i].field, Equals(JsonValueToString(f.equality[i].value))));
    }
    forall i | 0 <= i < |f.comparison|
      ensures LeafFilter(f.comparison[i].field, Compares(f.comparison[i].operator, JsonValueToString(f.comparison[i].value))) in Leaves(f)
    {
      LeafIsFilter(f, LeafFilter(f.comparison[i].field, Compares(f.comparison[i].operator, JsonValueToString(f.comparison[i].value))));
    }
    forall i | 0 <= i < |f.textSearch| ensures LeafFilter(f.textSearch[i].field, Contains(f.textSearch[i].contains)) in Leaves(f) {
      LeafIsFilter(f, LeafFilter(f.textSearch[i].field, Contains(f.textSearch[i].contains)));
    }
  }

  lemma {:induction false} AllOwnMeans(sv: Server, plugin: string, collection: string, m: Fields, show: Json -> string, f: QueryFilters)
    ensures LeavesHold(sv, RowOf(plugin, collection, m, show), Leaves(f), And) <==> AllOwn(sv, m, show, f)
  {
    var row := RowOf(plugin, collection, m, show);
    if LeavesHold(sv, row, Leaves(f), And) {
      FilterIsLeaf(f);
      forall i | 0 <= i < |f.equality| && GoodName(f.equality[i].field) ensures EqualityHolds(m, show, f.equality[i]) {
        GoodNameIff(f.equality[i].field);
        EqualityMeans(sv, plugin, collection, m, show, f.equality[i]);
      }
      forall i | 0 <= i < |f.comparison| && GoodName(f.comparison[i].field) ensures ComparisonHolds(sv, m, show, f.comparison[i]) {
        GoodNameIff(f.comparison[i].field);
        ComparisonMeans(sv, plugin, collection, m, show, f.comparison[i]);
      }
      forall i | 0 <= i < |f.textSearch| && GoodName(f.textSearch[i].field) ensures TextHolds(sv, m, show, f.textSearch[i]) {
        GoodNameIff(f.textSearch[i].field);
        TextMeans(sv, plugin, collection, m, show, f.textSearch[i]);
      }
    }
    if AllOwn(sv, m, show, f) {
      forall l | l in Leaves(f) && ValidFieldName(l.field) ensures LeafHolds(sv, row, l) {
        LeafFromOwn(sv, plugin, collection, m, show, f, l);
      }
    }
  }

  /** A leaf on a valid field is one of the tree's filters on a good name, and holds
      when that filter does. */
  lemma {:induction false} LeafFromOwn(sv: Server, plugin: string, collection: string, m: Fields, show: Json -> string, f: QueryFilters, l: LeafFilter)
    requires l in Leaves(f) && ValidFieldName(l.field)
    ensures AnyGoodName(f)
    ensures AllOwn(sv, m, show, f) ==> LeafHolds(sv, RowOf(plugin, collection, m, show), l)
    ensures LeafHolds(sv, RowOf(plugin, collection, m, show), l) ==> SomeOwn(sv, m, show, f)
    ensures OwnNumbers(sv, m, show, f) ==> LeafCasts(sv, RowOf(plugin, collection, m, show), l)
  {
    GoodNameIff(l.field);
    LeafIsFilter(f, l);
    if i :| 0 <= i < |f.equality| && l == LeafFilter(f.equality[i].field, Equals(JsonValueToString(f.equality[i].value))) {
      EqualityMeans(sv, plugin, collection, m, show, f.equality[i]);
    } else if i :| 0 <= i < |f.comparison| && l == LeafFilter(f.comparison[i].field, Compares(f.comparison[i].operator, JsonValueToString(f.comparison[i].value))) {
      ComparisonMeans(sv, plugin, collection, m, show, f.comparison[i]);
    } else {
      var i :| 0 <= i < |f.textSearch| && l == LeafFilter(f.textSearch[i].field, Contains(f.textSearch[i].contains));
      TextMeans(sv, plugin, collection, m, show, f.textSearch[i]);
    }
  }

  lemma {:induction false} SomeOwnMeans(sv: Server, plugin: string, collection: string, m: Fields, show: Json -> string, f: QueryFilters)
    ensures LeavesHold(sv, RowOf(plugin, collection, m, show), Leaves(f), Or) <==> SomeOwn(sv, m, show, f)
  {
    var row := RowOf(plugin, collection, m, show);
    if LeavesHold(sv, row, Leaves(f), Or) {
      var l :| l in Leaves(f) && ValidFieldName(l.field) && LeafHolds(sv, row, l);
      LeafFromOwn(sv, plugin, collection, m, show, f, l);
    }
    FilterIsLeaf(f);
    if i :| 0 <= i < |f.equality| && GoodName(f.equality[i].field) && EqualityHolds(m, show, f.equality[i]) {
      GoodNameIff(f.equality[i].field);
      EqualityMeans(sv, plugin, collection, m, show, f.equality[i]);
    }
    if i :| 0 <= i < |f.comparison| && GoodName(f.comparison[i].field) && ComparisonHolds(sv, m, show, f.comparison[i]) {
      GoodNameIff(f.comparison[i].field);
      ComparisonMeans(sv, plugin, collection, m, show, f.comparison[i]);
    }
    if i :| 0 <= i < |f.textSearch| && GoodName(f.textSearch[i].field) && TextHolds(sv, m, show, f.textSearch[i]) {
      GoodNameIff(f.textSearch[i].field);
      TextMeans(sv, plugin, collection, m, show, f.textSearch[i]);
    }
  }

  lemma {:induction false} OwnCastsMean(sv: Server, plugin: string, collection: string, m: Fields, show: Json -> string, f: QueryFilters)
    ensures LeavesCast(sv, RowOf(plugin, collection, m, show), Leaves(f))
       <==> OwnNumbers(sv, m, show, f)
  {
    var row := RowOf(plugin, collection, m, show);
    if LeavesCast(sv, row, Leaves(f)) {
      FilterIsLeaf(f);
      forall i | 0 <= i < |f.comparison| && GoodName(f.comparison[i].field) ensures ComparisonCasts(sv, m, show, f.comparison[i]) {
        GoodNameIff(f.comparison[i].field);
        ComparisonMeans(sv, plugin, collection, m, show, f.comparison[i]);
      }
    } else {
      var l :| l in Leaves(f) && ValidFieldName(l.field) && !LeafCasts(sv, row, l);
      LeafFromOwn(sv, plugin, collection, m, show, f, l);
    }
  }

  lemma {:induction false} OwnNamesMean(f: QueryFilters)
    ensures AnyValidLeaf(Leaves(f)) <==> AnyGoodName(f)
  {
    FilterIsLeaf(f);
    if i :| 0 <= i < |f.equality| && GoodName(f.equality[i].field) {
      GoodNameIff(f.equality[i].field);
      assert LeafFilter(f.equality[i].field, Equals(JsonValueToString(f.equality[i].value))) in Leaves(f);
    }
    if i :| 0 <= i < |f.comparison| && GoodName(f.comparison[i].field) {
      GoodNameIff(f.comparison[i].field);
      assert LeafFilter(f.comparison[i].field, Compares(f.comparison[i].operator, JsonValueToString(f.comparison[i].value))) in Leaves(f);
    }
    if i :| 0 <= i < |f.textSearch| && GoodName(f.textSearch[i].field) {
      GoodNameIff(f.textSearch[i].field);
      assert LeafFilter(f.textSearch[i].field, Contains(f.textSearch[i].contains)) in Leaves(f);
    }
    if AnyValidLeaf(Leaves(f)) {
      var l :| l in Leaves(f) && ValidFieldName(l.field);
      GoodNameIff(l.field);
      LeafIsFilter(f, l);
    }
  }

  // ----------------------------------------------------------- the whole tree

  lemma {:induction false} AsksMeans(f: QueryFilters)
    ensures HasLeaf(f) <==> Asks(f)
    decreases f
  {
    HasLeafParts(f);
    OwnNamesMean(f);
    forall i | 0 <= i < |f.and| ensures HasLeaf(f.and[i]) <==> Asks(f.and[i]) {
      AsksMeans(f.and[i]);
    }
    forall i | 0 <= i < |f.or| ensures HasLeaf(f.or[i]) <==> Asks(f.or[i]) {
      AsksMeans(f.or[i]);
    }
    AnyIndex(f.and);
    AnyIndex(f.or);
  }

  lemma {:induction false} AnyIndex(gs: seq<QueryFilters>)
    ensures AnyHasLeaf(gs) <==> exists i | 0 <= i < |gs| :: HasLeaf(gs[i])
  {
    if AnyHasLeaf(gs) {
      var g :| g in gs && HasLeaf(g);
      var i :| 0 <= i < |gs| && gs[i] == g;
    }
  }

  lemma {:induction false} GroupsByIndex(sv: Server, row: Row, gs: seq<QueryFilters>, inner: Connective)
    ensures GroupsHold(sv, row, gs, And, inner) <==> forall i | 0 <= i < |gs| && HasLeaf(gs[i]) :: FiltersHold(sv, row, gs[i], inner)
    ensures GroupsHold(sv, row, gs, Or, inner) <==> exists i | 0 <= i < |gs| :: HasLeaf(gs[i]) && FiltersHold(sv, row, gs[i], inner)
    ensures GroupsCast(sv, row, gs) <==> forall i | 0 <= i < |gs| :: Casts(sv, row, gs[i])
  {
  }

  function Joining(all: bool): Connective { if all then And else Or }

  ghost predicate OwnSatisfied(sv: Server, m: Fields, show: Json -> string, f: QueryFilters, all: bool) {
    if all then AllOwn(sv, m, show, f) else SomeOwn(sv, m, show, f)
  }

  ghost predicate GroupsSatisfied(sv: Server, m: Fields, show: Json -> string, gs: seq<QueryFilters>, inner: bool, all: bool) {
    if all then forall i | 0 <= i < |gs| && Asks(gs[i]) :: Satisfies(sv, m, show, gs[i], inner)
    else exists i | 0 <= i < |gs| :: Asks(gs[i]) && Satisfies(sv, m, show, gs[i], inner)
  }

  lemma {:induction false} SatisfiesParts(sv: Server, m: Fields, show: Json -> string, f: QueryFilters, all: bool)
    ensures Satisfies(sv, m, show, f, all) <==>
      Both(Joining(all), Both(Joining(all), OwnSatisfied(sv, m, show, f, all), GroupsSatisfied(sv, m, show, f.and, true, all)),
           GroupsSatisfied(sv, m, show, f.or, false, all))
  {
  }

  lemma {:induction false} OwnMeans(sv: Server, plugin: string, collection: string, m: Fields, show: Json -> string, f: QueryFilters, all: bool)
    ensures LeavesHold(sv, RowOf(plugin, collection, m, show), Leaves(f), Joining(all)) <==> OwnSatisfied(sv, m, show, f, all)
  {
    AllOwnMeans(sv, plugin, collection, m, show, f);
    SomeOwnMeans(sv, plugin, collection, m, show, f);
  }

  lemma {:induction false} GroupsMean(sv: Server, row: Row, m: Fields, show: Json -> string, gs: seq<QueryFilters>, inner: bool, all: bool)
    requires forall i | 0 <= i < |gs| :: FiltersHold(sv, row, gs[i], Joining(inner)) <==> Satisfies(sv, m, show, gs[i], inner)
    requires forall i | 0 <= i < |gs| :: HasLeaf(gs[i]) <==> Asks(gs[i])
    ensures GroupsHold(sv, row, gs, Joining(all), Joining(inner)) <==> GroupsSatisfied(sv, m, show, gs, inner, all)
  {
    GroupsByIndex(sv, row, gs, Joining(inner));
  }

  lemma {:induction false} GroupsAgree(sv: Server, plugin: string, collection: string, m: Fields, show: Json -> string, f: QueryFilters,
                                       gs: seq<QueryFilters>, inner: bool, all: bool)
    requires gs == f.and || gs == f.or
    ensures GroupsHold(sv, RowOf(plugin, collection, m, show), gs, Joining(all), Joining(inner)) <==> GroupsSatisfied(sv, m, show, gs, inner, all)
    decreases f, 0
  {
    var row := RowOf(plugin, collection, m, show);
    forall i | 0 <= i < |gs| ensures FiltersHold(sv, row, gs[i], Joining(inner)) <==> Satisfies(sv, m, show, gs[i], inner) {
      SatisfiesMeans(sv, plugin, collection, m, show, gs[i], inner);
    }
    forall i | 0 <= i < |gs| ensures HasLeaf(gs[i]) <==> Asks(gs[i]) {
      AsksMeans(gs[i]);
    }
    GroupsMean(sv, row, m, show, gs, inner, all);
  }

  /** For every filter tree and document: the filters hold of the row exactly when
      the document satisfies them. */
  lemma {:induction false} SatisfiesMeans(sv: Server, plugin: string, collection: string, m: Fields, show: Json -> string, f: QueryFilters, all: bool)
    ensures FiltersHold(sv, RowOf(plugin, collection, m, show), f, Joining(all)) <==> Satisfies(sv, m, show, f, all)
    decreases f, 1
  {
    GroupsAgree(sv, plugin, collection, m, show, f, f.and, true, all);
    GroupsAgree(sv, plugin, collection, m, show, f, f.or, false, all);
    OwnMeans(sv, plugin, collection, m, show, f, all);
    PartsAgree(sv, RowOf(plugin, collection, m, show), m, show, f, all);
  }

  lemma {:induction false} PartsAgree(sv: Server, row: Row, m: Fields, show: Json -> string, f: QueryFilters, all: bool)
    requires LeavesHold(sv, row, Leaves(f), Joining(all)) <==> OwnSatisfied(sv, m, show, f, all)
    requires GroupsHold(sv, row, f.and, Joining(all), And) <==> GroupsSatisfied(sv, m, show, f.and, true, all)
    requires GroupsHold(sv, row, f.or, Joining(all), Or) <==> GroupsSatisfied(sv, m, show, f.or, false, all)
    ensures FiltersHold(sv, row, f, Joining(all)) <==> Satisfies(sv, m, show, f, all)
  {
    FiltersHoldParts(sv, row, f, Joining(all));
    SatisfiesParts(sv, m, show, f, all);
  }

  ghost predicate OwnNumbers(sv: Server, m: Fields, show: Json -> string, f: QueryFilters) {
    forall i | 0 <= i < |f.comparison| && GoodName(f.comparison[i].field) :: ComparisonCasts(sv, m, show, f.comparison[i])
  }

  ghost predicate GroupsNumbers(sv: Server, m: Fields, show: Json -> string, gs: seq<QueryFilters>) {
    forall i | 0 <= i < |gs| :: AllNumbers(sv, m, show, gs[i])
  }

  lemma {:induction false} NumbersParts(sv: Server, m: Fields, show: Json -> string, f: QueryFilters)
    ensures AllNumbers(sv, m, show, f) <==> OwnNumbers(sv, m, show, f) && GroupsNumbers(sv, m, show, f.and) && GroupsNumbers(sv, m, show, f.or)
  {
  }

  lemma {:induction false} GroupNumbersAgree(sv: Server, plugin: string, collection: string, m: Fields, show: Json -> string, f: QueryFilters, gs: seq<QueryFilters>)
    requires gs == f.and || gs == f.or
    ensures GroupsCast(sv, RowOf(plugin, collection, m, show), gs) <==> GroupsNumbers(sv, m, show, gs)
    decreases f, 0
  {
    var row := RowOf(plugin, collection, m, show);
    forall i | 0 <= i < |gs| ensures Casts(sv, row, gs[i]) <==> AllNumbers(sv, m, show, gs[i]) {
      NumbersMean(sv, plugin, collection, m, show, gs[i]);
    }
    GroupsByIndex(sv, row, gs, And);
  }

  /** The numeric casts succeed on the row exactly when the comparisons are between
      numbers. */
  lemma {:induction false} NumbersMean(sv: Server, plugin: string, collection: string, m: Fields, show: Json -> string, f: QueryFilters)
    ensures Casts(sv, RowOf(plugin, collection, m, show), f) <==> AllNumbers(sv, m, show, f)
    decreases f, 1
  {
    GroupNumbersAgree(sv, plugin, collection, m, show, f, f.and);
    GroupNumbersAgree(sv, plugin, collection, m, show, f, f.or);
    OwnCastsMean(sv, plugin, collection, m, show, f);
    NumberPartsAgree(sv, RowOf(plugin, collection, m, show), m, show, f);
  }

  lemma {:induction false} NumberPartsAgree(sv: Server, row: Row, m: Fields, show: Json -> string, f: QueryFilters)
    requires LeavesCast(sv, row, Leaves(f)) <==> OwnNumbers(sv, m, show, f)
    requires GroupsCast(sv, row, f.and) <==> GroupsNumbers(sv, m, show, f.and)
    requires GroupsCast(sv, row, f.or) <==> GroupsNumbers(sv, m, show, f.or)
    ensures Casts(sv, row, f) <==> AllNumbers(sv, m, show, f)
  {
    FiltersHoldParts(sv, row, f, And);
    NumbersParts(sv, m, show, f);
  }

  // ------------------------------------------------- equality by kind of value

  /** A filter with a boolean accepts exactly the fields that hold that boolean, the
      string of its word, or a number or compound value that is written so. */
  lemma {:induction false} BoolEqualityIff(m: Fields, show: Json -> string, field: string, b: bool)
    ensures
      var word := if b then "true" else "false";
      EqualityHolds(m, show, FieldFilter(field, Bool(b))) <==>
        field in m && (m[field] == Bool(b) || m[field] == Str(word) || ((m[field].Number? || m[field].Compound?) && show(m[field]) == word))
  {
    assert "true"[0] != "false"[0];
  }

  /** A filter with a string accepts exactly the fields that hold that string, the
      boolean of that word, or a number or compound value that is written so. */
  lemma {:induction false} StringEqualityIff(m: Fields, show: Json -> string, field: string, s: string)
    ensures EqualityHolds(m, show, FieldFilter(field, Str(s))) <==>
      field in m && (|| m[field] == Str(s)
                     || (m[field] == Bool(true) && s == "true") || (m[field] == Bool(false) && s == "false")
                     || ((m[field].Number? || m[field].Compound?) && show(m[field]) == s))
  {
  }

  /** A filter with null never accepts a null: it accepts exactly the fields that
      hold the empty string, or a value that is written with no text at all. */
  lemma {:induction false} NullEqualityIff(m: Fields, show: Json -> string, field: string)
    ensures EqualityHolds(m, show, FieldFilter(field, Null)) <==>
      field in m && (m[field] == Str("") || ((m[field].Number? || m[field].Compound?) && show(m[field]) == ""))
  {
  }
}
