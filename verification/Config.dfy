/** Configuration trees: recursive merging of a JSON patch, and environment
    variables that override nested TOML values. */
module Config {
  import opened Text

  // ------------------------------------------------------------ merging patches

  /** A JSON value: an object, or anything without fields. */
  datatype Json = Object(fields: map<string, Json>) | Leaf(text: string)

  /** Objects merge field by field; otherwise the patch replaces the base. */
  function Merge(base: Json, patch: Json): Json
    decreases patch
  {
    if base.Object? && patch.Object? then
      Object(map k | k in base.fields.Keys + patch.fields.Keys ::
        if k !in patch.fields then base.fields[k]
        else if k in base.fields then Merge(base.fields[k], patch.fields[k])
        else Merge(Leaf("null"), patch.fields[k]))
    else patch
  }

  /** `merge_json`: the patch's fields are visited in any order; a field missing
      from the base is first inserted as null. */
  method MergeJson(base: Json, patch: Json) returns (r: Json)
    ensures r == Merge(base, patch)
    decreases patch
  {
    if !(base.Object? && patch.Object?) {
      return patch;
    }
    var fields := base.fields;
    var keys := patch.fields.Keys;
    while keys != {}
      invariant keys <= patch.fields.Keys
      invariant fields.Keys == base.fields.Keys + (patch.fields.Keys - keys)
      invariant forall k | k in base.fields && (k !in patch.fields || k in keys) :: fields[k] == base.fields[k]
      invariant forall k | k in patch.fields.Keys - keys ::
                  fields[k] == Merge(if k in base.fields then base.fields[k] else Leaf("null"), patch.fields[k])
      decreases keys
    {
      var k :| k in keys;
      var entry := if k in fields then fields[k] else Leaf("null");
      entry := MergeJson(entry, patch.fields[k]);
      fields := fields[k := entry];
      keys := keys - {k};
    }
    r := Object(fields);
  }

  /** The value at a path of fields. */
  function Lookup(v: Json, path: seq<string>): Option<Json> {
    if path == [] then Some(v)
    else if v.Object? && path[0] in v.fields then Lookup(v.fields[path[0]], path[1..])
    else None
  }

  /** The patch says nothing about the path: it leads to an object of the patch
      that does not have the next field. */
  predicate Silent(patch: Json, path: seq<string>) {
    path != [] && patch.Object? && (path[0] in patch.fields ==> Silent(patch.fields[path[0]], path[1..]))
  }

  lemma {:induction false} MergeIntoLeaf(text: string, patch: Json)
    ensures Merge(Leaf(text), patch) == patch
  {
  }

  /** Merging the same patch twice is merging it once. */
  lemma {:induction false} MergeIsIdempotent(base: Json, patch: Json)
    ensures Merge(Merge(base, patch), patch) == Merge(base, patch)
    decreases patch
  {
    if patch.Object? {
      var once := Merge(base, patch);
      forall k | k in patch.fields ensures Merge(once.fields[k], patch.fields[k]) == once.fields[k] {
        if base.Object? && k in base.fields {
          MergeIsIdempotent(base.fields[k], patch.fields[k]);
        } else {
          MergeIntoLeaf("null", patch.fields[k]);
          assert once.fields[k] == patch.fields[k];
          MergeIsIdempotent(Leaf("null"), patch.fields[k]);
        }
      }
    }
  }

  /** Where the patch is silent the base decides. */
  lemma {:induction false} SilentPathIsBase(base: Json, patch: Json, path: seq<string>)
    requires Silent(patch, path)
    ensures Lookup(Merge(base, patch), path) == Lookup(base, path)
    decreases patch
  {
    if path[0] in patch.fields {
      if base.Object? && path[0] in base.fields {
        SilentPathIsBase(base.fields[path[0]], patch.fields[path[0]], path[1..]);
      } else {
        SilentPathIsBase(Leaf("null"), patch.fields[path[0]], path[1..]);
        assert path[1..] != [];
        assert Lookup(Leaf("null"), path[1..]) == None;
        MergeIntoLeaf("null", patch.fields[path[0]]);
      }
    }
  }

  /** Where the patch speaks and does not name an object, the patch decides: its
      leaf is the result, and nothing lies below a leaf. */
  lemma {:induction false} SpokenPathIsPatch(base: Json, patch: Json, path: seq<string>)
    requires !Silent(patch, path)
    requires Lookup(patch, path).None? || Lookup(patch, path).value.Leaf?
    ensures Lookup(Merge(base, patch), path) == Lookup(patch, path)
    decreases patch
  {
    if base.Object? && patch.Object? {
      if path[0] in base.fields {
        SpokenPathIsPatch(base.fields[path[0]], patch.fields[path[0]], path[1..]);
      } else {
        MergeIntoLeaf("null", patch.fields[path[0]]);
      }
    }
  }

  /** Where the patch names an object, the result is the merge of the two values at
      that path, or the patch's object if the base has none. */
  lemma {:induction false} ObjectPathMerges(base: Json, patch: Json, path: seq<string>)
    requires Lookup(patch, path).Some? && Lookup(patch, path).value.Object?
    ensures Lookup(Merge(base, patch), path) ==
      Some(if Lookup(base, path).Some? then Merge(Lookup(base, path).value, Lookup(patch, path).value) else Lookup(patch, path).value)
    decreases patch
  {
    if path != [] && base.Object? {
      if path[0] in base.fields {
        ObjectPathMerges(base.fields[path[0]], patch.fields[path[0]], path[1..]);
      } else {
        MergeIntoLeaf("null", patch.fields[path[0]]);
      }
    }
  }

  // ----------------------------------------------------------- nested overrides

  datatype Toml = Table(entries: map<string, Toml>) | Str(s: string) | Integer(i: int) | Float(f: real) | Boolean(b: bool) | Other(text: string)

  /** What the standard parsers make of a text. */
  datatype Parsers = Parsers(integer: string -> Option<int>, float: string -> Option<real>, boolean: string -> Option<bool>)

  /** The new leaf keeps the kind of the old one when the text parses as it, and is
      a string otherwise. */
  function Typed(ps: Parsers, old_: Option<Toml>, value: string): (r: Toml)
    ensures !r.Table?
  {
    match old_
    case Some(Integer(_)) => if ps.integer(value).Some? then Integer(ps.integer(value).value) else Str(value)
    case Some(Float(_)) => if ps.float(value).Some? then Float(ps.float(value).value) else Str(value)
    case Some(Boolean(_)) => if ps.boolean(value).Some? then Boolean(ps.boolean(value).value) else Str(value)
    case _ => Str(value)
  }

  /** What an override leaves where `before` stood: over an integer, a float or a
      boolean the value that the text parses to as one, and the text itself where it
      does not parse and over everything else. */
  predicate Leaves(ps: Parsers, before: Option<Toml>, text: string, after: Option<Toml>) {
    if before.Some? && before.value.Integer? && ps.integer(text).Some? then after == Some(Integer(ps.integer(text).value))
    else if before.Some? && before.value.Float? && ps.float(text).Some? then after == Some(Float(ps.float(text).value))
    else if before.Some? && before.value.Boolean? && ps.boolean(text).Some? then after == Some(Boolean(ps.boolean(text).value))
    else after == Some(Str(text))
  }

  function Entry(t: map<string, Toml>, k: string): Option<Toml> {
    if k in t then Some(t[k]) else None
  }

  /** The table under a key; anything else there gives way to an empty table. */
  function SubTable(t: map<string, Toml>, k: string): map<string, Toml> {
    if k in t && t[k].Table? then t[k].entries else map[]
  }

  /** `set_nested_value`. */
  function SetNested(ps: Parsers, t: map<string, Toml>, path: seq<string>, value: string): map<string, Toml>
    requires path != []
    decreases |path|
  {
    if |path| == 1 then t[path[0] := Typed(ps, Entry(t, path[0]), value)]
    else t[path[0] := Table(SetNested(ps, SubTable(t, path[0]), path[1..], value))]
  }

  function Get(t: map<string, Toml>, path: seq<string>): Option<Toml>
    requires path != []
    decreases |path|
  {
    if |path| == 1 then Entry(t, path[0]) else Get(SubTable(t, path[0]), path[1..])
  }

  /** Neither path is a prefix of the other. */
  predicate Apart(p: seq<string>, q: seq<string>) {
    !(p <= q) && !(q <= p)
  }

  lemma {:induction false} ApartTail(p: seq<string>, q: seq<string>)
    requires Apart(p, q)
    ensures p != [] && q != []
    ensures p[0] == q[0] ==> |p| > 1 && |q| > 1 && Apart(p[1..], q[1..])
  {
    if p[0] == q[0] {
      assert p[1..] <= q[1..] ==> p <= q by {
        assert p == [p[0]] + p[1..] && q == [q[0]] + q[1..];
      }
      assert q[1..] <= p[1..] ==> q <= p by {
        assert p == [p[0]] + p[1..] && q == [q[0]] + q[1..];
      }
    }
  }

  lemma {:induction false} GetNothing(path: seq<string>)
    requires path != []
    ensures Get(map[], path) == None
    decreases |path|
  {
    if |path| > 1 {
      GetNothing(path[1..]);
    }
  }

  /** Reading back an override gives its value, in the kind of what it replaced. */
  lemma {:induction false} GetAfterSet(ps: Parsers, t: map<string, Toml>, path: seq<string>, value: string)
    requires path != []
    ensures Get(SetNested(ps, t, path, value), path) == Some(Typed(ps, Get(t, path), value))
    ensures Leaves(ps, Get(t, path), value, Get(SetNested(ps, t, path, value), path))
    decreases |path|
  {
    if |path| > 1 {
      GetAfterSet(ps, SubTable(t, path[0]), path[1..], value);
    }
  }

  /** An override leaves every path apart from its own as it was. */
  lemma {:induction false} SetFrame(ps: Parsers, t: map<string, Toml>, path: seq<string>, value: string, other: seq<string>)
    requires Apart(path, other)
    ensures path != [] && other != []
    ensures Get(SetNested(ps, t, path, value), other) == Get(t, other)
    decreases |path|
  {
    ApartTail(path, other);
    if path[0] == other[0] {
      SetFrame(ps, SubTable(t, path[0]), path[1..], value, other[1..]);
    }
  }

  /** Above its own path an override makes tables, below it nothing is left. */
  lemma {:induction false} SetAboveAndBelow(ps: Parsers, t: map<string, Toml>, path: seq<string>, value: string, other: seq<string>)
    requires path != [] && other != [] && path != other
    ensures other <= path ==> Get(SetNested(ps, t, path, value), other).Some? && Get(SetNested(ps, t, path, value), other).value.Table?
    ensures path <= other ==> Get(SetNested(ps, t, path, value), other) == None
    decreases |path|
  {
    if other <= path || path <= other {
      assert path[0] == other[0];
      if |path| == 1 {
        if |other| > 1 {
          GetNothing(other[1..]);
        } else {
          assert false;
        }
      } else if |other| > 1 {
        assert path == [path[0]] + path[1..] && other == [other[0]] + other[1..];
        assert other <= path ==> other[1..] <= path[1..];
        assert path <= other ==> path[1..] <= other[1..];
        SetAboveAndBelow(ps, SubTable(t, path[0]), path[1..], value, other[1..]);
      }
    }
  }

  /** Overrides on paths apart from each other commute. */
  lemma {:induction false} SetsCommute(ps: Parsers, t: map<string, Toml>, p: seq<string>, v: string, q: seq<string>, w: string)
    requires Apart(p, q)
    ensures p != [] && q != []
    ensures SetNested(ps, SetNested(ps, t, p, v), q, w) == SetNested(ps, SetNested(ps, t, q, w), p, v)
    decreases |p|
  {
    ApartTail(p, q);
    if p[0] == q[0] {
      SetTwice(ps, t, p, v, q, w);
      SetTwice(ps, t, q, w, p, v);
      SetsCommute(ps, SubTable(t, p[0]), p[1..], v, q[1..], w);
    } else {
      SetElsewhere(ps, t, p, v, q, w);
      SetElsewhere(ps, t, q, w, p, v);
    }
  }

  lemma {:induction false} SetTwice(ps: Parsers, t: map<string, Toml>, p: seq<string>, v: string, q: seq<string>, w: string)
    requires |p| > 1 && |q| > 1 && p[0] == q[0]
    ensures SetNested(ps, SetNested(ps, t, p, v), q, w)
         == t[p[0] := Table(SetNested(ps, SetNested(ps, SubTable(t, p[0]), p[1..], v), q[1..], w))]
  {
  }

  /** The new entry under a path's first key, and no other entry. */
  function NewEntry(ps: Parsers, t: map<string, Toml>, p: seq<string>, v: string): Toml
    requires p != []
  {
    if |p| == 1 then Typed(ps, Entry(t, p[0]), v) else Table(SetNested(ps, SubTable(t, p[0]), p[1..], v))
  }

  lemma {:induction false} SetElsewhere(ps: Parsers, t: map<string, Toml>, p: seq<string>, v: string, q: seq<string>, w: string)
    requires p != [] && q != [] && p[0] != q[0]
    ensures SetNested(ps, SetNested(ps, t, p, v), q, w) == t[p[0] := NewEntry(ps, t, p, v)][q[0] := NewEntry(ps, t, q, w)]
  {
    var t' := SetNested(ps, t, p, v);
    assert t' == t[p[0] := NewEntry(ps, t, p, v)];
    assert NewEntry(ps, t', q, w) == NewEntry(ps, t, q, w);
  }

  // ------------------------------------------------- the environment's overrides

  datatype Var = Var(key: string, value: string)

  const PREFIX := "LIFE_ENGINE_"

  /** Lower-casing, as the standard library does it. */
  type Lower = string -> string

  predicate Relevant(v: Var) {
    PREFIX <= v.key && v.key != "LIFE_ENGINE_CONFIG"
  }

  function RelevantVars(env: seq<Var>): seq<Var> {
    if env == [] then [] else (if Relevant(env[0]) then [env[0]] else []) + RelevantVars(env[1..])
  }

  /** The nested keys that a variable names. */
  function PathOf(lower: Lower, v: Var): (path: seq<string>)
    requires PREFIX <= v.key
    ensures path != []
  {
    var parts := Split(v.key[|PREFIX|..], '_');
    seq(|parts|, i requires 0 <= i < |parts| => lower(parts[i]))
  }

  /** A doubled or trailing underscore leaves an empty segment, and the variable
      is skipped. */
  function Override(ps: Parsers, lower: Lower, t: map<string, Toml>, v: Var): map<string, Toml> {
    if PREFIX <= v.key && "" !in PathOf(lower, v) then SetNested(ps, t, PathOf(lower, v), v.value) else t
  }

  function OverrideAll(ps: Parsers, lower: Lower, t: map<string, Toml>, vs: seq<Var>): map<string, Toml> {
    if vs == [] then t else Override(ps, lower, OverrideAll(ps, lower, t, vs[..|vs| - 1]), vs[|vs| - 1])
  }

  /** The order of keys, character by character. */
  predicate Less(a: string, b: string) {
    b != [] && (a == [] || a[0] < b[0] || (a[0] == b[0] && Less(a[1..], b[1..])))
  }

  function InsertSorted(v: Var, vs: seq<Var>): seq<Var> {
    if vs == [] || Less(v.key, vs[0].key) then [v] + vs else [vs[0]] + InsertSorted(v, vs[1..])
  }

  /** The variables sorted by key. */
  function SortVars(vs: seq<Var>): seq<Var> {
    if vs == [] then [] else InsertSorted(vs[0], SortVars(vs[1..]))
  }

  /** `apply_env_overrides`: `env` lists the process environment in any order. */
  method ApplyEnvOverrides(ps: Parsers, lower: Lower, table: map<string, Toml>, env: seq<Var>) returns (t: map<string, Toml>)
    ensures t == OverrideAll(ps, lower, table, SortVars(RelevantVars(env)))
  {
    var vs := SortVars(RelevantVars(env));
    t := table;
    var i := 0;
    while i < |vs|
      invariant 0 <= i <= |vs|
      invariant t == OverrideAll(ps, lower, table, vs[..i])
    {
      assert vs[..i + 1][..i] == vs[..i];
      if PREFIX <= vs[i].key {
        var segments := PathOf(lower, vs[i]);
        if "" !in segments {
          t := SetNested(ps, t, segments, vs[i].value);
        }
      }
      i := i + 1;
    }
    assert vs[..i] == vs;
  }

  lemma {:induction false} LessTotal(a: string, b: string)
    ensures a == b || Less(a, b) || Less(b, a)
  {
    if a != [] && b != [] && a[0] == b[0] {
      LessTotal(a[1..], b[1..]);
      assert a == [a[0]] + a[1..] && b == [b[0]] + b[1..];
    }
  }

  lemma {:induction false} LessTransitive(a: string, b: string, c: string)
    requires Less(a, b) && Less(b, c)
    ensures Less(a, c)
  {
    if a != [] && a[0] == b[0] && b[0] == c[0] {
      LessTransitive(a[1..], b[1..], c[1..]);
    }
  }

  lemma {:induction false} LessIrreflexive(a: string)
    ensures !Less(a, a)
  {
    if a != [] {
      LessIrreflexive(a[1..]);
    }
  }

  ghost predicate StrictlySorted(vs: seq<Var>) {
    forall i, j | 0 <= i < j < |vs| :: Less(vs[i].key, vs[j].key)
  }

  ghost predicate DistinctKeys(vs: seq<Var>) {
    forall i, j | 0 <= i < j < |vs| :: vs[i].key != vs[j].key
  }

  lemma {:induction false} InsertKeepsElements(v: Var, vs: seq<Var>)
    ensures forall x :: x in InsertSorted(v, vs) <==> x == v || x in vs
  {
    if vs != [] && !Less(v.key, vs[0].key) {
      InsertKeepsElements(v, vs[1..]);
      assert vs == [vs[0]] + vs[1..];
    }
  }

  lemma {:induction false} InsertSorts(v: Var, vs: seq<Var>)
    requires StrictlySorted(vs) && forall i | 0 <= i < |vs| :: vs[i].key != v.key
    ensures StrictlySorted(InsertSorted(v, vs))
  {
    var r := InsertSorted(v, vs);
    if vs == [] {
    } else if Less(v.key, vs[0].key) {
      forall i, j | 0 <= i < j < |r| ensures Less(r[i].key, r[j].key) {
        assert r[j] == vs[j - 1];
        if i == 0 {
          if j > 1 {
            LessTransitive(v.key, vs[0].key, vs[j - 1].key);
          }
        } else {
          assert r[i] == vs[i - 1];
        }
      }
    } else {
      LessTotal(v.key, vs[0].key);
      InsertSorts(v, vs[1..]);
      InsertKeepsElements(v, vs[1..]);
      var rest := InsertSorted(v, vs[1..]);
      forall i, j | 0 <= i < j < |r| ensures Less(r[i].key, r[j].key) {
        assert r[j] == rest[j - 1];
        if i == 0 {
          assert rest[j - 1] in rest;
        } else {
          assert r[i] == rest[i - 1];
        }
      }
    }
  }

  lemma {:induction false} SortSorts(vs: seq<Var>)
    requires DistinctKeys(vs)
    ensures StrictlySorted(SortVars(vs))
    ensures forall x :: x in SortVars(vs) <==> x in vs
  {
    if vs != [] {
      assert DistinctKeys(vs[1..]);
      SortSorts(vs[1..]);
      InsertKeepsElements(vs[0], SortVars(vs[1..]));
      assert vs == [vs[0]] + vs[1..];
      var rest := SortVars(vs[1..]);
      forall i | 0 <= i < |rest| ensures rest[i].key != vs[0].key {
        assert rest[i] in vs[1..];
      }
      InsertSorts(vs[0], rest);
    }
  }

  /** There is only one sorted listing of a set of variables. */
  lemma {:induction false} SortedIsUnique(a: seq<Var>, b: seq<Var>)
    requires StrictlySorted(a) && StrictlySorted(b)
    requires forall x :: x in a <==> x in b
    ensures a == b
  {
    assert b != [] ==> b[0] in b;
    if a != [] {
      assert a[0] in a && a[0] in b;
      assert b[0] in b && b[0] in a;
      if a[0] != b[0] {
        var i :| 0 <= i < |a| && a[i] == b[0];
        var j :| 0 <= j < |b| && b[j] == a[0];
        LessTransitive(a[0].key, b[0].key, a[0].key);
        LessIrreflexive(a[0].key);
        assert false;
      }
      forall x ensures x in a[1..] <==> x in b[1..] {
        TailElements(a, x);
        TailElements(b, x);
      }
      SortedIsUnique(a[1..], b[1..]);
      assert a == [a[0]] + a[1..] && b == [b[0]] + b[1..];
    }
  }

  lemma {:induction false} TailElements(a: seq<Var>, x: Var)
    requires a != [] && StrictlySorted(a)
    ensures x in a[1..] <==> x in a && x != a[0]
  {
    LessIrreflexive(a[0].key);
    assert a == [a[0]] + a[1..];
    if x in a[1..] {
      var i :| 0 <= i < |a[1..]| && a[1..][i] == x;
      assert a[i + 1] == x;
    }
  }

  lemma {:induction false} RelevantElements(env: seq<Var>, x: Var)
    ensures x in RelevantVars(env) <==> x in env && Relevant(x)
  {
    if env != [] {
      RelevantElements(env[1..], x);
      assert env == [env[0]] + env[1..];
    }
  }

  lemma {:induction false} RelevantDistinct(env: seq<Var>)
    requires DistinctKeys(env)
    ensures DistinctKeys(RelevantVars(env))
  {
    if env != [] {
      assert DistinctKeys(env[1..]);
      RelevantDistinct(env[1..]);
      var rest, all := RelevantVars(env[1..]), RelevantVars(env);
      if Relevant(env[0]) {
        forall i, j | 0 <= i < j < |all| ensures all[i].key != all[j].key {
          assert all[j] == rest[j - 1];
          if i == 0 {
            RelevantElements(env[1..], rest[j - 1]);
            var m :| 0 <= m < |env[1..]| && env[1..][m] == rest[j - 1];
            assert env[m + 1] == rest[j - 1];
          } else {
            assert all[i] == rest[i - 1];
          }
        }
      }
    }
  }

  /** The outcome does not depend on the order in which the environment is listed. */
  lemma {:induction false} ListingOrderIrrelevant(ps: Parsers, lower: Lower, t: map<string, Toml>, env: seq<Var>, env': seq<Var>)
    requires DistinctKeys(env) && DistinctKeys(env')
    requires forall x :: x in env <==> x in env'
    ensures OverrideAll(ps, lower, t, SortVars(RelevantVars(env))) == OverrideAll(ps, lower, t, SortVars(RelevantVars(env')))
  {
    RelevantDistinct(env);
    RelevantDistinct(env');
    SortSorts(RelevantVars(env));
    SortSorts(RelevantVars(env'));
    forall x ensures x in SortVars(RelevantVars(env)) <==> x in SortVars(RelevantVars(env')) {
      RelevantElements(env, x);
      RelevantElements(env', x);
    }
    SortedIsUnique(SortVars(RelevantVars(env)), SortVars(RelevantVars(env')));
  }

  /** The variable does not reach the path: it is skipped, or sets a path apart. */
  predicate Misses(lower: Lower, v: Var, path: seq<string>) {
    PREFIX <= v.key && "" !in PathOf(lower, v) ==> Apart(PathOf(lower, v), path)
  }

  /** A path that no variable reaches keeps its configured value. */
  lemma {:induction false} OverridesFrame(ps: Parsers, lower: Lower, t: map<string, Toml>, vs: seq<Var>, path: seq<string>)
    requires path != [] && forall i | 0 <= i < |vs| :: Misses(lower, vs[i], path)
    ensures Get(OverrideAll(ps, lower, t, vs), path) == Get(t, path)
  {
    if vs != [] {
      var n := |vs| - 1;
      OverridesFrame(ps, lower, t, vs[..n], path);
      if PREFIX <= vs[n].key && "" !in PathOf(lower, vs[n]) {
        SetFrame(ps, OverrideAll(ps, lower, t, vs[..n]), PathOf(lower, vs[n]), vs[n].value, path);
      }
    }
  }

  /** The last variable that reaches the path. */
  function LastReaching(lower: Lower, vs: seq<Var>, path: seq<string>): (r: Option<nat>)
    ensures r.Some? ==> r.value < |vs| && !Misses(lower, vs[r.value], path)
    ensures forall k | 0 <= k < |vs| && (r.Some? ==> k > r.value) :: Misses(lower, vs[k], path)
  {
    if vs == [] then None
    else if !Misses(lower, vs[|vs| - 1], path) then Some(|vs| - 1)
    else
      assert forall k | 0 <= k < |vs| - 1 :: vs[..|vs| - 1][k] == vs[k];
      LastReaching(lower, vs[..|vs| - 1], path)
  }

  /** What stands at any path in the end: the configured value if no variable reaches
      it; else what the last one to reach it leaves there, its own value in the kind
      of what it replaced, a table above its path, and nothing below. */
  lemma {:induction false} LastReachingDecides(ps: Parsers, lower: Lower, t: map<string, Toml>, vs: seq<Var>, path: seq<string>)
    requires path != []
    ensures
      var end := Get(OverrideAll(ps, lower, t, vs), path);
      match LastReaching(lower, vs, path)
      case None => end == Get(t, path)
      case Some(j) =>
        var own := PathOf(lower, vs[j]);
        var before := if own == path then Get(OverrideAll(ps, lower, t, vs[..j]), path) else None;
        if own == path then end == Some(Typed(ps, before, vs[j].value)) && Leaves(ps, before, vs[j].value, end)
        else if path <= own then end.Some? && end.value.Table?
        else own <= path && end == None
  {
    if vs != [] {
      var n := |vs| - 1;
      var before := OverrideAll(ps, lower, t, vs[..n]);
      if Misses(lower, vs[n], path) {
        LastReachingDecides(ps, lower, t, vs[..n], path);
        var last := LastReaching(lower, vs[..n], path);
        assert last.Some? ==> vs[..n][..last.value] == vs[..last.value];
        if PREFIX <= vs[n].key && "" !in PathOf(lower, vs[n]) {
          SetFrame(ps, before, PathOf(lower, vs[n]), vs[n].value, path);
        }
      } else if PathOf(lower, vs[n]) == path {
        GetAfterSet(ps, before, path, vs[n].value);
      } else {
        SetAboveAndBelow(ps, before, PathOf(lower, vs[n]), vs[n].value, path);
      }
    }
  }

  /** A variable's value, in the kind of what it replaced, stands at its path in the
      end exactly when the last variable to reach the path is that one, or is another
      with the same path that leaves an equal value. So it is lost to any later
      variable that names a path above or below its own and is not set again. */
  lemma {:induction false} OverrideHoldsIff(ps: Parsers, lower: Lower, t: map<string, Toml>, vs: seq<Var>, i: nat)
    requires i < |vs| && PREFIX <= vs[i].key && "" !in PathOf(lower, vs[i])
    ensures
      var path := PathOf(lower, vs[i]);
      var value := Typed(ps, Get(OverrideAll(ps, lower, t, vs[..i]), path), vs[i].value);
      var last := LastReaching(lower, vs, path);
      && last.Some? && i <= last.value
      && (Get(OverrideAll(ps, lower, t, vs), path) == Some(value)
          <==> || last.value == i
               || (PathOf(lower, vs[last.value]) == path
                   && Typed(ps, Get(OverrideAll(ps, lower, t, vs[..last.value]), path), vs[last.value].value) == value))
  {
    var path := PathOf(lower, vs[i]);
    assert !Apart(path, path);
    assert !Misses(lower, vs[i], path);
    LastReachingDecides(ps, lower, t, vs, path);
  }

  /** When no later variable names the same path, the value holds exactly when none
      reaches the path at all. */
  lemma {:induction false} LastOverrideHolds(ps: Parsers, lower: Lower, t: map<string, Toml>, vs: seq<Var>, i: nat)
    requires i < |vs| && PREFIX <= vs[i].key && "" !in PathOf(lower, vs[i])
    requires forall j | i < j < |vs| && PREFIX <= vs[j].key :: PathOf(lower, vs[j]) != PathOf(lower, vs[i])
    ensures
      var path := PathOf(lower, vs[i]);
      Get(OverrideAll(ps, lower, t, vs), path) == Some(Typed(ps, Get(OverrideAll(ps, lower, t, vs[..i]), path), vs[i].value))
      <==> forall j | i < j < |vs| :: Misses(lower, vs[j], path)
  {
    OverrideHoldsIff(ps, lower, t, vs, i);
  }

  /** `LIFE_ENGINE_A` is lost to `LIFE_ENGINE_A_B`, which sorts after it. */
  lemma {:induction false} TableReplacesValue(ps: Parsers, t: map<string, Toml>, v: string, w: string)
    ensures
      var vs := [Var("LIFE_ENGINE_A", v), Var("LIFE_ENGINE_A_B", w)];
      var end := Get(OverrideAll(ps, (s: string) => s, t, vs), ["A"]);
      end.Some? && end.value.Table?
  {
    var lower: Lower := (s: string) => s;
    var vs := [Var("LIFE_ENGINE_A", v), Var("LIFE_ENGINE_A_B", w)];
    assert vs[1].key[|PREFIX|..] == "A_B" && IndexOf("A_B", '_') == 1 && "A_B"[..1] == "A" && "A_B"[2..] == "B";
    assert Split("B", '_') == ["B"];
    assert Split("A_B", '_') == ["A"] + ["B"];
    assert PathOf(lower, vs[1]) == ["A", "B"];
    SetAboveAndBelow(ps, OverrideAll(ps, lower, t, vs[..1]), ["A", "B"], w, ["A"]);
  }

  // ------------------------------------------------- from the raw environment

  lemma {:induction false} SplitOne(s: string)
    requires '_' !in s
    ensures Split(s, '_') == [s]
  {
    assert IndexOf(s, '_') == |s|;
  }

  lemma {:induction false} SplitTwo(a: string, b: string)
    requires '_' !in a && '_' !in b
    ensures Split(a + "_" + b, '_') == [a, b]
  {
    var s := a + "_" + b;
    assert s[|a|] == '_' && forall i | 0 <= i < |a| :: s[i] == a[i];
    assert IndexOf(s, '_') == |a|;
    assert s[..|a|] == a && s[|a| + 1..] == b;
    SplitOne(b);
  }

  lemma {:induction false} AfterPrefix(prefix: string, section: string, name: string)
    ensures
      var key := prefix + section + "_" + name;
      prefix <= key && key[|prefix|..] == section + "_" + name
  {
    assert prefix + section + "_" + name == prefix + (section + "_" + name);
  }

  /** The variable for a setting in a section, whatever else the environment has: the
      two words in lower case are its path. */
  lemma {:induction false} SettingPath(lower: Lower, section: string, name: string, value: string)
    requires '_' !in section && '_' !in name
    ensures
      var v := Var("LIFE_ENGINE_" + section + "_" + name, value);
      PREFIX <= v.key && PathOf(lower, v) == [lower(section), lower(name)]
  {
    AfterPrefix(PREFIX, section, name);
    SplitTwo(section, name);
  }

  /** From an environment with one setting, the variable that names the configuration
      file and a variable of another program, in any order: the setting is stored and
      nothing else changes. */
  lemma {:induction false} SettingIsStored(ps: Parsers, lower: Lower, t: map<string, Toml>, env: seq<Var>, section: string, name: string, value: string,
                                           file: string, home: string)
    requires '_' !in section && '_' !in name && lower(section) != "" && lower(name) != ""
    requires DistinctKeys(env)
    requires forall x :: x in env <==> x in [Var("LIFE_ENGINE_" + section + "_" + name, value), Var("LIFE_ENGINE_CONFIG", file), Var("HOME", home)]
    ensures
      var path := [lower(section), lower(name)];
      var t' := OverrideAll(ps, lower, t, SortVars(RelevantVars(env)));
      && Leaves(ps, Get(t, path), value, Get(t', path))
      && forall other | other != [] && Apart(path, other) :: Get(t', other) == Get(t, other)
  {
    var v, c, h := Var("LIFE_ENGINE_" + section + "_" + name, value), Var("LIFE_ENGINE_CONFIG", file), Var("HOME", home);
    var path := [lower(section), lower(name)];
    SettingPath(lower, section, name, value);
    SettingIsRelevant(section, name);
    OnlyRelevant(env, v, c, h);
    assert [v][..0] == [];
    assert OverrideAll(ps, lower, t, [v]) == SetNested(ps, t, path, value);
    GetAfterSet(ps, t, path, value);
    forall other | other != [] && Apart(path, other) ensures Get(SetNested(ps, t, path, value), other) == Get(t, other) {
      SetFrame(ps, t, path, value, other);
    }
  }

  lemma {:induction false} SettingIsRelevant(section: string, name: string)
    requires '_' !in section
    ensures "LIFE_ENGINE_" + section + "_" + name != "LIFE_ENGINE_CONFIG"
  {
    var key := "LIFE_ENGINE_" + section + "_" + name;
    assert key[12 + |section|] == '_';
    if key == "LIFE_ENGINE_CONFIG" {
      assert 12 + |section| < 18;
      assert forall i | 12 <= i < 18 :: "LIFE_ENGINE_CONFIG"[i] != '_';
    }
  }

  lemma {:induction false} OnlyRelevant(env: seq<Var>, v: Var, c: Var, h: Var)
    requires DistinctKeys(env) && forall x :: x in env <==> x in [v, c, h]
    requires Relevant(v) && c.key == "LIFE_ENGINE_CONFIG" && h.key == "HOME"
    ensures SortVars(RelevantVars(env)) == [v]
  {
    assert |PREFIX| > |h.key|;
    RelevantDistinct(env);
    forall x ensures x in RelevantVars(env) <==> x == v {
      RelevantElements(env, x);
      assert x in [v, c, h] <==> x == v || x == c || x == h;
    }
    OnlyElement(RelevantVars(env), v);
    assert [v][1..] == [];
  }

  lemma {:induction false} OnlyElement(vs: seq<Var>, v: Var)
    requires DistinctKeys(vs) && forall x :: x in vs <==> x == v
    ensures vs == [v]
  {
    assert v in vs;
    var j :| 0 <= j < |vs| && vs[j] == v;
    forall i | 0 <= i < |vs| ensures vs[i] == v && i == j {
      assert vs[i] in vs;
    }
    assert vs[0] == v && vs[|vs| - 1] == v;
  }

  lemma {:induction false} PrefixIsLess(a: string, b: string)
    requires b != ""
    ensures Less(a, a + b)
  {
    if a != [] {
      PrefixIsLess(a[1..], b);
      assert (a + b)[1..] == a[1..] + b;
    }
  }

  /** Keys are taken in their order, so the shorter of two comes first and gives way to
      the longer, however the environment lists them. */
  lemma {:induction false} ShorterComesFirst(v: Var, w: Var, more: string)
    requires more != "" && w.key == v.key + more
    ensures SortVars([v, w]) == [v, w] && SortVars([w, v]) == [v, w]
  {
    PrefixIsLess(v.key, more);
    LessAntisymmetric(v.key, w.key);
    assert [w][1..] == [] && [v][1..] == [];
    assert SortVars([w]) == [w] && SortVars([v]) == [v];
    assert [v, w][1..] == [w] && [w, v][1..] == [v];
    assert InsertSorted(v, [w]) == [v] + [w];
    assert InsertSorted(w, [v]) == [v] + InsertSorted(w, []);
  }

  lemma {:induction false} LessAntisymmetric(a: string, b: string)
    requires Less(a, b)
    ensures !Less(b, a)
  {
    if Less(b, a) {
      LessTransitive(a, b, a);
      LessIrreflexive(a);
    }
  }

  /** The order of the keys: by the first character in which they differ, and a key
      before those that it begins. */
  lemma {:induction false} LessIff(a: string, b: string)
    ensures Less(a, b) <==> exists k | 0 <= k <= |a| && k < |b| :: a[..k] == b[..k] && (k == |a| || a[k] < b[k])
  {
    if b != [] {
      if a != [] && a[0] == b[0] {
        LessIff(a[1..], b[1..]);
        if Less(a, b) {
          var k :| 0 <= k <= |a[1..]| && k < |b[1..]| && a[1..][..k] == b[1..][..k] && (k == |a[1..]| || a[1..][k] < b[1..][k]);
          assert a[..k + 1] == [a[0]] + a[1..][..k] && b[..k + 1] == [b[0]] + b[1..][..k];
        }
        forall k | 0 <= k <= |a| && k < |b| && a[..k] == b[..k] && (k == |a| || a[k] < b[k]) ensures Less(a, b) {
          assert a[1..][..k - 1] == a[..k][1..] && b[1..][..k - 1] == b[..k][1..];
        }
      } else {
        assert a[..0] == b[..0];
      }
    }
  }

  /** The variables taken, from any environment: those that begin with the prefix,
      without the one that names the configuration file, in the order of their keys. */
  lemma {:induction false} TakenInOrder(env: seq<Var>)
    requires DistinctKeys(env)
    ensures
      var vs := SortVars(RelevantVars(env));
      && (forall x :: x in vs <==> x in env && "LIFE_ENGINE_" <= x.key && x.key != "LIFE_ENGINE_CONFIG")
      && forall i, j | 0 <= i < j < |vs| :: Less(vs[i].key, vs[j].key)
  {
    RelevantDistinct(env);
    SortSorts(RelevantVars(env));
    forall x ensures x in SortVars(RelevantVars(env)) <==> x in env && "LIFE_ENGINE_" <= x.key && x.key != "LIFE_ENGINE_CONFIG" {
      RelevantElements(env, x);
    }
  }
}
