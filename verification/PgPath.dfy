/** How a filter's field name reads a document: as the key of a top-level field,
    which is what `data->>'name'` does, or as a path through nested objects, which
    is what the comment on field names says and SQLite's `$.name` does. */
module PgPath {
  import opened Text
  import opened SqlText
  import opened PgFilter

  /** A stored document: nested objects, and other values with their text. */
  datatype Doc = Missing | Value(text: string) | Object(fields: map<string, Doc>)

  /** The text of a value, `None` for SQL's NULL; `show` writes an object as JSON. */
  function TextOf(d: Doc, show: Doc -> string): Option<string> {
    match d
    case Missing => None
    case Value(t) => Some(t)
    case Object(_) => Some(show(d))
  }

  function FieldOf(d: Doc, key: string): Doc {
    if d.Object? && key in d.fields then d.fields[key] else Missing
  }

  /** `data->>'name'`. */
  function ReadKey(d: Doc, name: string, show: Doc -> string): Option<string> {
    TextOf(FieldOf(d, name), show)
  }

  function Descend(d: Doc, path: seq<string>): Doc
    decreases |path|
  {
    if path == [] then d else Descend(FieldOf(d, path[0]), path[1..])
  }

  /** The value at the end of the path that the dots spell out. */
  function ReadPath(d: Doc, name: string, show: Doc -> string): Option<string> {
    TextOf(Descend(d, Split(name, '.')), show)
  }

  /** The row that the filter semantics sees: the texts of the top-level fields. */
  function RowOf(plugin: string, collection: string, d: Doc, show: Doc -> string): Row
    requires d.Object?
  {
    Row(plugin, collection, map k | k in d.fields && TextOf(d.fields[k], show).Some? :: TextOf(d.fields[k], show).value)
  }

  lemma {:induction false} UndottedPath(d: Doc, name: string)
    requires '.' !in name
    ensures Descend(d, Split(name, '.')) == FieldOf(d, name)
  {
    assert IndexOf(name, '.') == |name|;
    assert [name][1..] == [];
  }

  /** A document with a field of that dotted name and no nested object. */
  lemma {:induction false} DottedKeyIsNoPath(name: string, text: string, show: Doc -> string)
    requires '.' in name
    ensures
      var d := Object(map[name := Value(text)]);
      ReadKey(d, name, show) == Some(text) && ReadPath(d, name, show) == None
  {
    var d := Object(map[name := Value(text)]);
    var n := IndexOf(name, '.');
    assert n < |name|;
    var path := Split(name, '.');
    assert path[0] == name[..n] && |path[0]| < |name|;
    assert FieldOf(d, path[0]) == Missing;
    NothingBelow(path[1..]);
  }

  lemma {:induction false} NothingBelow(path: seq<string>)
    ensures Descend(Missing, path) == Missing
    decreases |path|
  {
    if path != [] {
      NothingBelow(path[1..]);
    }
  }

  /** The key of a field and the nested path agree on every document exactly when
      the name has no dot. */
  lemma {:induction false} ReadsPathIff(name: string, show: Doc -> string)
    requires ValidFieldName(name)
    ensures (forall d :: ReadKey(d, name, show) == ReadPath(d, name, show)) <==> '.' !in name
  {
    if '.' in name {
      DottedKeyIsNoPath(name, "", show);
    } else {
      forall d ensures ReadKey(d, name, show) == ReadPath(d, name, show) {
        UndottedPath(d, name);
      }
    }
  }

  /** A filter on a field without a dot decides a document by its nested path. */
  lemma {:induction false} EqualityReadsPathIff(sv: Server, plugin: string, collection: string, name: string, text: string, show: Doc -> string)
    requires ValidFieldName(name)
    ensures (forall d: Doc | d.Object? :: LeafHolds(sv, RowOf(plugin, collection, d, show), LeafFilter(name, Equals(text)))
                                          <==> ReadPath(d, name, show) == Some(text))
       <==> '.' !in name
  {
    var leaf := LeafFilter(name, Equals(text));
    forall d: Doc | d.Object?
      ensures LeafHolds(sv, RowOf(plugin, collection, d, show), leaf) <==> ReadKey(d, name, show) == Some(text)
    {
    }
    if '.' in name {
      DottedKeyIsNoPath(name, text, show);
      var d := Object(map[name := Value(text)]);
      assert LeafHolds(sv, RowOf(plugin, collection, d, show), leaf);
    } else {
      ReadsPathIff(name, show);
    }
  }
}
