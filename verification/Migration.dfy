/** The migration from SQLite to PostgreSQL: batches per collection into one
    transaction, rows already there skipped, counts verified before the commit. */
module Migration {
  import opened Text

  datatype Row = Row(id: string, pluginId: string, collection: string, data: string, version: int,
                     createdAt: int, updatedAt: int, userId: Option<string>, householdId: Option<string>)

  type Key = (string, string)

  function KeyOf(r: Row): Key { (r.pluginId, r.collection) }

  /** What the INSERT carries over: owner and household are not among its columns. */
  function Copied(r: Row): Row { r.(userId := None, householdId := None) }

  const BATCH: nat := 500
  const U32: nat := 0x1_0000_0000

  // ------------------------------------------------------------------ the source

  /** The rows of one plugin and collection, in the order in which they are listed. */
  function Listing(source: seq<Row>, key: Key): seq<Row> {
    if source == [] then []
    else (if KeyOf(source[0]) == key then [source[0]] else []) + Listing(source[1..], key)
  }

  predicate DistinctIds(rows: seq<Row>) {
    forall i, j | 0 <= i < j < |rows| :: rows[i].id != rows[j].id
  }

  /** `SELECT DISTINCT plugin_id, collection`. */
  ghost predicate Discovered(source: seq<Row>, keys: seq<Key>) {
    && (forall i, j | 0 <= i < j < |keys| :: keys[i] != keys[j])
    && (forall k :: k in keys <==> exists i | 0 <= i < |source| :: KeyOf(source[i]) == k)
  }

  function PageAt(listing: seq<Row>, o: nat): seq<Row> {
    if o >= |listing| then [] else if |listing| - o <= BATCH then listing[o..] else listing[o..o + BATCH]
  }

  function AsU32(offset: nat): nat { offset % U32 }

  /** What the listing call returns for an offset. */
  type Pager = nat -> seq<Row>

  /** The pages of a listing; the 64-bit offset is cast to 32 bits on the way. */
  function Pages(listing: seq<Row>): Pager {
    (offset: nat) => PageAt(listing, AsU32(offset))
  }

  // ------------------------------------------------------------------ the target

  type Table = map<string, Row>

  /** `INSERT … ON CONFLICT (id) DO NOTHING`. */
  function InsertOrSkip(t: Table, r: Row): Table {
    if r.id in t then t else t[r.id := Copied(r)]
  }

  function InsertAll(t: Table, rows: seq<Row>): Table {
    if rows == [] then t else InsertOrSkip(InsertAll(t, rows[..|rows| - 1]), rows[|rows| - 1])
  }

  function Counted(t: Table, key: Key): set<string> {
    set id | id in t && KeyOf(t[id]) == key
  }

  class PgTable {
    var rows: Table
  }

  // ------------------------------------------------------------------ the loops

  /** The rows that the batch loop visits from an offset on, in order. */
  function Visits(pages: Pager, total: nat, offset: nat): seq<Row>
    decreases total - offset
  {
    if pages(offset) == [] then []
    else if offset + |pages(offset)| >= total then pages(offset)
    else pages(offset) + Visits(pages, total, offset + |pages(offset)|)
  }

  function VisitsIn(listing: seq<Row>): seq<Row> {
    Visits(Pages(listing), |listing|, 0)
  }

  function VisitsOf(source: seq<Row>, keys: seq<Key>): seq<Row> {
    if keys == [] then []
    else VisitsOf(source, keys[..|keys| - 1]) + VisitsIn(Listing(source, keys[|keys| - 1]))
  }

  predicate CountsMatch(source: seq<Row>, keys: seq<Key>, t: Table) {
    forall i | 0 <= i < |keys| :: |Counted(t, keys[i])| == |Listing(source, keys[i])|
  }

  lemma {:induction false} InsertAllConcat(t: Table, a: seq<Row>, b: seq<Row>)
    ensures InsertAll(t, a + b) == InsertAll(InsertAll(t, a), b)
  {
    if b == [] {
      assert a + b == a;
    } else {
      assert (a + b)[..|a + b| - 1] == a + b[..|b| - 1];
      InsertAllConcat(t, a, b[..|b| - 1]);
    }
  }

  method InsertBatch(tx0: Table, batch: seq<Row>) returns (tx: Table)
    ensures tx == InsertAll(tx0, batch)
  {
    tx := tx0;
    var i := 0;
    while i < |batch|
      invariant 0 <= i <= |batch|
      invariant tx == InsertAll(tx0, batch[..i])
    {
      assert batch[..i + 1][..i] == batch[..i];
      if batch[i].id !in tx {
        tx := tx[batch[i].id := batch[i].(userId := None, householdId := None)];
      }
      i := i + 1;
    }
    assert batch[..i] == batch;
  }

  /** What the loop still has to visit. */
  function Remaining(pages: Pager, total: nat, offset: nat, more: bool): seq<Row> {
    if more then Visits(pages, total, offset) else []
  }

  lemma {:induction false} RemainingSplit(pages: Pager, total: nat, offset: nat)
    ensures pages(offset) == [] ==> Remaining(pages, total, offset, true) == []
    ensures pages(offset) != [] ==>
      var next := offset + |pages(offset)|;
      Remaining(pages, total, offset, true) == pages(offset) + Remaining(pages, total, next, next < total)
  {
    assert pages(offset) + [] == pages(offset);
  }

  /** One page: the rest inserted after it is everything inserted before it. */
  method VisitPage(tx0: Table, page: seq<Row>, ghost all: seq<Row>, ghost rest: seq<Row>) returns (tx: Table)
    requires all == page + rest
    ensures InsertAll(tx, rest) == InsertAll(tx0, all) && |all| == |page| + |rest|
  {
    InsertAllConcat(tx0, page, rest);
    tx := InsertBatch(tx0, page);
  }

  method MigrateCollection(tx0: Table, pages: Pager, total: nat) returns (tx: Table, visited: nat)
    ensures tx == InsertAll(tx0, Visits(pages, total, 0)) && visited == |Visits(pages, total, 0)|
  {
    tx, visited := tx0, 0;
    var offset := 0;
    var more := true;
    ghost var rest := Remaining(pages, total, 0, true);
    ghost var goal, count := InsertAll(tx0, rest), |rest|;
    while more
      invariant 0 <= offset
      invariant rest == Remaining(pages, total, offset, more)
      invariant InsertAll(tx, rest) == goal && visited + |rest| == count
      decreases more, total - offset
    {
      RemainingSplit(pages, total, offset);
      var batch := pages(offset);
      if batch == [] {
        more := false;
      } else {
        ghost var after := Remaining(pages, total, offset + |batch|, offset + |batch| < total);
        tx := VisitPage(tx, batch, rest, after);
        rest := after;
        visited := visited + |batch|;
        offset := offset + |batch|;
        more := offset < total;
      }
    }
  }

  datatype MigrationResult = Migrated(records: nat) | Mismatch

  method MigrateListing(tx0: Table, listing: seq<Row>) returns (tx: Table, visited: nat)
    ensures tx == InsertAll(tx0, VisitsIn(listing)) && visited == |VisitsIn(listing)|
  {
    tx, visited := MigrateCollection(tx0, Pages(listing), |listing|);
  }

  lemma {:induction false} CopyStep(tx0: Table, source: seq<Row>, keys: seq<Key>, i: nat)
    requires i < |keys|
    ensures |VisitsOf(source, keys[..i + 1])| == |VisitsOf(source, keys[..i])| + |VisitsIn(Listing(source, keys[i]))|
    ensures InsertAll(tx0, VisitsOf(source, keys[..i + 1]))
         == InsertAll(InsertAll(tx0, VisitsOf(source, keys[..i])), VisitsIn(Listing(source, keys[i])))
  {
    assert keys[..i + 1][..i] == keys[..i];
    InsertAllConcat(tx0, VisitsOf(source, keys[..i]), VisitsIn(Listing(source, keys[i])));
  }

  method CopyCollections(source: seq<Row>, keys: seq<Key>, tx0: Table) returns (tx: Table, migrated: nat)
    ensures tx == InsertAll(tx0, VisitsOf(source, keys)) && migrated == |VisitsOf(source, keys)|
  {
    tx, migrated := tx0, 0;
    var i := 0;
    while i < |keys|
      invariant 0 <= i <= |keys|
      invariant tx == InsertAll(tx0, VisitsOf(source, keys[..i]))
      invariant migrated == |VisitsOf(source, keys[..i])|
    {
      CopyStep(tx0, source, keys, i);
      var n;
      tx, n := MigrateListing(tx, Listing(source, keys[i]));
      migrated := migrated + n;
      i := i + 1;
    }
    assert keys[..i] == keys;
  }

  method VerifyCounts(source: seq<Row>, keys: seq<Key>, tx: Table) returns (ok: bool)
    ensures ok <==> CountsMatch(source, keys, tx)
  {
    var i := 0;
    while i < |keys|
      invariant 0 <= i <= |keys|
      invariant forall j | 0 <= j < i :: |Counted(tx, keys[j])| == |Listing(source, keys[j])|
    {
      if |Counted(tx, keys[i])| != |Listing(source, keys[i])| {
        return false;
      }
      i := i + 1;
    }
    ok := true;
  }

  /** `migrate_sqlite_to_pg`; `keys` is what the discovery query returns. The
      target is untouched unless the counts agree. */
  method Migrate(source: seq<Row>, keys: seq<Key>, pg: PgTable) returns (r: MigrationResult)
    modifies pg
    ensures keys == [] ==> pg.rows == old(pg.rows) && r == Migrated(0)
    ensures keys != [] ==>
      var tx := InsertAll(old(pg.rows), VisitsOf(source, keys));
      if CountsMatch(source, keys, tx)
      then pg.rows == tx && r == Migrated(|VisitsOf(source, keys)|)
      else pg.rows == old(pg.rows) && r == Mismatch
  {
    if keys == [] {
      return Migrated(0);
    }
    var tx, migrated := CopyCollections(source, keys, pg.rows);
    var ok := VerifyCounts(source, keys, tx);
    if !ok {
      return Mismatch;
    }
    pg.rows := tx;
    r := Migrated(migrated);
  }

  // ---------------------------------------------- each row exactly once, and when

  /** The largest listing that the cut offsets still page through: the last page
      must start below 2^32. */
  const LARGEST: nat := 4_294_967_500

  /** An offset below 2^32 is not changed by the cast. */
  lemma {:induction false} FullPage(listing: seq<Row>, offset: nat)
    requires offset < U32 && offset < |listing|
    ensures Pages(listing)(offset) == if |listing| - offset <= BATCH then listing[offset..] else listing[offset..offset + BATCH]
  {
    assert AsU32(offset) == offset;
  }

  lemma {:induction false} OffsetFits(offset: nat)
    requires offset % BATCH == 0 && offset < LARGEST
    ensures offset < U32
  {
    assert offset == BATCH * (offset / BATCH);
  }

  lemma {:induction false} PagesThrough(listing: seq<Row>, offset: nat)
    requires |listing| <= LARGEST && offset % BATCH == 0 && offset < |listing|
    ensures Visits(Pages(listing), |listing|, offset) == listing[offset..]
    decreases |listing| - offset
  {
    OffsetFits(offset);
    FullPage(listing, offset);
    if offset + BATCH < |listing| {
      PagesThrough(listing, offset + BATCH);
      assert listing[offset..] == listing[offset..offset + BATCH] + listing[offset + BATCH..];
    }
  }

  lemma {:induction false} VisitsWhole(listing: seq<Row>)
    requires |listing| <= LARGEST
    ensures VisitsIn(listing) == listing
  {
    if listing != [] {
      PagesThrough(listing, 0);
      assert listing[0..] == listing;
    }
  }

  /** The rows that the listings hold together. */
  function Listed(source: seq<Row>, keys: seq<Key>): nat {
    if keys == [] then 0 else Listed(source, keys[..|keys| - 1]) + |Listing(source, keys[|keys| - 1])|
  }

  lemma {:induction false} ListingStep(source: seq<Row>, key: Key)
    requires source != []
    ensures |Listing(source, key)| == |Listing(source[1..], key)| + if KeyOf(source[0]) == key then 1 else 0
  {
  }

  lemma {:induction false} LastKey(keys: seq<Key>, key: Key)
    requires keys != [] && forall i, j | 0 <= i < j < |keys| :: keys[i] != keys[j]
    ensures key in keys <==> key in keys[..|keys| - 1] || key == keys[|keys| - 1]
    ensures !(key in keys[..|keys| - 1] && key == keys[|keys| - 1])
  {
    assert keys == keys[..|keys| - 1] + [keys[|keys| - 1]];
  }

  lemma {:induction false} ListedStep(source: seq<Row>, keys: seq<Key>)
    requires source != [] && forall i, j | 0 <= i < j < |keys| :: keys[i] != keys[j]
    ensures Listed(source, keys) == Listed(source[1..], keys) + if KeyOf(source[0]) in keys then 1 else 0
  {
    if keys != [] {
      var n := |keys| - 1;
      ListedStep(source, keys[..n]);
      ListingStep(source, keys[n]);
      LastKey(keys, KeyOf(source[0]));
    }
  }

  lemma {:induction false} AllAreListed(source: seq<Row>, keys: seq<Key>)
    requires forall i, j | 0 <= i < j < |keys| :: keys[i] != keys[j]
    requires forall i | 0 <= i < |source| :: KeyOf(source[i]) in keys
    ensures Listed(source, keys) == |source|
  {
    if source != [] {
      AllAreListed(source[1..], keys);
      ListedStep(source, keys);
    } else if keys != [] {
      AllAreListed(source, keys[..|keys| - 1]);
    }
  }

  lemma {:induction false} VisitsAreListed(source: seq<Row>, keys: seq<Key>)
    requires forall i | 0 <= i < |keys| :: |Listing(source, keys[i])| <= LARGEST
    ensures |VisitsOf(source, keys)| == Listed(source, keys)
  {
    if keys != [] {
      VisitsAreListed(source, keys[..|keys| - 1]);
      VisitsWhole(Listing(source, keys[|keys| - 1]));
    }
  }

  /** The number that a migration reports is the number of the source's rows, if no
      collection has more than 4 294 967 500 of them. */
  lemma {:induction false} ReportsEveryRow(source: seq<Row>, keys: seq<Key>)
    requires Discovered(source, keys) && forall i | 0 <= i < |keys| :: |Listing(source, keys[i])| <= 4_294_967_500
    ensures |VisitsOf(source, keys)| == |source|
  {
    AllAreListed(source, keys);
    VisitsAreListed(source, keys);
  }

  /** Up to the first cut offset the pages are in order, whatever the size. */
  lemma {:induction false} PagesUpTo(listing: seq<Row>, n: nat)
    requires |listing| > LARGEST && BATCH * n <= LARGEST
    ensures VisitsIn(listing) == listing[..BATCH * n] + Visits(Pages(listing), |listing|, BATCH * n)
  {
    if n == 0 {
      assert listing[..0] == [];
    } else {
      PagesUpTo(listing, n - 1);
      OnePage(listing, BATCH * (n - 1));
    }
  }

  lemma {:induction false} OnePage(listing: seq<Row>, prev: nat)
    requires |listing| > LARGEST && prev < U32 && prev + BATCH <= LARGEST
    ensures listing[..prev] + Visits(Pages(listing), |listing|, prev)
         == listing[..prev + BATCH] + Visits(Pages(listing), |listing|, prev + BATCH)
  {
    FullPage(listing, prev);
    VisitsOne(Pages(listing), |listing|, prev);
    SliceAndRest(listing, prev, prev + BATCH, Visits(Pages(listing), |listing|, prev + BATCH));
  }

  lemma {:induction false} VisitsOne(pages: Pager, total: nat, offset: nat)
    requires |pages(offset)| == BATCH && offset + BATCH < total
    ensures Visits(pages, total, offset) == pages(offset) + Visits(pages, total, offset + BATCH)
  {
  }

  lemma {:induction false} SliceAndRest(rows: seq<Row>, a: nat, b: nat, rest: seq<Row>)
    requires a <= b <= |rows|
    ensures rows[..a] + (rows[a..b] + rest) == rows[..b] + rest
  {
    assert rows[..a] + rows[a..b] == rows[..b];
  }

  lemma {:induction false} CutOffset(listing: seq<Row>)
    requires |listing| > LARGEST
    ensures Pages(listing)(LARGEST) == listing[204..204 + BATCH]
    ensures |Visits(Pages(listing), |listing|, LARGEST)| > 0 && Visits(Pages(listing), |listing|, LARGEST)[0] == listing[204]
  {
    assert AsU32(LARGEST) == 204;
  }

  /** The batch loop visits the rows of a collection exactly once, in order, if and
      only if the collection has at most 4 294 967 500 rows; above that the cut
      offset returns to the beginning. */
  lemma {:induction false} VisitsOnceIff(listing: seq<Row>)
    requires DistinctIds(listing)
    ensures VisitsIn(listing) == listing <==> |listing| <= LARGEST
  {
    if |listing| <= LARGEST {
      VisitsWhole(listing);
    } else {
      PagesUpTo(listing, 8_589_935);
      CutOffset(listing);
      assert VisitsIn(listing)[LARGEST] == listing[204];
      assert listing[204].id != listing[LARGEST].id;
    }
  }

  // ------------------------------------------------------------ what is committed

  /** Every row of the target is the copy of a source row. */
  ghost predicate OnlyCopies(t: Table, source: seq<Row>) {
    forall id | id in t :: exists i | 0 <= i < |source| :: source[i].id == id && t[id] == Copied(source[i])
  }

  ghost predicate HasCopyOf(t: Table, r: Row) {
    r.id in t && t[r.id] == Copied(r)
  }

  /** The target holds one copy of each source row and nothing else. */
  ghost predicate IsCopy(t: Table, source: seq<Row>) {
    OnlyCopies(t, source) && forall i | 0 <= i < |source| :: HasCopyOf(t, source[i])
  }

  lemma {:induction false} ListingRows(source: seq<Row>, key: Key, r: Row)
    ensures r in Listing(source, key) <==> r in source && r.pluginId == key.0 && r.collection == key.1
  {
    if source != [] {
      ListingRows(source[1..], key, r);
    }
  }

  lemma {:induction false} ListingDistinct(source: seq<Row>, key: Key)
    requires DistinctIds(source)
    ensures DistinctIds(Listing(source, key))
  {
    if source != [] {
      var rest := Listing(source[1..], key);
      assert DistinctIds(source[1..]);
      ListingDistinct(source[1..], key);
      if KeyOf(source[0]) == key {
        var all := [source[0]] + rest;
        forall i, j | 0 <= i < j < |all| ensures all[i].id != all[j].id {
          assert all[j] == rest[j - 1];
          if i == 0 {
            ListingRows(source[1..], key, rest[j - 1]);
            var m :| 0 <= m < |source[1..]| && source[1..][m] == rest[j - 1];
            assert source[m + 1].id != source[0].id;
          } else {
            assert all[i] == rest[i - 1];
          }
        }
      }
    }
  }

  lemma {:induction false} PageIsListed(listing: seq<Row>, o: nat)
    ensures forall r | r in PageAt(listing, o) :: r in listing
  {
  }

  lemma {:induction false} VisitedIsPaged(pages: Pager, total: nat, offset: nat, r: Row) returns (o: nat)
    requires r in Visits(pages, total, offset)
    ensures r in pages(o)
    decreases total - offset
  {
    o := offset;
    if r !in pages(offset) {
      o := VisitedIsPaged(pages, total, offset + |pages(offset)|, r);
    }
  }

  lemma {:induction false} VisitedRows(source: seq<Row>, keys: seq<Key>, r: Row)
    requires r in VisitsOf(source, keys)
    ensures r in source
  {
    var key := keys[|keys| - 1];
    if r in VisitsIn(Listing(source, key)) {
      var o := VisitedIsPaged(Pages(Listing(source, key)), |Listing(source, key)|, 0, r);
      PageIsListed(Listing(source, key), AsU32(o));
      ListingRows(source, key, r);
    } else {
      VisitedRows(source, keys[..|keys| - 1], r);
    }
  }

  lemma {:induction false} InsertAddsCopy(t: Table, source: seq<Row>, r: Row)
    requires OnlyCopies(t, source) && r in source
    ensures OnlyCopies(InsertOrSkip(t, r), source)
    ensures r.id in InsertOrSkip(t, r) && t.Keys <= InsertOrSkip(t, r).Keys
  {
    var i :| 0 <= i < |source| && source[i] == r;
  }

  /** Inserting source rows adds copies only, and each row's id is then present. */
  lemma {:induction false} InsertAddsCopies(t: Table, source: seq<Row>, rows: seq<Row>)
    requires OnlyCopies(t, source)
    requires forall r | r in rows :: r in source
    ensures OnlyCopies(InsertAll(t, rows), source)
    ensures forall r | r in rows :: r.id in InsertAll(t, rows)
    ensures forall id | id in t :: id in InsertAll(t, rows)
  {
    if rows != [] {
      var before, r := rows[..|rows| - 1], rows[|rows| - 1];
      InsertAddsCopies(t, source, before);
      assert r in rows && rows == before + [r];
      InsertAddsCopy(InsertAll(t, before), source, r);
    }
  }

  lemma {:induction false} CopyByIdIsCopy(t: Table, source: seq<Row>, i: nat)
    requires DistinctIds(source) && OnlyCopies(t, source)
    requires i < |source| && source[i].id in t
    ensures HasCopyOf(t, source[i])
  {
    var j :| 0 <= j < |source| && source[j].id == source[i].id && t[source[i].id] == Copied(source[j]);
    assert j == i;
  }

  function Ids(rows: seq<Row>): set<string> {
    if rows == [] then {} else Ids(rows[..|rows| - 1]) + {rows[|rows| - 1].id}
  }

  lemma {:induction false} InIds(rows: seq<Row>, m: nat)
    requires m < |rows|
    ensures rows[m].id in Ids(rows)
  {
    if m < |rows| - 1 {
      InIds(rows[..|rows| - 1], m);
    }
  }

  lemma {:induction false} FromIds(rows: seq<Row>, id: string) returns (m: nat)
    requires id in Ids(rows)
    ensures m < |rows| && rows[m].id == id
  {
    m := |rows| - 1;
    if rows[m].id != id {
      m := FromIds(rows[..|rows| - 1], id);
    }
  }

  lemma {:induction false} IdsCount(rows: seq<Row>)
    requires DistinctIds(rows)
    ensures |Ids(rows)| == |rows|
  {
    if rows != [] {
      var before, r := rows[..|rows| - 1], rows[|rows| - 1];
      IdsCount(before);
      if r.id in Ids(before) {
        var m := FromIds(before, r.id);
        assert false;
      }
    }
  }

  lemma {:induction false} SubsetSameSize<T>(a: set<T>, b: set<T>)
    requires a <= b && |a| == |b|
    ensures a == b
  {
    assert b == a + (b - a);
  }

  lemma {:induction false} CountedIsListed(t: Table, source: seq<Row>, key: Key)
    requires OnlyCopies(t, source)
    ensures Counted(t, key) <= Ids(Listing(source, key))
  {
    forall id | id in Counted(t, key) ensures id in Ids(Listing(source, key)) {
      var i :| 0 <= i < |source| && source[i].id == id && t[id] == Copied(source[i]);
      ListingRows(source, key, source[i]);
      var m :| 0 <= m < |Listing(source, key)| && Listing(source, key)[m] == source[i];
      InIds(Listing(source, key), m);
    }
  }

  /** The count check is exact: with only copies in the target, the counts of a
      collection agree if and only if every one of its rows has its copy. */
  lemma {:induction false} CountMatchesIff(t: Table, source: seq<Row>, key: Key)
    requires DistinctIds(source) && OnlyCopies(t, source)
    ensures |Counted(t, key)| == |Listing(source, key)|
       <==> forall r | r in Listing(source, key) :: HasCopyOf(t, r)
  {
    var listing := Listing(source, key);
    ListingDistinct(source, key);
    IdsCount(listing);
    CountedIsListed(t, source, key);
    if |Counted(t, key)| == |listing| {
      SubsetSameSize(Counted(t, key), Ids(listing));
      forall r | r in listing ensures HasCopyOf(t, r) {
        var m :| 0 <= m < |listing| && listing[m] == r;
        InIds(listing, m);
        ListingRows(source, key, r);
        var i :| 0 <= i < |source| && source[i] == r;
        CopyByIdIsCopy(t, source, i);
      }
    }
    if forall r | r in listing :: HasCopyOf(t, r) {
      forall id | id in Ids(listing) ensures id in Counted(t, key) {
        var m := FromIds(listing, id);
        assert listing[m] in listing;
        ListingRows(source, key, listing[m]);
      }
      assert Counted(t, key) == Ids(listing);
    }
  }

  lemma {:induction false} AllCopiedIff(t: Table, source: seq<Row>, keys: seq<Key>)
    requires DistinctIds(source) && OnlyCopies(t, source) && Discovered(source, keys)
    ensures CountsMatch(source, keys, t) <==> IsCopy(t, source)
  {
    forall i | 0 <= i < |keys|
      ensures |Counted(t, keys[i])| == |Listing(source, keys[i])| <==> forall r | r in Listing(source, keys[i]) :: HasCopyOf(t, r)
    {
      CountMatchesIff(t, source, keys[i]);
    }
    if CountsMatch(source, keys, t) {
      forall i | 0 <= i < |source| ensures HasCopyOf(t, source[i]) {
        var k := KeyOf(source[i]);
        assert k in keys;
        var m :| 0 <= m < |keys| && keys[m] == k;
        ListingRows(source, k, source[i]);
      }
    }
    if IsCopy(t, source) {
      forall i | 0 <= i < |keys| ensures |Counted(t, keys[i])| == |Listing(source, keys[i])| {
        forall r | r in Listing(source, keys[i]) ensures HasCopyOf(t, r) {
          ListingRows(source, keys[i], r);
        }
      }
    }
  }

  /** When the target held only copies of source rows, the migration commits if and
      only if the result is exactly one copy of each source row, for listings of
      any size. */
  lemma {:induction false} CleanCommitIff(source: seq<Row>, keys: seq<Key>, target: Table)
    requires DistinctIds(source) && Discovered(source, keys) && OnlyCopies(target, source)
    ensures
      var tx := InsertAll(target, VisitsOf(source, keys));
      OnlyCopies(tx, source) && (CountsMatch(source, keys, tx) <==> IsCopy(tx, source))
  {
    forall r | r in VisitsOf(source, keys) ensures r in source {
      VisitedRows(source, keys, r);
    }
    InsertAddsCopies(target, source, VisitsOf(source, keys));
    AllCopiedIff(InsertAll(target, VisitsOf(source, keys)), source, keys);
  }

  lemma {:induction false} VisitsAll(source: seq<Row>, keys: seq<Key>, i: nat, r: Row)
    requires i < |keys| && |Listing(source, keys[i])| <= LARGEST
    requires r in Listing(source, keys[i])
    ensures r in VisitsOf(source, keys)
  {
    if i == |keys| - 1 {
      VisitsWhole(Listing(source, keys[i]));
    } else {
      VisitsAll(source, keys[..|keys| - 1], i, r);
    }
  }

  /** What the transaction holds, over any target: the rows that were there as they
      were, and copies of the rows visited under the other ids. */
  lemma {:induction false} InsertedRows(t: Table, rows: seq<Row>, id: string)
    requires forall r, q | r in rows && q in rows && r.id == q.id :: r == q
    ensures
      var tx := InsertAll(t, rows);
      && (id in tx <==> id in t || id in Ids(rows))
      && (id in t ==> tx[id] == t[id])
      && (forall r | r in rows && r.id == id && id !in t :: id in tx && tx[id] == Copied(r))
  {
    if rows != [] {
      var before, last := rows[..|rows| - 1], rows[|rows| - 1];
      assert last in rows && rows == before + [last];
      InsertedRows(t, before, id);
      if id in Ids(before) {
        var m := FromIds(before, id);
        assert before[m] in rows;
      }
    }
  }

  lemma {:induction false} SameIdSameRow(source: seq<Row>, rows: seq<Row>)
    requires DistinctIds(source) && forall r | r in rows :: r in source
    ensures forall r, q | r in rows && q in rows && r.id == q.id :: r == q
  {
    forall r, q | r in rows && q in rows && r.id == q.id ensures r == q {
      assert r in source && q in source;
      var i :| 0 <= i < |source| && source[i] == r;
      var j :| 0 <= j < |source| && source[j] == q;
    }
  }

  /** What the migration leaves under one id. */
  lemma {:induction false} MigratedRow(source: seq<Row>, keys: seq<Key>, target: Table, id: string)
    requires DistinctIds(source)
    ensures
      var tx := InsertAll(target, VisitsOf(source, keys));
      && (id in target ==> id in tx && tx[id] == target[id])
      && (id in tx && id !in target ==> exists r | r in VisitsOf(source, keys) :: r.id == id && r in source && tx[id] == Copied(r))
      && (id in Ids(VisitsOf(source, keys)) ==> id in tx)
  {
    var rows := VisitsOf(source, keys);
    forall r | r in rows ensures r in source {
      VisitedRows(source, keys, r);
    }
    SameIdSameRow(source, rows);
    InsertedRows(target, rows, id);
    if id in Ids(rows) {
      var m := FromIds(rows, id);
      assert rows[m] in rows && rows[m].id == id;
    }
  }

  /** The rows that the target already had in the collection are all copies. */
  ghost predicate OnlyCopiesIn(target: Table, source: seq<Row>, key: Key) {
    forall id | id in target && KeyOf(target[id]) == key :: exists i | 0 <= i < |source| :: source[i].id == id && target[id] == Copied(source[i])
  }

  ghost predicate CopiedIn(tx: Table, source: seq<Row>, key: Key) {
    forall r | r in Listing(source, key) :: HasCopyOf(tx, r)
  }

  lemma {:induction false} ListedId(source: seq<Row>, key: Key, r: Row)
    requires r in source && KeyOf(r) == key
    ensures r.id in Ids(Listing(source, key))
  {
    ListingRows(source, key, r);
    var m :| 0 <= m < |Listing(source, key)| && Listing(source, key)[m] == r;
    InIds(Listing(source, key), m);
  }

  /** A row of the transaction in the collection is a copy of a source row, given
      that those of the target are. */
  lemma {:induction false} CountedIsCopy(source: seq<Row>, keys: seq<Key>, target: Table, key: Key, id: string) returns (r: Row)
    requires DistinctIds(source) && OnlyCopiesIn(target, source, key)
    requires id in Counted(InsertAll(target, VisitsOf(source, keys)), key)
    ensures r in source && r.id == id && KeyOf(r) == key && InsertAll(target, VisitsOf(source, keys))[id] == Copied(r)
  {
    MigratedRow(source, keys, target, id);
    if id in target {
      var i :| 0 <= i < |source| && source[i].id == id && target[id] == Copied(source[i]);
      r := source[i];
    } else {
      r :| r in VisitsOf(source, keys) && r.id == id && r in source && InsertAll(target, VisitsOf(source, keys))[id] == Copied(r);
    }
  }

  lemma {:induction false} CleanIsComplete(source: seq<Row>, keys: seq<Key>, target: Table, key: Key)
    requires DistinctIds(source) && OnlyCopiesIn(target, source, key)
    requires |Counted(InsertAll(target, VisitsOf(source, keys)), key)| == |Listing(source, key)|
    ensures CopiedIn(InsertAll(target, VisitsOf(source, keys)), source, key)
  {
    var tx, listing := InsertAll(target, VisitsOf(source, keys)), Listing(source, key);
    ListingDistinct(source, key);
    IdsCount(listing);
    forall id | id in Counted(tx, key) ensures id in Ids(listing) {
      var r := CountedIsCopy(source, keys, target, key, id);
      ListedId(source, key, r);
    }
    SubsetSameSize(Counted(tx, key), Ids(listing));
    forall r | r in listing ensures HasCopyOf(tx, r) {
      ListingRows(source, key, r);
      ListedId(source, key, r);
      var q := CountedIsCopy(source, keys, target, key, r.id);
      SameIdSameRow(source, [r, q]);
      assert r in [r, q] && q in [r, q];
    }
  }

  lemma {:induction false} CompleteIsClean(source: seq<Row>, keys: seq<Key>, target: Table, key: Key)
    requires DistinctIds(source) && CopiedIn(InsertAll(target, VisitsOf(source, keys)), source, key)
    requires |Counted(InsertAll(target, VisitsOf(source, keys)), key)| == |Listing(source, key)|
    ensures OnlyCopiesIn(target, source, key)
  {
    var tx, listing := InsertAll(target, VisitsOf(source, keys)), Listing(source, key);
    ListingDistinct(source, key);
    IdsCount(listing);
    forall id | id in Ids(listing) ensures id in Counted(tx, key) {
      var m := FromIds(listing, id);
      assert listing[m] in listing;
      ListingRows(source, key, listing[m]);
      assert HasCopyOf(tx, listing[m]);
    }
    SubsetSameSize(Ids(listing), Counted(tx, key));
    forall id | id in target && KeyOf(target[id]) == key
      ensures exists i | 0 <= i < |source| :: source[i].id == id && target[id] == Copied(source[i])
    {
      MigratedRow(source, keys, target, id);
      assert id in Counted(tx, key);
      var m := FromIds(listing, id);
      assert listing[m] in listing;
      ListingRows(source, key, listing[m]);
      assert HasCopyOf(tx, listing[m]);
      var i :| 0 <= i < |source| && source[i] == listing[m];
    }
  }

  /** Over any target and listings of any size: a commit is a complete copy exactly
      when every row that the target already had in the migrated collections was a
      copy of a source row. The counts alone do not show it. */
  lemma {:induction false} CommitIffComplete(source: seq<Row>, keys: seq<Key>, target: Table)
    requires DistinctIds(source) && Discovered(source, keys)
    requires CountsMatch(source, keys, InsertAll(target, VisitsOf(source, keys)))
    ensures (forall i | 0 <= i < |source| :: HasCopyOf(InsertAll(target, VisitsOf(source, keys)), source[i]))
       <==> (forall m | 0 <= m < |keys| :: OnlyCopiesIn(target, source, keys[m]))
  {
    var tx := InsertAll(target, VisitsOf(source, keys));
    if forall m | 0 <= m < |keys| :: OnlyCopiesIn(target, source, keys[m]) {
      forall i | 0 <= i < |source| ensures HasCopyOf(tx, source[i]) {
        assert KeyOf(source[i]) in keys;
        var m :| 0 <= m < |keys| && keys[m] == KeyOf(source[i]);
        CleanIsComplete(source, keys, target, keys[m]);
        ListingRows(source, keys[m], source[i]);
      }
    }
    if forall i | 0 <= i < |source| :: HasCopyOf(tx, source[i]) {
      forall m | 0 <= m < |keys| ensures OnlyCopiesIn(target, source, keys[m]) {
        forall r | r in Listing(source, keys[m]) ensures HasCopyOf(tx, r) {
          ListingRows(source, keys[m], r);
        }
        CompleteIsClean(source, keys, target, keys[m]);
      }
    }
  }

  /** Rows of the target in the collection under ids that the source does not have
      there. */
  function Extra(target: Table, source: seq<Row>, key: Key): set<string> {
    Counted(target, key) - Ids(Listing(source, key))
  }

  /** Source rows of the collection that do not get there: the target holds the id in
      another one, or the id is free and the batches do not visit the row. */
  function Lacking(target: Table, source: seq<Row>, keys: seq<Key>, key: Key): set<string> {
    set id | id in Ids(Listing(source, key))
             && if id in target then KeyOf(target[id]) != key else id !in Ids(VisitsOf(source, keys))
  }

  lemma {:induction false} CountedRows(source: seq<Row>, keys: seq<Key>, target: Table, key: Key)
    requires DistinctIds(source)
    ensures Counted(InsertAll(target, VisitsOf(source, keys)), key)
         == Extra(target, source, key) + (Ids(Listing(source, key)) - Lacking(target, source, keys, key))
  {
    var tx, listing := InsertAll(target, VisitsOf(source, keys)), Listing(source, key);
    forall id ensures id in Counted(tx, key) <==> id in Extra(target, source, key) + (Ids(listing) - Lacking(target, source, keys, key)) {
      MigratedRow(source, keys, target, id);
      if id !in target && id in tx {
        var r :| r in VisitsOf(source, keys) && r.id == id && r in source && tx[id] == Copied(r);
        RowIsVisited(source, keys, r);
        if KeyOf(r) == key {
          ListedId(source, key, r);
        } else if id in Ids(listing) {
          ListedKey(source, key, id, r);
          assert false;
        }
      }
    }
  }

  lemma {:induction false} RowIsVisited(source: seq<Row>, keys: seq<Key>, r: Row)
    requires r in VisitsOf(source, keys)
    ensures r.id in Ids(VisitsOf(source, keys))
  {
    var n :| 0 <= n < |VisitsOf(source, keys)| && VisitsOf(source, keys)[n] == r;
    InIds(VisitsOf(source, keys), n);
  }

  lemma {:induction false} ListedKey(source: seq<Row>, key: Key, id: string, r: Row)
    requires DistinctIds(source) && id in Ids(Listing(source, key)) && r in source && r.id == id
    ensures KeyOf(r) == key && r in Listing(source, key)
  {
    var listing := Listing(source, key);
    var m := FromIds(listing, id);
    assert listing[m] in listing;
    ListingRows(source, key, listing[m]);
    SameIdSameRow(source, [r, listing[m]]);
    assert r in [r, listing[m]] && listing[m] in [r, listing[m]];
  }

  lemma {:induction false} CountBalance(source: seq<Row>, keys: seq<Key>, target: Table, key: Key)
    requires DistinctIds(source)
    ensures |Counted(InsertAll(target, VisitsOf(source, keys)), key)| == |Listing(source, key)|
       <==> |Extra(target, source, key)| == |Lacking(target, source, keys, key)|
  {
    var ids, extra, lacking := Ids(Listing(source, key)), Extra(target, source, key), Lacking(target, source, keys, key);
    CountedRows(source, keys, target, key);
    ListingDistinct(source, key);
    IdsCount(Listing(source, key));
    assert ids == (ids - lacking) + lacking;
    assert extra !! (ids - lacking);
  }

  /** Over any target and listings of any size: the migration commits exactly when in
      every collection the target's extra rows are as many as the source rows that
      do not get there. */
  lemma {:induction false} MigrationCommits(source: seq<Row>, keys: seq<Key>, target: Table)
    requires DistinctIds(source)
    ensures CountsMatch(source, keys, InsertAll(target, VisitsOf(source, keys)))
       <==> forall i | 0 <= i < |keys| :: |Extra(target, source, keys[i])| == |Lacking(target, source, keys, keys[i])|
  {
    forall i | 0 <= i < |keys|
      ensures |Counted(InsertAll(target, VisitsOf(source, keys)), keys[i])| == |Listing(source, keys[i])|
         <==> |Extra(target, source, keys[i])| == |Lacking(target, source, keys, keys[i])|
    {
      CountBalance(source, keys, target, keys[i]);
    }
  }

  lemma {:induction false} ListedIsVisited(source: seq<Row>, keys: seq<Key>, key: Key, id: string)
    requires key in keys && |Listing(source, key)| <= LARGEST && id in Ids(Listing(source, key))
    ensures id in Ids(VisitsOf(source, keys))
  {
    var m := FromIds(Listing(source, key), id);
    var i :| 0 <= i < |keys| && keys[i] == key;
    VisitsAll(source, keys, i, Listing(source, key)[m]);
    RowIsVisited(source, keys, Listing(source, key)[m]);
  }

  lemma {:induction false} CopiesAreBalanced(target: Table, source: seq<Row>, keys: seq<Key>, key: Key)
    requires DistinctIds(source) && OnlyCopies(target, source) && key in keys && |Listing(source, key)| <= LARGEST
    ensures Extra(target, source, key) == {} && Lacking(target, source, keys, key) == {}
  {
    CountedIsListed(target, source, key);
    forall id | id in Ids(Listing(source, key)) ensures id !in Lacking(target, source, keys, key) {
      ListedIsVisited(source, keys, key, id);
      if id in target {
        var i :| 0 <= i < |source| && source[i].id == id && target[id] == Copied(source[i]);
        ListedKey(source, key, id, source[i]);
      }
    }
  }

  /** Over a target of copies, with no collection beyond the largest size, it always
      commits, to exactly one copy of each row. */
  lemma {:induction false} CopiesCommit(source: seq<Row>, keys: seq<Key>, target: Table)
    requires DistinctIds(source) && Discovered(source, keys) && OnlyCopies(target, source)
    requires forall i | 0 <= i < |keys| :: |Listing(source, keys[i])| <= LARGEST
    ensures var tx := InsertAll(target, VisitsOf(source, keys)); CountsMatch(source, keys, tx) && IsCopy(tx, source)
  {
    forall i | 0 <= i < |keys| ensures |Extra(target, source, keys[i])| == |Lacking(target, source, keys, keys[i])| {
      CopiesAreBalanced(target, source, keys, keys[i]);
    }
    MigrationCommits(source, keys, target);
    CleanCommitIff(source, keys, target);
  }

  /** Beyond the largest size the last row of a listing is on no page: the cut offsets
      stay below 2^32, and the one page after the first cut starts over. */
  lemma {:induction false} LastRowIsUnvisited(listing: seq<Row>)
    requires DistinctIds(listing) && |listing| > LARGEST
    ensures listing[|listing| - 1] !in VisitsIn(listing)
  {
    if |listing| >= U32 + BATCH {
      if listing[|listing| - 1] in VisitsIn(listing) {
        var o := VisitedIsPaged(Pages(listing), |listing|, 0, listing[|listing| - 1]);
        OffPage(listing, AsU32(o));
      }
    } else {
      PagesUpTo(listing, 8_589_935);
      CutOffset(listing);
      OnePageLeft(Pages(listing), |listing|, LARGEST);
      assert VisitsIn(listing) == listing[0..LARGEST] + listing[204..204 + BATCH];
      NotInSlice(listing, 0, LARGEST);
      NotInSlice(listing, 204, 204 + BATCH);
    }
  }

  lemma {:induction false} OnePageLeft(pages: Pager, total: nat, offset: nat)
    requires pages(offset) != [] && offset + |pages(offset)| >= total
    ensures Visits(pages, total, offset) == pages(offset)
  {
  }

  lemma {:induction false} NotInSlice(listing: seq<Row>, lo: nat, hi: nat)
    requires DistinctIds(listing) && lo <= hi < |listing|
    ensures listing[|listing| - 1] !in listing[lo..hi]
  {
    forall k | 0 <= k < hi - lo ensures listing[lo..hi][k] != listing[|listing| - 1] {
      assert listing[lo..hi][k] == listing[lo + k];
      assert listing[lo + k].id != listing[|listing| - 1].id;
    }
  }

  lemma {:induction false} OffPage(listing: seq<Row>, o: nat)
    requires DistinctIds(listing) && o + BATCH < |listing|
    ensures listing[|listing| - 1] !in PageAt(listing, o)
  {
    NotInSlice(listing, o, o + BATCH);
  }

  lemma {:induction false} VisitedInOwn(source: seq<Row>, keys: seq<Key>, r: Row)
    requires r in VisitsOf(source, keys)
    ensures r in VisitsIn(Listing(source, KeyOf(r)))
  {
    var key := keys[|keys| - 1];
    if r in VisitsIn(Listing(source, key)) {
      var o := VisitedIsPaged(Pages(Listing(source, key)), |Listing(source, key)|, 0, r);
      PageIsListed(Listing(source, key), AsU32(o));
      ListingRows(source, key, r);
    } else {
      VisitedInOwn(source, keys[..|keys| - 1], r);
    }
  }

  /** Into an empty target the migration commits exactly when no collection is beyond
      the largest size. */
  lemma {:induction false} EmptyTargetCommitsIff(source: seq<Row>, keys: seq<Key>)
    requires DistinctIds(source) && Discovered(source, keys)
    ensures CountsMatch(source, keys, InsertAll(map[], VisitsOf(source, keys)))
       <==> forall i | 0 <= i < |keys| :: |Listing(source, keys[i])| <= LARGEST
  {
    if forall i | 0 <= i < |keys| :: |Listing(source, keys[i])| <= LARGEST {
      CopiesCommit(source, keys, map[]);
    } else {
      var i :| 0 <= i < |keys| && |Listing(source, keys[i])| > LARGEST;
      LastRowIsLacking(source, keys, keys[i]);
      assert Extra(map[], source, keys[i]) == {};
      assert |Lacking(map[], source, keys, keys[i])| != 0;
      MigrationCommits(source, keys, map[]);
    }
  }

  lemma {:induction false} LastRowIsLacking(source: seq<Row>, keys: seq<Key>, key: Key)
    requires DistinctIds(source) && |Listing(source, key)| > LARGEST
    ensures var listing := Listing(source, key); listing[|listing| - 1].id in Lacking(map[], source, keys, key)
  {
    var listing := Listing(source, key);
    var last := listing[|listing| - 1];
    ListingDistinct(source, key);
    LastRowIsUnvisited(listing);
    InIds(listing, |listing| - 1);
    if last.id in Ids(VisitsOf(source, keys)) {
      var m := FromIds(VisitsOf(source, keys), last.id);
      var r := VisitsOf(source, keys)[m];
      assert r in VisitsOf(source, keys);
      VisitedRows(source, keys, r);
      VisitedInOwn(source, keys, r);
      ListingRows(source, key, last);
    }
  }

  /** A target with an older state of the one source row: the row is skipped, the
      counts agree, and the old state is committed. */
  lemma {:induction false} StaleRowIsCommitted(r: Row, stale: Row)
    requires KeyOf(stale) == KeyOf(r)
    ensures
      var target := map[r.id := stale];
      var tx := InsertAll(target, VisitsOf([r], [KeyOf(r)]));
      tx == target && CountsMatch([r], [KeyOf(r)], tx)
  {
    var target := map[r.id := stale];
    var tx := InsertAll(target, VisitsOf([r], [KeyOf(r)]));
    forall q | q in VisitsOf([r], [KeyOf(r)]) ensures q.id in target {
      VisitedRows([r], [KeyOf(r)], q);
    }
    InsertPresent(target, VisitsOf([r], [KeyOf(r)]));
    assert Counted(target, KeyOf(r)) == {r.id};
    assert [r][1..] == [];
    assert Listing([r], KeyOf(r)) == [r];
  }

  /** A rerun over a complete copy changes nothing and commits again. */
  lemma {:induction false} RerunIsIdempotent(source: seq<Row>, keys: seq<Key>, target: Table)
    requires DistinctIds(source) && Discovered(source, keys) && IsCopy(target, source)
    ensures InsertAll(target, VisitsOf(source, keys)) == target
    ensures CountsMatch(source, keys, target)
  {
    forall r | r in VisitsOf(source, keys) ensures r.id in target {
      VisitedRows(source, keys, r);
      var i :| 0 <= i < |source| && source[i] == r;
      assert HasCopyOf(target, source[i]);
    }
    InsertPresent(target, VisitsOf(source, keys));
    AllCopiedIff(target, source, keys);
  }

  lemma {:induction false} InsertPresent(t: Table, rows: seq<Row>)
    requires forall r | r in rows :: r.id in t
    ensures InsertAll(t, rows) == t
  {
    if rows != [] {
      InsertPresent(t, rows[..|rows| - 1]);
    }
  }

  /** A row keeps all but its owner and household, and so survives the migration
      unchanged exactly when it has neither: the INSERT leaves both columns out. */
  lemma {:induction false} RowSurvivesIff(t: Table, source: seq<Row>, i: nat)
    requires IsCopy(t, source) && i < |source|
    ensures t[source[i].id] == source[i].(userId := None, householdId := None)
    ensures t[source[i].id] == source[i] <==> source[i].userId.None? && source[i].householdId.None?
  {
    assert HasCopyOf(t, source[i]);
  }
}
