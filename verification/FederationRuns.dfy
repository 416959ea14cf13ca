/** Federation end to end: the loop that pulls, against the endpoint that another
    instance serves. The endpoint keeps no log: it lists the live rows of the
    collection, drops those not written since the cursor, sends the rest as
    updates, and reads the clock for the next cursor after it has listed. */
module FederationRuns {
  import opened Text
  import opened Storage
  import opened Sync
  import opened Federation

  // --------------------------------------------------------- the serving side

  /** A row of the serving instance's own plugin, in the collection. */
  datatype Stored = Stored(data: string, version: int, updatedAt: int)

  predicate Fresh(row: Stored, since: Option<int>) {
    since.None? || row.updatedAt > since.value
  }

  /** The statement has no ORDER BY: any rows, up to the limit, in any order. */
  ghost predicate IsPage(rows: map<string, Stored>, page: seq<string>) {
    && (forall i | 0 <= i < |page| :: page[i] in rows)
    && (forall i, j | 0 <= i < j < |page| :: page[i] != page[j])
    && |page| == if |rows| <= 1000 then |rows| else 1000
  }

  /** The served changes, one per listed row written after the cursor. */
  function Served(rows: map<string, Stored>, collection: string, page: seq<string>, since: Option<int>): seq<Change>
    requires forall i | 0 <= i < |page| :: page[i] in rows
  {
    if page == [] then [] else
    var row := rows[page[0]];
    (if Fresh(row, since) then [Change(collection, page[0], Update, Some(row.data), row.version)] else [])
    + Served(rows, collection, page[1..], since)
  }

  /** `serve_changes`; `None` is the answer to a cursor that is not a timestamp. */
  function ServeChanges(rows: map<string, Stored>, collection: string, page: seq<string>, since: string, now: int,
                        parse: string -> Option<int>, show: int -> string): Option<Pull>
    requires forall i | 0 <= i < |page| :: page[i] in rows
  {
    if since != "" && parse(since).None? then None
    else Some(Pull(Served(rows, collection, page, if since == "" then None else parse(since)), show(now)))
  }

  // ---------------------------------------------------------- the whole system

  /** A pull under way: the rows are listed, then the cursor is read, then the
      client applies the answer. */
  datatype Pulling = Idle | Listed(changes: seq<Change>) | Answered(changes: seq<Change>, cursor: int)

  /** `rows` and `clock` belong to the serving instance, `table` and `since` to the
      pulling one. */
  datatype World = World(peerId: string, collection: string, clock: int, rows: map<string, Stored>,
                         table: Table, since: Option<int>, pulling: Pulling)

  /** A write takes its stamp before it waits for the connection, so it lands with
      any stamp up to now. An answer is applied although storage does not get to write
      the `unwritten` records. */
  datatype Event =
    | Ticks(to: int)
    | Lands(id: string, data: string, stamp: int)
    | Erases(id: string)
    | Lists(page: seq<string>)
    | Answers
    | Applies(unwritten: set<string>)
    | Fails
    | Restarts

  ghost predicate Enabled(w: World, e: Event) {
    match e
    case Ticks(to) => w.clock <= to
    case Lands(_, _, stamp) => stamp <= w.clock
    case Erases(id) => id in w.rows
    case Lists(page) => w.pulling.Idle? && IsPage(w.rows, page)
    case Answers => w.pulling.Listed?
    case Applies(_) => w.pulling.Answered?
    case Fails => !w.pulling.Idle?
    case Restarts => true
  }

  function Write(rows: map<string, Stored>, id: string, data: string, stamp: int): map<string, Stored> {
    rows[id := Stored(data, if id in rows then rows[id].version + 1 else 1, stamp)]
  }

  /** The changes that storage gets to write. */
  function Kept(changes: seq<Change>, unwritten: set<string>): seq<Change> {
    if changes == [] then []
    else (if changes[0].id in unwritten then [] else [changes[0]]) + Kept(changes[1..], unwritten)
  }

  ghost function Step(w: World, e: Event): World
    requires Enabled(w, e)
  {
    match e
    case Ticks(to) => w.(clock := to)
    case Lands(id, data, stamp) => w.(rows := Write(w.rows, id, data, stamp))
    case Erases(id) => w.(rows := w.rows - {id})
    case Lists(page) => w.(pulling := Listed(Served(w.rows, w.collection, page, w.since)))
    case Answers => w.(pulling := Answered(w.pulling.changes, w.clock))
    case Applies(unwritten) =>
      w.(table := ApplyAll(w.table, Namespace(w.peerId), Kept(w.pulling.changes, unwritten)),
         since := Some(w.pulling.cursor), pulling := Idle)
    case Fails => w.(pulling := Idle)
    case Restarts => w.(since := None, pulling := Idle)
  }

  ghost predicate Runs(w: World, events: seq<Event>)
    decreases |events|
  {
    events == [] || (Enabled(w, events[0]) && Runs(Step(w, events[0]), events[1..]))
  }

  ghost function Run(w: World, events: seq<Event>): World
    requires Runs(w, events)
    decreases |events|
  {
    if events == [] then w else Run(Step(w, events[0]), events[1..])
  }

  // --------------------------------------------------- one record's history

  /** One write of the record, with the version that it got: a record created anew
      after a deletion starts at version 1 again. */
  datatype Written = Written(data: string, version: int)

  /** All writes of the record, the number of the write that the local copy
      reflects, and of the one that the pull under way brings. */
  datatype Story = Story(writes: seq<Written>, seen: int, offered: int)

  /** What a pull under way brings for the record. */
  function Offer(w: World, id: string): seq<Change> {
    if w.pulling.Idle? then [] else Of(w.pulling.changes, w.collection, id)
  }

  /** The local table takes the record at this version: it has no row with the id,
      or a copy with a lower version. */
  predicate Takes(w: World, id: string, version: int) {
    id in w.table ==> Owned(w.table, Namespace(w.peerId), w.collection, id) && version > w.table[id].version
  }

  ghost function Tell(s: Story, w: World, e: Event, id: string): Story
    requires Enabled(w, e)
  {
    match e
    case Lands(written, data, _) =>
      if written == id then s.(writes := s.writes + [Written(data, Step(w, e).rows[id].version)]) else s
    case Lists(_) =>
      if Offer(Step(w, e), id) != [] then s.(offered := |s.writes|) else s
    case Applies(unwritten) =>
      if Offer(w, id) != [] && id !in unwritten && Takes(w, id, Offer(w, id)[0].version) then s.(seen := s.offered) else s
    case _ => s
  }

  ghost function Told(s: Story, w: World, events: seq<Event>, id: string): Story
    requires Runs(w, events)
    decreases |events|
  {
    if events == [] then s else Told(Tell(s, w, events[0], id), Step(w, events[0]), events[1..], id)
  }

  /** The copy reflects the last write. */
  predicate UpToDate(s: Story) { s.seen == |s.writes| }

  /** The `k`-th write of the record, as the endpoint sends it. */
  function WriteAsChange(s: Story, collection: string, id: string, k: int): Change
    requires 1 <= k <= |s.writes|
  {
    Change(collection, id, Update, Some(s.writes[k - 1].data), s.writes[k - 1].version)
  }

  predicate OfferOk(w: World, s: Story, id: string) {
    Offer(w, id) != [] ==>
      && s.seen <= s.offered && 1 <= s.offered <= |s.writes|
      && Offer(w, id) == [WriteAsChange(s, w.collection, id, s.offered)]
  }

  /** A row of the serving instance is the last write. */
  predicate RowOk(w: World, s: Story, id: string) {
    && (forall i | 0 <= i < |s.writes| :: s.writes[i].version >= 1)
    && (id in w.rows ==> s.writes != [] && w.rows[id].updatedAt <= w.clock
                         && Written(w.rows[id].data, w.rows[id].version) == s.writes[|s.writes| - 1])
  }

  /** The local copy, if there is one, is write number `seen`, at a version no
      higher than that write's. */
  predicate CopyOk(w: World, s: Story, id: string) {
    && 0 <= s.seen <= |s.writes|
    && (s.seen > 0 <==> Owned(w.table, Namespace(w.peerId), w.collection, id))
    && (s.seen > 0 ==> 1 <= w.table[id].version <= s.writes[s.seen - 1].version && w.table[id].data == s.writes[s.seen - 1].data)
  }

  predicate OneCollection(w: World) {
    !w.pulling.Idle? ==> forall i | 0 <= i < |w.pulling.changes| :: w.pulling.changes[i].collection == w.collection
  }

  predicate ClocksOk(w: World) {
    && (w.since.Some? ==> w.since.value <= w.clock)
    && (w.pulling.Answered? ==> w.pulling.cursor <= w.clock && (w.since.Some? ==> w.since.value <= w.pulling.cursor))
  }

  predicate Ok(w: World, s: Story, id: string) {
    RowOk(w, s, id) && CopyOk(w, s, id) && OfferOk(w, s, id) && OneCollection(w) && ClocksOk(w)
  }

  // ------------------------------------------------- what the endpoint serves

  lemma {:induction false} ServedCollection(rows: map<string, Stored>, collection: string, page: seq<string>, since: Option<int>)
    requires forall i | 0 <= i < |page| :: page[i] in rows
    ensures forall i | 0 <= i < |Served(rows, collection, page, since)| :: Served(rows, collection, page, since)[i].collection == collection
  {
    if page != [] {
      ServedCollection(rows, collection, page[1..], since);
    }
  }

  /** The record is served, once and as it stands, exactly when it is in the page
      and was written after the cursor. */
  lemma {:induction false} ServedIff(rows: map<string, Stored>, collection: string, page: seq<string>, since: Option<int>, id: string)
    requires forall i | 0 <= i < |page| :: page[i] in rows
    requires forall i, j | 0 <= i < j < |page| :: page[i] != page[j]
    ensures Of(Served(rows, collection, page, since), collection, id) ==
            if id in page && (since.None? || rows[id].updatedAt > since.value) then [Change(collection, id, Update, Some(rows[id].data), rows[id].version)] else []
  {
    if page != [] {
      var row, rest := rows[page[0]], Served(rows, collection, page[1..], since);
      var first := Change(collection, page[0], Update, Some(row.data), row.version);
      ServedIff(rows, collection, page[1..], since, id);
      assert id in page <==> id == page[0] || id in page[1..];
      if Fresh(row, since) {
        assert Served(rows, collection, page, since) == [first] + rest;
        assert ([first] + rest)[1..] == rest;
      } else {
        assert Served(rows, collection, page, since) == rest;
      }
    }
  }

  /** The answer: refused exactly when the cursor is there and is no timestamp; else a
      record is in it exactly when it is in the page and, with a cursor, stamped after
      it, and the next cursor is the present. */
  lemma {:induction false} AnswerIff(rows: map<string, Stored>, collection: string, page: seq<string>, since: string, now: int,
                                     parse: string -> Option<int>, show: int -> string, id: string)
    requires forall i | 0 <= i < |page| :: page[i] in rows
    requires forall i, j | 0 <= i < j < |page| :: page[i] != page[j]
    ensures
      var answer := ServeChanges(rows, collection, page, since, now, parse, show);
      if since != "" && parse(since).None? then answer == None else
      && answer.Some? && answer.value.cursor == show(now)
      && Of(answer.value.changes, collection, id) ==
         if id in page && (since == "" || rows[id].updatedAt > parse(since).value)
         then [Change(collection, id, Update, Some(rows[id].data), rows[id].version)] else []
  {
    ServedIff(rows, collection, page, if since == "" then None else parse(since), id);
  }

  /** A collection above the limit is not: some record is left out of every page. */
  lemma {:induction false} PageLeavesOut(rows: map<string, Stored>, page: seq<string>)
    requires IsPage(rows, page) && |rows| > 1000
    ensures exists id :: id in rows && id !in page
  {
    var listed := set i | 0 <= i < |page| :: page[i];
    DistinctCount(page);
    if rows.Keys <= listed {
      SubsetCount(rows.Keys, listed);
      assert false;
    }
    var id :| id in rows && id !in listed;
    assert id !in page;
  }

  /** A collection within the limit is listed whole. */
  lemma {:induction false} WholePage(rows: map<string, Stored>, page: seq<string>, id: string)
    requires IsPage(rows, page) && |rows| <= 1000 && id in rows
    ensures id in page
  {
    var listed := set i | 0 <= i < |page| :: page[i];
    DistinctCount(page);
    assert listed <= rows.Keys;
    if id !in page {
      SubsetCount(listed, rows.Keys - {id});
      assert false;
    }
  }

  lemma {:induction false} DistinctCount(page: seq<string>)
    requires forall i, j | 0 <= i < j < |page| :: page[i] != page[j]
    ensures |set i | 0 <= i < |page| :: page[i]| == |page|
  {
    if page != [] {
      var n := |page| - 1;
      DistinctCount(page[..n]);
      var before := set i | 0 <= i < n :: page[..n][i];
      assert (set i | 0 <= i < |page| :: page[i]) == before + {page[n]};
    }
  }

  lemma {:induction false} SubsetCount(a: set<string>, b: set<string>)
    requires a <= b
    ensures |a| <= |b|
  {
    if a != {} {
      var x :| x in a;
      SubsetCount(a - {x}, b - {x});
    }
  }

  // -------------------------------------------- what every step keeps

  /** Two instances before their first pull, whatever both hold and whatever writes
      the record has behind it: without a copy, nothing more is needed. */
  lemma {:induction false} StartIsOk(w: World, writes: seq<Written>, id: string)
    requires w.pulling.Idle? && w.since.None? && !Owned(w.table, Namespace(w.peerId), w.collection, id)
    requires RowOk(w, Story(writes, 0, 0), id)
    ensures Ok(w, Story(writes, 0, 0), id)
  {
  }

  lemma {:induction false} ListingKeeps(w: World, s: Story, page: seq<string>, id: string)
    requires Ok(w, s, id) && Enabled(w, Lists(page))
    ensures Ok(Step(w, Lists(page)), Tell(s, w, Lists(page), id), id)
  {
    ServedCollection(w.rows, w.collection, page, w.since);
    ServedIff(w.rows, w.collection, page, w.since, id);
  }

  lemma {:induction false} KeptOf(changes: seq<Change>, unwritten: set<string>, collection: string, id: string)
    ensures Of(Kept(changes, unwritten), collection, id) == if id in unwritten then [] else Of(changes, collection, id)
  {
    if changes != [] {
      KeptOf(changes[1..], unwritten, collection, id);
      var rest := Kept(changes[1..], unwritten);
      if changes[0].id in unwritten {
        assert Kept(changes, unwritten) == rest;
      } else {
        assert Kept(changes, unwritten) == [changes[0]] + rest && ([changes[0]] + rest)[1..] == rest;
      }
    }
  }

  lemma {:induction false} KeptCollection(changes: seq<Change>, unwritten: set<string>, collection: string, id: string)
    requires forall i | 0 <= i < |changes| :: changes[i].collection == collection
    ensures Uncontested(Kept(changes, unwritten), collection, id)
  {
    if changes != [] {
      KeptCollection(changes[1..], unwritten, collection, id);
    }
  }

  /** What applying an answer does to one record: nothing, if it is not written or the
      table does not take it, and else a row with the data offered. */
  lemma {:induction false} AppliedAt(w: World, unwritten: set<string>, id: string)
    requires OneCollection(w) && Enabled(w, Applies(unwritten))
    requires Offer(w, id) != [] ==> |Offer(w, id)| == 1 && Offer(w, id)[0].operation == Update && Offer(w, id)[0].data.Some?
    ensures
      var t, t' := w.table, Step(w, Applies(unwritten)).table;
      if Offer(w, id) != [] && id !in unwritten && Takes(w, id, Offer(w, id)[0].version)
      then && id in t'
           && t'[id] == Row(Namespace(w.peerId), w.collection, Offer(w, id)[0].data.value, if id in t then t[id].version + 1 else 1)
      else SameAt(t, t', id)
  {
    var ns, kept := Namespace(w.peerId), Kept(w.pulling.changes, unwritten);
    KeptCollection(w.pulling.changes, unwritten, w.collection, id);
    KeptOf(w.pulling.changes, unwritten, w.collection, id);
    BatchProjects(w.table, w.table, ns, kept, w.collection, id);
    var own := Of(kept, w.collection, id);
    if own != [] {
      OfOwn(w.pulling.changes, w.collection, id);
      assert own[1..] == [];
      assert ApplyAll(w.table, ns, own) == Apply(w.table, ns, own[0]).table;
    }
  }

  lemma {:induction false} OfOwn(log: seq<Change>, collection: string, id: string)
    ensures forall i | 0 <= i < |Of(log, collection, id)| :: Of(log, collection, id)[i].id == id && Of(log, collection, id)[i].collection == collection
  {
    if log != [] {
      OfOwn(log[1..], collection, id);
    }
  }

  lemma {:induction false} ApplyingKeeps(w: World, s: Story, unwritten: set<string>, id: string)
    requires Ok(w, s, id) && Enabled(w, Applies(unwritten))
    ensures Ok(Step(w, Applies(unwritten)), Tell(s, w, Applies(unwritten), id), id)
  {
    AppliedAt(w, unwritten, id);
  }

  lemma {:induction false} StepKeeps(w: World, s: Story, e: Event, id: string)
    requires Ok(w, s, id) && Enabled(w, e)
    ensures Ok(Step(w, e), Tell(s, w, e, id), id) && s.seen <= Tell(s, w, e, id).seen
  {
    match e
    case Lists(page) => ListingKeeps(w, s, page, id);
    case Applies(unwritten) => ApplyingKeeps(w, s, unwritten, id);
    case _ =>
  }

  /** Over every run, deletions and failures included: the local copy is always one
      of the record's writes, at a local version no higher than that write's, and
      never goes back to an earlier one. */
  lemma {:induction false} RunKeeps(w: World, s: Story, events: seq<Event>, id: string)
    requires Ok(w, s, id) && Runs(w, events)
    ensures Ok(Run(w, events), Told(s, w, events, id), id) && s.seen <= Told(s, w, events, id).seen
    decreases |events|
  {
    if events != [] {
      StepKeeps(w, s, events[0], id);
      RunKeeps(Step(w, events[0]), Tell(s, w, events[0], id), events[1..], id);
    }
  }
}
