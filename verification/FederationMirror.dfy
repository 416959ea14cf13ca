/** When two instances come to agree: runs that lose no write, deletions, records
    created anew, and the pull loop's own turn against the endpoint. */
module FederationMirror {
  import opened Text
  import opened Storage
  import opened Sync
  import opened Federation
  import opened FederationLosses
  import opened FederationRuns

  // ------------------------------------------------- runs that lose no write

  /** The record's writes are in time, every listing includes it, and storage
      gets to write it. */
  predicate Timely(w: World, e: Event, id: string) {
    && (e.Lands? && e.id == id ==> InTime(w, e.stamp))
    && (e.Lists? && id in w.rows ==> id in e.page)
    && (e.Applies? && Offer(w, id) != [] ==> id !in e.unwritten)
  }

  ghost predicate TimelyRun(w: World, events: seq<Event>, id: string)
    requires Runs(w, events)
    decreases |events|
  {
    events == [] || (Timely(w, events[0], id) && TimelyRun(Step(w, events[0]), events[1..], id))
  }

  /** The last write is copied, on its way, still to be listed, erased, or of a
      version that the table does not take. */
  predicate Coming(w: World, s: Story, id: string) {
    || UpToDate(s)
    || id !in w.rows
    || !Takes(w, id, w.rows[id].version)
    || (&& Fresh(w.rows[id], w.since)
        && var last := Offer(w, id) != [] && s.offered == |s.writes|;
           (w.pulling.Listed? ==> last) && (w.pulling.Answered? ==> last || w.rows[id].updatedAt > w.pulling.cursor))
  }

  lemma {:induction false} ComingStep(w: World, s: Story, e: Event, id: string)
    requires Ok(w, s, id) && Coming(w, s, id) && Enabled(w, e) && Timely(w, e, id)
    ensures Coming(Step(w, e), Tell(s, w, e, id), id)
  {
    if e.Lists? {
      ServedIff(w.rows, w.collection, e.page, w.since, id);
    } else if e.Applies? {
      AppliedAt(w, e.unwritten, id);
    }
  }

  lemma {:induction false} ComingRun(w: World, s: Story, events: seq<Event>, id: string)
    requires Ok(w, s, id) && Coming(w, s, id) && Runs(w, events) && TimelyRun(w, events, id)
    ensures Coming(Run(w, events), Told(s, w, events, id), id)
    decreases |events|
  {
    if events != [] {
      StepKeeps(w, s, events[0], id);
      ComingStep(w, s, events[0], id);
      ComingRun(Step(w, events[0]), Tell(s, w, events[0], id), events[1..], id);
    }
  }

  /** What the pulling instance has is what the serving one has. */
  predicate Agrees(w: World, id: string) {
    LocalData(w.table, Namespace(w.peerId), w.collection, id) == if id in w.rows then Some(w.rows[id].data) else None
  }

  /** After any run in which the record's writes were in time and storage got to write
      what was pulled, one more such pull of a collection within the limit: if the
      record is live, it is up to date exactly when it was before or the table
      takes its version; if it was deleted, the two agree exactly when there was no
      copy; and where they do not come to agree the local row stays as it was. */
  lemma {:induction false} TimelyPullMirrorsIff(w: World, s: Story, events: seq<Event>, page: seq<string>, unwritten: set<string>, id: string)
    requires Ok(w, s, id) && Coming(w, s, id) && Runs(w, events) && TimelyRun(w, events, id)
    requires Enabled(Run(w, events), Lists(page)) && |Run(w, events).rows| <= 1000 && id !in unwritten
    ensures
      var w1, s1 := Run(w, events), Told(s, w, events, id);
      var w2, s2 := Pulled(w1, page, unwritten), PulledStory(w1, s1, page, unwritten, id);
      if id in w1.rows
      then && (UpToDate(s2) <==> UpToDate(s1) || Takes(w1, id, w1.rows[id].version))
           && (UpToDate(s2) ==> Agrees(w2, id))
           && (!UpToDate(s2) ==> SameAt(w1.table, w2.table, id))
      else && (Agrees(w2, id) <==> !Owned(w1.table, Namespace(w1.peerId), w1.collection, id))
           && SameAt(w1.table, w2.table, id)
  {
    var w1, s1 := Run(w, events), Told(s, w, events, id);
    RunKeeps(w, s, events, id);
    ComingRun(w, s, events, id);
    PullReplacesIff(w1, page, unwritten, id);
    PullKeeps(w1, s1, page, unwritten, id);
    if id in w1.rows {
      WholePage(w1.rows, page, id);
      PullHidesIff(w1, s1, page, unwritten, id);
    }
  }

  /** The record has not been erased: its versions count its writes. */
  predicate Unerased(w: World, s: Story, id: string) {
    && (id in w.rows <==> s.writes != [])
    && (forall i | 0 <= i < |s.writes| :: s.writes[i].version == i + 1)
  }

  lemma {:induction false} UnerasedRun(w: World, s: Story, events: seq<Event>, id: string)
    requires Ok(w, s, id) && Unerased(w, s, id) && Runs(w, events) && Erases(id) !in events
    ensures Unerased(Run(w, events), Told(s, w, events, id), id)
    decreases |events|
  {
    if events != [] {
      StepKeeps(w, s, events[0], id);
      UnerasedRun(Step(w, events[0]), Tell(s, w, events[0], id), events[1..], id);
    }
  }

  /** No other local row holds the id, in any state of the run. */
  lemma {:induction false} StaysFree(w: World, s: Story, events: seq<Event>, id: string)
    requires Ok(w, s, id) && Runs(w, events) && Free(w.table, Namespace(w.peerId), w.collection, id)
    ensures var w' := Run(w, events); Free(w'.table, Namespace(w'.peerId), w'.collection, id)
    decreases |events|
  {
    if events != [] {
      var e := events[0];
      StepKeeps(w, s, e, id);
      if e.Applies? {
        AppliedAt(w, e.unwritten, id);
      }
      StaysFree(Step(w, e), Tell(s, w, e, id), events[1..], id);
    }
  }

  /** For a record that is not deleted and whose id no other local row holds: after
      any timely run, answers lost and cursors forgotten included, one more timely
      pull makes presence and data agree. */
  lemma {:induction false} TimelyPullMirrors(w: World, s: Story, events: seq<Event>, page: seq<string>, unwritten: set<string>, id: string)
    requires Ok(w, s, id) && Coming(w, s, id) && Unerased(w, s, id) && Free(w.table, Namespace(w.peerId), w.collection, id)
    requires Runs(w, events) && TimelyRun(w, events, id) && Erases(id) !in events
    requires Enabled(Run(w, events), Lists(page)) && |Run(w, events).rows| <= 1000 && id !in unwritten
    ensures Agrees(Pulled(Run(w, events), page, unwritten), id)
  {
    RunKeeps(w, s, events, id);
    UnerasedRun(w, s, events, id);
    StaysFree(w, s, events, id);
    TimelyPullMirrorsIff(w, s, events, page, unwritten, id);
  }

  // -------------------------------------------------------------- deletions

  predicate AllUpdates(changes: seq<Change>) {
    forall i | 0 <= i < |changes| :: changes[i].operation == Update
  }

  lemma {:induction false} ServedUpdates(rows: map<string, Stored>, collection: string, page: seq<string>, since: Option<int>)
    requires forall i | 0 <= i < |page| :: page[i] in rows
    ensures AllUpdates(Served(rows, collection, page, since))
  {
    if page != [] {
      ServedUpdates(rows, collection, page[1..], since);
    }
  }

  lemma {:induction false} UpdatesRemoveNothing(t: Table, ns: string, changes: seq<Change>, unwritten: set<string>)
    requires AllUpdates(changes)
    ensures t.Keys <= ApplyAll(t, ns, Kept(changes, unwritten)).Keys
    decreases |changes|
  {
    if changes != [] {
      var rest := Kept(changes[1..], unwritten);
      if changes[0].id in unwritten {
        assert Kept(changes, unwritten) == rest;
        UpdatesRemoveNothing(t, ns, changes[1..], unwritten);
      } else {
        assert Kept(changes, unwritten) == [changes[0]] + rest && ([changes[0]] + rest)[1..] == rest;
        UpdatesRemoveNothing(Apply(t, ns, changes[0]).table, ns, changes[1..], unwritten);
      }
    }
  }

  /** A row erased at the peer is never removed locally: no run removes a row. */
  lemma {:induction false} NothingIsRemoved(w: World, events: seq<Event>)
    requires Runs(w, events) && (w.pulling.Idle? || AllUpdates(w.pulling.changes))
    ensures w.table.Keys <= Run(w, events).table.Keys
    decreases |events|
  {
    if events != [] {
      var e := events[0];
      if e.Lists? {
        ServedUpdates(w.rows, w.collection, e.page, w.since);
      } else if e.Applies? {
        UpdatesRemoveNothing(w.table, Namespace(w.peerId), w.pulling.changes, e.unwritten);
      }
      NothingIsRemoved(Step(w, e), events[1..]);
    }
  }

  /** The number of writes to the record. */
  function Landings(events: seq<Event>, id: string): nat {
    if events == [] then 0 else (if events[0].Lands? && events[0].id == id then 1 else 0) + Landings(events[1..], id)
  }

  /** The record was erased and then written `n` times, and no pull under way
      brings anything older. */
  predicate Recreated(w: World, n: nat, id: string) {
    && (id in w.rows <==> n > 0) && (id in w.rows ==> w.rows[id].version == n)
    && (Offer(w, id) != [] ==> |Offer(w, id)| == 1 && Offer(w, id)[0].operation == Update && Offer(w, id)[0].data.Some?
                               && Offer(w, id)[0].version <= n)
    && OneCollection(w)
  }

  lemma {:induction false} RecreatedStep(w: World, n: nat, e: Event, id: string)
    requires Recreated(w, n, id) && Enabled(w, e) && e != Erases(id)
    ensures Recreated(Step(w, e), n + Landings([e], id), id)
    ensures (forall v: int | v <= n :: !Takes(w, id, v)) ==> SameAt(w.table, Step(w, e).table, id)
  {
    assert [e][1..] == [];
    if e.Lists? {
      ServedCollection(w.rows, w.collection, e.page, w.since);
      ServedIff(w.rows, w.collection, e.page, w.since, id);
    } else if e.Applies? {
      AppliedAt(w, e.unwritten, id);
    }
  }

  lemma {:induction false} RecreatedRun(w: World, n: nat, events: seq<Event>, id: string)
    requires Recreated(w, n, id) && Runs(w, events) && Erases(id) !in events
    requires Owned(w.table, Namespace(w.peerId), w.collection, id) && n + Landings(events, id) <= w.table[id].version
    ensures SameAt(w.table, Run(w, events).table, id)
    decreases |events|
  {
    if events != [] {
      var e, w' := events[0], Step(w, events[0]);
      assert [e][1..] == [];
      RecreatedStep(w, n, e, id);
      RecreatedRun(w', n + Landings([e], id), events[1..], id);
      SameAtTransitive(w.table, w'.table, Run(w, events).table, id);
    }
  }

  /** A copied record that the peer erases and creates anew starts at version 1
      again: through any run of pulls, failures and restarts the old copy stays as
      long as the writes since are no more than the local version. */
  lemma {:induction false} RecreatedIsIgnored(w: World, events: seq<Event>, id: string)
    requires w.pulling.Idle? && id in w.rows && Owned(w.table, Namespace(w.peerId), w.collection, id)
    requires Runs(Step(w, Erases(id)), events) && Erases(id) !in events
    requires Landings(events, id) <= w.table[id].version
    ensures SameAt(w.table, Run(Step(w, Erases(id)), events).table, id)
  {
    RecreatedRun(Step(w, Erases(id)), 0, events, id);
  }

  lemma {:induction false} RecreatedRows(w: World, n: nat, events: seq<Event>, id: string)
    requires Recreated(w, n, id) && Runs(w, events) && forall i | 0 <= i < |events| :: !events[i].Applies? && events[i] != Erases(id)
    ensures
      var w' := Run(w, events);
      Recreated(w', n + Landings(events, id), id) && w'.table == w.table && w'.peerId == w.peerId && w'.collection == w.collection
    decreases |events|
  {
    if events != [] {
      var e := events[0];
      assert [e][1..] == [];
      RecreatedStep(w, n, e, id);
      RecreatedRows(Step(w, e), n + Landings([e], id), events[1..], id);
    }
  }

  /** The next pull then replaces the copy exactly when it lists the record, the
      last write is stamped after the cursor, storage gets to write it, and the writes
      since the deletion outnumber the local version. */
  lemma {:induction false} RecreatedIsCopiedIff(w: World, events: seq<Event>, page: seq<string>, unwritten: set<string>, id: string)
    requires w.pulling.Idle? && id in w.rows && Owned(w.table, Namespace(w.peerId), w.collection, id)
    requires Runs(Step(w, Erases(id)), events) && forall i | 0 <= i < |events| :: !events[i].Applies? && events[i] != Erases(id)
    requires Enabled(Run(Step(w, Erases(id)), events), Lists(page))
    ensures
      var w1 := Run(Step(w, Erases(id)), events);
      !SameAt(w.table, Pulled(w1, page, unwritten).table, id)
      <==> id in page && Fresh(w1.rows[id], w1.since) && id !in unwritten && Landings(events, id) > w.table[id].version
  {
    RecreatedRows(Step(w, Erases(id)), 0, events, id);
    PullReplacesIff(Run(Step(w, Erases(id)), events), page, unwritten, id);
  }

  // --------------------------------------------- the loop's own pull is a pull

  function Endpoint(w: World, page: seq<string>, parse: string -> Option<int>, show: int -> string): Peer
    requires forall i | 0 <= i < |page| :: page[i] in w.rows
  {
    (collection: string, since: string) =>
      if collection == w.collection then ServeChanges(w.rows, w.collection, page, since, w.clock, parse, show) else None
  }

  /** The changes, from position `k` on, that storage does not get to write are those
      of the `unwritten` records. */
  predicate Unwritten(changes: seq<Change>, calls: Mishaps, k: nat, unwritten: set<string>) {
    forall i: nat | i < |changes| :: Prevented(changes[i], calls(k + i)) <==> changes[i].id in unwritten
  }

  lemma {:induction false} SparedIsKept(changes: seq<Change>, calls: Mishaps, k: nat, unwritten: set<string>)
    requires Unwritten(changes, calls, k, unwritten)
    ensures Spared(changes, calls, k) == Kept(changes, unwritten)
  {
    if changes != [] {
      assert Prevented(changes[0], calls(k + 0)) <==> changes[0].id in unwritten;
      forall i: nat | i < |changes[1..]| ensures Prevented(changes[1..][i], calls(k + 1 + i)) <==> changes[1..][i].id in unwritten {
        assert Prevented(changes[i + 1], calls(k + (i + 1))) <==> changes[i + 1].id in unwritten;
      }
      SparedIsKept(changes[1..], calls, k + 1, unwritten);
    }
  }

  /** One turn of the pull loop against the endpoint, with the `unwritten` records not
      written, is listing, cursor and applying; the cursor comes back as the text
      that the endpoint can read. */
  lemma {:induction false} PullOneIsPulled(w: World, p: Progress, page: seq<string>, parse: string -> Option<int>, show: int -> string,
                                           calls: Mishaps, unwritten: set<string>)
    requires Enabled(w, Lists(page)) && p.table == w.table
    requires forall n :: show(n) != "" && parse(show(n)) == Some(n)
    requires GetCursor(p.cursors, w.peerId, w.collection) == if w.since.None? then None else Some(show(w.since.value))
    requires Unwritten(Served(w.rows, w.collection, page, w.since), calls, 0, unwritten)
    ensures
      var p' := PullOne(p, w.peerId, w.collection, Endpoint(w, page, parse, show), calls);
      && p'.table == Pulled(w, page, unwritten).table
      && GetCursor(p'.cursors, w.peerId, w.collection) == Some(show(w.clock))
      && Pulled(w, page, unwritten).since == Some(w.clock)
  {
    assert show(w.clock) != "";
    if w.since.Some? {
      var n := w.since.value;
      assert show(n) != "" && parse(show(n)) == Some(n);
    }
    SparedIsKept(Served(w.rows, w.collection, page, w.since), calls, 0, unwritten);
  }

  /** A note written between the listing and its cursor: the pull that misses it
      moves the cursor past it. */
  lemma {:induction false} NoteIsLost(data: string)
    ensures
      var w := World("p", "notes", 0, map[], map[], None, Idle);
      var events := [Lists([]), Lands("n", data, 0), Answers, Applies({})];
      && Runs(w, events)
      && var w' := Run(w, events);
         w'.rows == map["n" := Stored(data, 1, 0)] && w'.table == map[] && !Fresh(w'.rows["n"], w'.since)
  {
    var w := World("p", "notes", 0, map[], map[], None, Idle);
    var e1, e2, e3, e4 := Lists([]), Lands("n", data, 0), Answers, Applies({});
    var w1 := Step(w, e1);
    var w2 := Step(w1, e2);
    var w3 := Step(w2, e3);
    var w4 := Step(w3, e4);
    assert Runs(w4, []) && Run(w4, []) == w4;
    RunsOne(w3, e4, []);
    RunsOne(w2, e3, [e4]);
    RunsOne(w1, e2, [e3, e4]);
    RunsOne(w, e1, [e2, e3, e4]);
    assert [e1] + [e2, e3, e4] == [e1, e2, e3, e4] && [e2] + [e3, e4] == [e2, e3, e4];
    assert [e3] + [e4] == [e3, e4] && [e4] + [] == [e4];
  }

  lemma {:induction false} RunsOne(w: World, e: Event, rest: seq<Event>)
    requires Enabled(w, e) && Runs(Step(w, e), rest)
    ensures Runs(w, [e] + rest) && Run(w, [e] + rest) == Run(Step(w, e), rest)
  {
    assert ([e] + rest)[1..] == rest;
  }
}
