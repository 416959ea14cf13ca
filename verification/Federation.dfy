/** Pull-based federation: batches of changes from a peer, applied to the peer's
    own namespace, with one cursor per peer and collection. */
module Federation {
  import opened Text
  import opened Storage
  import opened Sync

  function Namespace(peerId: string): string { "federation:" + peerId }

  // ------------------------------------------------------------ the pull loop

  type Cursors = map<string, map<string, string>>

  function GetCursor(cs: Cursors, source: string, collection: string): Option<string> {
    if source in cs && collection in cs[source] then Some(cs[source][collection]) else None
  }

  function SetCursor(cs: Cursors, source: string, collection: string, cursor: string): (r: Cursors)
    ensures forall s, c :: GetCursor(r, s, c) == if s == source && c == collection then Some(cursor) else GetCursor(cs, s, c)
  {
    cs[source := (if source in cs then cs[source] else map[])[collection := cursor]]
  }

  class FederationStore {
    var cursors: Cursors

    method CursorFor(peerId: string, collection: string) returns (cursor: string)
      ensures cursor == GetCursor(cursors, peerId, collection).GetOr("")
    {
      cursor := if peerId in cursors && collection in cursors[peerId] then cursors[peerId][collection] else "";
    }

    method StoreCursor(peerId: string, collection: string, cursor: string)
      modifies this
      ensures cursors == SetCursor(old(cursors), peerId, collection, cursor)
    {
      var inner := if peerId in cursors then cursors[peerId] else map[];
      cursors := cursors[peerId := inner[collection := cursor]];
    }
  }

  datatype Pull = Pull(changes: seq<Change>, cursor: string)

  /** What the peer answers for a collection and cursor; `None` stands for an
      unreachable peer, an error status or an unreadable response. */
  type Peer = (string, string) -> Option<Pull>

  datatype Progress = Progress(table: Table, cursors: Cursors, pulled: nat, conflicts: nat, synced: seq<string>)

  /** The number of changes that fail as the batch is applied in order. */
  function Conflicts(t: Table, ns: string, changes: seq<Change>): nat
    decreases |changes|
  {
    if changes == [] then 0 else
    var a := Apply(t, ns, changes[0]);
    (if a.ok then 0 else 1) + Conflicts(a.table, ns, changes[1..])
  }

  /** What becomes of the storage calls at each position of a batch. */
  type Mishaps = nat -> Calls

  /** The changes, of a batch from position `k` on, that storage gets to write. */
  function Spared(changes: seq<Change>, calls: Mishaps, k: nat): seq<Change> {
    if changes == [] then []
    else if Prevented(changes[0], calls(k)) then Spared(changes[1..], calls, k + 1)
    else [changes[0]] + Spared(changes[1..], calls, k + 1)
  }

  /** The number of changes that report an error, written or not. */
  function Errors(t: Table, ns: string, changes: seq<Change>, calls: Mishaps, k: nat): nat
    decreases |changes|
  {
    if changes == [] then 0 else
    var a := ApplyWith(t, ns, changes[0], calls(k));
    (if a.ok then 0 else 1) + Errors(a.table, ns, changes[1..], calls, k + 1)
  }

  /** Without mishaps the errors are the conflicts. */
  lemma {:induction false} SmoothErrors(t: Table, ns: string, changes: seq<Change>, calls: Mishaps, k: nat)
    requires forall i: nat :: calls(i) == SMOOTH
    ensures Spared(changes, calls, k) == changes && Errors(t, ns, changes, calls, k) == Conflicts(t, ns, changes)
    decreases |changes|
  {
    if changes != [] {
      assert calls(k) == SMOOTH;
      SmoothApply(t, ns, changes[0]);
      SmoothErrors(Apply(t, ns, changes[0]).table, ns, changes[1..], calls, k + 1);
      assert changes == [changes[0]] + changes[1..];
    }
  }

  /** One pull. A change that reports an error counts as a conflict, and the cursor
      moves on all the same. */
  function PullOne(s: Progress, peerId: string, collection: string, peer: Peer, calls: Mishaps): Progress {
    match peer(collection, GetCursor(s.cursors, peerId, collection).GetOr(""))
    case None => s
    case Some(p) =>
      Progress(
        ApplyAll(s.table, Namespace(peerId), Spared(p.changes, calls, 0)),
        if p.cursor == "" then s.cursors else SetCursor(s.cursors, peerId, collection, p.cursor),
        s.pulled + |p.changes|,
        s.conflicts + Errors(s.table, Namespace(peerId), p.changes, calls, 0),
        s.synced + [collection])
  }

  /** `down` gives the mishaps of each turn of the loop. */
  function PullAll(s: Progress, peerId: string, collections: seq<string>, peer: Peer, down: nat -> Mishaps): Progress {
    if collections == [] then s
    else
      var n := |collections| - 1;
      PullOne(PullAll(s, peerId, collections[..n], peer, down), peerId, collections[n], peer, down(n))
  }

  /** The configured collections that the optional filter admits, in order. */
  function Selected(configured: seq<string>, filter: Option<seq<string>>): seq<string> {
    if configured == [] then []
    else (if filter.None? || configured[0] in filter.value then [configured[0]] else []) + Selected(configured[1..], filter)
  }

  datatype SyncResult = SyncResult(synced: seq<string>, pulled: nat, conflicts: nat, success: bool)

  /** Applies the batch in order; a change that storage does not get to write leaves
      the table alone, and every error counts, also one that follows the write. */
  method ApplyBatch(storage: StorageAdapter, peerId: string, changes: seq<Change>, calls: Mishaps) returns (conflicts: nat)
    modifies storage
    ensures storage.rows == ApplyAll(old(storage.rows), Namespace(peerId), Spared(changes, calls, 0))
    ensures conflicts == Errors(old(storage.rows), Namespace(peerId), changes, calls, 0)
  {
    ghost var ns := Namespace(peerId);
    ghost var goal, total := ApplyAll(storage.rows, ns, Spared(changes, calls, 0)), Errors(storage.rows, ns, changes, calls, 0);
    conflicts := 0;
    var i := 0;
    assert changes[0..] == changes;
    while i < |changes|
      invariant 0 <= i <= |changes|
      invariant ApplyAll(storage.rows, ns, Spared(changes[i..], calls, i)) == goal
      invariant conflicts + Errors(storage.rows, ns, changes[i..], calls, i) == total
    {
      assert changes[i..][1..] == changes[i + 1..];
      ghost var rest := Spared(changes[i + 1..], calls, i + 1);
      assert ([changes[i]] + rest)[1..] == rest;
      var ok := ApplyChange(storage, Namespace(peerId), changes[i], calls(i));
      if !ok {
        conflicts := conflicts + 1;
      }
      i := i + 1;
    }
  }

  lemma {:induction false} SelectStep(configured: seq<string>, filter: Option<seq<string>>, k: nat)
    requires k < |configured|
    ensures
      var chosen := filter.None? || configured[k] in filter.value;
      && (chosen ==> Selected(configured[k..], filter) == [configured[k]] + Selected(configured[k + 1..], filter))
      && (!chosen ==> Selected(configured[k..], filter) == Selected(configured[k + 1..], filter))
  {
    assert configured[k..][1..] == configured[k + 1..];
  }

  method SelectCollections(configured: seq<string>, filter: Option<seq<string>>) returns (colls: seq<string>)
    ensures colls == Selected(configured, filter)
  {
    colls := [];
    var k := 0;
    ghost var rest := Selected(configured, filter);
    assert configured[0..] == configured;
    while k < |configured|
      invariant 0 <= k <= |configured|
      invariant rest == Selected(configured[k..], filter)
      invariant colls + rest == Selected(configured, filter)
    {
      SelectStep(configured, filter, k);
      if filter.None? || configured[k] in filter.value {
        colls := colls + [configured[k]];
      }
      k := k + 1;
      rest := Selected(configured[k..], filter);
    }
    assert colls + [] == colls;
  }

  /** One turn of the loop over the collections. */
  method PullCollection(store: FederationStore, storage: StorageAdapter, peerId: string, collection: string, peer: Peer,
                        calls: Mishaps, r0: SyncResult)
    returns (r: SyncResult)
    modifies store, storage
    ensures
      var done := PullOne(Progress(old(storage.rows), old(store.cursors), r0.pulled, r0.conflicts, r0.synced), peerId, collection, peer, calls);
      && storage.rows == done.table && store.cursors == done.cursors
      && r == SyncResult(done.synced, done.pulled, done.conflicts, r0.success)
  {
    r := r0;
    var cursor := store.CursorFor(peerId, collection);
    var answer := peer(collection, cursor);
    if answer.Some? {
      var n := ApplyBatch(storage, peerId, answer.value.changes, calls);
      r := r.(conflicts := r.conflicts + n, pulled := r.pulled + |answer.value.changes|, synced := r.synced + [collection]);
      if answer.value.cursor != "" {
        store.StoreCursor(peerId, collection, answer.value.cursor);
      }
    }
  }

  // ---------------------------------------- what a sync does, from the answers

  /** What the peer answers for a collection, asked with the cursor of the start. */
  function AnswerFor(cs: Cursors, peerId: string, collection: string, peer: Peer): Option<Pull> {
    peer(collection, if peerId in cs && collection in cs[peerId] then cs[peerId][collection] else "")
  }

  predicate NoRepeats(colls: seq<string>) {
    forall i, j | 0 <= i < j < |colls| :: colls[i] != colls[j]
  }

  /** The changes of all answers, in the order of the collections, that storage gets
      to write. */
  function AllBatches(cs: Cursors, peerId: string, colls: seq<string>, peer: Peer, down: nat -> Mishaps): seq<Change> {
    if colls == [] then [] else
    var n := |colls| - 1;
    var answer := AnswerFor(cs, peerId, colls[n], peer);
    AllBatches(cs, peerId, colls[..n], peer, down) + if answer.Some? then Spared(answer.value.changes, down(n), 0) else []
  }

  /** The number of changes in all answers. */
  function AllPulled(cs: Cursors, peerId: string, colls: seq<string>, peer: Peer): nat {
    if colls == [] then 0 else
    var answer := AnswerFor(cs, peerId, colls[|colls| - 1], peer);
    AllPulled(cs, peerId, colls[..|colls| - 1], peer) + if answer.Some? then |answer.value.changes| else 0
  }

  /** The number of changes that report an error, each batch on what the earlier ones
      left. */
  function AllErrors(t: Table, cs: Cursors, peerId: string, colls: seq<string>, peer: Peer, down: nat -> Mishaps): nat {
    if colls == [] then 0 else
    var n := |colls| - 1;
    var answer := AnswerFor(cs, peerId, colls[n], peer);
    AllErrors(t, cs, peerId, colls[..n], peer, down) +
      if answer.None? then 0
      else Errors(ApplyAll(t, Namespace(peerId), AllBatches(cs, peerId, colls[..n], peer, down)), Namespace(peerId), answer.value.changes, down(n), 0)
  }

  /** Reported are exactly the collections that the peer answers for, once each. */
  ghost predicate ReportsEach(cs: Cursors, peerId: string, colls: seq<string>, peer: Peer, synced: seq<string>) {
    NoRepeats(synced) && forall c :: c in synced <==> c in colls && AnswerFor(cs, peerId, c, peer).Some?
  }

  /** The cursor of a collection is the answer's, unless there is none or it is empty;
      every other cursor stays. */
  ghost predicate MovesCursors(cs: Cursors, peerId: string, colls: seq<string>, peer: Peer, cs': Cursors) {
    forall p, c :: GetCursor(cs', p, c) ==
      if p == peerId && c in colls && AnswerFor(cs, peerId, c, peer).Some? && AnswerFor(cs, peerId, c, peer).value.cursor != ""
      then Some(AnswerFor(cs, peerId, c, peer).value.cursor) else GetCursor(cs, p, c)
  }

  /** A sync of distinct collections. Each is pulled whatever becomes of the others;
      the totals are sums over the answers, and the table has every answered batch. */
  ghost predicate PullsEach(t: Table, cs: Cursors, peerId: string, colls: seq<string>, peer: Peer, down: nat -> Mishaps, done: Progress) {
    && ReportsEach(cs, peerId, colls, peer, done.synced)
    && MovesCursors(cs, peerId, colls, peer, done.cursors)
    && done.pulled == AllPulled(cs, peerId, colls, peer)
    && done.conflicts == AllErrors(t, cs, peerId, colls, peer, down)
    && done.table == ApplyAll(t, Namespace(peerId), AllBatches(cs, peerId, colls, peer, down))
  }

  lemma {:induction false} EachIsPulled(t: Table, cs: Cursors, peerId: string, colls: seq<string>, peer: Peer, down: nat -> Mishaps)
    requires NoRepeats(colls)
    ensures PullsEach(t, cs, peerId, colls, peer, down, PullAll(Progress(t, cs, 0, 0, []), peerId, colls, peer, down))
  {
    if colls != [] {
      var n := |colls| - 1;
      EachIsPulled(t, cs, peerId, colls[..n], peer, down);
      var mid := PullAll(Progress(t, cs, 0, 0, []), peerId, colls[..n], peer, down);
      LastIsNew(colls);
      assert AnswerFor(cs, peerId, colls[n], peer) == peer(colls[n], GetCursor(mid.cursors, peerId, colls[n]).GetOr(""));
      NextIsReported(mid, cs, peerId, colls, peer, down);
      NextMovesCursor(mid, cs, peerId, colls, peer, down);
      NextIsCounted(mid, t, cs, peerId, colls, peer, down);
    }
  }

  lemma {:induction false} LastIsNew(colls: seq<string>)
    requires NoRepeats(colls) && colls != []
    ensures colls[|colls| - 1] !in colls[..|colls| - 1] && NoRepeats(colls[..|colls| - 1])
    ensures forall c :: c in colls <==> c in colls[..|colls| - 1] || c == colls[|colls| - 1]
  {
    assert forall i | 0 <= i < |colls| - 1 :: colls[..|colls| - 1][i] == colls[i];
  }

  /** The next collection is asked with the cursor of the start. */
  predicate AsksFromStart(mid: Progress, cs: Cursors, peerId: string, c: string, peer: Peer) {
    AnswerFor(cs, peerId, c, peer) == peer(c, GetCursor(mid.cursors, peerId, c).GetOr(""))
  }

  lemma {:induction false} NextIsReported(mid: Progress, cs: Cursors, peerId: string, colls: seq<string>, peer: Peer, down: nat -> Mishaps)
    requires NoRepeats(colls) && colls != [] && AsksFromStart(mid, cs, peerId, colls[|colls| - 1], peer)
    requires ReportsEach(cs, peerId, colls[..|colls| - 1], peer, mid.synced)
    ensures ReportsEach(cs, peerId, colls, peer, PullOne(mid, peerId, colls[|colls| - 1], peer, down(|colls| - 1)).synced)
  {
    LastIsNew(colls);
  }

  lemma {:induction false} NextMovesCursor(mid: Progress, cs: Cursors, peerId: string, colls: seq<string>, peer: Peer, down: nat -> Mishaps)
    requires NoRepeats(colls) && colls != [] && AsksFromStart(mid, cs, peerId, colls[|colls| - 1], peer)
    requires MovesCursors(cs, peerId, colls[..|colls| - 1], peer, mid.cursors)
    ensures MovesCursors(cs, peerId, colls, peer, PullOne(mid, peerId, colls[|colls| - 1], peer, down(|colls| - 1)).cursors)
  {
    LastIsNew(colls);
  }

  lemma {:induction false} NextIsCounted(mid: Progress, t: Table, cs: Cursors, peerId: string, colls: seq<string>, peer: Peer, down: nat -> Mishaps)
    requires colls != [] && AsksFromStart(mid, cs, peerId, colls[|colls| - 1], peer)
    requires
      var before := colls[..|colls| - 1];
      && mid.pulled == AllPulled(cs, peerId, before, peer) && mid.conflicts == AllErrors(t, cs, peerId, before, peer, down)
      && mid.table == ApplyAll(t, Namespace(peerId), AllBatches(cs, peerId, before, peer, down))
    ensures
      var done := PullOne(mid, peerId, colls[|colls| - 1], peer, down(|colls| - 1));
      && done.pulled == AllPulled(cs, peerId, colls, peer) && done.conflicts == AllErrors(t, cs, peerId, colls, peer, down)
      && done.table == ApplyAll(t, Namespace(peerId), AllBatches(cs, peerId, colls, peer, down))
  {
    var n := |colls| - 1;
    var answer := AnswerFor(cs, peerId, colls[n], peer);
    var before := AllBatches(cs, peerId, colls[..n], peer, down);
    if answer.Some? {
      ApplyAllConcat(t, Namespace(peerId), before, Spared(answer.value.changes, down(n), 0));
    } else {
      assert before + [] == before;
    }
  }

  /** The loop over the collections. */
  method PullCollections(store: FederationStore, storage: StorageAdapter, peerId: string, colls: seq<string>, peer: Peer, down: nat -> Mishaps)
    returns (r: SyncResult)
    modifies store, storage
    ensures Progress(storage.rows, store.cursors, r.pulled, r.conflicts, r.synced)
         == PullAll(Progress(old(storage.rows), old(store.cursors), 0, 0, []), peerId, colls, peer, down)
    ensures r.success
  {
    ghost var start := Progress(storage.rows, store.cursors, 0, 0, []);
    r := SyncResult([], 0, 0, true);
    var i := 0;
    while i < |colls|
      invariant 0 <= i <= |colls|
      invariant Progress(storage.rows, store.cursors, r.pulled, r.conflicts, r.synced) == PullAll(start, peerId, colls[..i], peer, down)
      invariant r.success
    {
      assert colls[..i + 1][..i] == colls[..i];
      r := PullCollection(store, storage, peerId, colls[i], peer, down(i), r);
      i := i + 1;
    }
    assert colls[..i] == colls;
  }

  /** `sync_with_peer`: `clientOk` says whether the mutual-TLS client was built. */
  method SyncWithPeer(store: FederationStore, storage: StorageAdapter, peerId: string, configured: seq<string>,
                      filter: Option<seq<string>>, clientOk: bool, peer: Peer, down: nat -> Mishaps) returns (r: SyncResult)
    modifies store, storage
    ensures
      var done := Progress(storage.rows, store.cursors, r.pulled, r.conflicts, r.synced);
      var colls := Selected(configured, filter);
      && (clientOk ==> done == PullAll(Progress(old(storage.rows), old(store.cursors), 0, 0, []), peerId, colls, peer, down))
      && (clientOk && NoRepeats(colls) ==> PullsEach(old(storage.rows), old(store.cursors), peerId, colls, peer, down, done))
      && (!clientOk ==> done == Progress(old(storage.rows), old(store.cursors), 0, 0, []))
      && r.success == (clientOk || colls == [])
  {
    var colls := SelectCollections(configured, filter);
    ghost var t, cs := storage.rows, store.cursors;
    if colls == [] {
      r := SyncResult([], 0, 0, true);
    } else if !clientOk {
      r := SyncResult([], 0, 0, false);
    } else {
      r := PullCollections(store, storage, peerId, colls, peer, down);
    }
    if NoRepeats(colls) {
      EachIsPulled(t, cs, peerId, colls, peer, down);
    }
  }

  /** The selection keeps the order and, of each configured collection, every place,
      exactly when there is no filter or the filter names it. */
  lemma {:induction false} SelectedAppends(configured: seq<string>, c: string, filter: Option<seq<string>>)
    ensures Selected(configured + [c], filter) == Selected(configured, filter) + if filter.None? || c in filter.value then [c] else []
    ensures Selected([], filter) == []
  {
    if configured == [] {
      assert configured + [c] == [c] && [c][1..] == [];
    } else {
      assert (configured + [c])[1..] == configured[1..] + [c];
      SelectedAppends(configured[1..], c, filter);
    }
  }

  /** Peers have namespaces of their own, told from every plugin by the prefix. */
  lemma {:induction false} NamespaceIsOwn(p: string, q: string)
    ensures Namespace(p) == Namespace(q) ==> p == q
    ensures "federation:" <= Namespace(p)
  {
    assert Namespace(p)[11..] == p && Namespace(q)[11..] == q;
  }

  /** Applying the change at this position to what the earlier ones left reports an
      error. */
  predicate ErrsAt(t: Table, ns: string, changes: seq<Change>, calls: Mishaps, i: nat) {
    i < |changes| && !ApplyWith(ApplyAll(t, ns, Spared(changes[..i], calls, 0)), ns, changes[i], calls(i)).ok
  }

  function ErrorsAt(t: Table, ns: string, changes: seq<Change>, calls: Mishaps): set<nat> {
    set i: nat | i < |changes| && ErrsAt(t, ns, changes, calls, i)
  }

  lemma {:induction false} SparedAppends(a: seq<Change>, c: Change, calls: Mishaps, k: nat)
    ensures Spared(a + [c], calls, k) == Spared(a, calls, k) + if Prevented(c, calls(k + |a|)) then [] else [c]
  {
    if a == [] {
      assert a + [c] == [c] && [c][1..] == [];
    } else {
      assert (a + [c])[1..] == a[1..] + [c];
      SparedAppends(a[1..], c, calls, k + 1);
    }
  }

  lemma {:induction false} ErrorsAppends(t: Table, ns: string, a: seq<Change>, c: Change, calls: Mishaps, k: nat)
    ensures Errors(t, ns, a + [c], calls, k)
         == Errors(t, ns, a, calls, k) + if ApplyWith(ApplyAll(t, ns, Spared(a, calls, k)), ns, c, calls(k + |a|)).ok then 0 else 1
    decreases |a|
  {
    if a == [] {
      assert a + [c] == [c] && [c][1..] == [];
    } else {
      assert (a + [c])[1..] == a[1..] + [c];
      var t' := ApplyWith(t, ns, a[0], calls(k)).table;
      ErrorsAppends(t', ns, a[1..], c, calls, k + 1);
      SparedHead(t, ns, a, calls, k);
    }
  }

  lemma {:induction false} SparedHead(t: Table, ns: string, a: seq<Change>, calls: Mishaps, k: nat)
    requires a != []
    ensures ApplyAll(t, ns, Spared(a, calls, k)) == ApplyAll(ApplyWith(t, ns, a[0], calls(k)).table, ns, Spared(a[1..], calls, k + 1))
  {
    var rest := Spared(a[1..], calls, k + 1);
    assert ([a[0]] + rest)[1..] == rest;
  }

  lemma {:induction false} ErrsAtPrefix(t: Table, ns: string, changes: seq<Change>, calls: Mishaps, n: nat, i: nat)
    requires i < n <= |changes|
    ensures ErrsAt(t, ns, changes[..n], calls, i) <==> ErrsAt(t, ns, changes, calls, i)
  {
    assert changes[..n][..i] == changes[..i];
  }

  lemma {:induction false} OneMore(a: set<nat>, b: set<nat>, n: nat, more: bool)
    requires n !in a && forall i: nat :: i in b <==> i in a || (more && i == n)
    ensures |b| == |a| + if more then 1 else 0
  {
    assert b == a + if more then {n} else {};
  }

  lemma {:induction false} OneMoreError(t: Table, ns: string, changes: seq<Change>, calls: Mishaps, n: nat)
    requires n + 1 == |changes|
    ensures |ErrorsAt(t, ns, changes, calls)| == |ErrorsAt(t, ns, changes[..n], calls)| + if ErrsAt(t, ns, changes, calls, n) then 1 else 0
  {
    var a, b, more := ErrorsAt(t, ns, changes[..n], calls), ErrorsAt(t, ns, changes, calls), ErrsAt(t, ns, changes, calls, n);
    forall i: nat ensures i in b <==> i in a || (more && i == n) {
      if i < n {
        ErrsAtPrefix(t, ns, changes, calls, n, i);
      }
    }
    OneMore(a, b, n, more);
  }

  /** The errors of a batch, counted as it is applied, are its positions that report
      one. */
  lemma {:induction false} ErrorsCounted(t: Table, ns: string, changes: seq<Change>, calls: Mishaps)
    ensures Errors(t, ns, changes, calls, 0) == |ErrorsAt(t, ns, changes, calls)|
  {
    if changes != [] {
      var n := |changes| - 1;
      ErrorsCounted(t, ns, changes[..n], calls);
      assert changes[..n] + [changes[n]] == changes;
      ErrorsAppends(t, ns, changes[..n], changes[n], calls, 0);
      OneMoreError(t, ns, changes, calls, n);
    }
  }

  // ---------------------------------------------------------------- isolation

  /** Rows of every plugin other than `ns` are the same in both tables. */
  ghost predicate SameOutside(t: Table, u: Table, ns: string) {
    && (forall id | id in t && t[id].pluginId != ns :: id in u && u[id] == t[id])
    && (forall id | id in u && u[id].pluginId != ns :: id in t && t[id] == u[id])
  }

  lemma {:induction false} BatchStaysInNamespace(t: Table, ns: string, changes: seq<Change>)
    ensures SameOutside(t, ApplyAll(t, ns, changes), ns)
    decreases |changes|
  {
    if changes != [] {
      var t' := Apply(t, ns, changes[0]).table;
      ChangeStaysInNamespace(t, ns, changes[0]);
      BatchStaysInNamespace(t', ns, changes[1..]);
      SameOutsideTransitive(t, t', ApplyAll(t, ns, changes), ns);
    }
  }

  lemma {:induction false} ChangeStaysInNamespace(t: Table, ns: string, c: Change)
    ensures SameOutside(t, Apply(t, ns, c).table, ns)
  {
  }

  lemma {:induction false} SameOutsideTransitive(t: Table, u: Table, v: Table, ns: string)
    requires SameOutside(t, u, ns) && SameOutside(u, v, ns)
    ensures SameOutside(t, v, ns)
  {
  }

  /** A whole sync, whatever the peer answers and whichever storage calls fail,
      touches no row outside the peer's namespace and no cursor of another peer or
      unselected collection, and reports a collection as synced exactly when its
      pull succeeded. */
  lemma {:induction false} SyncIsIsolated(s: Progress, peerId: string, collections: seq<string>, peer: Peer, down: nat -> Mishaps)
    ensures
      var done := PullAll(s, peerId, collections, peer, down);
      && SameOutside(s.table, done.table, Namespace(peerId))
      && (forall p, c | p != peerId || c !in collections :: GetCursor(done.cursors, p, c) == GetCursor(s.cursors, p, c))
      && s.synced <= done.synced && (forall c | c in done.synced[|s.synced|..] :: c in collections)
      && (forall c | c in collections && c !in done.synced[|s.synced|..] :: GetCursor(done.cursors, peerId, c) == GetCursor(s.cursors, peerId, c))
  {
    if collections != [] {
      var n := |collections| - 1;
      SyncIsIsolated(s, peerId, collections[..n], peer, down);
      var mid := PullAll(s, peerId, collections[..n], peer, down);
      var answer := peer(collections[n], GetCursor(mid.cursors, peerId, collections[n]).GetOr(""));
      if answer.Some? {
        BatchStaysInNamespace(mid.table, Namespace(peerId), Spared(answer.value.changes, down(n), 0));
        var done := PullAll(s, peerId, collections, peer, down);
        assert done.synced[|s.synced|..] == mid.synced[|s.synced|..] + [collections[n]];
      }
      assert forall c :: c in collections <==> c in collections[..n] || c == collections[n];
    }
  }

  // ------------------------------------------------- one record out of a batch

  /** The changes of one record, in order. */
  function Of(log: seq<Change>, collection: string, id: string): seq<Change> {
    if log == [] then [] else
    (if log[0].id == id && log[0].collection == collection then [log[0]] else []) + Of(log[1..], collection, id)
  }

  /** No change gives the id in another collection: ids are unique in the table. */
  predicate Uncontested(log: seq<Change>, collection: string, id: string) {
    forall i | 0 <= i < |log| :: log[i].id == id ==> log[i].collection == collection
  }

  predicate SameAt(t: Table, u: Table, id: string) {
    (id in t <==> id in u) && (id in t ==> t[id] == u[id])
  }

  lemma {:induction false} OfConcat(a: seq<Change>, b: seq<Change>, collection: string, id: string)
    ensures Of(a + b, collection, id) == Of(a, collection, id) + Of(b, collection, id)
  {
    if a == [] {
      assert a + b == b;
    } else {
      assert (a + b)[1..] == a[1..] + b;
      OfConcat(a[1..], b, collection, id);
      var head := if a[0].id == id && a[0].collection == collection then [a[0]] else [];
      assert Of(a + b, collection, id) == head + (Of(a[1..], collection, id) + Of(b, collection, id));
      assert Of(a, collection, id) == head + Of(a[1..], collection, id);
    }
  }

  lemma {:induction false} ApplyAt(t: Table, u: Table, ns: string, c: Change)
    requires SameAt(t, u, c.id)
    ensures SameAt(Apply(t, ns, c).table, Apply(u, ns, c).table, c.id)
  {
  }

  lemma {:induction false} ApplyElsewhere(t: Table, ns: string, c: Change, id: string)
    requires c.id != id
    ensures SameAt(t, Apply(t, ns, c).table, id)
  {
  }

  lemma {:induction false} MirrorsAt(t: Table, u: Table, ns: string, collection: string, id: string, log: seq<Change>)
    requires SameAt(t, u, id) && Mirrors(t, ns, collection, id, log)
    ensures Mirrors(u, ns, collection, id, log)
  {
  }

  lemma {:induction false} SameAtTransitive(t: Table, u: Table, v: Table, id: string)
    requires SameAt(t, u, id) && SameAt(u, v, id)
    ensures SameAt(t, v, id)
  {
  }

  /** A record sees only its own changes. */
  lemma {:induction false} BatchProjects(t: Table, u: Table, ns: string, log: seq<Change>, collection: string, id: string)
    requires Uncontested(log, collection, id) && SameAt(t, u, id)
    ensures SameAt(ApplyAll(t, ns, log), ApplyAll(u, ns, Of(log, collection, id)), id)
    decreases |log|
  {
    if log != [] {
      var c := log[0];
      var t' := Apply(t, ns, c).table;
      assert Uncontested(log[1..], collection, id) by {
        assert forall i | 0 <= i < |log[1..]| :: log[1..][i] == log[i + 1];
      }
      if c.id == id {
        assert Of(log, collection, id)[0] == c && Of(log, collection, id)[1..] == Of(log[1..], collection, id);
        ApplyAt(t, u, ns, c);
        BatchProjects(t', Apply(u, ns, c).table, ns, log[1..], collection, id);
      } else {
        assert Of(log, collection, id) == Of(log[1..], collection, id);
        ApplyElsewhere(t, ns, c, id);
        SameAtTransitive(t', t, u, id);
        BatchProjects(t', u, ns, log[1..], collection, id);
      }
    }
  }

  /** Where a slice of the whole log falls in one record's history. */
  lemma {:induction false} OfSlice(log: seq<Change>, collection: string, id: string, c: nat, m: nat)
    requires c <= m <= |log|
    ensures
      var own := Of(log, collection, id);
      var c', m' := |Of(log[..c], collection, id)|, |Of(log[..m], collection, id)|;
      && c' <= m' <= |own|
      && Of(log[..c], collection, id) == own[..c'] && Of(log[..m], collection, id) == own[..m']
      && Of(log[c..m], collection, id) == own[c'..m']
  {
    OfConcat(log[..m], log[m..], collection, id);
    assert log[..m] + log[m..] == log;
    OfConcat(log[..c], log[c..m], collection, id);
    assert log[..c] + log[c..m] == log[..m];
  }

  // ------------------------------------------------ any number of sync rounds

  /** One pull of the peer's log: it starts at or before what has been applied,
      because the stored cursor may have been lost, and reaches at least as far. */
  datatype Round = Round(from: nat, upTo: nat)

  function Reached(rounds: seq<Round>): nat {
    if rounds == [] then 0 else rounds[|rounds| - 1].upTo
  }

  predicate ValidRounds(log: seq<Change>, rounds: seq<Round>) {
    rounds == [] ||
    var before, last := rounds[..|rounds| - 1], rounds[|rounds| - 1];
    ValidRounds(log, before) && last.from <= Reached(before) <= last.upTo <= |log|
  }

  function SyncRounds(t: Table, ns: string, log: seq<Change>, rounds: seq<Round>): Table
    requires ValidRounds(log, rounds)
  {
    if rounds == [] then t else
    var n := |rounds| - 1;
    ApplyAll(SyncRounds(t, ns, log, rounds[..n]), ns, log[rounds[n].from..rounds[n].upTo])
  }

  /** After any rounds, replayed or not: every record of the peer whose id was
      not taken is present exactly when it is remotely, with the remote's data. */
  lemma {:induction false} RoundsMirror(t: Table, ns: string, log: seq<Change>, rounds: seq<Round>, collection: string, id: string)
    requires ValidRounds(log, rounds) && Uncontested(log, collection, id)
    requires History(Of(log, collection, id), collection, id)
    requires id !in t
    ensures Reached(rounds) <= |log|
    ensures Mirrors(SyncRounds(t, ns, log, rounds), ns, collection, id, Of(log[..Reached(rounds)], collection, id))
  {
    if rounds != [] {
      var n := |rounds| - 1;
        var c, p, m := rounds[n].from, Reached(rounds[..n]), rounds[n].upTo;
      RoundsMirror(t, ns, log, rounds[..n], collection, id);
      OneRound(SyncRounds(t, ns, log, rounds[..n]), ns, log, c, p, m, collection, id);
    }
  }

  lemma {:induction false} OneRound(t: Table, ns: string, log: seq<Change>, c: nat, p: nat, m: nat, collection: string, id: string)
    requires c <= p <= m <= |log| && Uncontested(log, collection, id)
    requires History(Of(log, collection, id), collection, id)
    requires Mirrors(t, ns, collection, id, Of(log[..p], collection, id))
    ensures Mirrors(ApplyAll(t, ns, log[c..m]), ns, collection, id, Of(log[..m], collection, id))
  {
    OfSlice(log, collection, id, c, m);
    OfSlice(log, collection, id, c, p);
    OfSlice(log, collection, id, p, m);
    OneBatch(t, ns, log[c..m], collection, id, Of(log, collection, id),
      |Of(log[..c], collection, id)|, |Of(log[..p], collection, id)|, |Of(log[..m], collection, id)|);
  }

  lemma {:induction false} OneBatch(t: Table, ns: string, batch: seq<Change>, collection: string, id: string,
                                    own: seq<Change>, c: nat, p: nat, m: nat)
    requires Uncontested(batch, collection, id)
    requires History(own, collection, id) && c <= p <= m <= |own|
    requires Of(batch, collection, id) == own[c..m]
    requires Mirrors(t, ns, collection, id, own[..p])
    ensures Mirrors(ApplyAll(t, ns, batch), ns, collection, id, own[..m])
  {
    RedeliveryMirrors(t, ns, collection, id, own, c, p, m);
    BatchProjects(t, t, ns, batch, collection, id);
    MirrorsAt(ApplyAll(t, ns, own[c..m]), ApplyAll(t, ns, batch), ns, collection, id, own[..m]);
  }

  /** The id is held by a row outside the peer's collection: nothing ever gets in. */
  lemma {:induction false} TakenIdStays(t: Table, ns: string, changes: seq<Change>, collection: string, id: string)
    requires Uncontested(changes, collection, id)
    requires id in t && !Owned(t, ns, collection, id)
    ensures id in ApplyAll(t, ns, changes) && ApplyAll(t, ns, changes)[id] == t[id]
    decreases |changes|
  {
    if changes != [] {
      assert Uncontested(changes[1..], collection, id) by {
        assert forall i | 0 <= i < |changes[1..]| :: changes[1..][i] == changes[i + 1];
      }
      TakenIdStays(Apply(t, ns, changes[0]).table, ns, changes[1..], collection, id);
    }
  }

  lemma {:induction false} TakenIdStaysThroughRounds(t: Table, ns: string, log: seq<Change>, rounds: seq<Round>, collection: string, id: string)
    requires ValidRounds(log, rounds) && Uncontested(log, collection, id)
    requires id in t && !Owned(t, ns, collection, id)
    ensures id in SyncRounds(t, ns, log, rounds) && SyncRounds(t, ns, log, rounds)[id] == t[id]
  {
    if rounds != [] {
      var n := |rounds| - 1;
        TakenIdStaysThroughRounds(t, ns, log, rounds[..n], collection, id);
      assert Uncontested(log[rounds[n].from..rounds[n].upTo], collection, id);
      TakenIdStays(SyncRounds(t, ns, log, rounds[..n]), ns, log[rounds[n].from..rounds[n].upTo], collection, id);
    }
  }

  /** A record not yet copied converges to the remote's presence and data exactly
      when its id is free locally or the remote record is gone: the table's key is
      the id alone, so a row of any other plugin or collection blocks the copy. */
  lemma {:induction false} ConvergesIff(t: Table, ns: string, log: seq<Change>, rounds: seq<Round>, collection: string, id: string)
    requires ValidRounds(log, rounds) && Uncontested(log, collection, id)
    requires History(Of(log, collection, id), collection, id)
    requires !Owned(t, ns, collection, id)
    ensures Reached(rounds) <= |log|
    ensures LocalData(SyncRounds(t, ns, log, rounds), ns, collection, id) == Remote(Of(log[..Reached(rounds)], collection, id))
       <==> id !in t || Remote(Of(log[..Reached(rounds)], collection, id)).None?
  {
    if id in t {
      TakenIdStaysThroughRounds(t, ns, log, rounds, collection, id);
    } else {
      RoundsMirror(t, ns, log, rounds, collection, id);
    }
  }

  /** Two peers that publish the same id: the second one's record is never copied. */
  lemma {:induction false} SecondPeerIsBlocked(d1: string, d2: string)
    ensures
      var c1 := Change("notes", "n1", Create, Some(d1), 1);
      var c2 := Change("notes", "n1", Create, Some(d2), 1);
      var t := ApplyAll(map[], Namespace("a"), [c1]);
      && LocalData(t, Namespace("a"), "notes", "n1") == Some(d1)
      && LocalData(ApplyAll(t, Namespace("b"), [c2]), Namespace("b"), "notes", "n1") == None
      && Conflicts(t, Namespace("b"), [c2]) == 1
  {
    var c1 := Change("notes", "n1", Create, Some(d1), 1);
    var c2 := Change("notes", "n1", Create, Some(d2), 1);
    assert [c1][1..] == [] && [c2][1..] == [];
    assert Namespace("a")[11] != Namespace("b")[11];
  }

  // ------------------------------------------------------------- no conflicts

  /** The record mirrors point `p` of the log. */
  ghost predicate MirrorsPoint(t: Table, ns: string, log: seq<Change>, p: nat, collection: string, id: string)
    requires p <= |log|
  {
    && Uncontested(log, collection, id)
    && History(Of(log, collection, id), collection, id)
    && Mirrors(t, ns, collection, id, Of(log[..p], collection, id))
  }

  /** Every record in the log mirrors point `p` of the log. */
  ghost predicate AllMirror(t: Table, ns: string, log: seq<Change>, p: nat)
    requires p <= |log|
  {
    forall i | 0 <= i < |log| :: MirrorsPoint(t, ns, log, p, log[i].collection, log[i].id)
  }

  lemma {:induction false} FreshOwnChange(t: Table, ns: string, log: seq<Change>, p: nat)
    requires p < |log| && MirrorsPoint(t, ns, log, p, log[p].collection, log[p].id)
    ensures Apply(t, ns, log[p]).ok
    ensures MirrorsPoint(Apply(t, ns, log[p]).table, ns, log, p + 1, log[p].collection, log[p].id)
  {
    var c := log[p];
    var own := Of(log, c.collection, c.id);
    var n := |Of(log[..p], c.collection, c.id)|;
    OfSlice(log, c.collection, c.id, p, p + 1);
    assert log[p..p + 1] == [c] && [c][1..] == [];
    assert Of([c], c.collection, c.id) == [c];
    assert own[n] == own[n..n + 1][0] == c;
    NextChangeMirrors(t, ns, c.collection, c.id, own, n);
  }

  lemma {:induction false} FreshOtherChange(t: Table, ns: string, log: seq<Change>, p: nat, collection: string, id: string)
    requires p < |log| && MirrorsPoint(t, ns, log, p, collection, id) && log[p].id != id
    ensures MirrorsPoint(Apply(t, ns, log[p]).table, ns, log, p + 1, collection, id)
  {
    assert log[..p + 1] == log[..p] + [log[p]] && [log[p]][1..] == [];
    OfConcat(log[..p], [log[p]], collection, id);
    assert Of([log[p]], collection, id) == [];
    assert Of(log[..p + 1], collection, id) == Of(log[..p], collection, id);
    ApplyElsewhere(t, ns, log[p], id);
    MirrorsAt(t, Apply(t, ns, log[p]).table, ns, collection, id, Of(log[..p], collection, id));
  }

  lemma {:induction false} FreshChange(t: Table, ns: string, log: seq<Change>, p: nat)
    requires p < |log| && AllMirror(t, ns, log, p)
    ensures Apply(t, ns, log[p]).ok
    ensures AllMirror(Apply(t, ns, log[p]).table, ns, log, p + 1)
  {
    FreshOwnChange(t, ns, log, p);
    forall i | 0 <= i < |log|
      ensures MirrorsPoint(Apply(t, ns, log[p]).table, ns, log, p + 1, log[i].collection, log[i].id)
    {
      if log[i].id == log[p].id {
        assert Uncontested(log, log[p].collection, log[p].id);
      } else {
        FreshOtherChange(t, ns, log, p, log[i].collection, log[i].id);
      }
    }
  }

  lemma {:induction false} ConflictsSlice(t: Table, ns: string, log: seq<Change>, p: nat, m: nat)
    requires p < m <= |log|
    ensures Conflicts(t, ns, log[p..m]) == (if Apply(t, ns, log[p]).ok then 0 else 1) + Conflicts(Apply(t, ns, log[p]).table, ns, log[p + 1..m])
  {
    assert log[p..m][1..] == log[p + 1..m];
  }

  /** The changes after the point already reached apply without a conflict and
      bring every record of the log to the new point. */
  lemma {:induction false} FreshBatchHasNoConflicts(t: Table, ns: string, log: seq<Change>, p: nat, m: nat)
    requires p <= m <= |log| && AllMirror(t, ns, log, p)
    ensures Conflicts(t, ns, log[p..m]) == 0
    ensures AllMirror(ApplyAll(t, ns, log[p..m]), ns, log, m)
    decreases m - p
  {
    if p == m {
      assert log[p..m] == [];
    } else {
      FreshChange(t, ns, log, p);
      ApplySlice(t, ns, log, p, m);
      ConflictsSlice(t, ns, log, p, m);
      FreshBatchHasNoConflicts(Apply(t, ns, log[p]).table, ns, log, p + 1, m);
    }
  }
}
