/** Applying a remote change to local storage, last write wins, and what a local
    copy of one remote record goes through. */
module Sync {
  import opened Text
  import opened Storage

  datatype Operation = Create | Update | Delete

  datatype Change = Change(collection: string, id: string, operation: Operation, data: Option<string>, version: int)

  datatype Applied = Applied(table: Table, ok: bool)

  /** The new table, and whether the change was applied without error. */
  function Apply(t: Table, ns: string, c: Change): Applied {
    var local := Lookup(t, ns, c.collection, c.id);
    match c.operation
    case Create =>
      if c.data.None? then Applied(t, true) else Insert(t, ns, c)
    case Update =>
      if c.data.None? then Applied(t, true)
      else if local.None? then Insert(t, ns, c)
      else if c.version > local.value.version then
        Applied(t[c.id := Row(ns, c.collection, c.data.value, local.value.version + 1)], true)
      else Applied(t, true)
    case Delete =>
      if local.Some? && c.version > local.value.version then Applied(t - {c.id}, true) else Applied(t, true)
  }

  /** Fails when any row holds the id. */
  function Insert(t: Table, ns: string, c: Change): Applied
    requires c.data.Some?
  {
    if c.id in t then Applied(t, false) else Applied(t[c.id := Row(ns, c.collection, c.data.value, 1)], true)
  }

  /** Whether reading the record works, and what becomes of the write. */
  datatype Calls = Calls(getOk: bool, write: Fate)

  const SMOOTH := Calls(true, Succeeds)

  /** The change comes to a write: it has what it needs and local data is not newer. */
  predicate Attempts(t: Table, ns: string, c: Change) {
    var local := Lookup(t, ns, c.collection, c.id);
    match c.operation
    case Create => c.data.Some?
    case Update => c.data.Some? && (local.Some? ==> c.version > local.value.version)
    case Delete => local.Some? ==> c.version > local.value.version
  }

  /** Nothing can be written: the record could not be read first, or the write was
      refused. */
  predicate Prevented(c: Change, calls: Calls) {
    (!c.operation.Create? && !calls.getOk) || calls.write.Refused?
  }

  /** The error that the calls themselves cause: a reading that fails, or a write
      that is refused or fails once it has been made. */
  predicate Mishap(t: Table, ns: string, c: Change, calls: Calls) {
    if ((c.operation.Update? && c.data.Some?) || c.operation.Delete?) && !calls.getOk then true
    else Attempts(t, ns, c) && (calls.write.Refused? || (calls.write.WroteThenFailed? && Apply(t, ns, c).table != t))
  }

  /** The table is that of the change, or untouched if nothing could be written; an
      error is reported for a change that fails and for a mishap. */
  function ApplyWith(t: Table, ns: string, c: Change, calls: Calls): Applied {
    var a := Apply(t, ns, c);
    if Prevented(c, calls) then Applied(t, !Mishap(t, ns, c, calls)) else Applied(a.table, a.ok && !Mishap(t, ns, c, calls))
  }

  /** `apply_change`, call by call. */
  method ApplyChange(storage: StorageAdapter, ns: string, c: Change, calls: Calls := SMOOTH) returns (ok: bool)
    modifies storage
    ensures Applied(storage.rows, ok) == ApplyWith(old(storage.rows), ns, c, calls)
  {
    ok := true;
    match c.operation {
      case Create =>
        if c.data.Some? {
          ok := storage.CreateWithId(ns, c.collection, c.id, c.data.value, calls.write);
        }
      case Update =>
        if c.data.Some? {
          if !calls.getOk {
            return false;
          }
          var existing := storage.Get(ns, c.collection, c.id);
          if existing.Some? {
            if c.version > existing.value.version {
              var r := storage.Update(ns, c.collection, c.id, c.data.value, existing.value.version, calls.write);
              ok := r == Updated;
            }
          } else {
            ok := storage.CreateWithId(ns, c.collection, c.id, c.data.value, calls.write);
          }
        }
      case Delete =>
        if !calls.getOk {
          return false;
        }
        var existing := storage.Get(ns, c.collection, c.id);
        if existing.Some? && c.version <= existing.value.version {
          return true;
        }
        var deleted := storage.Delete(ns, c.collection, c.id, calls.write);
        ok := deleted.Some?;
    }
  }

  /** With calls that all go through, applying is the change itself. */
  lemma {:induction false} SmoothApply(t: Table, ns: string, c: Change)
    ensures ApplyWith(t, ns, c, SMOOTH) == Apply(t, ns, c)
  {
  }

  // ------------------------------- each change, from the table and the calls alone

  /** A creation inserts its record at version 1, unless any row holds the id: it never
      overwrites. One without data changes nothing. */
  lemma {:induction false} CreateApplied(t: Table, ns: string, c: Change, calls: Calls)
    requires c.operation == Create
    ensures
      var a := ApplyWith(t, ns, c, calls);
      && a.table == (if c.data.Some? && c.id !in t && !calls.write.Refused?
                     then t[c.id := Row(ns, c.collection, c.data.value, 1)] else t)
      && (a.ok <==> (c.data.Some? ==> c.id !in t && calls.write.Succeeds?))
  {
    if c.data.Some? && c.id !in t {
      assert c.id in Apply(t, ns, c).table;
    }
  }

  /** An update overwrites a record of a lower version and counts the local version up
      by one; a record of the same or a higher version stays as it is, and a missing
      one is inserted. */
  lemma {:induction false} UpdateApplied(t: Table, ns: string, c: Change, calls: Calls)
    requires c.operation == Update
    ensures
      var a := ApplyWith(t, ns, c, calls);
      var held := c.id in t && t[c.id].pluginId == ns && t[c.id].collection == c.collection;
      var reaches := c.data.Some? && calls.getOk && !calls.write.Refused?;
      && a.table == (if reaches && held && c.version > t[c.id].version
                     then t[c.id := Row(ns, c.collection, c.data.value, t[c.id].version + 1)]
                     else if reaches && c.id !in t then t[c.id := Row(ns, c.collection, c.data.value, 1)]
                     else t)
      && (a.ok <==> (c.data.Some? ==>
                       && calls.getOk
                       && (if held then c.version <= t[c.id].version || calls.write.Succeeds?
                           else c.id !in t && calls.write.Succeeds?)))
  {
    if c.data.Some? && Owned(t, ns, c.collection, c.id) && c.version > t[c.id].version {
      assert Apply(t, ns, c).table[c.id].version == t[c.id].version + 1;
    } else if c.data.Some? && c.id !in t {
      assert c.id in Apply(t, ns, c).table;
    }
  }

  /** A delete removes a record of a lower version; one of the same or a higher version
      stays, and the stale delete is not an error. */
  lemma {:induction false} DeleteApplied(t: Table, ns: string, c: Change, calls: Calls)
    requires c.operation == Delete
    ensures
      var a := ApplyWith(t, ns, c, calls);
      var held := c.id in t && t[c.id].pluginId == ns && t[c.id].collection == c.collection;
      && a.table == (if calls.getOk && !calls.write.Refused? && held && c.version > t[c.id].version
                     then t - {c.id} else t)
      && (a.ok <==> && calls.getOk
                    && (if held then c.version <= t[c.id].version || calls.write.Succeeds?
                        else !calls.write.Refused?))
  {
    if Owned(t, ns, c.collection, c.id) && c.version > t[c.id].version {
      assert c.id !in Apply(t, ns, c).table;
    }
  }

  // --------------------------------------------------------- one remote record

  /** The remote record, given its changes so far: absent, or its data. */
  function Remote(log: seq<Change>): Option<string> {
    if log == [] then None else
    var c := log[|log| - 1];
    if c.operation == Delete then None
    else if c.data.Some? then c.data
    else Remote(log[..|log| - 1])
  }

  /** The changes of one record as its owner makes them: versions from 1 up,
      strictly increasing, and a creation only where the record is absent. */
  ghost predicate History(log: seq<Change>, collection: string, id: string) {
    && (forall i | 0 <= i < |log| :: log[i].collection == collection && log[i].id == id && log[i].version >= 1)
    && (forall i, j | 0 <= i < j < |log| :: log[i].version < log[j].version)
    && (forall i | 0 <= i < |log| :: log[i].operation == Create ==> Remote(log[..i]).None?)
  }

  function LastVersion(log: seq<Change>): int {
    if log == [] then 0 else log[|log| - 1].version
  }

  /** No row of another plugin or collection holds the id. */
  predicate Free(t: Table, ns: string, collection: string, id: string) {
    id in t ==> Owned(t, ns, collection, id)
  }

  function LocalData(t: Table, ns: string, collection: string, id: string): Option<string> {
    var r := Lookup(t, ns, collection, id);
    if r.None? then None else Some(r.value.data)
  }

  /** The local copy is present exactly when the remote record is, with its data,
      at a version no higher than the last remote one. */
  ghost predicate Mirrors(t: Table, ns: string, collection: string, id: string, log: seq<Change>) {
    && Free(t, ns, collection, id)
    && LocalData(t, ns, collection, id) == Remote(log)
    && (id in t ==> t[id].version <= LastVersion(log))
  }

  /** The next change of a mirrored record applies without error and keeps the
      mirror. */
  lemma {:induction false} NextChangeMirrors(t: Table, ns: string, collection: string, id: string, log: seq<Change>, n: nat)
    requires History(log, collection, id) && n < |log|
    requires Mirrors(t, ns, collection, id, log[..n])
    ensures Apply(t, ns, log[n]).ok
    ensures Mirrors(Apply(t, ns, log[n]).table, ns, collection, id, log[..n + 1])
  {
    var c := log[n];
    var next := log[..n + 1];
    assert next[|next| - 1] == c && next[..|next| - 1] == log[..n];
    assert LastVersion(next) == c.version;
    assert LastVersion(log[..n]) < c.version;
  }

  function ApplyAll(t: Table, ns: string, changes: seq<Change>): Table
    decreases |changes|
  {
    if changes == [] then t else ApplyAll(Apply(t, ns, changes[0]).table, ns, changes[1..])
  }

  /** The slice of a log from a point on, one change at a time. */
  lemma {:induction false} ApplySlice(t: Table, ns: string, log: seq<Change>, p: nat, m: nat)
    requires p < m <= |log|
    ensures ApplyAll(t, ns, log[p..m]) == ApplyAll(Apply(t, ns, log[p]).table, ns, log[p + 1..m])
  {
    assert log[p..m][1..] == log[p + 1..m];
  }

  /** The number of changes, data-carrying and since the record last came into
      being, that made up its current version. */
  function Lives(log: seq<Change>): nat {
    if log == [] then 0 else
    var c := log[|log| - 1];
    var before := Lives(log[..|log| - 1]);
    if c.operation == Delete then 0 else if c.data.Some? then before + 1 else before
  }

  lemma {:induction false} LivesPresent(log: seq<Change>)
    ensures Lives(log) > 0 <==> Remote(log).Some?
    ensures Lives(log) <= |log|
  {
    if log != [] {
      LivesPresent(log[..|log| - 1]);
    }
  }

  lemma {:induction false} NextChangeVersion(t: Table, ns: string, collection: string, id: string, log: seq<Change>, n: nat)
    requires History(log, collection, id) && n < |log|
    requires Mirrors(t, ns, collection, id, log[..n])
    requires id in t ==> t[id].version == Lives(log[..n])
    ensures
      var t' := Apply(t, ns, log[n]).table;
      id in t' ==> t'[id].version == Lives(log[..n + 1])
  {
    var next := log[..n + 1];
    assert next[|next| - 1] == log[n] && next[..|next| - 1] == log[..n];
    LivesPresent(log[..n]);
  }

  lemma {:induction false} HistoryContinues(t: Table, ns: string, collection: string, id: string, log: seq<Change>, p: nat)
    requires History(log, collection, id) && p <= |log|
    requires Mirrors(t, ns, collection, id, log[..p])
    requires id in t ==> t[id].version == Lives(log[..p])
    ensures
      var t' := ApplyAll(t, ns, log[p..|log|]);
      Mirrors(t', ns, collection, id, log) && (id in t' ==> t'[id].version == Lives(log))
    decreases |log| - p
  {
    if p == |log| {
      assert log[..p] == log;
    } else {
      NextChangeMirrors(t, ns, collection, id, log, p);
      NextChangeVersion(t, ns, collection, id, log, p);
      ApplySlice(t, ns, log, p, |log|);
      HistoryContinues(Apply(t, ns, log[p]).table, ns, collection, id, log, p + 1);
    }
  }

  /** A history applied from scratch: presence and data are the remote's, and the
      local version is the number of writes since the record was created. */
  lemma {:induction false} HistoryMirrors(t: Table, ns: string, collection: string, id: string, log: seq<Change>)
    requires History(log, collection, id) && id !in t
    ensures Mirrors(ApplyAll(t, ns, log), ns, collection, id, log)
    ensures id in ApplyAll(t, ns, log) ==> ApplyAll(t, ns, log)[id].version == Lives(log)
  {
    assert log[..0] == [] && log[0..|log|] == log;
    HistoryContinues(t, ns, collection, id, log, 0);
  }

  /** Versions run 1, 2, 3, … and every change writes data. */
  predicate GapFree(log: seq<Change>) {
    forall i | 0 <= i < |log| :: log[i].version == i + 1 && log[i].operation != Delete && log[i].data.Some?
  }

  lemma {:induction false} LivesAllIff(log: seq<Change>)
    ensures Lives(log) == |log| <==> forall i | 0 <= i < |log| :: log[i].operation != Delete && log[i].data.Some?
  {
    if log != [] {
      var n := |log| - 1;
      LivesAllIff(log[..n]);
      LivesPresent(log[..n]);
      assert forall i | 0 <= i < n :: log[..n][i] == log[i];
    }
  }

  lemma {:induction false} VersionAtLeastIndex(log: seq<Change>, collection: string, id: string, i: nat)
    requires History(log, collection, id) && i < |log|
    ensures log[i].version >= i + 1
  {
    if i > 0 {
      VersionAtLeastIndex(log, collection, id, i - 1);
    }
  }

  lemma {:induction false} VersionsTight(log: seq<Change>, collection: string, id: string, i: nat)
    requires History(log, collection, id) && i < |log|
    requires LastVersion(log) == |log|
    ensures log[i].version == i + 1
    decreases |log| - i
  {
    VersionAtLeastIndex(log, collection, id, i);
    if i + 1 < |log| {
      VersionsTight(log, collection, id, i + 1);
    }
  }

  /** The local version of a present record equals the remote's exactly when the
      remote versions are gap-free from 1; otherwise it is lower. */
  lemma {:induction false} VersionEqualIff(t: Table, ns: string, collection: string, id: string, log: seq<Change>)
    requires History(log, collection, id) && id !in t && Remote(log).Some?
    ensures id in ApplyAll(t, ns, log)
    ensures ApplyAll(t, ns, log)[id].version <= LastVersion(log)
    ensures ApplyAll(t, ns, log)[id].version == LastVersion(log) <==> GapFree(log)
  {
    HistoryMirrors(t, ns, collection, id, log);
    LivesPresent(log);
    LivesAllIff(log);
    VersionAtLeastIndex(log, collection, id, |log| - 1);
    if Lives(log) == LastVersion(log) {
      forall i | 0 <= i < |log| ensures log[i].version == i + 1 {
        VersionsTight(log, collection, id, i);
      }
    }
  }

  // ------------------------------------------------------------- redelivery

  /** While changes already reflected are delivered again, the local copy is
      either as it was or again mirrors the point that the delivery has reached. */
  lemma {:induction false} RepeatedChange(t0: Table, t: Table, ns: string, collection: string, id: string, log: seq<Change>, j: nat, p: nat)
    requires History(log, collection, id) && j < p <= |log|
    requires Mirrors(t0, ns, collection, id, log[..p])
    requires Free(t, ns, collection, id)
    requires Lookup(t, ns, collection, id) == Lookup(t0, ns, collection, id) || Mirrors(t, ns, collection, id, log[..j])
    ensures
      var t' := Apply(t, ns, log[j]).table;
      && Free(t', ns, collection, id)
      && (Lookup(t', ns, collection, id) == Lookup(t0, ns, collection, id) || Mirrors(t', ns, collection, id, log[..j + 1]))
  {
    if Mirrors(t, ns, collection, id, log[..j]) {
      NextChangeMirrors(t, ns, collection, id, log, j);
    } else {
      var c := log[j];
      var next := log[..j + 1];
      assert next[|next| - 1] == c && next[..|next| - 1] == log[..j];
      assert LastVersion(next) == c.version;
    }
  }

  lemma {:induction false} RepeatKeepsMirror(t0: Table, t: Table, ns: string, collection: string, id: string, log: seq<Change>, j: nat, p: nat)
    requires History(log, collection, id) && j <= p <= |log|
    requires Mirrors(t0, ns, collection, id, log[..p])
    requires Free(t, ns, collection, id)
    requires Lookup(t, ns, collection, id) == Lookup(t0, ns, collection, id) || Mirrors(t, ns, collection, id, log[..j])
    ensures Mirrors(ApplyAll(t, ns, log[j..p]), ns, collection, id, log[..p])
    decreases p - j
  {
    if j < p {
      RepeatedChange(t0, t, ns, collection, id, log, j, p);
      ApplySlice(t, ns, log, j, p);
      RepeatKeepsMirror(t0, Apply(t, ns, log[j]).table, ns, collection, id, log, j + 1, p);
    }
  }

  lemma {:induction false} ContinueMirror(t: Table, ns: string, collection: string, id: string, log: seq<Change>, p: nat, m: nat)
    requires History(log, collection, id) && p <= m <= |log|
    requires Mirrors(t, ns, collection, id, log[..p])
    ensures Mirrors(ApplyAll(t, ns, log[p..m]), ns, collection, id, log[..m])
    decreases m - p
  {
    if p < m {
      NextChangeMirrors(t, ns, collection, id, log, p);
      ApplySlice(t, ns, log, p, m);
      ContinueMirror(Apply(t, ns, log[p]).table, ns, collection, id, log, p + 1, m);
    }
  }

  lemma {:induction false} ApplyAllConcat(t: Table, ns: string, a: seq<Change>, b: seq<Change>)
    ensures ApplyAll(t, ns, a + b) == ApplyAll(ApplyAll(t, ns, a), ns, b)
    decreases |a|
  {
    if a == [] {
      assert a + b == b;
    } else {
      assert (a + b)[1..] == a[1..] + b;
      ApplyAllConcat(Apply(t, ns, a[0]).table, ns, a[1..], b);
    }
  }

  /** Delivery at least once: a copy that mirrors point `p` and receives the
      changes from any earlier point `c` up to any later point `m` mirrors `m`. */
  lemma {:induction false} RedeliveryMirrors(t: Table, ns: string, collection: string, id: string, log: seq<Change>, c: nat, p: nat, m: nat)
    requires History(log, collection, id) && c <= p <= m <= |log|
    requires Mirrors(t, ns, collection, id, log[..p])
    ensures Mirrors(ApplyAll(t, ns, log[c..m]), ns, collection, id, log[..m])
  {
    RepeatKeepsMirror(t, t, ns, collection, id, log, c, p);
    ContinueMirror(ApplyAll(t, ns, log[c..p]), ns, collection, id, log, p, m);
    ApplyAllConcat(t, ns, log[c..p], log[p..m]);
    assert log[c..m] == log[c..p] + log[p..m];
  }
}
