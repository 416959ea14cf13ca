/** Conflict resolution between a local and a remote version of a record: last
    write wins, and a three-way merge field by field. */
module Conflict {
  import opened Text

  /** Record data: an object's fields, or a value without fields. */
  datatype Data<V> = Object(fields: map<string, V>) | Scalar(value: V)

  datatype Version<V> = Version(data: Data<V>, updatedAt: int)

  datatype Resolution<V> = KeepLocal | KeepRemote | Merged(fields: map<string, V>) | RequiresManual

  function Field<V>(m: map<string, V>, k: string): Option<V> {
    if k in m then Some(m[k]) else None
  }

  /** Without base data, or with base data that is no object, every field counts
      as added since. */
  function BaseFields<V>(base: Option<Data<V>>): map<string, V> {
    if base.Some? && base.value.Object? then base.value.fields else map[]
  }

  /** Ties go to the remote version. */
  function LastWriteWins<V>(local: Version<V>, remote: Version<V>): Resolution<V> {
    if local.updatedAt > remote.updatedAt then KeepLocal else KeepRemote
  }

  /** Both sides changed the field, differently. */
  predicate Clashes<V(==)>(l: map<string, V>, r: map<string, V>, b: map<string, V>, k: string) {
    Field(l, k) != Field(b, k) && Field(r, k) != Field(b, k) && Field(l, k) != Field(r, k)
  }

  ghost predicate NeedsManual<V>(l: map<string, V>, r: map<string, V>, b: map<string, V>) {
    exists k :: k in l.Keys + r.Keys && Clashes(l, r, b, k)
  }

  /** Local's value if local changed the field, remote's otherwise. */
  function MergedField<V(==)>(l: map<string, V>, r: map<string, V>, b: map<string, V>, k: string): Option<V> {
    if Field(l, k) != Field(b, k) then Field(l, k) else Field(r, k)
  }

  function Merge<V(==)>(l: map<string, V>, r: map<string, V>, b: map<string, V>): map<string, V> {
    map k | k in l.Keys + r.Keys && MergedField(l, r, b, k).Some? :: MergedField(l, r, b, k).value
  }

  ghost function Resolve<V>(local: Version<V>, remote: Version<V>, base: Option<Data<V>>): Resolution<V> {
    if !local.data.Object? || !remote.data.Object? then LastWriteWins(local, remote) else
    var l, r, b := local.data.fields, remote.data.fields, BaseFields(base);
    if NeedsManual(l, r, b) then RequiresManual else Merged(Merge(l, r, b))
  }

  /** `field_merge_needs_manual`: the keys come in any order. */
  method FieldMergeNeedsManual<V(==)>(local: Version<V>, remote: Version<V>, base: Option<Data<V>>) returns (manual: bool)
    ensures manual <==> Resolve(local, remote, base) == RequiresManual
  {
    if !local.data.Object? || !remote.data.Object? {
      return false;
    }
    var l, r, b := local.data.fields, remote.data.fields, BaseFields(base);
    var keys := l.Keys + r.Keys;
    while keys != {}
      invariant keys <= l.Keys + r.Keys
      invariant forall k | k in l.Keys + r.Keys - keys :: !Clashes(l, r, b, k)
      decreases keys
    {
      var k :| k in keys;
      var localVal, remoteVal, baseVal := Field(l, k), Field(r, k), Field(b, k);
      if localVal != baseVal && remoteVal != baseVal && localVal != remoteVal {
        assert Clashes(l, r, b, k);
        return true;
      }
      keys := keys - {k};
    }
    manual := false;
  }

  /** `resolve_field_merge`: the keys come in any order; the first clash ends it. */
  method ResolveFieldMerge<V(==)>(local: Version<V>, remote: Version<V>, base: Option<Data<V>>) returns (res: Resolution<V>)
    ensures res == Resolve(local, remote, base)
  {
    if !local.data.Object? || !remote.data.Object? {
      return LastWriteWins(local, remote);
    }
    var l, r, b := local.data.fields, remote.data.fields, BaseFields(base);
    var merged: map<string, V> := map[];
    var overlap := false;
    var keys := l.Keys + r.Keys;
    while keys != {}
      invariant keys <= l.Keys + r.Keys
      invariant !overlap
      invariant forall k | k in l.Keys + r.Keys - keys :: !Clashes(l, r, b, k)
      invariant forall k :: Field(merged, k) == if k in l.Keys + r.Keys - keys then MergedField(l, r, b, k) else None
      decreases keys
    {
      var key :| key in keys;
      var localVal, remoteVal, baseVal := Field(l, key), Field(r, key), Field(b, key);
      var chosen: Option<V>;
      if localVal != baseVal && remoteVal != baseVal {
        if localVal == remoteVal {
          chosen := localVal;
        } else {
          assert Clashes(l, r, b, key);
          overlap := true;
          break;
        }
      } else if localVal != baseVal {
        chosen := localVal;
      } else if remoteVal != baseVal {
        chosen := remoteVal;
      } else {
        chosen := if baseVal.Some? then baseVal else if localVal.Some? then localVal else remoteVal;
      }
      ghost var before := merged;
      if chosen.Some? {
        merged := merged[key := chosen.value];
      }
      assert Field(merged, key) == MergedField(l, r, b, key);
      assert forall k | k != key :: Field(merged, k) == Field(before, k);
      keys := keys - {key};
    }
    if overlap {
      res := RequiresManual;
    } else {
      SameFields(merged, Merge(l, r, b));
      res := Merged(merged);
    }
  }

  lemma {:induction false} SameFields<V>(m: map<string, V>, n: map<string, V>)
    requires forall k :: Field(m, k) == Field(n, k)
    ensures m == n
  {
    forall k ensures k in m <==> k in n {
      assert Field(m, k) == Field(n, k);
    }
    forall k | k in m ensures m[k] == n[k] {
      assert Field(m, k) == Field(n, k);
    }
  }

  // ------------------------------------------------------------- merge algebra

  lemma {:induction false} MergeFields<V>(l: map<string, V>, r: map<string, V>, b: map<string, V>, k: string)
    requires !NeedsManual(l, r, b)
    ensures !(k in l.Keys + r.Keys && Clashes(l, r, b, k))
    ensures Field(Merge(l, r, b), k) == if k in l || k in r then MergedField(l, r, b, k) else None
  {
  }

  /** What the merge promises of every field: a change or deletion made by one
      side alone is kept, a change made by both alike is kept, and a field that
      neither side changed keeps its base value. */
  lemma {:induction false} MergeKeepsChanges<V>(l: map<string, V>, r: map<string, V>, b: map<string, V>, k: string)
    requires !NeedsManual(l, r, b)
    ensures
      var m := Field(Merge(l, r, b), k);
      && (Field(l, k) != Field(b, k) ==> m == Field(l, k))
      && (Field(r, k) != Field(b, k) ==> m == Field(r, k))
      && (Field(l, k) == Field(b, k) == Field(r, k) ==> m == Field(b, k))
  {
    MergeFields(l, r, b, k);
  }

  /** The result does not depend on which side is called local. */
  lemma {:induction false} MergeIsSymmetric<V>(l: map<string, V>, r: map<string, V>, b: map<string, V>)
    ensures NeedsManual(l, r, b) <==> NeedsManual(r, l, b)
    ensures !NeedsManual(l, r, b) ==> Merge(l, r, b) == Merge(r, l, b)
  {
    if NeedsManual(l, r, b) {
      var k :| k in l.Keys + r.Keys && Clashes(l, r, b, k);
      assert k in r.Keys + l.Keys && Clashes(r, l, b, k);
    }
    if NeedsManual(r, l, b) {
      var k :| k in r.Keys + l.Keys && Clashes(r, l, b, k);
      assert k in l.Keys + r.Keys && Clashes(l, r, b, k);
    }
    if !NeedsManual(l, r, b) {
      forall k ensures Field(Merge(l, r, b), k) == Field(Merge(r, l, b), k) {
        MergeFields(l, r, b, k);
        MergeFields(r, l, b, k);
      }
      SameFields(Merge(l, r, b), Merge(r, l, b));
    }
  }

  /** Merging the result again with one of its sides, over the same base, never
      needs a hand and changes nothing. */
  lemma {:induction false} RemergeRemote<V>(l: map<string, V>, r: map<string, V>, b: map<string, V>)
    requires !NeedsManual(l, r, b)
    ensures !NeedsManual(Merge(l, r, b), r, b)
    ensures Merge(Merge(l, r, b), r, b) == Merge(l, r, b)
  {
    var m := Merge(l, r, b);
    forall k ensures !Clashes(m, r, b, k) {
      MergeKeepsChanges(l, r, b, k);
    }
    forall k ensures Field(Merge(m, r, b), k) == Field(m, k) {
      MergeKeepsChanges(l, r, b, k);
      MergeKeepsChanges(m, r, b, k);
    }
    SameFields(Merge(m, r, b), m);
  }

  lemma {:induction false} RemergeLocal<V>(l: map<string, V>, r: map<string, V>, b: map<string, V>)
    requires !NeedsManual(l, r, b)
    ensures !NeedsManual(l, Merge(l, r, b), b)
    ensures Merge(l, Merge(l, r, b), b) == Merge(l, r, b)
  {
    MergeIsSymmetric(l, r, b);
    RemergeRemote(r, l, b);
    MergeIsSymmetric(Merge(l, r, b), l, b);
  }

  // ----------------------------------------- a merge, from the three documents

  /** The two objects differ in the field: one has it and the other not, or with
      another value. */
  predicate Differs<V(==)>(x: map<string, V>, y: map<string, V>, k: string) {
    (k in x) != (k in y) || (k in x && k in y && x[k] != y[k])
  }

  lemma {:induction false} DiffersIff<V>(x: map<string, V>, y: map<string, V>, k: string)
    ensures Differs(x, y, k) <==> Field(x, k) != Field(y, k)
  {
  }

  lemma {:induction false} MergesOver<V>(l: map<string, V>, r: map<string, V>, b: map<string, V>)
    ensures NeedsManual(l, r, b) <==> exists k :: Differs(l, b, k) && Differs(r, b, k) && Differs(l, r, k)
    ensures !NeedsManual(l, r, b) ==> forall k ::
      if Differs(l, b, k) then !Differs(Merge(l, r, b), l, k)
      else if Differs(r, b, k) then !Differs(Merge(l, r, b), r, k)
      else !Differs(Merge(l, r, b), b, k)
  {
    forall k ensures Differs(l, b, k) && Differs(r, b, k) && Differs(l, r, k) <==> k in l.Keys + r.Keys && Clashes(l, r, b, k) {
    }
    if !NeedsManual(l, r, b) {
      forall k ensures
        if Differs(l, b, k) then !Differs(Merge(l, r, b), l, k)
        else if Differs(r, b, k) then !Differs(Merge(l, r, b), r, k)
        else !Differs(Merge(l, r, b), b, k)
      {
        assert Field(Merge(l, r, b), k) == if k in l.Keys + r.Keys then MergedField(l, r, b, k) else None;
        DiffersIff(Merge(l, r, b), l, k);
        DiffersIff(Merge(l, r, b), r, k);
        DiffersIff(Merge(l, r, b), b, k);
      }
    }
  }

  /** Two objects over a base object: left to the user exactly when some field has
      been changed on both sides, and differently; else every field is the one that a
      side changed, and the base's where neither did. */
  lemma {:induction false} MergeOverBase<V>(l: map<string, V>, r: map<string, V>, b: map<string, V>, localAt: int, remoteAt: int)
    ensures
      var res := Resolve(Version(Object(l), localAt), Version(Object(r), remoteAt), Some(Object(b)));
      && (res.RequiresManual? <==> exists k :: Differs(l, b, k) && Differs(r, b, k) && Differs(l, r, k))
      && (!res.RequiresManual? ==> res.Merged? && forall k ::
            if Differs(l, b, k) then !Differs(res.fields, l, k)
            else if Differs(r, b, k) then !Differs(res.fields, r, k)
            else !Differs(res.fields, b, k))
  {
    MergesOver(l, r, b);
  }

  /** Without a base, or over one that is no object, every field counts as added: left
      to the user exactly when both have a field with different values, else the two
      together. */
  lemma {:induction false} MergeWithoutBase<V>(l: map<string, V>, r: map<string, V>, base: Option<Data<V>>, localAt: int, remoteAt: int)
    requires base.None? || base.value.Scalar?
    ensures
      var res := Resolve(Version(Object(l), localAt), Version(Object(r), remoteAt), base);
      && (res.RequiresManual? <==> exists k :: k in l && k in r && l[k] != r[k])
      && (!res.RequiresManual? ==> res.Merged? && res.fields == l + r)
  {
    MergesOver(l, r, map[]);
    forall k ensures Differs(l, map[], k) && Differs(r, map[], k) && Differs(l, r, k) <==> k in l && k in r && l[k] != r[k] {
    }
    if !NeedsManual(l, r, map[]) {
      forall k ensures Field(Merge(l, r, map[]), k) == Field(l + r, k) {
        assert k in l && k in r ==> !Differs(l, r, k);
        DiffersIff(Merge(l, r, map[]), l, k);
        DiffersIff(Merge(l, r, map[]), r, k);
        DiffersIff(Merge(l, r, map[]), map[], k);
      }
      SameFields(Merge(l, r, map[]), l + r);
    }
  }

  /** Data that is no object on either side is not merged: the later write stays, and
      on equal timestamps the remote one. */
  lemma {:induction false} LaterWriteStays<V>(local: Version<V>, remote: Version<V>, base: Option<Data<V>>)
    ensures
      var later := if local.updatedAt > remote.updatedAt then local.data else remote.data;
      && Outcome(LastWriteWins(local, remote), local, remote) == Some(later)
      && (local.data.Scalar? || remote.data.Scalar? ==> Outcome(Resolve(local, remote, base), local, remote) == Some(later))
  {
  }

  // ------------------------------------------------ both replicas resolving alike

  /** The data a replica ends up with. */
  function Outcome<V>(res: Resolution<V>, local: Version<V>, remote: Version<V>): Option<Data<V>> {
    match res
    case KeepLocal => Some(local.data)
    case KeepRemote => Some(remote.data)
    case Merged(fields) => Some(Object(fields))
    case RequiresManual => None
  }

  /** Two replicas that each take the last write, objects or not, agree exactly when
      the timestamps differ or the data are equal: on a tie each takes the other's
      version, and they swap. */
  lemma {:induction false} LastWriteWinsAgreesIff<V>(a: Version<V>, b: Version<V>)
    ensures Outcome(LastWriteWins(a, b), a, b) == Outcome(LastWriteWins(b, a), b, a)
       <==> a.updatedAt != b.updatedAt || a.data == b.data
    ensures a.updatedAt == b.updatedAt ==> Outcome(LastWriteWins(a, b), a, b) == Some(b.data) && Outcome(LastWriteWins(b, a), b, a) == Some(a.data)
  {
  }

  /** Two replicas that each merge the same conflict from their own side agree
      exactly when the data are both objects, or the timestamps differ, or the data
      are equal: on a tie each takes the other's value. */
  lemma {:induction false} ReplicasAgreeIff<V>(a: Version<V>, b: Version<V>, base: Option<Data<V>>)
    ensures Outcome(Resolve(a, b, base), a, b) == Outcome(Resolve(b, a, base), b, a)
       <==> (a.data.Object? && b.data.Object?) || a.updatedAt != b.updatedAt || a.data == b.data
  {
    if a.data.Object? && b.data.Object? {
      MergeIsSymmetric(a.data.fields, b.data.fields, BaseFields(base));
    }
  }

  datatype Strategy = LastWrite | FieldLevelMerge | Manual

  function StrategyFor(collection: string): Strategy {
    if collection == "events" || collection == "contacts" then FieldLevelMerge
    else if collection == "notes" then Manual
    else LastWrite
  }

  /** The resolution by the strategy that a conflict of the collection names. */
  ghost function ResolveIn<V>(collection: string, local: Version<V>, remote: Version<V>, base: Option<Data<V>>): Resolution<V> {
    match StrategyFor(collection)
    case LastWrite => LastWriteWins(local, remote)
    case FieldLevelMerge => Resolve(local, remote, base)
    case Manual => RequiresManual
  }

  /** In any collection, replicas with different data and equal timestamps agree
      exactly in notes, and in events and contacts when both data are objects; with
      different timestamps or equal data they agree everywhere. */
  lemma {:induction false} CollectionAgreesIff<V>(collection: string, a: Version<V>, b: Version<V>, base: Option<Data<V>>)
    ensures Outcome(ResolveIn(collection, a, b, base), a, b) == Outcome(ResolveIn(collection, b, a, base), b, a)
       <==> || a.updatedAt != b.updatedAt || a.data == b.data
            || collection == "notes"
            || (collection in ["events", "contacts"] && a.data.Object? && b.data.Object?)
  {
    match StrategyFor(collection)
    case LastWrite => LastWriteWinsAgreesIff(a, b);
    case FieldLevelMerge => ReplicasAgreeIff(a, b, base);
    case Manual =>
  }
}
