/** Storage behind schema validation: data that fails its collection's schema
    goes to a quarantine collection, from which it can be reprocessed. */
module Quarantine {
  import opened Text
  import Storage

  type Fate = Storage.Fate

  /** Stored JSON: any document, or the record that wraps quarantined data. */
  datatype Data = Document(text: string) | Entry(original: Data, collection: string, plugin: string)

  datatype Row = Row(plugin: string, collection: string, data: Data, version: int)

  type Table = map<string, Row>

  /** A schema per collection, as the predicate that it decides. */
  type Registry = map<string, Data -> bool>

  const QUARANTINE := "_quarantine"
  const CORE := "core"

  /** Passes when there is no schema for the collection. */
  predicate Valid(reg: Registry, collection: string, data: Data) {
    collection in reg ==> reg[collection](data)
  }

  predicate InQuarantine(r: Row) { r.plugin == CORE && r.collection == QUARANTINE }

  datatype Outcome = Stored(id: string) | Quarantined(id: string) | Rejected | NotFound | Internal

  /** An operation with the identifiers that storage hands out and, for each of
      its storage calls, what becomes of the call. */
  datatype Op =
    | Create(plugin: string, collection: string, data: Data, freshId: string, call: Fate)
    | Update(plugin: string, collection: string, id: string, data: Data, version: int, freshId: string, call: Fate)
    | Reprocess(id: string, freshId: string, getOk: bool, create: Fate, delete: Fate)

  predicate Owned(t: Table, plugin: string, collection: string, id: string) {
    id in t && t[id].plugin == plugin && t[id].collection == collection
  }

  class ValidatedStorage {
    var rows: Table
    const registry: Registry

    constructor (registry: Registry)
      ensures rows == map[] && this.registry == registry
    {
      this.registry := registry;
      rows := map[];
    }

    method CreateRow(plugin: string, collection: string, data: Data, freshId: string, call: Fate) returns (ok: bool)
      modifies this`rows
      ensures ok <==> call.Succeeds? && freshId !in old(rows)
      ensures rows == if !call.Refused? && freshId !in old(rows) then old(rows)[freshId := Row(plugin, collection, data, 1)] else old(rows)
    {
      if freshId in rows || call.Refused? {
        return false;
      }
      rows := rows[freshId := Row(plugin, collection, data, 1)];
      ok := call.Succeeds?;
    }

    /** `quarantine_if_invalid`: an outcome ends the operation. */
    method QuarantineIfInvalid(plugin: string, collection: string, data: Data, freshId: string, call: Fate)
      returns (outcome: Option<Outcome>)
      modifies this`rows
      ensures (collection in registry ==> registry[collection](data)) ==> outcome == None && rows == old(rows)
      ensures collection in registry && !registry[collection](data) ==>
        && outcome == Some(if call.Succeeds? && freshId !in old(rows) then Quarantined(freshId) else Internal)
        && rows == if !call.Refused? && freshId !in old(rows)
                   then old(rows)[freshId := Row("core", "_quarantine", Entry(data, collection, plugin), 1)] else old(rows)
    {
      if collection in registry && !registry[collection](data) {
        var ok := CreateRow(CORE, QUARANTINE, Entry(data, collection, plugin), freshId, call);
        return if ok then Some(Quarantined(freshId)) else Some(Internal);
      }
      outcome := None;
    }

    method ValidatedCreate(plugin: string, collection: string, data: Data, freshId: string, call: Fate) returns (outcome: Outcome)
      modifies this`rows
      ensures (rows, outcome) == Step(registry, old(rows), Create(plugin, collection, data, freshId, call))
    {
      var q := QuarantineIfInvalid(plugin, collection, data, freshId, call);
      if q.Some? {
        return q.value;
      }
      var ok := CreateRow(plugin, collection, data, freshId, call);
      outcome := if ok then Stored(freshId) else Internal;
    }

    method ValidatedUpdate(plugin: string, collection: string, id: string, data: Data, version: int, freshId: string, call: Fate)
      returns (outcome: Outcome)
      modifies this`rows
      ensures (rows, outcome) == Step(registry, old(rows), Update(plugin, collection, id, data, version, freshId, call))
    {
      var q := QuarantineIfInvalid(plugin, collection, data, freshId, call);
      if q.Some? {
        return q.value;
      }
      if call.Writes() && id in rows && rows[id].plugin == plugin && rows[id].collection == collection && rows[id].version == version {
        rows := rows[id := Row(plugin, collection, data, version + 1)];
        return if call.Succeeds? then Stored(id) else Internal;
      }
      outcome := Internal;
    }

    method ReprocessQuarantined(id: string, freshId: string, getOk: bool, create: Fate, delete: Fate) returns (outcome: Outcome)
      modifies this`rows
      ensures (rows, outcome) == Step(registry, old(rows), Reprocess(id, freshId, getOk, create, delete))
    {
      if !getOk {
        return Internal;
      }
      if !(id in rows && rows[id].plugin == CORE && rows[id].collection == QUARANTINE) {
        return NotFound;
      }
      var data := rows[id].data;
      if data.Document? {
        return Internal;
      }
      if data.collection in registry && !registry[data.collection](data.original) {
        return Rejected;
      }
      var created := CreateRow(data.plugin, data.collection, data.original, freshId, create);
      if !created || delete.Refused? {
        return Internal;
      }
      rows := rows - {id};
      outcome := if delete.Succeeds? then Stored(freshId) else Internal;
    }
  }

  // ---------------------------------------------- which rows an operation writes

  /** The operation puts a row under the fresh id: a create does, and an update
      whose data is invalid. */
  predicate Inserts(reg: Registry, t: Table, op: Op) {
    (op.Create? || (op.Update? && !Valid(reg, op.collection, op.data))) && op.call.Writes() && op.freshId !in t
  }

  /** The update replaces the row that it names. */
  predicate Replaces(reg: Registry, t: Table, op: Op) {
    && op.Update? && Valid(reg, op.collection, op.data) && op.call.Writes()
    && Owned(t, op.plugin, op.collection, op.id) && t[op.id].version == op.version
  }

  predicate Writes(reg: Registry, t: Table, op: Op) { Inserts(reg, t, op) || Replaces(reg, t, op) }

  /** The reprocess puts the quarantined record back into its collection. */
  predicate PutsBack(reg: Registry, t: Table, op: Op) {
    && op.Reprocess? && op.getOk && Owned(t, CORE, QUARANTINE, op.id) && t[op.id].data.Entry?
    && Valid(reg, t[op.id].data.collection, t[op.id].data.original) && op.create.Writes() && op.freshId !in t
  }

  /** … and removes the entry, which it tries only after a create that succeeds. */
  predicate Clears(reg: Registry, t: Table, op: Op) {
    PutsBack(reg, t, op) && op.create.Succeeds? && op.delete.Writes()
  }

  function InsertedRow(reg: Registry, op: Op): Row
    requires op.Create? || op.Update?
  {
    if Valid(reg, op.collection, op.data) then Row(op.plugin, op.collection, op.data, 1)
    else Row(CORE, QUARANTINE, Entry(op.data, op.collection, op.plugin), 1)
  }

  /** What each operation does to the table, and what it reports. */
  function Step(reg: Registry, t: Table, op: Op): (Table, Outcome) {
    match op
    case Create(_, collection, data, freshId, call) =>
      if !Inserts(reg, t, op) then (t, Internal)
      else (t[freshId := InsertedRow(reg, op)],
            if call.WroteThenFailed? then Internal else if Valid(reg, collection, data) then Stored(freshId) else Quarantined(freshId))
    case Update(plugin, collection, id, data, version, freshId, call) =>
      if Inserts(reg, t, op) then
        (t[freshId := InsertedRow(reg, op)], if call.Succeeds? then Quarantined(freshId) else Internal)
      else if Replaces(reg, t, op) then
        (t[id := Row(plugin, collection, data, version + 1)], if call.Succeeds? then Stored(id) else Internal)
      else (t, Internal)
    case Reprocess(id, freshId, getOk, create, delete) =>
      if !getOk then (t, Internal)
      else if !Owned(t, CORE, QUARANTINE, id) then (t, NotFound)
      else if t[id].data.Document? then (t, Internal)
      else
        var e := t[id].data;
        if !Valid(reg, e.collection, e.original) then (t, Rejected)
        else if !PutsBack(reg, t, op) then (t, Internal)
        else
          var t' := t[freshId := Row(e.plugin, e.collection, e.original, 1)];
          if Clears(reg, t, op) then (t' - {id}, if delete.Succeeds? then Stored(freshId) else Internal) else (t', Internal)
  }

  function Run(reg: Registry, t: Table, ops: seq<Op>): Table {
    if ops == [] then t else Step(reg, Run(reg, t, ops[..|ops| - 1]), ops[|ops| - 1]).0
  }

  // ------------------------------------------------------- stored data is valid

  ghost predicate AllValid(reg: Registry, t: Table) {
    forall id | id in t && !(t[id].plugin == "core" && t[id].collection == "_quarantine") ::
      t[id].collection in reg ==> reg[t[id].collection](t[id].data)
  }

  /** In every run, whatever storage calls fail, every record outside quarantine
      satisfies the schema of its collection. */
  lemma {:induction false} RunKeepsValid(reg: Registry, t: Table, ops: seq<Op>)
    requires AllValid(reg, t)
    ensures AllValid(reg, Run(reg, t, ops))
  {
    if ops != [] {
      RunKeepsValid(reg, t, ops[..|ops| - 1]);
    }
  }

  // ------------------------------------------------------------- nothing is lost

  /** What a row stands for: quarantined data stands for the record it would be. */
  function Meaning(plugin: string, collection: string, data: Data): (string, string, Data)
    decreases data
  {
    if plugin == CORE && collection == QUARANTINE && data.Entry?
    then Meaning(data.plugin, data.collection, data.original)
    else (plugin, collection, data)
  }

  function MeaningOf(r: Row): (string, string, Data) { Meaning(r.plugin, r.collection, r.data) }

  /** The rows, in the collection or in quarantine, that stand for `m`. */
  function Holding(t: Table, m: (string, string, Data)): set<string> {
    set id | id in t && MeaningOf(t[id]) == m
  }

  /** The operation reports that it put the submitted record somewhere. */
  predicate Accepts(reg: Registry, t: Table, op: Op) {
    Step(reg, t, op).1.Stored? || Step(reg, t, op).1.Quarantined?
  }

  /** A reprocess that put the record back and left the entry. */
  predicate LeavesBoth(reg: Registry, t: Table, op: Op) {
    PutsBack(reg, t, op) && !Clears(reg, t, op)
  }

  /** The record that a create or an update asks to store. */
  function Submitted(op: Op): (string, string, Data)
    requires op.Create? || op.Update?
  {
    Meaning(op.plugin, op.collection, op.data)
  }

  lemma {:induction false} AddedRow(t: Table, id: string, r: Row, m: (string, string, Data))
    requires id !in t
    ensures |Holding(t[id := r], m)| == |Holding(t, m)| + if MeaningOf(r) == m then 1 else 0
  {
    assert Holding(t[id := r], m) == Holding(t, m) + if MeaningOf(r) == m then {id} else {};
  }

  lemma {:induction false} RemovedRow(t: Table, id: string, m: (string, string, Data))
    requires id in t
    ensures |Holding(t - {id}, m)| == |Holding(t, m)| - if MeaningOf(t[id]) == m then 1 else 0
  {
    assert Holding(t - {id}, m) == Holding(t, m) - {id};
  }

  /** What a report tells: a create or an update that reports a place has written the
      record, and one that reports a failure may have. */
  lemma {:induction false} AcceptsIff(reg: Registry, t: Table, op: Op)
    requires op.Create? || op.Update?
    ensures Accepts(reg, t, op) <==> Writes(reg, t, op) && op.call.Succeeds?
    ensures !Accepts(reg, t, op) ==> Step(reg, t, op).1.Internal?
    ensures !Writes(reg, t, op) ==> Step(reg, t, op).0 == t
  {
  }

  /** A create that writes lands in exactly one place: the collection if its data is
      valid, quarantine if not; nothing else changes, and one that does not write
      changes nothing. */
  lemma {:induction false} CreateLandsOnce(reg: Registry, t: Table, op: Op, m: (string, string, Data))
    requires op.Create?
    ensures
      var (t', outcome) := Step(reg, t, op);
      var valid := op.collection in reg ==> reg[op.collection](op.data);
      var writes := !op.call.Refused? && op.freshId !in t;
      && (Inserts(reg, t, op) <==> writes)
      && t' == (if !writes then t
                else if valid then t[op.freshId := Row(op.plugin, op.collection, op.data, 1)]
                else t[op.freshId := Row("core", "_quarantine", Entry(op.data, op.collection, op.plugin), 1)])
      && outcome == (if !writes || op.call.WroteThenFailed? then Internal
                     else if valid then Stored(op.freshId) else Quarantined(op.freshId))
      && |Holding(t', m)| == |Holding(t, m)| + if Inserts(reg, t, op) && Submitted(op) == m then 1 else 0
  {
    if Inserts(reg, t, op) {
      InsertedHolds(reg, op);
      AddedRow(t, op.freshId, InsertedRow(reg, op), m);
    }
  }

  lemma {:induction false} InsertedHolds(reg: Registry, op: Op)
    requires op.Create? || op.Update?
    ensures MeaningOf(InsertedRow(reg, op)) == Submitted(op)
  {
  }

  /** Reprocessing conserves what is held, whatever becomes of its calls: it moves
      the record, changes nothing, or leaves the record in both places, never in
      none. It leaves both exactly when the create wrote and then failed, or the
      delete did not write. */
  lemma {:induction false} ReprocessConserves(reg: Registry, t: Table, op: Op, m: (string, string, Data))
    requires op.Reprocess?
    ensures
      var (t', outcome) := Step(reg, t, op);
      && (LeavesBoth(reg, t, op) <==> PutsBack(reg, t, op) && (op.create.WroteThenFailed? || op.delete.Refused?))
      && (Clears(reg, t, op) ==> |t'| == |t| && op.id !in t' && op.freshId in t' && MeaningOf(t'[op.freshId]) == MeaningOf(t[op.id]))
      && (LeavesBoth(reg, t, op) ==> op.id in t' && op.freshId in t' && MeaningOf(t'[op.id]) == MeaningOf(t'[op.freshId]))
      && (!PutsBack(reg, t, op) ==> t' == t)
      && (outcome.Stored? <==> Clears(reg, t, op) && op.delete.Succeeds?)
      && |Holding(t', m)| == |Holding(t, m)| + if LeavesBoth(reg, t, op) && MeaningOf(t[op.id]) == m then 1 else 0
  {
    if PutsBack(reg, t, op) {
      var e := t[op.id].data;
      var r := Row(e.plugin, e.collection, e.original, 1);
      assert MeaningOf(r) == MeaningOf(t[op.id]);
      AddedRow(t, op.freshId, r, m);
      if Clears(reg, t, op) {
        RemovedRow(t[op.freshId := r], op.id, m);
        assert |t[op.freshId := r]| == |t| + 1;
      }
    }
  }

  /** Reprocessing told from the table, the registry and the calls: when the record is
      back in its collection, when the entry is gone, and what is reported. */
  lemma {:induction false} ReprocessIff(reg: Registry, t: Table, op: Op)
    requires op.Reprocess?
    ensures
      var (t', outcome) := Step(reg, t, op);
      var found := op.id in t && t[op.id].plugin == "core" && t[op.id].collection == "_quarantine";
      var entry := found && t[op.id].data.Entry?;
      var invalid := entry && t[op.id].data.collection in reg && !reg[t[op.id].data.collection](t[op.id].data.original);
      var back := op.getOk && entry && !invalid && !op.create.Refused? && op.freshId !in t;
      var cleared := back && op.create.Succeeds? && !op.delete.Refused?;
      && (op.freshId !in t && op.freshId in t' <==> back)
      && (back ==> t'[op.freshId] == Row(t[op.id].data.plugin, t[op.id].data.collection, t[op.id].data.original, 1))
      && (op.id in t && op.id !in t' <==> cleared)
      && (forall id | id != op.id && id != op.freshId :: (id in t' <==> id in t) && (id in t ==> t'[id] == t[id]))
      && (!cleared && op.id in t ==> t'[op.id] == t[op.id])
      && (!back ==> t' == t)
      && outcome == (if op.getOk && !found then NotFound
                     else if op.getOk && invalid then Rejected
                     else if cleared && op.delete.Succeeds? then Stored(op.freshId)
                     else Internal)
  {
  }

  /** The update replaces a row that stands for `m`. */
  predicate Overwrites(reg: Registry, t: Table, op: Op, m: (string, string, Data)) {
    Replaces(reg, t, op) && MeaningOf(t[op.id]) == m
  }

  /** The operation puts one more row for `m` in place. */
  predicate Adds(reg: Registry, t: Table, op: Op, m: (string, string, Data)) {
    if op.Reprocess? then LeavesBoth(reg, t, op) && MeaningOf(t[op.id]) == m
    else Writes(reg, t, op) && Submitted(op) == m
  }

  lemma {:induction false} ReplacedRow(t: Table, id: string, r: Row, m: (string, string, Data))
    requires id in t
    ensures |Holding(t[id := r], m)| == |Holding(t, m)| - (if MeaningOf(t[id]) == m then 1 else 0) + if MeaningOf(r) == m then 1 else 0
  {
    RemovedRow(t, id, m);
    AddedRow(t - {id}, id, r, m);
    assert (t - {id})[id := r] == t[id := r];
  }

  /** An update whose data is invalid adds the new version to quarantine; one that
      replaces its row gives up exactly what the row stood for, whatever it reports.
      So an update of an entry in quarantine loses the record held there, unless it
      writes it again. */
  lemma {:induction false} UpdateConserves(reg: Registry, t: Table, op: Op, m: (string, string, Data))
    requires op.Update?
    ensures |Holding(Step(reg, t, op).0, m)|
         == |Holding(t, m)| + (if Adds(reg, t, op, m) then 1 else 0) - if Overwrites(reg, t, op, m) then 1 else 0
  {
    InsertedHolds(reg, op);
    if Inserts(reg, t, op) {
      AddedRow(t, op.freshId, InsertedRow(reg, op), m);
    } else if Replaces(reg, t, op) {
      ReplacedRow(t, op.id, Row(op.plugin, op.collection, op.data, op.version + 1), m);
    }
  }

  /** An entry that alone holds its record: an update that names it loses the record
      exactly when its data is valid for the collection it gives, collection,
      plugin and version are the entry's, the data stands for something else, and
      the call writes. The report may be a success or a failure. */
  lemma {:induction false} EntryIsLostIff(reg: Registry, t: Table, op: Op)
    requires op.Update? && op.id in t && t[op.id].plugin == "core" && t[op.id].collection == "_quarantine"
    requires Holding(t, MeaningOf(t[op.id])) == {op.id}
    ensures Holding(Step(reg, t, op).0, MeaningOf(t[op.id])) == {}
       <==> && (op.collection in reg ==> reg[op.collection](op.data))
            && op.plugin == "core" && op.collection == "_quarantine" && op.version == t[op.id].version
            && Submitted(op) != MeaningOf(t[op.id]) && !op.call.Refused?
  {
    UpdateConserves(reg, t, op, MeaningOf(t[op.id]));
  }

  /** A quarantined note, overwritten with another document: gone, and with a call
      that fails after the write gone without a report of it. */
  lemma {:induction false} NoteIsOverwritten(text: string, other: string, call: Fate)
    requires !call.Refused?
    ensures
      var note := Entry(Document(text), "notes", "p");
      var t := map["q" := Row("core", "_quarantine", note, 1)];
      var (t', outcome) := Step(map[], t, Update("core", "_quarantine", "q", Document(other), 1, "f", call));
      && Holding(t, ("p", "notes", Document(text))) == {"q"} && Holding(t', ("p", "notes", Document(text))) == {}
      && (outcome.Internal? <==> call.WroteThenFailed?)
  {
    var note := Entry(Document(text), "notes", "p");
    var t := map["q" := Row(CORE, QUARANTINE, note, 1)];
    assert |CORE| == 4 && |"p"| == 1;
    assert Meaning("p", "notes", Document(text)) == ("p", "notes", Document(text));
    assert Meaning(CORE, QUARANTINE, note) == Meaning("p", "notes", Document(text));
    assert MeaningOf(t["q"]) == ("p", "notes", Document(text));
    EntryIsLostIff(map[], t, Update(CORE, QUARANTINE, "q", Document(other), 1, "f", call));
  }

  lemma {:induction false} StepConserves(reg: Registry, t: Table, op: Op, m: (string, string, Data))
    ensures |Holding(Step(reg, t, op).0, m)|
         == |Holding(t, m)| + (if Adds(reg, t, op, m) then 1 else 0) - if Overwrites(reg, t, op, m) then 1 else 0
  {
    match op
    case Create(_, _, _, _, _) => CreateLandsOnce(reg, t, op, m);
    case Update(_, _, _, _, _, _, _) => UpdateConserves(reg, t, op, m);
    case Reprocess(_, _, _, _, _) => ReprocessConserves(reg, t, op, m);
  }

  /** How often the run put one more row for `m` in place. */
  function Gains(reg: Registry, t: Table, ops: seq<Op>, m: (string, string, Data)): nat {
    if ops == [] then 0 else
    var before, op := ops[..|ops| - 1], ops[|ops| - 1];
    Gains(reg, t, before, m) + if Adds(reg, Run(reg, t, before), op, m) then 1 else 0
  }

  /** How often the run replaced a row for `m`. */
  function Losses(reg: Registry, t: Table, ops: seq<Op>, m: (string, string, Data)): nat {
    if ops == [] then 0 else
    var before, op := ops[..|ops| - 1], ops[|ops| - 1];
    Losses(reg, t, before, m) + if Overwrites(reg, Run(reg, t, before), op, m) then 1 else 0
  }

  /** Conservation over every run, whatever becomes of the storage calls: the rows
      that stand for a record are those at the start, one for each create or update
      of it that wrote and for each reprocess that left its entry, less one for each
      update that replaced such a row. */
  lemma {:induction false} RunConserves(reg: Registry, t: Table, ops: seq<Op>, m: (string, string, Data))
    ensures |Holding(Run(reg, t, ops), m)| + Losses(reg, t, ops, m) == |Holding(t, m)| + Gains(reg, t, ops, m)
  {
    if ops != [] {
      var before, op := ops[..|ops| - 1], ops[|ops| - 1];
      RunConserves(reg, t, before, m);
      StepConserves(reg, Run(reg, t, before), op, m);
    }
  }

  lemma {:induction false} LossHasUpdate(reg: Registry, t: Table, ops: seq<Op>, m: (string, string, Data))
    requires Losses(reg, t, ops, m) > 0
    ensures exists i | 0 <= i < |ops| :: Overwrites(reg, Run(reg, t, ops[..i]), ops[i], m)
  {
    var n := |ops| - 1;
    if !Overwrites(reg, Run(reg, t, ops[..n]), ops[n], m) {
      LossHasUpdate(reg, t, ops[..n], m);
      var i :| 0 <= i < n && Overwrites(reg, Run(reg, t, ops[..n][..i]), ops[..n][i], m);
      assert ops[..n][..i] == ops[..i] && ops[..n][i] == ops[i];
    }
  }

  /** A create or update that wrote, and so every one that reports a place, stays
      held whatever becomes of the storage calls after it, unless an update replaced
      a row that held it. */
  lemma {:induction false} NothingLost(reg: Registry, t: Table, op: Op, ops: seq<Op>)
    requires (op.Create? || op.Update?) && (Accepts(reg, t, op) || Writes(reg, t, op))
    ensures
      var t1 := Step(reg, t, op).0;
      || (exists id | id in Run(reg, t1, ops) :: MeaningOf(Run(reg, t1, ops)[id]) == Submitted(op))
      || (exists i | 0 <= i < |ops| :: Overwrites(reg, Run(reg, t1, ops[..i]), ops[i], Submitted(op)))
  {
    var t1, m := Step(reg, t, op).0, Submitted(op);
    AcceptsIff(reg, t, op);
    WrittenIsHeld(reg, t, op);
    RunConserves(reg, t1, ops, m);
    if Losses(reg, t1, ops, m) > 0 {
      LossHasUpdate(reg, t1, ops, m);
    } else {
      var held := Holding(Run(reg, t1, ops), m);
      assert |held| > 0;
      var id :| id in held;
    }
  }

  lemma {:induction false} WrittenIsHeld(reg: Registry, t: Table, op: Op)
    requires (op.Create? || op.Update?) && Writes(reg, t, op)
    ensures |Holding(Step(reg, t, op).0, Submitted(op))| > 0
  {
    InsertedHolds(reg, op);
    var id := if Inserts(reg, t, op) then op.freshId else op.id;
    assert id in Holding(Step(reg, t, op).0, Submitted(op));
  }

  /** An update whose data is invalid leaves the record as it was and quarantines
      the new version; a valid one replaces exactly the record of that version. */
  lemma {:induction false} UpdateKeepsRecord(reg: Registry, t: Table, op: Op)
    requires op.Update?
    ensures
      var (t', outcome) := Step(reg, t, op);
      var valid := op.collection in reg ==> reg[op.collection](op.data);
      var inserts := !valid && !op.call.Refused? && op.freshId !in t;
      var swapped := && valid && !op.call.Refused? && op.id in t
                      && t[op.id].plugin == op.plugin && t[op.id].collection == op.collection && t[op.id].version == op.version;
      && (!valid ==> forall id | id in t :: id in t' && t'[id] == t[id])
      && t' == (if inserts then t[op.freshId := Row("core", "_quarantine", Entry(op.data, op.collection, op.plugin), 1)]
                else if swapped then t[op.id := Row(op.plugin, op.collection, op.data, op.version + 1)]
                else t)
      && (inserts ==> MeaningOf(t'[op.freshId]) == Submitted(op))
      && outcome == (if inserts && op.call.Succeeds? then Quarantined(op.freshId)
                     else if swapped && op.call.Succeeds? then Stored(op.id)
                     else Internal)
  {
    InsertedHolds(reg, op);
  }
}
