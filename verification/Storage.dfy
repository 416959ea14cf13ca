/** The `plugin_data` table behind the storage adapters. Its primary key is the
    record id alone; plugin and collection are ordinary columns that every
    statement filters on. */
module Storage {
  import opened Text

  datatype Row = Row(pluginId: string, collection: string, data: string, version: int)

  type Table = map<string, Row>

  predicate Owned(t: Table, plugin: string, collection: string, id: string) {
    id in t && t[id].pluginId == plugin && t[id].collection == collection
  }

  /** `SELECT … WHERE id = $1 AND plugin_id = $2 AND collection = $3`. */
  function Lookup(t: Table, plugin: string, collection: string, id: string): Option<Row> {
    if Owned(t, plugin, collection, id) then Some(t[id]) else None
  }

  /** What becomes of a call that writes. No transaction holds its statements
      together: when the audit entry or the reading back after the write fails, the
      call reports an error and the row stays written. */
  datatype Fate = Succeeds | Refused | WroteThenFailed {
    predicate Writes() { !Refused? }
  }

  datatype UpdateResult = Updated | NotFound | VersionMismatch | Failed

  class StorageAdapter {
    var rows: Table

    method Get(plugin: string, collection: string, id: string) returns (r: Option<Row>)
      ensures r == Lookup(rows, plugin, collection, id)
    {
      if id in rows && rows[id].pluginId == plugin && rows[id].collection == collection {
        r := Some(rows[id]);
      } else {
        r := None;
      }
    }

    /** Inserts at version 1; fails on any row with this id, whoever owns it. */
    method CreateWithId(plugin: string, collection: string, id: string, data: string, fate: Fate := Succeeds) returns (ok: bool)
      modifies this
      ensures ok <==> id !in old(rows) && fate.Succeeds?
      ensures rows == if id !in old(rows) && !fate.Refused? then old(rows)[id := Row(plugin, collection, data, 1)] else old(rows)
    {
      if id in rows || fate.Refused? {
        return false;
      }
      rows := rows[id := Row(plugin, collection, data, 1)];
      ok := fate.Succeeds?;
    }

    /** Compare-and-set on the version. */
    method Update(plugin: string, collection: string, id: string, data: string, version: int, fate: Fate := Succeeds) returns (r: UpdateResult)
      modifies this
      ensures r == (if fate.Refused? then Failed else
                    match Lookup(old(rows), plugin, collection, id)
                    case None => NotFound
                    case Some(row) =>
                      if row.version != version then VersionMismatch else if fate.Succeeds? then Updated else Failed)
      ensures rows == if !fate.Refused? && Owned(old(rows), plugin, collection, id) && old(rows)[id].version == version
                      then old(rows)[id := Row(plugin, collection, data, version + 1)] else old(rows)
    {
      if fate.Refused? {
        return Failed;
      }
      if !(id in rows && rows[id].pluginId == plugin && rows[id].collection == collection) {
        r := NotFound;
      } else if rows[id].version != version {
        r := VersionMismatch;
      } else {
        rows := rows[id := Row(plugin, collection, data, version + 1)];
        r := if fate.Succeeds? then Updated else Failed;
      }
    }

    /** `None` is an error; a row that is not there is no error, and audits nothing. */
    method Delete(plugin: string, collection: string, id: string, fate: Fate := Succeeds) returns (deleted: Option<bool>)
      modifies this
      ensures deleted == (if fate.Refused? then None
                          else if !Owned(old(rows), plugin, collection, id) then Some(false)
                          else if fate.Succeeds? then Some(true) else None)
      ensures rows == if !fate.Refused? && Owned(old(rows), plugin, collection, id) then old(rows) - {id} else old(rows)
    {
      if fate.Refused? {
        return None;
      }
      if !(id in rows && rows[id].pluginId == plugin && rows[id].collection == collection) {
        return Some(false);
      }
      rows := rows - {id};
      deleted := if fate.Succeeds? then Some(true) else None;
    }
  }
}
