/** The in-memory credential vault: records with a version each, changed by compare-and-set. */
module Vault {
  import opened Prelude

  type RecordId = string
  type Bytes = seq<bv8>

  datatype Record = Record(value: Bytes, version: nat)

  type Records = map<RecordId, Record>

  datatype VaultError =
    | BadVersion
    | BadValue
    | Changed(id: RecordId, expected: Option<int>, actual: Option<int>)

  const MAX_SECRET_BYTES := 1024 * 1024

  predicate Storable(value: Bytes) {
    0 < |value| <= MAX_SECRET_BYTES
  }

  function VersionOf(records: Records, id: RecordId): Option<int> {
    if id in records then Some(records[id].version) else None
  }

  /** What a put stores: the next version of the record, the first one for a new record. */
  function Successor(records: Records, id: RecordId, value: Bytes): Record {
    Record(value, if id in records then records[id].version + 1 else 1)
  }

  class Vault {
    var entries: Records

    ghost predicate Valid()
      reads this
    {
      forall id :: id in entries ==> entries[id].version > 0 && Storable(entries[id].value)
    }

    constructor (entries: Records)
      requires forall id :: id in entries ==> entries[id].version > 0 && Storable(entries[id].value)
      ensures Valid() && this.entries == entries
    {
      this.entries := entries;
    }

    /** Stores a value exactly when the caller names the version it replaces. */
    method Put(id: RecordId, value: Bytes, expected: Option<int>) returns (r: Result<nat, VaultError>)
      requires Valid()
      modifies this
      ensures Valid()
      ensures r.Ok? <==>
                && expected == (if id in old(entries) then Some(old(entries)[id].version) else None)
                && 0 < |value| <= 1024 * 1024
      ensures r.Ok? ==> r.value == if id in old(entries) then old(entries)[id].version + 1 else 1
      ensures r.Ok? ==> id in entries && entries[id] == Record(value, r.value)
      ensures r.Ok? <==> expected == VersionOf(old(entries), id) && Storable(value)
      ensures r.Ok? ==> r.value == Successor(old(entries), id, value).version
      ensures entries == if r.Ok? then old(entries)[id := Successor(old(entries), id, value)] else old(entries)
      ensures r.Err? && r.error.BadValue? ==> expected == VersionOf(entries, id)
      ensures r.Err? && r.error.BadVersion? ==> expected.Some? && expected.value <= 0
      ensures r.Err? && r.error.Changed? ==> r.error == Changed(id, expected, VersionOf(entries, id))
    {
      if expected.Some? && expected.value <= 0 { return Err(BadVersion); }
      var actual: Option<int> := if id in entries then Some(entries[id].version) else None;
      if actual != expected { return Err(Changed(id, expected, actual)); }
      if |value| == 0 || |value| > MAX_SECRET_BYTES { return Err(BadValue); }
      var version: nat := (if actual.Some? then actual.value else 0) + 1;
      entries := entries[id := Record(value, version)];
      r := Ok(version);
    }

    method Remove(id: RecordId, expected: int) returns (r: Result<(), VaultError>)
      requires Valid()
      modifies this
      ensures Valid()
      ensures r.Ok? <==> id in old(entries) && old(entries)[id].version == expected
      ensures entries == if r.Ok? then old(entries) - {id} else old(entries)
      ensures r.Err? ==>
                r.error == if expected <= 0 then BadVersion else Changed(id, Some(expected), VersionOf(entries, id))
    {
      if expected <= 0 { return Err(BadVersion); }
      var actual: Option<int> := if id in entries then Some(entries[id].version) else None;
      if actual != Some(expected) { return Err(Changed(id, Some(expected), actual)); }
      entries := entries - {id};
      r := Ok(());
    }

    method Read(id: RecordId) returns (value: Option<Bytes>)
      ensures value == if id in entries then Some(entries[id].value) else None
    {
      if id in entries { return Some(entries[id].value); }
      return None;
    }
  }
}
