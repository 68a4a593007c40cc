/**
 * The table of known protocols of
 * Library/ProtocolGuidDatabaseLib/ProtocolGuidDatabaseLib.c.
 *
 * The table itself (GUID_DB) is generated at build time, so the model takes it
 * as a parameter: a non-empty sequence of (GUID, name) entries, the static
 * assertion KNOWN_GUID_COUNT > 0 being the subset-type constraint.
 */
module ProtocolGuidDatabase {
  import opened Wrappers
  import opened Uefi

  /** KNOWN_PROTOCOL_DB_ENTRY */
  datatype KnownProtocolEntry = KnownProtocolEntry(guid: Guid, name: string)

  /** gProtocolDatabase: never empty. */
  type ProtocolDatabase = db: seq<KnownProtocolEntry> | 0 < |db|
    witness [KnownProtocolEntry(LoadedImageProtocolGuid, "EFI_LOADED_IMAGE_PROTOCOL_GUID")]

  /** The scan of GetProtocolName from `index` on: the name of the first entry
      at or after `index` whose GUID equals `g`. */
  function FindName(db: ProtocolDatabase, g: Guid, index: nat): (r: Option<string>)
    requires index <= |db|
    ensures r.None? <==> forall j :: index <= j < |db| ==> db[j].guid != g
    ensures r.Some? ==> exists i :: index <= i < |db| && db[i].guid == g && r.value == db[i].name &&
                                    forall j :: index <= j < i ==> db[j].guid != g
    decreases |db| - index
  {
    if index == |db| then None
    else if db[index].guid == g then Some(db[index].name)
    else FindName(db, g, index + 1)
  }

  /** GetProtocolName: NULL for a NULL GUID; otherwise the name of the first
      table entry with that GUID, or NULL if there is none. */
  function GetProtocolName(db: ProtocolDatabase, guid: Option<Guid>): (r: Option<string>)
    ensures guid.None? ==> r.None?
    ensures guid.Some? ==> (r.None? <==> forall j :: 0 <= j < |db| ==> db[j].guid != guid.value)
    ensures guid.Some? && r.Some? ==>
      exists i :: 0 <= i < |db| && db[i].guid == guid.value && r.value == db[i].name &&
                  forall j :: 0 <= j < i ==> db[j].guid != guid.value
  {
    if guid.None? then None else FindName(db, guid.value, 0)
  }

  /** GetProtocolGuidCount: the number of table entries, which is positive. */
  function GetProtocolGuidCount(db: ProtocolDatabase): (n: nat)
    ensures 0 < n && n == |db|
  {
    |db|
  }

  /** GetProtocolGuid: NULL exactly for an index at or past the count (the
      range is half-open although its comment describes it as closed),
      otherwise the GUID of that entry. */
  function GetProtocolGuid(db: ProtocolDatabase, index: nat): (r: Option<Guid>)
    ensures r.None? <==> GetProtocolGuidCount(db) <= index
    ensures r.Some? ==> r.value == db[index].guid
  {
    if index >= |db| then None else Some(db[index].guid)
  }

  /** Every GUID the index lookup yields has a name, namely that of the first
      entry carrying the same GUID, which is at or before the index. Callers
      that walk the table with GetProtocolGuid can always name what they see. */
  lemma EveryIndexedGuidIsNamed(db: ProtocolDatabase, index: nat)
    requires index < GetProtocolGuidCount(db)
    ensures GetProtocolGuid(db, index).Some?
    ensures GetProtocolName(db, GetProtocolGuid(db, index)).Some?
    ensures exists i :: 0 <= i <= index && db[i].guid == db[index].guid &&
                        GetProtocolName(db, GetProtocolGuid(db, index)) == Some(db[i].name)
  {
    var g := db[index].guid;
    assert db[index].guid == g;
    var r := GetProtocolName(db, Some(g));
    assert r.Some?;
    var i :| 0 <= i < |db| && db[i].guid == g && r.value == db[i].name &&
             forall j :: 0 <= j < i ==> db[j].guid != g;
    assert i <= index;
  }

  /** With pairwise distinct GUIDs the two lookups are inverse: the name found
      for entry i's GUID is entry i's own name. */
  lemma DistinctTableLookup(db: ProtocolDatabase, index: nat)
    requires index < |db|
    requires forall i, j :: 0 <= i < j < |db| ==> db[i].guid != db[j].guid
    ensures GetProtocolName(db, GetProtocolGuid(db, index)) == Some(db[index].name)
  {
    EveryIndexedGuidIsNamed(db, index);
  }
}
