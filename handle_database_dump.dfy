/**
 * Set operations over snapshots of the handle database, from
 * Library/HandleDatabaseDumpLib/HandleDatabaseDumpLib.c.
 *
 * A dump is a VECTOR of HANDLE_DATABASE_ENTRY, each entry a handle and a
 * VECTOR of the GUIDs of the protocols installed on it. The operations build
 * an output VECTOR with nested FOR_EACH_VCT loops and destroy it again when a
 * push fails. Each is specified by a function on the abstract contents of its
 * inputs; AllocatePool outcomes are parameters: `constructOk` for the
 * Vector_Construct of the output and `allocOk(k)` for the growth allocation of
 * the push made when the output holds k elements.
 */
module HandleDatabaseDump {
  import opened Wrappers
  import opened Uefi
  import opened VectorLib

  /** sizeof (EFI_GUID) and sizeof (EFI_HANDLE) on a 64-bit target. */
  const GuidSize: nat := 16
  const HandleSize: nat := 8

  /** HANDLE_DATABASE_ENTRY: the VECTOR member is embedded in the C struct;
      here it is a reference to the vector object. */
  datatype HandleDatabaseEntry = HandleDatabaseEntry(handle: Handle, installedProtocolGuids: Vector?<Guid>)

  /** The abstract contents of one entry. */
  datatype EntryValue = EntryValue(handle: Handle, guids: seq<Guid>)

  /** The GUID vectors of the entries in use. */
  ghost function InnerVectors(dump: Vector<HandleDatabaseEntry>): set<Vector?<Guid>>
    reads dump, dump.allocatedMemory
  {
    set i | 0 <= i < dump.allocatedMemory.Length && i < dump.countUsed :: dump.allocatedMemory[i].installedProtocolGuids
  }

  /** `dump` is a constructed dump whose entries hold constructed GUID vectors
      with the contents `entries`; `repr` holds the dump, the entry vectors and
      their buffers. */
  ghost predicate Represents(dump: Vector<HandleDatabaseEntry>, entries: seq<EntryValue>, repr: set<object>)
    reads repr
  {
    dump in repr && dump.allocatedMemory in repr &&
    dump.Constructed() && |dump.Items()| == |entries| &&
    forall i :: 0 <= i < |entries| ==>
      var e := dump.allocatedMemory[i];
      e.handle == entries[i].handle && e.installedProtocolGuids != null &&
      e.installedProtocolGuids in repr && e.installedProtocolGuids.allocatedMemory in repr &&
      e.installedProtocolGuids.Constructed() && e.installedProtocolGuids.Items() == entries[i].guids
  }

  // ---------------------------------------------------------------------------
  // Specification functions

  /** Every GUID of every entry, entry by entry. */
  function AllGuids(entries: seq<EntryValue>): seq<Guid>
  {
    if entries == [] then [] else AllGuids(entries[..|entries| - 1]) + entries[|entries| - 1].guids
  }

  /** `s` with repetitions removed, each element kept at its first appearance. */
  function Dedup<T(==)>(s: seq<T>): seq<T>
  {
    if s == [] then []
    else
      var d := Dedup(s[..|s| - 1]);
      if s[|s| - 1] in d then d else d + [s[|s| - 1]]
  }

  /** What PeekAllProtocols produces. */
  function AllProtocols(entries: seq<EntryValue>): seq<Guid>
  {
    Dedup(AllGuids(entries))
  }

  /** What PeekHandlesWithProtocol produces: in dump order, the handle of every
      entry carrying `g`, once per entry. */
  function HandlesWithProtocol(entries: seq<EntryValue>, g: Guid): seq<Handle>
  {
    if entries == [] then []
    else
      var e := entries[|entries| - 1];
      HandlesWithProtocol(entries[..|entries| - 1], g) + (if g in e.guids then [e.handle] else [])
  }

  /** What GetAddedHandles produces: the elements of `newer` absent from
      `older`, in the order of `newer`. */
  function AddedHandles(older: seq<Handle>, newer: seq<Handle>): seq<Handle>
  {
    if newer == [] then []
    else AddedHandles(older, newer[..|newer| - 1]) + (if newer[|newer| - 1] in older then [] else [newer[|newer| - 1]])
  }

  // ---------------------------------------------------------------------------
  // Properties of the specification functions

  ghost predicate NoDuplicates<T>(s: seq<T>)
  {
    forall i, j :: 0 <= i < j < |s| ==> s[i] != s[j]
  }

  lemma {:induction false} DedupMembers<T>(s: seq<T>)
    ensures NoDuplicates(Dedup(s))
    ensures forall x :: x in Dedup(s) <==> x in s
  {
    if s != [] {
      var init := s[..|s| - 1];
      DedupMembers(init);
      assert s == init + [s[|s| - 1]];
    }
  }

  /** The index of the first occurrence of `x` in `s`. */
  function FirstIndex<T(==)>(s: seq<T>, x: T): (k: nat)
    requires x in s
    ensures k < |s| && s[k] == x && forall j :: 0 <= j < k ==> s[j] != x
  {
    if s[0] == x then 0 else 1 + FirstIndex(s[1..], x)
  }

  lemma FirstIndexOfPrefix<T>(s: seq<T>, n: nat, x: T)
    requires n <= |s| && x in s[..n]
    ensures x in s && FirstIndex(s, x) == FirstIndex(s[..n], x)
  {
    var k := FirstIndex(s[..n], x);
    assert s[k] == x;
    var k' := FirstIndex(s, x);
    assert k' <= k;
    assert s[..n][k'] == x;
  }

  lemma FirstIndexOfNewLast<T>(s: seq<T>)
    requires s != [] && s[|s| - 1] !in s[..|s| - 1]
    ensures FirstIndex(s, s[|s| - 1]) == |s| - 1
  {
  }

  /** The elements Dedup keeps appear in the order of their first occurrence. */
  lemma {:induction false} DedupOrder<T>(s: seq<T>)
    ensures forall x :: x in Dedup(s) ==> x in s
    ensures forall i, j :: 0 <= i < j < |Dedup(s)| ==> FirstIndex(s, Dedup(s)[i]) < FirstIndex(s, Dedup(s)[j])
  {
    DedupMembers(s);
    if s != [] {
      var init := s[..|s| - 1];
      var last := s[|s| - 1];
      var d := Dedup(init);
      DedupOrder(init);
      DedupMembers(init);
      var r := Dedup(s);
      assert r == if last in d then d else d + [last];
      if last !in d {
        FirstIndexOfNewLast(s);
      }
      forall i, j | 0 <= i < j < |r|
        ensures FirstIndex(s, r[i]) < FirstIndex(s, r[j])
      {
        assert r[i] == d[i];
        FirstIndexOfPrefix(s, |s| - 1, d[i]);
        if j < |d| {
          assert r[j] == d[j];
          FirstIndexOfPrefix(s, |s| - 1, d[j]);
        }
      }
    }
  }

  lemma {:induction false} AllGuidsMembers(entries: seq<EntryValue>, g: Guid)
    ensures g in AllGuids(entries) <==> exists i :: 0 <= i < |entries| && g in entries[i].guids
  {
    if entries != [] {
      var init := entries[..|entries| - 1];
      AllGuidsMembers(init, g);
      if g in entries[|entries| - 1].guids {
        assert g in AllGuids(entries);
      }
      if exists i :: 0 <= i < |entries| && g in entries[i].guids {
        var i :| 0 <= i < |entries| && g in entries[i].guids;
        if i < |entries| - 1 {
          assert init[i] == entries[i];
        }
      }
    }
  }

  /** PeekAllProtocols lists each GUID once, and exactly the GUIDs installed on
      some entry, in the order of first appearance over the dump. */
  lemma AllProtocolsProperties(entries: seq<EntryValue>)
    ensures NoDuplicates(AllProtocols(entries))
    ensures forall g :: g in AllProtocols(entries) <==> g in AllGuids(entries)
    ensures forall g :: g in AllProtocols(entries) <==> exists i :: 0 <= i < |entries| && g in entries[i].guids
    ensures forall i, j :: 0 <= i < j < |AllProtocols(entries)| ==>
      FirstIndex(AllGuids(entries), AllProtocols(entries)[i]) < FirstIndex(AllGuids(entries), AllProtocols(entries)[j])
  {
    DedupMembers(AllGuids(entries));
    DedupOrder(AllGuids(entries));
    forall g ensures g in AllProtocols(entries) <==> exists i :: 0 <= i < |entries| && g in entries[i].guids {
      AllGuidsMembers(entries, g);
    }
  }

  /** PeekHandlesWithProtocol: a handle is listed iff some entry with that
      handle carries the GUID, and at most one handle per entry is listed. */
  lemma {:induction false} HandlesWithProtocolProperties(entries: seq<EntryValue>, g: Guid)
    ensures |HandlesWithProtocol(entries, g)| <= |entries|
    ensures forall h :: h in HandlesWithProtocol(entries, g) <==>
      exists i :: 0 <= i < |entries| && entries[i].handle == h && g in entries[i].guids
  {
    if entries != [] {
      var init := entries[..|entries| - 1];
      HandlesWithProtocolProperties(init, g);
      forall h ensures h in HandlesWithProtocol(entries, g) <==>
        exists i :: 0 <= i < |entries| && entries[i].handle == h && g in entries[i].guids
      {
        if exists i :: 0 <= i < |entries| && entries[i].handle == h && g in entries[i].guids {
          var i :| 0 <= i < |entries| && entries[i].handle == h && g in entries[i].guids;
          if i < |entries| - 1 {
            assert init[i] == entries[i];
          }
        }
        if h in HandlesWithProtocol(init, g) {
          var i :| 0 <= i < |init| && init[i].handle == h && g in init[i].guids;
          assert entries[i] == init[i];
        }
      }
    }
  }

  /** GetAddedHandles is the ordered difference New \ Old: membership both
      ways, and the order of `newer` kept (it is a subsequence of it). */
  lemma {:induction false} AddedHandlesProperties(older: seq<Handle>, newer: seq<Handle>)
    ensures forall h :: h in AddedHandles(older, newer) <==> h in newer && h !in older
    ensures |AddedHandles(older, newer)| <= |newer|
    ensures NoDuplicates(newer) ==> NoDuplicates(AddedHandles(older, newer))
  {
    if newer != [] {
      var init := newer[..|newer| - 1];
      AddedHandlesProperties(older, init);
      assert newer == init + [newer[|newer| - 1]];
      if NoDuplicates(newer) {
        assert NoDuplicates(init);
        assert newer[|newer| - 1] !in init;
      }
    }
  }

  /** Nothing of `older` is added, and with nothing old everything is. */
  lemma {:induction false} AddedHandlesExtremes(older: seq<Handle>, newer: seq<Handle>)
    ensures AddedHandles([], newer) == newer
    ensures AddedHandles(older, older) == []
  {
    AddedHandlesOfEmpty(newer);
    AddedHandlesOfSelf(older, older);
  }

  lemma {:induction false} AddedHandlesOfEmpty(newer: seq<Handle>)
    ensures AddedHandles([], newer) == newer
  {
    if newer != [] {
      AddedHandlesOfEmpty(newer[..|newer| - 1]);
    }
  }

  lemma {:induction false} AddedHandlesOfSelf(older: seq<Handle>, newer: seq<Handle>)
    requires forall h :: h in newer ==> h in older
    ensures AddedHandles(older, newer) == []
  {
    if newer != [] {
      AddedHandlesOfSelf(older, newer[..|newer| - 1]);
    }
  }

  lemma {:induction false} DedupOfPrefix<T>(s: seq<T>, t: seq<T>)
    requires s <= t
    ensures Dedup(s) <= Dedup(t)
    decreases |t|
  {
    if s != t {
      var init := t[..|t| - 1];
      assert s <= init;
      DedupOfPrefix(s, init);
    }
  }

  lemma AllGuidsStep(entries: seq<EntryValue>, i: nat)
    requires i < |entries|
    ensures AllGuids(entries[..i + 1]) == AllGuids(entries[..i]) + entries[i].guids
  {
    assert entries[..i + 1][..i] == entries[..i];
  }

  lemma {:induction false} AllGuidsOfPrefix(entries: seq<EntryValue>, i: nat)
    requires i <= |entries|
    ensures AllGuids(entries[..i]) <= AllGuids(entries)
    decreases |entries| - i
  {
    if i < |entries| {
      AllGuidsStep(entries, i);
      AllGuidsOfPrefix(entries, i + 1);
    } else {
      assert entries[..i] == entries;
    }
  }

  lemma HandlesWithProtocolStep(entries: seq<EntryValue>, i: nat, g: Guid)
    requires i < |entries|
    ensures HandlesWithProtocol(entries[..i + 1], g) ==
      HandlesWithProtocol(entries[..i], g) + (if g in entries[i].guids then [entries[i].handle] else [])
  {
    assert entries[..i + 1][..i] == entries[..i];
  }

  lemma {:induction false} HandlesWithProtocolOfPrefix(entries: seq<EntryValue>, i: nat, g: Guid)
    requires i <= |entries|
    ensures HandlesWithProtocol(entries[..i], g) <= HandlesWithProtocol(entries, g)
    decreases |entries| - i
  {
    if i < |entries| {
      HandlesWithProtocolStep(entries, i, g);
      HandlesWithProtocolOfPrefix(entries, i + 1, g);
    } else {
      assert entries[..i] == entries;
    }
  }

  lemma AddedHandlesStep(older: seq<Handle>, newer: seq<Handle>, i: nat)
    requires i < |newer|
    ensures AddedHandles(older, newer[..i + 1]) ==
      AddedHandles(older, newer[..i]) + (if newer[i] in older then [] else [newer[i]])
  {
    assert newer[..i + 1][..i] == newer[..i];
  }

  lemma {:induction false} AddedHandlesOfPrefix(older: seq<Handle>, newer: seq<Handle>, i: nat)
    requires i <= |newer|
    ensures AddedHandles(older, newer[..i]) <= AddedHandles(older, newer)
    decreases |newer| - i
  {
    if i < |newer| {
      AddedHandlesStep(older, newer, i);
      AddedHandlesOfPrefix(older, newer, i + 1);
    } else {
      assert newer[..i] == newer;
    }
  }

  // ---------------------------------------------------------------------------
  // Operations

  /** HandleDatabaseDump_Destruct: destructs the GUID vector of every entry,
      then the dump itself. A NULL dump is left alone. */
  method Destruct(dump: Vector?<HandleDatabaseEntry>)
    requires dump != null ==>
      dump.Constructed() &&
      forall i :: 0 <= i < dump.countUsed ==>
        dump.allocatedMemory[i].installedProtocolGuids != null && dump.allocatedMemory[i].installedProtocolGuids.Valid()
    modifies dump, if dump != null then InnerVectors(dump) else {}
    ensures dump != null ==>
      !dump.hasMemory && dump.countUsed == old(dump.countUsed) && dump.allocatedMemory == old(dump.allocatedMemory) &&
      forall i :: 0 <= i < dump.countUsed ==> !dump.allocatedMemory[i].installedProtocolGuids.hasMemory
  {
    if dump == null {
      return;
    }
    ghost var inner := InnerVectors(dump);
    var i := 0;
    while i < Size(dump)
      invariant i <= dump.countUsed
      invariant dump.Constructed() && dump.countUsed == old(dump.countUsed)
      invariant dump.allocatedMemory == old(dump.allocatedMemory)
      invariant forall k :: 0 <= k < dump.countUsed ==>
        dump.allocatedMemory[k].installedProtocolGuids != null && dump.allocatedMemory[k].installedProtocolGuids.Valid()
      invariant forall k :: 0 <= k < i ==> !dump.allocatedMemory[k].installedProtocolGuids.hasMemory
      modifies inner
    {
      var entry := Get(dump, i).value;
      assert entry.installedProtocolGuids in inner;
      VectorLib.Destruct(entry.installedProtocolGuids);
      i := i + 1;
    }
    VectorLib.Destruct(dump);
  }

  /** The AlreadyStored search of PeekAllProtocols: scans the output built so
      far and stops at the first equal GUID. */
  method IsAlreadyStored(protocols: Vector<Guid>, guid: Guid) returns (alreadyStored: bool)
    requires protocols.Constructed()
    ensures alreadyStored <==> guid in protocols.Items()
  {
    alreadyStored := false;
    var k := 0;
    while k < Size(protocols)
      invariant k <= protocols.countUsed
      invariant guid !in protocols.Items()[..k]
    {
      if Get(protocols, k).value == guid {
        alreadyStored := true;
        break;
      }
      k := k + 1;
    }
  }

  /** One iteration of the middle loop of PeekAllProtocols: `guid` is pushed
      unless it is stored already. `cur` is the part of the dump's GUID list
      `all` processed so far. */
  method StoreGuid(protocols: Vector<Guid>, guid: Guid, ghost cur: seq<Guid>, ghost all: seq<Guid>,
                   allocOk: nat -> bool)
    returns (status: Status)
    requires protocols.Constructed() && protocols.Items() == Dedup(cur) && cur + [guid] <= all
    modifies protocols, protocols.allocatedMemory
    ensures protocols.Valid()
    ensures protocols.allocatedMemory == old(protocols.allocatedMemory) || fresh(protocols.allocatedMemory)
    ensures status == Success ==> protocols.Constructed() && protocols.Items() == Dedup(cur + [guid])
    ensures status != Success ==>
      status == OutOfResources && !protocols.hasMemory && exists k :: 0 <= k < |Dedup(all)| && !allocOk(k)
  {
    assert (cur + [guid])[..|cur|] == cur;
    var alreadyStored := IsAlreadyStored(protocols, guid);
    status := Success;
    if !alreadyStored {
      status := PushBack(protocols, Some(guid), allocOk(Size(protocols)));
      if status.IsError() {
        DedupOfPrefix(cur + [guid], all);
        VectorLib.Destruct(protocols);
      }
    }
  }

  /** The body of the middle loop of PeekAllProtocols: StoreGuid for the
      j-th GUID of the entry. */
  method StoreGuidAt(protocols: Vector<Guid>, guids: Vector<Guid>, j: nat,
                     ghost done: seq<Guid>, ghost all: seq<Guid>, allocOk: nat -> bool)
    returns (status: Status)
    requires protocols.Constructed() && guids.Constructed()
    requires protocols != guids && protocols.allocatedMemory != guids.allocatedMemory
    requires j < guids.countUsed
    requires protocols.Items() == Dedup(done + guids.Items()[..j]) && done + guids.Items() <= all
    modifies protocols, protocols.allocatedMemory
    ensures protocols.Valid()
    ensures protocols.allocatedMemory == old(protocols.allocatedMemory) || fresh(protocols.allocatedMemory)
    ensures status == Success ==> protocols.Constructed() && protocols.Items() == Dedup(done + guids.Items()[..j + 1])
    ensures status != Success ==>
      status == OutOfResources && !protocols.hasMemory && exists k :: 0 <= k < |Dedup(all)| && !allocOk(k)
  {
    ghost var items := guids.Items();
    var guid := Get(guids, j).value;
    assert done + items[..j] + [guid] == done + items[..j + 1] <= done + items;
    status := StoreGuid(protocols, guid, done + items[..j], all, allocOk);
  }

  /** The middle loop of PeekAllProtocols, over the GUIDs of one entry. `done`
      is what the earlier entries contributed and `all` the dump's GUID list. */
  method StoreNewGuids(protocols: Vector<Guid>, guids: Vector<Guid>,
                       ghost done: seq<Guid>, ghost all: seq<Guid>, allocOk: nat -> bool)
    returns (status: Status)
    requires protocols.Constructed() && guids.Constructed()
    requires protocols != guids && protocols.allocatedMemory != guids.allocatedMemory
    requires protocols.Items() == Dedup(done) && done + guids.Items() <= all
    modifies protocols, protocols.allocatedMemory
    ensures protocols.Valid()
    ensures protocols.allocatedMemory == old(protocols.allocatedMemory) || fresh(protocols.allocatedMemory)
    ensures status == Success ==> protocols.Constructed() && protocols.Items() == Dedup(done + guids.Items())
    ensures status != Success ==>
      status == OutOfResources && !protocols.hasMemory && exists k :: 0 <= k < |Dedup(all)| && !allocOk(k)
  {
    status := Success;
    ghost var items := guids.Items();
    var j := 0;
    assert done + items[..0] == done;
    while j < Size(guids)
      invariant j <= guids.countUsed && guids.Items() == items
      invariant protocols.Constructed() && status == Success
      invariant protocols.allocatedMemory == old(protocols.allocatedMemory) || fresh(protocols.allocatedMemory)
      invariant protocols.Items() == Dedup(done + items[..j])
    {
      status := StoreGuidAt(protocols, guids, j, done, all, allocOk);
      if status.IsError() {
        return;
      }
      j := j + 1;
    }
    assert items[..j] == items;
  }

  /** The body of the outer loop of PeekAllProtocols, for entry i. */
  method StoreEntryGuids(dump: Vector<HandleDatabaseEntry>, protocols: Vector<Guid>,
                         ghost entries: seq<EntryValue>, ghost repr: set<object>, i: nat, allocOk: nat -> bool)
    returns (status: Status)
    requires Represents(dump, entries, repr) && i < |entries|
    requires protocols.Constructed() && protocols.Items() == Dedup(AllGuids(entries[..i]))
    requires protocols !in repr && protocols.allocatedMemory !in repr
    modifies protocols, protocols.allocatedMemory
    ensures protocols.Valid()
    ensures protocols.allocatedMemory == old(protocols.allocatedMemory) || fresh(protocols.allocatedMemory)
    ensures status == Success ==> protocols.Constructed() && protocols.Items() == Dedup(AllGuids(entries[..i + 1]))
    ensures status != Success ==>
      status == OutOfResources && !protocols.hasMemory && exists k :: 0 <= k < |AllProtocols(entries)| && !allocOk(k)
  {
    var guids := Get(dump, i).value.installedProtocolGuids;
    AllGuidsStep(entries, i);
    AllGuidsOfPrefix(entries, i + 1);
    status := StoreNewGuids(protocols, guids, AllGuids(entries[..i]), AllGuids(entries), allocOk);
  }

  /** The outer loop of PeekAllProtocols, over the entries of the dump. */
  method StoreAllGuids(dump: Vector<HandleDatabaseEntry>, protocols: Vector<Guid>,
                       ghost entries: seq<EntryValue>, ghost repr: set<object>, allocOk: nat -> bool)
    returns (status: Status)
    requires Represents(dump, entries, repr)
    requires protocols.Constructed() && protocols.Items() == []
    requires protocols !in repr && protocols.allocatedMemory !in repr
    modifies protocols, protocols.allocatedMemory
    ensures protocols.Valid()
    ensures status == Success ==> protocols.Constructed() && protocols.Items() == AllProtocols(entries)
    ensures status != Success ==>
      status == OutOfResources && !protocols.hasMemory &&
      exists k :: 0 <= k < |AllProtocols(entries)| && !allocOk(k)
  {
    status := Success;
    var i := 0;
    assert entries[..0] == [];
    while i < Size(dump)
      invariant i <= |entries| == dump.countUsed
      invariant Represents(dump, entries, repr)
      invariant protocols.Constructed() && status == Success
      invariant protocols.allocatedMemory == old(protocols.allocatedMemory) || fresh(protocols.allocatedMemory)
      invariant protocols.allocatedMemory !in repr
      invariant protocols.Items() == Dedup(AllGuids(entries[..i]))
    {
      status := StoreEntryGuids(dump, protocols, entries, repr, i, allocOk);
      if status.IsError() {
        return;
      }
      i := i + 1;
    }
    assert entries[..i] == entries;
  }

  /** HandleDatabaseDump_PeekAllProtocols: constructs `protocols` (capacity 64)
      and fills it with every GUID of the dump, each once, in order of first
      appearance. A push failure destroys `protocols` and returns the error. */
  method PeekAllProtocols(dump: Vector?<HandleDatabaseEntry>, protocols: Vector?<Guid>,
                          ghost entries: seq<EntryValue>, ghost repr: set<object>,
                          constructOk: bool, allocOk: nat -> bool)
    returns (status: Status)
    requires dump != null ==> Represents(dump, entries, repr)
    requires protocols != null ==> protocols.Valid() && protocols !in repr
    modifies protocols
    ensures dump == null || protocols == null ==> status == InvalidParameter
    ensures dump == null && protocols != null ==> unchanged(protocols)
    ensures dump != null && protocols != null ==> protocols.Valid()
    ensures dump != null && protocols != null && status == Success ==>
      protocols.Constructed() && protocols.Items() == AllProtocols(entries)
    ensures dump != null && protocols != null && status != Success ==>
      status == OutOfResources && !protocols.hasMemory &&
      (!constructOk || exists k :: 0 <= k < |AllProtocols(entries)| && !allocOk(k))
    ensures dump != null && protocols != null ==>
      (constructOk && forall k :: 0 <= k < |AllProtocols(entries)| ==> allocOk(k)) ==> status == Success
  {
    if dump == null || protocols == null {
      return InvalidParameter;
    }
    status := Construct(protocols, GuidSize, 64, constructOk);
    if status.IsError() {
      return;
    }
    status := StoreAllGuids(dump, protocols, entries, repr, allocOk);
  }

  /** The inner loop of PeekHandlesWithProtocol for one entry: at the first
      GUID equal to `g` the entry's handle is pushed and the scan stops.
      `all` is the whole result the operation is building. */
  method StoreHandleIfInstalled(handles: Vector<Handle>, handle: Handle, guids: Vector<Guid>, g: Guid,
                                ghost all: seq<Handle>, allocOk: nat -> bool)
    returns (status: Status)
    requires handles.Constructed() && guids.Constructed()
    requires handles.Items() + (if g in guids.Items() then [handle] else []) <= all
    modifies handles, handles.allocatedMemory
    ensures handles.Valid()
    ensures handles.allocatedMemory == old(handles.allocatedMemory) || fresh(handles.allocatedMemory)
    ensures status == Success ==>
      handles.Constructed() && handles.Items() == old(handles.Items()) + (if g in guids.Items() then [handle] else [])
    ensures status != Success ==>
      status == OutOfResources && !handles.hasMemory && exists k :: 0 <= k < |all| && !allocOk(k)
  {
    status := Success;
    var j := 0;
    while j < Size(guids)
      invariant j <= guids.countUsed
      invariant g !in guids.Items()[..j]
      invariant handles.Constructed() && handles.Items() == old(handles.Items())
      invariant handles.allocatedMemory == old(handles.allocatedMemory)
    {
      if Get(guids, j).value == g {
        status := PushBack(handles, Some(handle), allocOk(Size(handles)));
        if status.IsError() {
          VectorLib.Destruct(handles);
          return;
        }
        break;
      }
      j := j + 1;
    }
    assert j == guids.countUsed ==> guids.Items()[..j] == guids.Items();
  }

  /** The body of the outer loop of PeekHandlesWithProtocol, for entry i. */
  method StoreEntryHandle(dump: Vector<HandleDatabaseEntry>, g: Guid, handles: Vector<Handle>,
                          ghost entries: seq<EntryValue>, ghost repr: set<object>, i: nat, allocOk: nat -> bool)
    returns (status: Status)
    requires Represents(dump, entries, repr) && i < |entries|
    requires handles.Constructed() && handles.Items() == HandlesWithProtocol(entries[..i], g)
    requires handles !in repr && handles.allocatedMemory !in repr
    modifies handles, handles.allocatedMemory
    ensures handles.Valid()
    ensures handles.allocatedMemory == old(handles.allocatedMemory) || fresh(handles.allocatedMemory)
    ensures status == Success ==> handles.Constructed() && handles.Items() == HandlesWithProtocol(entries[..i + 1], g)
    ensures status != Success ==>
      status == OutOfResources && !handles.hasMemory &&
      exists k :: 0 <= k < |HandlesWithProtocol(entries, g)| && !allocOk(k)
  {
    var entry := Get(dump, i).value;
    HandlesWithProtocolStep(entries, i, g);
    HandlesWithProtocolOfPrefix(entries, i + 1, g);
    status := StoreHandleIfInstalled(handles, entry.handle, entry.installedProtocolGuids, g,
                                     HandlesWithProtocol(entries, g), allocOk);
  }

  /** The outer loop of PeekHandlesWithProtocol, over the entries of the dump. */
  method StoreHandlesWithProtocol(dump: Vector<HandleDatabaseEntry>, g: Guid, handles: Vector<Handle>,
                                  ghost entries: seq<EntryValue>, ghost repr: set<object>, allocOk: nat -> bool)
    returns (status: Status)
    requires Represents(dump, entries, repr)
    requires handles.Constructed() && handles.Items() == []
    requires handles !in repr && handles.allocatedMemory !in repr
    modifies handles, handles.allocatedMemory
    ensures handles.Valid()
    ensures status == Success ==> handles.Constructed() && handles.Items() == HandlesWithProtocol(entries, g)
    ensures status != Success ==>
      status == OutOfResources && !handles.hasMemory &&
      exists k :: 0 <= k < |HandlesWithProtocol(entries, g)| && !allocOk(k)
  {
    status := Success;
    var i := 0;
    assert entries[..0] == [];
    while i < Size(dump)
      invariant i <= |entries| == dump.countUsed
      invariant Represents(dump, entries, repr)
      invariant handles.Constructed() && status == Success
      invariant handles.allocatedMemory == old(handles.allocatedMemory) || fresh(handles.allocatedMemory)
      invariant handles.allocatedMemory !in repr
      invariant handles.Items() == HandlesWithProtocol(entries[..i], g)
    {
      status := StoreEntryHandle(dump, g, handles, entries, repr, i, allocOk);
      if status.IsError() {
        return;
      }
      i := i + 1;
    }
    assert entries[..i] == entries;
  }

  /** HandleDatabaseDump_PeekHandlesWithProtocol: constructs `handles`
      (capacity 2) and fills it, in dump order, with the handle of every entry
      carrying `protocolGuid`, once per entry. A push failure destroys
      `handles` and returns the error. */
  method PeekHandlesWithProtocol(dump: Vector?<HandleDatabaseEntry>, protocolGuid: Option<Guid>,
                                 handles: Vector?<Handle>, ghost entries: seq<EntryValue>, ghost repr: set<object>,
                                 constructOk: bool, allocOk: nat -> bool)
    returns (status: Status)
    requires dump != null ==> Represents(dump, entries, repr)
    requires handles != null ==> handles.Valid() && handles !in repr
    modifies handles
    ensures dump == null || protocolGuid.None? || handles == null ==> status == InvalidParameter
    ensures (dump == null || protocolGuid.None?) && handles != null ==> unchanged(handles)
    ensures dump != null && protocolGuid.Some? && handles != null ==> handles.Valid()
    ensures dump != null && protocolGuid.Some? && handles != null && status == Success ==>
      handles.Constructed() && handles.Items() == HandlesWithProtocol(entries, protocolGuid.value)
    ensures dump != null && protocolGuid.Some? && handles != null && status != Success ==>
      status == OutOfResources && !handles.hasMemory &&
      (!constructOk || exists k :: 0 <= k < |HandlesWithProtocol(entries, protocolGuid.value)| && !allocOk(k))
    ensures dump != null && protocolGuid.Some? && handles != null ==>
      (constructOk && forall k :: 0 <= k < |HandlesWithProtocol(entries, protocolGuid.value)| ==> allocOk(k)) ==>
      status == Success
  {
    if dump == null || protocolGuid.None? || handles == null {
      return InvalidParameter;
    }
    status := Construct(handles, HandleSize, 2, constructOk);
    if status.IsError() {
      return;
    }
    status := StoreHandlesWithProtocol(dump, protocolGuid.value, handles, entries, repr, allocOk);
  }

  /** The Found search of GetAddedHandles: it scans the whole of `handles`
      (a match does not end the scan). */
  method IsFound(handles: Vector<Handle>, handle: Handle) returns (found: bool)
    requires handles.Constructed()
    ensures found <==> handle in handles.Items()
  {
    found := false;
    var k := 0;
    while k < Size(handles)
      invariant k <= handles.countUsed
      invariant found <==> handle in handles.Items()[..k]
    {
      assert handles.Items()[..k + 1] == handles.Items()[..k] + [handles.Items()[k]];
      if Get(handles, k).value == handle {
        found := true;
      }
      k := k + 1;
    }
    assert handles.Items()[..k] == handles.Items();
  }

  /** The body of the loop of GetAddedHandles, for the i-th new handle: it is
      pushed unless the old handles have it; a failed push destroys the output. */
  method AddHandleAt(handlesOld: Vector<Handle>, handlesNew: Vector<Handle>, handlesAdded: Vector<Handle>,
                     i: nat, allocOk: nat -> bool)
    returns (status: Status)
    requires handlesOld.Constructed() && handlesNew.Constructed() && i < handlesNew.countUsed
    requires handlesAdded.Constructed()
    requires handlesAdded.Items() == AddedHandles(handlesOld.Items(), handlesNew.Items()[..i])
    requires handlesAdded != handlesOld && handlesAdded != handlesNew
    requires handlesAdded.allocatedMemory != handlesOld.allocatedMemory
    requires handlesAdded.allocatedMemory != handlesNew.allocatedMemory
    modifies handlesAdded, handlesAdded.allocatedMemory
    ensures handlesAdded.Valid()
    ensures handlesAdded.allocatedMemory == old(handlesAdded.allocatedMemory) || fresh(handlesAdded.allocatedMemory)
    ensures status == Success ==>
      handlesAdded.Constructed() &&
      handlesAdded.Items() == AddedHandles(handlesOld.Items(), handlesNew.Items()[..i + 1])
    ensures status != Success ==>
      status == OutOfResources && !handlesAdded.hasMemory &&
      exists k :: 0 <= k < |AddedHandles(handlesOld.Items(), handlesNew.Items())| && !allocOk(k)
  {
    ghost var older, newer := handlesOld.Items(), handlesNew.Items();
    status := Success;
    var handleNew := Get(handlesNew, i).value;
    var found := IsFound(handlesOld, handleNew);
    AddedHandlesStep(older, newer, i);
    if !found {
      AddedHandlesOfPrefix(older, newer, i + 1);
      status := PushBack(handlesAdded, Some(handleNew), allocOk(Size(handlesAdded)));
      if status.IsError() {
        VectorLib.Destruct(handlesAdded);
      }
    }
  }

  /** The loop of GetAddedHandles over the new handles. */
  method StoreAddedHandles(handlesOld: Vector<Handle>, handlesNew: Vector<Handle>, handlesAdded: Vector<Handle>,
                           allocOk: nat -> bool)
    returns (status: Status)
    requires handlesOld.Constructed() && handlesNew.Constructed()
    requires handlesAdded.Constructed() && handlesAdded.Items() == []
    requires handlesAdded != handlesOld && handlesAdded != handlesNew
    requires handlesAdded.allocatedMemory != handlesOld.allocatedMemory
    requires handlesAdded.allocatedMemory != handlesNew.allocatedMemory
    modifies handlesAdded, handlesAdded.allocatedMemory
    ensures handlesAdded.Valid()
    ensures status == Success ==>
      handlesAdded.Constructed() && handlesAdded.Items() == AddedHandles(handlesOld.Items(), handlesNew.Items())
    ensures status != Success ==>
      status == OutOfResources && !handlesAdded.hasMemory &&
      exists k :: 0 <= k < |AddedHandles(handlesOld.Items(), handlesNew.Items())| && !allocOk(k)
  {
    status := Success;
    ghost var older, newer := handlesOld.Items(), handlesNew.Items();
    var i := 0;
    assert newer[..0] == [];
    while i < Size(handlesNew)
      invariant i <= handlesNew.countUsed
      invariant handlesOld.Items() == older && handlesNew.Items() == newer
      invariant handlesAdded.Constructed() && status == Success
      invariant handlesAdded.allocatedMemory == old(handlesAdded.allocatedMemory) || fresh(handlesAdded.allocatedMemory)
      invariant handlesAdded.Items() == AddedHandles(older, newer[..i])
    {
      status := AddHandleAt(handlesOld, handlesNew, handlesAdded, i, allocOk);
      if status.IsError() {
        return;
      }
      i := i + 1;
    }
    assert newer[..i] == newer;
  }

  /** HandleDatabaseDump_GetAddedHandles: constructs `handlesAdded`
      (capacity 2) and fills it with the handles of `handlesNew` that are not
      in `handlesOld`, in the order of `handlesNew`. A push failure destroys
      `handlesAdded` and returns the error. */
  method GetAddedHandles(handlesOld: Vector?<Handle>, handlesNew: Vector?<Handle>, handlesAdded: Vector?<Handle>,
                         constructOk: bool, allocOk: nat -> bool)
    returns (status: Status)
    requires handlesOld != null ==> handlesOld.Constructed()
    requires handlesNew != null ==> handlesNew.Constructed()
    requires handlesAdded != null ==> handlesAdded.Valid() && handlesAdded != handlesOld && handlesAdded != handlesNew
    modifies handlesAdded
    ensures handlesOld == null || handlesNew == null || handlesAdded == null ==> status == InvalidParameter
    ensures (handlesOld == null || handlesNew == null) && handlesAdded != null ==> unchanged(handlesAdded)
    ensures handlesOld != null && handlesNew != null && handlesAdded != null ==> handlesAdded.Valid()
    ensures handlesOld != null && handlesNew != null && handlesAdded != null && status == Success ==>
      handlesAdded.Constructed() && handlesAdded.Items() == AddedHandles(handlesOld.Items(), handlesNew.Items())
    ensures handlesOld != null && handlesNew != null && handlesAdded != null && status != Success ==>
      status == OutOfResources && !handlesAdded.hasMemory &&
      (!constructOk || exists k :: 0 <= k < |AddedHandles(handlesOld.Items(), handlesNew.Items())| && !allocOk(k))
    ensures handlesOld != null && handlesNew != null && handlesAdded != null ==>
      (constructOk && forall k :: 0 <= k < |AddedHandles(handlesOld.Items(), handlesNew.Items())| ==> allocOk(k)) ==>
      status == Success
  {
    if handlesOld == null || handlesNew == null || handlesAdded == null {
      return InvalidParameter;
    }
    status := Construct(handlesAdded, HandleSize, 2, constructOk);
    if status.IsError() {
      return;
    }
    status := StoreAddedHandles(handlesOld, handlesNew, handlesAdded, allocOk);
  }
}
