/**
 * The event provider that learns about boot events from protocol
 * installation notifications
 * (Library/EventProviderLib/EventProviderProtocolNotifyLib/EventProviderProtocolNotifyLib.c).
 *
 * Its private data (EVENT_PROVIDER_DATA_STRUCT) holds three vectors: the
 * events it created and must close, the last snapshot of loaded-image
 * handles, and one notification context per subscription. The firmware is an
 * input: `Firmware` says what each boot-services call returns, and the
 * outcome of every AllocatePool is a boolean (for a vector's growth, indexed
 * by the loop position of the push). The AddEvent callback is modelled by
 * returning the delivered events, in delivery order.
 *
 * The source file carries its own copies of StrAllocCopy, StrAllocAppend,
 * GetHandleImageName, GetHandleImageNameAndParentImageName and
 * FindLoadedImageFileName; they are the same code as in the utility library
 * and are modelled once, in module EventProviderUtility.
 */
module EventProviderProtocolNotify {
  import opened Wrappers
  import opened Uefi
  import opened VectorLib
  import opened LoadingEvents
  import opened ProtocolGuidDatabase
  import opened EventProviderUtility
  import opened HandleDatabaseDump

  /** sizeof(EFI_HANDLE) and sizeof(EFI_EVENT) */
  const PointerSize: nat := 8
  /** sizeof(NOTIFY_FUNCTION_CONTEXT): two pointers */
  const ContextSize: nat := 16
  /** Initial capacity of the loaded-image snapshot. */
  const SnapshotCapacity: nat := 64

  const DetectingError: string := "<ERROR: new images detecting error>"
  const NoNewImages: string := "<ERROR: no new images>"
  const OneOf: string := "One of: | "
  const Separator: string := " | "

  /** NOTIFY_FUNCTION_CONTEXT. Its `This` member is always the provider that
      owns the context vector, so only the GUID is recorded. */
  datatype NotifyContext = NotifyContext(guid: Guid)

  /** The handles that a diff of `snapshot` against the enumeration `handles`
      reports as new: those not in the snapshot, each once, in enumeration
      order. */
  function NewImages(snapshot: seq<Handle>, handles: seq<Handle>): seq<Handle>
  {
    Dedup(AddedHandles(snapshot, handles))
  }

  /** The new images are exactly the enumerated handles outside the
      snapshot, each listed once. */
  lemma NewImagesProperties(snapshot: seq<Handle>, handles: seq<Handle>)
    ensures forall h :: h in NewImages(snapshot, handles) <==> h in handles && h !in snapshot
    ensures NoDuplicates(NewImages(snapshot, handles))
  {
    AddedHandlesProperties(snapshot, handles);
    DedupMembers(AddedHandles(snapshot, handles));
  }

  /** Once the snapshot is extended by the new images, the same enumeration
      shows nothing new. */
  lemma NewImagesOfExtendedSnapshot(snapshot: seq<Handle>, handles: seq<Handle>)
    ensures NewImages(snapshot + NewImages(snapshot, handles), handles) == []
  {
    var extended := snapshot + NewImages(snapshot, handles);
    NewImagesProperties(snapshot, handles);
    assert forall h :: h in handles ==> h in extended;
    AddedHandlesOfSelf(extended, handles);
  }

  /** What the boot services answer during Start and the notifications:
      the naming queries, whether LocateProtocol finds a GUID, and for the
      i-th subscription the result of CreateEvent and of
      RegisterProtocolNotify. */
  datatype Firmware = Firmware(platform: Platform, protocolPresent: Guid -> bool,
                               createdEvent: nat -> Located<EfiEvent>, registerStatus: nat -> Status)

  /** The allocation outcomes of one Start: growth of the snapshot, of the
      context vector and of the event vector, each indexed by the loop
      position of the push, and the string allocations of the image naming. */
  datatype StartAllocations = StartAllocations(snapshotGrowth: nat -> bool, contextGrowth: nat -> bool,
                                               eventGrowth: nat -> bool, strings: nat -> bool)

  /** The allocation outcomes of one notification: the NULL-terminated array,
      growth of the snapshot per enumeration position, and the strings of the
      event, numbered in the order the callback allocates them. */
  datatype CallbackAllocations = CallbackAllocations(newArray: bool, snapshotGrowth: nat -> bool, strings: nat -> bool)

  /** Every CreateEvent failure reports an error status. */
  ghost predicate CreateFailuresAreErrors(fw: Firmware)
  {
    forall i :: FailureIsError(fw.createdEvent(i))
  }

  /** CheckProtocolExistenceOnStartup: one PROTOCOL_EXISTS_ON_STARTUP event,
      without a description, when LocateProtocol finds the GUID. */
  function CheckProtocolExistenceOnStartup(guid: Guid, present: bool): (events: seq<LoadingEvent>)
    ensures present <==> |events| == 1
    ensures present ==> events[0] == ProtocolExistsOnStartup(guid, None) && TypeOf(events[0]) == 3
    ensures !present ==> events == []
  {
    if present then [ProtocolExistsOnStartup(guid, None)] else []
  }

  /** The existence events for the table entries, in table order. */
  function ExistenceEvents(entries: seq<KnownProtocolEntry>, present: Guid -> bool): seq<LoadingEvent>
  {
    if entries == [] then []
    else
      var e := entries[|entries| - 1];
      ExistenceEvents(entries[..|entries| - 1], present) + CheckProtocolExistenceOnStartup(e.guid, present(e.guid))
  }

  /** An event is among the startup existence events exactly when it reports
      a table entry whose protocol is present; each one is reported in
      ProtocolExistsOnStartup form. */
  lemma {:induction false} ExistenceEventsMembers(entries: seq<KnownProtocolEntry>, present: Guid -> bool, e: LoadingEvent)
    ensures e in ExistenceEvents(entries, present) <==>
      exists i :: 0 <= i < |entries| && present(entries[i].guid) && e == ProtocolExistsOnStartup(entries[i].guid, None)
    decreases |entries|
  {
    if entries != [] {
      var front := entries[..|entries| - 1];
      var last := entries[|entries| - 1];
      ExistenceEventsMembers(front, present, e);
      var tail := CheckProtocolExistenceOnStartup(last.guid, present(last.guid));
      assert ExistenceEvents(entries, present) == ExistenceEvents(front, present) + tail;
      if e in ExistenceEvents(front, present) {
        var i :| 0 <= i < |front| && present(front[i].guid) && e == ProtocolExistsOnStartup(front[i].guid, None);
        assert entries[i] == front[i];
      } else if e in tail {
        assert present(entries[|entries| - 1].guid) && e == ProtocolExistsOnStartup(entries[|entries| - 1].guid, None);
      }
      if exists i :: 0 <= i < |entries| && present(entries[i].guid) && e == ProtocolExistsOnStartup(entries[i].guid, None) {
        var i :| 0 <= i < |entries| && present(entries[i].guid) && e == ProtocolExistsOnStartup(entries[i].guid, None);
        if i < |front| {
          assert front[i] == entries[i];
        } else {
          assert e in tail;
        }
      }
    }
  }

  /** The context pushed for each table entry. */
  function ContextsOf(entries: seq<KnownProtocolEntry>): seq<NotifyContext>
  {
    if entries == [] then [] else ContextsOf(entries[..|entries| - 1]) + [NotifyContext(entries[|entries| - 1].guid)]
  }

  /** The events created for the first `n` subscriptions. */
  function CreatedEvents(fw: Firmware, n: nat): seq<EfiEvent>
  {
    if n == 0 then []
    else CreatedEvents(fw, n - 1) + (if fw.createdEvent(n - 1).Located? then [fw.createdEvent(n - 1).value] else [])
  }

  /** What a subscription loop that stopped at a failure leaves, from
      contexts `c0` and events `e0`: the subscriptions before some entry `k`
      are complete, and entry k's context may have been pushed, but not its
      event. */
  ghost predicate PartlySubscribed(db: ProtocolDatabase, fw: Firmware, c0: seq<NotifyContext>, e0: seq<EfiEvent>,
                                   contexts: seq<NotifyContext>, events: seq<EfiEvent>)
  {
    exists k :: 0 <= k < |db| && events == e0 + CreatedEvents(fw, k) &&
      (contexts == c0 + ContextsOf(db[..k]) || contexts == c0 + ContextsOf(db[..k + 1]))
  }

  /** What EventProvider_Start leaves when it fails after the enumeration:
      either a snapshot push failed, after the events and pushes of the
      handles before it and with no subscription made; or every startup image
      and existence event was delivered, the snapshot grew by all handles and
      the subscriptions stopped part-way. In both cases the work done before
      the failure stays done. */
  ghost predicate StoppedPartway(db: ProtocolDatabase, fw: Firmware, handles: seq<Handle>, allocs: StartAllocations,
                                 s0: seq<Handle>, c0: seq<NotifyContext>, e0: seq<EfiEvent>,
                                 events: seq<LoadingEvent>, snapshot: seq<Handle>,
                                 contexts: seq<NotifyContext>, eventHandles: seq<EfiEvent>)
  {
    if |events| < |handles| then
      events == StartupImageEvents(fw.platform, handles[..|events|], allocs.strings) &&
      snapshot == s0 + handles[..|events|] && contexts == c0 && eventHandles == e0
    else
      events == StartupImageEvents(fw.platform, handles, allocs.strings) + ExistenceEvents(db, fw.protocolPresent) &&
      snapshot == s0 + handles && PartlySubscribed(db, fw, c0, e0, contexts, eventHandles)
  }

  /** How one diff of the loaded images moves the snapshot from `s0` to `s`:
      without a result (`detected` None) it stays; otherwise it only grows,
      by handles of the result, which are enumerated handles outside `s0`;
      with no failed growth the result is exactly the new images and the
      snapshot grows by all of them, and with a duplicate-free enumeration the
      result is exactly the added handles. */
  ghost predicate SnapshotDiffed(s0: seq<Handle>, s: seq<Handle>, located: Located<seq<Handle>>,
                                 detected: Option<seq<Handle>>, snapshotGrowth: nat -> bool)
  {
    (detected.None? ==> s == s0) &&
    (detected.Some? ==>
       located.Located? && s0 <= s &&
       (forall h :: h in detected.value ==> h in located.value && h !in s0) &&
       (forall h :: h in s[|s0|..] ==> h in detected.value) &&
       ((forall k :: snapshotGrowth(k)) ==> detected.value == NewImages(s0, located.value) && s == s0 + detected.value) &&
       (NoDuplicates(located.value) ==> detected.value == AddedHandles(s0, located.value)))
  }

  /** Every call Start makes can succeed. */
  ghost predicate StartCanSucceed(db: ProtocolDatabase, fw: Firmware, allocs: StartAllocations)
  {
    (forall k :: allocs.snapshotGrowth(k)) && (forall k :: allocs.contextGrowth(k)) &&
    (forall k :: allocs.eventGrowth(k)) &&
    forall i :: 0 <= i < |db| ==> fw.createdEvent(i).Located? && !fw.registerStatus(i).IsError()
  }

  /** The names the callback gives to several new images: "One of: | "
      followed, for each handle, by its name and " | ", and likewise for the
      parent names. Handle k uses the string allocations 2 + 6k to 2 + 6k + 5,
      in the order of the calls in the source. */
  function CandidateListing(p: Platform, handles: seq<Handle>, n: nat, ok: nat -> bool): ImageNames
    requires n <= |handles|
  {
    if n == 0 then ImageNames(StrAllocCopy(OneOf, ok(0)), StrAllocCopy(OneOf, ok(1)))
    else
      var k := n - 1;
      var prev := CandidateListing(p, handles, k, ok);
      var b := 2 + 6 * k;
      var names := GetHandleImageNameAndParentImageName(p, handles[k], ok(b), ok(b + 1));
      ImageNames(Appended(Appended(prev.imageName, names.imageName, ok(b + 2)), Some(Separator), ok(b + 4)),
                 Appended(Appended(prev.parentImageName, names.parentImageName, ok(b + 3)), Some(Separator), ok(b + 5)))
  }


  /** The IMAGE_LOADED event of a notification for the loaded-image GUID, given
      what the diff detected (None when it returned NULL). */
  function ImageLoadedEvent(p: Platform, detected: Option<seq<Handle>>, ok: nat -> bool): (e: LoadingEvent)
    ensures e.ImageLoaded? && TypeOf(e) == 4
  {
    if detected.None? then ImageLoaded(StrAllocCopy(DetectingError, ok(0)), None)
    else if |detected.value| == 0 then ImageLoaded(StrAllocCopy(NoNewImages, ok(0)), None)
    else if |detected.value| == 1 then
      var names := GetHandleImageNameAndParentImageName(p, detected.value[0], ok(0), ok(1));
      ImageLoaded(names.imageName, names.parentImageName)
    else
      var listing := CandidateListing(p, detected.value, |detected.value|, ok);
      ImageLoaded(listing.imageName, listing.parentImageName)
  }

  /** EVENT_PROVIDER together with the EVENT_PROVIDER_DATA_STRUCT its Data
      member points at. `hasData` is Data != NULL; the three vectors are the
      storage of that structure. */
  class Provider {
    var hasData: bool
    const eventHandles: Vector<EfiEvent>
    const loadedImageHandles: Vector<Handle>
    const contexts: Vector<NotifyContext>

    /** The EVENT_PROVIDER variable before EventProvider_Construct. */
    constructor ()
      ensures Valid() && !hasData
      ensures fresh(eventHandles) && fresh(loadedImageHandles) && fresh(contexts)
    {
      hasData := false;
      eventHandles := new Vector();
      loadedImageHandles := new Vector();
      contexts := new Vector();
    }

    ghost predicate Valid()
      reads this, eventHandles, loadedImageHandles, contexts
    {
      eventHandles.Valid() && loadedImageHandles.Valid() && contexts.Valid()
    }

    /** Constructed successfully: the data structure and all three vectors exist. */
    ghost predicate Ready()
      reads this, eventHandles, loadedImageHandles, contexts
    {
      hasData && eventHandles.Constructed() && loadedImageHandles.Constructed() && contexts.Constructed()
    }

    /** EventProvider_Construct: allocates the data structure, then constructs
        the snapshot (64 slots), the event vector and the context vector (one
        slot per known protocol), returning at the first failure. */
    method Construct(db: ProtocolDatabase, dataOk: bool, snapshotOk: bool, eventsOk: bool, contextsOk: bool)
      returns (status: Status)
      requires Valid()
      modifies this, eventHandles, loadedImageHandles, contexts
      ensures Valid()
      ensures status == Success <==> dataOk && snapshotOk && eventsOk && contextsOk
      ensures status != Success ==> status == OutOfResources && !Ready()
      ensures hasData == dataOk
      ensures status == Success ==>
        Ready() && loadedImageHandles.Items() == [] && eventHandles.Items() == [] && contexts.Items() == [] &&
        loadedImageHandles.countAllocated == SnapshotCapacity &&
        eventHandles.countAllocated == |db| && contexts.countAllocated == |db|
    {
      if !dataOk {
        hasData := false;
        return OutOfResources;
      }
      hasData := true;
      status := VectorLib.Construct(loadedImageHandles, PointerSize, SnapshotCapacity, snapshotOk);
      if status.IsError() {
        return;
      }
      var knownProtocolCount := GetProtocolGuidCount(db);
      status := VectorLib.Construct(eventHandles, PointerSize, knownProtocolCount, eventsOk);
      if status.IsError() {
        return;
      }
      status := VectorLib.Construct(contexts, ContextSize, knownProtocolCount, contextsOk);
    }

    /** EventProvider_Stop: without data nothing happens; otherwise every stored
        event is closed (the closed events are returned, in order) and the
        event vector is emptied. The snapshot and the contexts are kept. */
    method Stop() returns (closed: seq<EfiEvent>)
      requires Valid() && (hasData ==> Ready())
      modifies eventHandles
      ensures Valid() && (hasData ==> Ready())
      ensures !hasData ==> closed == [] && unchanged(eventHandles)
      ensures hasData ==>
        closed == old(eventHandles.Items()) && eventHandles.Items() == [] &&
        eventHandles.countAllocated == old(eventHandles.countAllocated) &&
        eventHandles.allocatedMemory == old(eventHandles.allocatedMemory)
    {
      if !hasData {
        return [];
      }
      closed := [];
      var i := 0;
      while i < Size(eventHandles)
        invariant i <= eventHandles.countUsed
        invariant closed == eventHandles.Items()[..i]
      {
        closed := closed + [Get(eventHandles, i).value];
        i := i + 1;
      }
      assert closed == eventHandles.Items();
      Clear(eventHandles);
    }

    /** EventProvider_Destruct: Stop, then, when there is data, destruct the
        three vectors and release the data structure. */
    method Destruct() returns (closed: seq<EfiEvent>)
      requires Valid() && (hasData ==> Ready())
      modifies this, eventHandles, loadedImageHandles, contexts
      ensures Valid() && !hasData
      ensures closed == if old(hasData) then old(eventHandles.Items()) else []
      ensures old(hasData) ==> !eventHandles.hasMemory && !loadedImageHandles.hasMemory && !contexts.hasMemory
      ensures !old(hasData) ==> unchanged(eventHandles, loadedImageHandles, contexts)
    {
      closed := Stop();
      if hasData {
        VectorLib.Destruct(eventHandles);
        VectorLib.Destruct(loadedImageHandles);
        VectorLib.Destruct(contexts);
        hasData := false;
      }
    }

    /** The FOR_EACH_VCT search of the snapshot in GetNewLoadedImageHandles;
        it stops at the first match. */
    method IsStored(handle: Handle) returns (stored: bool)
      requires loadedImageHandles.Constructed()
      ensures stored <==> handle in loadedImageHandles.Items()
    {
      stored := false;
      var k := 0;
      while k < Size(loadedImageHandles)
        invariant k <= loadedImageHandles.countUsed
        invariant !stored && handle !in loadedImageHandles.Items()[..k]
      {
        assert loadedImageHandles.Items()[..k + 1] == loadedImageHandles.Items()[..k] + [loadedImageHandles.Items()[k]];
        if Get(loadedImageHandles, k).value == handle {
          stored := true;
          break;
        }
        k := k + 1;
      }
      assert !stored ==> loadedImageHandles.Items()[..k] == loadedImageHandles.Items();
    }

    /** The counting pass of GetNewLoadedImageHandles: how many enumerated
        handles are not in the snapshot. It changes nothing. */
    method CountNewHandles(handles: seq<Handle>) returns (count: nat)
      requires loadedImageHandles.Constructed()
      ensures count == |AddedHandles(loadedImageHandles.Items(), handles)|
    {
      count := 0;
      var index := 0;
      while index < |handles|
        invariant index <= |handles|
        invariant count == |AddedHandles(loadedImageHandles.Items(), handles[..index])|
      {
        AddedHandlesStep(loadedImageHandles.Items(), handles, index);
        var stored := IsStored(handles[index]);
        if !stored {
          count := count + 1;
        }
        index := index + 1;
      }
      assert handles[..index] == handles;
    }

    /** The filling pass of GetNewLoadedImageHandles: each enumerated handle
        not in the snapshot as it stands at that moment is written to
        `newHandles` and pushed onto the snapshot; a failed push is ignored.
        The source's defensive EFI_BUFFER_TOO_SMALL exit, taken when more
        handles are found than counted, is proved unreachable. */
    method FillNewHandles(handles: seq<Handle>, newHandles: array<Handle>, count: nat, growthOk: nat -> bool)
      returns (filled: nat, ghost found: seq<Handle>)
      requires loadedImageHandles.Constructed()
      requires count == |AddedHandles(loadedImageHandles.Items(), handles)| && newHandles.Length == count + 1
      requires newHandles != loadedImageHandles.allocatedMemory
      modifies loadedImageHandles, loadedImageHandles.allocatedMemory, newHandles
      ensures loadedImageHandles.Constructed()
      ensures loadedImageHandles.allocatedMemory == old(loadedImageHandles.allocatedMemory) ||
              fresh(loadedImageHandles.allocatedMemory)
      ensures filled == |found| <= count && newHandles[..filled] == found
      ensures FillState(old(loadedImageHandles.Items()), loadedImageHandles.Items(), found, handles, |handles|, count, growthOk)
    {
      ghost var s0 := loadedImageHandles.Items();
      filled, found := 0, [];
      var index := 0;
      assert handles[..0] == [];
      while index < |handles|
        invariant index <= |handles|
        invariant loadedImageHandles.Constructed()
        invariant loadedImageHandles.allocatedMemory == old(loadedImageHandles.allocatedMemory) ||
                  fresh(loadedImageHandles.allocatedMemory)
        invariant newHandles != loadedImageHandles.allocatedMemory
        invariant FillShape(s0, loadedImageHandles.Items(), found, handles, index, count)
        invariant FillExact(s0, loadedImageHandles.Items(), found, handles, index, growthOk)
        invariant filled == |found| && newHandles[..filled] == found
      {
        filled, found := FillStep(handles, index, newHandles, count, growthOk, s0, filled, found);
        index := index + 1;
      }
    }

    /** One iteration of the filling pass, at enumeration position `index`. */
    method FillStep(handles: seq<Handle>, index: nat, newHandles: array<Handle>, count: nat, growthOk: nat -> bool,
                    ghost s0: seq<Handle>, filled: nat, ghost found: seq<Handle>)
      returns (filled': nat, ghost found': seq<Handle>)
      requires index < |handles| && loadedImageHandles.Constructed()
      requires count == |AddedHandles(s0, handles)| && newHandles.Length == count + 1
      requires newHandles != loadedImageHandles.allocatedMemory
      requires FillShape(s0, loadedImageHandles.Items(), found, handles, index, count)
      requires FillExact(s0, loadedImageHandles.Items(), found, handles, index, growthOk)
      requires filled == |found| && newHandles[..filled] == found
      modifies loadedImageHandles, loadedImageHandles.allocatedMemory, newHandles
      ensures loadedImageHandles.Constructed()
      ensures loadedImageHandles.allocatedMemory == old(loadedImageHandles.allocatedMemory) ||
              fresh(loadedImageHandles.allocatedMemory)
      ensures newHandles != loadedImageHandles.allocatedMemory
      ensures FillShape(s0, loadedImageHandles.Items(), found', handles, index + 1, count)
      ensures FillExact(s0, loadedImageHandles.Items(), found', handles, index + 1, growthOk)
      ensures filled' == |found'| && newHandles[..filled'] == found'
    {
      var handle := handles[index];
      var stored := IsStored(handle);
      ghost var snap := loadedImageHandles.Items();
      filled', found' := filled, found;
      if stored {
        FillStoredStep(s0, snap, found, handles, index, count, growthOk);
      } else {
        FillNewStepBound(s0, snap, found, handles, index, count, growthOk);
        // The source's `NewHandleIndex >= NewImageHandleCount` exit.
        assert filled < count;
        newHandles[filled] := handle;
        filled' := filled + 1;
        found' := found + [handle];
        assert newHandles[..filled'] == newHandles[..filled] + [handle];
        var _ := PushBack(loadedImageHandles, Some(handle), growthOk(index));
        FillNewStep(s0, snap, loadedImageHandles.Items(), found, handles, index, count, growthOk);
      }
    }

    /** GetNewLoadedImageHandles: the handles of images loaded since the last
        call, as a NULL-terminated array, and the snapshot extended by them.
        NULL when the enumeration or the array allocation fails, in which case
        the snapshot is unchanged. */
    method GetNewLoadedImageHandles(located: Located<seq<Handle>>, arrayAllocOk: bool, growthOk: nat -> bool)
      returns (newHandles: array?<Handle>, ghost found: seq<Handle>)
      requires Valid() && Ready()
      modifies loadedImageHandles, loadedImageHandles.allocatedMemory
      ensures Valid() && Ready()
      ensures loadedImageHandles.allocatedMemory == old(loadedImageHandles.allocatedMemory) ||
              fresh(loadedImageHandles.allocatedMemory)
      ensures located.LocateFailed? || !arrayAllocOk ==>
        newHandles == null && found == [] && loadedImageHandles.Items() == old(loadedImageHandles.Items())
      ensures located.Located? && arrayAllocOk ==>
        newHandles != null && fresh(newHandles) &&
        |found| < newHandles.Length && newHandles[..|found|] == found && newHandles[|found|] == NullHandle &&
        old(loadedImageHandles.Items()) <= loadedImageHandles.Items() &&
        (forall h :: h in found ==> h in located.value && h !in old(loadedImageHandles.Items())) &&
        (forall h :: h in loadedImageHandles.Items()[|old(loadedImageHandles.Items())|..] ==> h in found) &&
        ((forall k :: growthOk(k)) ==>
           found == NewImages(old(loadedImageHandles.Items()), located.value) &&
           loadedImageHandles.Items() == old(loadedImageHandles.Items()) + found) &&
        (NoDuplicates(located.value) ==> found == AddedHandles(old(loadedImageHandles.Items()), located.value))
    {
      if located.LocateFailed? {
        return null, [];
      }
      var handles := located.value;
      var newImageHandleCount := CountNewHandles(handles);
      if !arrayAllocOk {
        return null, [];
      }
      var buffer := new Handle[newImageHandleCount + 1];
      var filled;
      filled, found := FillNewHandles(handles, buffer, newImageHandleCount, growthOk);
      buffer[filled] := NullHandle;
      newHandles := buffer;
      assert handles[..|handles|] == handles;
    }

    /** DetectImagesLoadedOnStartup of this provider: for each enumerated
        image, in order, the handle is pushed onto the snapshot and then its
        IMAGE_EXISTS_ON_STARTUP event is delivered; a failed push ends the
        operation with its error. */
    method DetectImagesLoadedOnStartup(p: Platform, located: Located<seq<Handle>>, growthOk: nat -> bool,
                                       strings: nat -> bool)
      returns (status: Status, events: seq<LoadingEvent>)
      requires Valid() && Ready() && FailureIsError(located)
      modifies loadedImageHandles, loadedImageHandles.allocatedMemory
      ensures Valid() && Ready()
      ensures loadedImageHandles.allocatedMemory == old(loadedImageHandles.allocatedMemory) ||
              fresh(loadedImageHandles.allocatedMemory)
      ensures located.LocateFailed? ==>
        status == located.status && status.IsError() && events == [] &&
        loadedImageHandles.Items() == old(loadedImageHandles.Items())
      ensures located.Located? ==>
        |events| <= |located.value| &&
        events == StartupImageEvents(p, located.value[..|events|], strings) &&
        loadedImageHandles.Items() == old(loadedImageHandles.Items()) + located.value[..|events|] &&
        (status == Success <==> |events| == |located.value|) &&
        (status != Success ==> status == OutOfResources && !growthOk(|events|))
    {
      if located.LocateFailed? {
        return located.status, [];
      }
      status, events := ReportStartupImages(p, located.value, growthOk, strings);
    }

    /** The loop of DetectImagesLoadedOnStartup over the enumerated handles. */
    method ReportStartupImages(p: Platform, handles: seq<Handle>, growthOk: nat -> bool, strings: nat -> bool)
      returns (status: Status, events: seq<LoadingEvent>)
      requires loadedImageHandles.Constructed()
      modifies loadedImageHandles, loadedImageHandles.allocatedMemory
      ensures loadedImageHandles.Constructed()
      ensures loadedImageHandles.allocatedMemory == old(loadedImageHandles.allocatedMemory) ||
              fresh(loadedImageHandles.allocatedMemory)
      ensures |events| <= |handles|
      ensures events == StartupImageEvents(p, handles[..|events|], strings)
      ensures loadedImageHandles.Items() == old(loadedImageHandles.Items()) + handles[..|events|]
      ensures status == Success <==> |events| == |handles|
      ensures status != Success ==> status == OutOfResources && !growthOk(|events|)
    {
      events := [];
      var index := 0;
      while index < |handles|
        invariant index <= |handles| && |events| == index
        invariant loadedImageHandles.Constructed()
        invariant loadedImageHandles.allocatedMemory == old(loadedImageHandles.allocatedMemory) ||
                  fresh(loadedImageHandles.allocatedMemory)
        invariant events == StartupImageEvents(p, handles[..index], strings)
        invariant loadedImageHandles.Items() == old(loadedImageHandles.Items()) + handles[..index]
      {
        status := PushBack(loadedImageHandles, Some(handles[index]), growthOk(index));
        if status.IsError() {
          return;
        }
        StartupImagesStep(p, handles, index, strings);
        events := events + [StartupImageEvent(p, handles[index], strings(2 * index), strings(2 * index + 1))];
        index := index + 1;
      }
      status := Success;
    }

    /** ProtocolInstalledCallback: for any GUID but the loaded-image one a
        successful PROTOCOL_INSTALLED event without a description; for the
        loaded-image GUID the images loaded since the last diff are detected
        (`detected`, None when the diff returned NULL) and reported as one
        IMAGE_LOADED event. */
    method ProtocolInstalledCallback(context: NotifyContext, p: Platform, located: Located<seq<Handle>>,
                                     allocs: CallbackAllocations)
      returns (event: LoadingEvent, ghost detected: Option<seq<Handle>>)
      requires Valid() && Ready() && WellFormedHandles(located)
      modifies loadedImageHandles, loadedImageHandles.allocatedMemory
      ensures Valid() && Ready()
      ensures loadedImageHandles.allocatedMemory == old(loadedImageHandles.allocatedMemory) ||
              fresh(loadedImageHandles.allocatedMemory)
      ensures context.guid != LoadedImageProtocolGuid ==>
        event == ProtocolInstalled(context.guid, true, None) && detected.None? &&
        loadedImageHandles.Items() == old(loadedImageHandles.Items())
      ensures context.guid == LoadedImageProtocolGuid ==>
        event == ImageLoadedEvent(p, detected, allocs.strings) &&
        (detected.None? <==> located.LocateFailed? || !allocs.newArray)
      ensures SnapshotDiffed(old(loadedImageHandles.Items()), loadedImageHandles.Items(), located, detected,
                             allocs.snapshotGrowth)
    {
      if context.guid != LoadedImageProtocolGuid {
        return ProtocolInstalled(context.guid, true, None), None;
      }
      var newHandles;
      ghost var found;
      newHandles, found := GetNewLoadedImageHandles(located, allocs.newArray, allocs.snapshotGrowth);
      if newHandles == null {
        return ImageLoaded(StrAllocCopy(DetectingError, allocs.strings(0)), None), None;
      }
      detected := Some(found);
      assert NullHandle !in found;
      if newHandles[0] == NullHandle {
        assert |found| == 0;
        event := ImageLoaded(StrAllocCopy(NoNewImages, allocs.strings(0)), None);
      } else if newHandles[1] == NullHandle {
        assert |found| == 1 && newHandles[0] == found[0];
        var names := GetHandleImageNameAndParentImageName(p, newHandles[0], allocs.strings(0), allocs.strings(1));
        event := ImageLoaded(names.imageName, names.parentImageName);
      } else {
        assert |found| >= 2;
        var listing := ListCandidates(p, newHandles, found, allocs.strings);
        event := ImageLoaded(listing.imageName, listing.parentImageName);
      }
    }

    /** SubscribeToProtocolInstallation: pushes the notification context, then
        creates the event and registers it for the GUID, and only then records
        the event for Stop. Each step's failure is returned at once. */
    method Subscribe(guid: Guid, created: Located<EfiEvent>, registered: Status, contextGrowthOk: bool,
                     eventGrowthOk: bool)
      returns (status: Status)
      requires Valid() && Ready() && FailureIsError(created)
      modifies contexts, contexts.allocatedMemory, eventHandles, eventHandles.allocatedMemory
      ensures Valid() && Ready()
      ensures contexts.allocatedMemory == old(contexts.allocatedMemory) || fresh(contexts.allocatedMemory)
      ensures eventHandles.allocatedMemory == old(eventHandles.allocatedMemory) || fresh(eventHandles.allocatedMemory)
      ensures
        var contextPushed := old(contexts.countUsed) < old(contexts.countAllocated) || contextGrowthOk;
        var eventPushed := old(eventHandles.countUsed) < old(eventHandles.countAllocated) || eventGrowthOk;
        var recorded := contextPushed && created.Located? && !registered.IsError() && eventPushed;
        contexts.Items() == old(contexts.Items()) + (if contextPushed then [NotifyContext(guid)] else []) &&
        eventHandles.Items() == old(eventHandles.Items()) + (if recorded then [created.value] else []) &&
        (status == Success <==> recorded) &&
        (!contextPushed ==> status == OutOfResources) &&
        (contextPushed && created.LocateFailed? ==> status == created.status) &&
        (contextPushed && created.Located? && registered.IsError() ==> status == registered) &&
        (contextPushed && created.Located? && !registered.IsError() && !eventPushed ==> status == OutOfResources)
    {
      status := PushBack(contexts, Some(NotifyContext(guid)), contextGrowthOk);
      if status.IsError() {
        return;
      }
      if created.LocateFailed? {
        return created.status;
      }
      var eventProtocolAppeared := created.value;
      if registered.IsError() {
        return registered;
      }
      status := PushBack(eventHandles, Some(eventProtocolAppeared), eventGrowthOk);
    }

    /** The body of the second loop of EventProvider_Start: the subscription
        for table entry `index`. `c0` and `e0` are the vectors' contents before
        the loop. */
    method SubscribeAt(db: ProtocolDatabase, fw: Firmware, allocs: StartAllocations, index: nat,
                       ghost c0: seq<NotifyContext>, ghost e0: seq<EfiEvent>)
      returns (status: Status)
      requires Valid() && Ready() && CreateFailuresAreErrors(fw) && index < |db|
      requires contexts.Items() == c0 + ContextsOf(db[..index])
      requires eventHandles.Items() == e0 + CreatedEvents(fw, index)
      modifies contexts, contexts.allocatedMemory, eventHandles, eventHandles.allocatedMemory
      ensures Valid() && Ready()
      ensures contexts.allocatedMemory == old(contexts.allocatedMemory) || fresh(contexts.allocatedMemory)
      ensures eventHandles.allocatedMemory == old(eventHandles.allocatedMemory) || fresh(eventHandles.allocatedMemory)
      ensures status == Success ==>
        contexts.Items() == c0 + ContextsOf(db[..index + 1]) &&
        eventHandles.Items() == e0 + CreatedEvents(fw, index + 1)
      ensures status != Success ==>
        status.IsError() && eventHandles.Items() == e0 + CreatedEvents(fw, index) &&
        (contexts.Items() == c0 + ContextsOf(db[..index]) || contexts.Items() == c0 + ContextsOf(db[..index + 1]))
      ensures StartCanSucceed(db, fw, allocs) ==> status == Success
    {
      var guid := GetProtocolGuid(db, index).value;
      assert FailureIsError(fw.createdEvent(index));
      status := Subscribe(guid, fw.createdEvent(index), fw.registerStatus(index),
                          allocs.contextGrowth(index), allocs.eventGrowth(index));
      assert db[..index + 1][..index] == db[..index];
    }

    /** The second loop of EventProvider_Start: a subscription per table entry,
        in table order, stopping at the first failure. */
    method SubscribeAll(db: ProtocolDatabase, fw: Firmware, allocs: StartAllocations) returns (status: Status)
      requires Valid() && Ready() && CreateFailuresAreErrors(fw)
      modifies contexts, contexts.allocatedMemory, eventHandles, eventHandles.allocatedMemory
      ensures Valid() && Ready()
      ensures status == Success ==>
        contexts.Items() == old(contexts.Items()) + ContextsOf(db) &&
        eventHandles.Items() == old(eventHandles.Items()) + CreatedEvents(fw, |db|)
      ensures status != Success ==>
        status.IsError() &&
        PartlySubscribed(db, fw, old(contexts.Items()), old(eventHandles.Items()), contexts.Items(), eventHandles.Items())
      ensures StartCanSucceed(db, fw, allocs) ==> status == Success
    {
      status := Success;
      var count := GetProtocolGuidCount(db);
      var index := 0;
      assert db[..0] == [];
      while index < count
        invariant index <= count && status == Success
        invariant Valid() && Ready()
        invariant contexts.allocatedMemory == old(contexts.allocatedMemory) || fresh(contexts.allocatedMemory)
        invariant eventHandles.allocatedMemory == old(eventHandles.allocatedMemory) || fresh(eventHandles.allocatedMemory)
        invariant contexts.Items() == old(contexts.Items()) + ContextsOf(db[..index])
        invariant eventHandles.Items() == old(eventHandles.Items()) + CreatedEvents(fw, index)
      {
        status := SubscribeAt(db, fw, allocs, index, old(contexts.Items()), old(eventHandles.Items()));
        if status.IsError() {
          return;
        }
        index := index + 1;
      }
      assert db[..index] == db;
    }

    /** EventProvider_Start: EFI_INVALID_PARAMETER without data; otherwise,
        in order, the images already loaded (each pushed onto the snapshot and
        reported), the known protocols already installed (reported in table
        order), and a subscription per known protocol. The first failure is
        returned; what was done before it stays done. */
    method Start(db: ProtocolDatabase, fw: Firmware, located: Located<seq<Handle>>, allocs: StartAllocations)
      returns (status: Status, events: seq<LoadingEvent>)
      requires Valid() && (hasData ==> Ready())
      requires FailureIsError(located) && CreateFailuresAreErrors(fw)
      modifies loadedImageHandles, loadedImageHandles.allocatedMemory, contexts, contexts.allocatedMemory,
               eventHandles, eventHandles.allocatedMemory
      ensures Valid() && (hasData ==> Ready())
      ensures !hasData ==>
        status == InvalidParameter && events == [] &&
        unchanged(loadedImageHandles, contexts, eventHandles)
      ensures hasData && located.LocateFailed? ==>
        status == located.status && events == [] &&
        loadedImageHandles.Items() == old(loadedImageHandles.Items()) &&
        contexts.Items() == old(contexts.Items()) && eventHandles.Items() == old(eventHandles.Items())
      ensures hasData && status == Success ==>
        located.Located? &&
        events == StartupImageEvents(fw.platform, located.value, allocs.strings) + ExistenceEvents(db, fw.protocolPresent) &&
        loadedImageHandles.Items() == old(loadedImageHandles.Items()) + located.value &&
        contexts.Items() == old(contexts.Items()) + ContextsOf(db) &&
        eventHandles.Items() == old(eventHandles.Items()) + CreatedEvents(fw, |db|)
      ensures hasData && status != Success ==> status.IsError()
      ensures hasData && located.Located? ==>
        events <= StartupImageEvents(fw.platform, located.value, allocs.strings) + ExistenceEvents(db, fw.protocolPresent)
      ensures hasData && located.Located? && status != Success ==>
        StoppedPartway(db, fw, located.value, allocs, old(loadedImageHandles.Items()), old(contexts.Items()),
                       old(eventHandles.Items()), events, loadedImageHandles.Items(), contexts.Items(),
                       eventHandles.Items())
      ensures hasData && located.Located? && StartCanSucceed(db, fw, allocs) ==> status == Success
    {
      if !hasData {
        return InvalidParameter, [];
      }
      status, events := StartReady(db, fw, located, allocs);
    }

    /** EventProvider_Start past its NULL checks. */
    method StartReady(db: ProtocolDatabase, fw: Firmware, located: Located<seq<Handle>>, allocs: StartAllocations)
      returns (status: Status, events: seq<LoadingEvent>)
      requires Valid() && Ready()
      requires FailureIsError(located) && CreateFailuresAreErrors(fw)
      modifies loadedImageHandles, loadedImageHandles.allocatedMemory, contexts, contexts.allocatedMemory,
               eventHandles, eventHandles.allocatedMemory
      ensures Valid() && Ready()
      ensures located.LocateFailed? ==>
        status == located.status && events == [] &&
        loadedImageHandles.Items() == old(loadedImageHandles.Items()) &&
        contexts.Items() == old(contexts.Items()) && eventHandles.Items() == old(eventHandles.Items())
      ensures status == Success ==>
        located.Located? &&
        events == StartupImageEvents(fw.platform, located.value, allocs.strings) + ExistenceEvents(db, fw.protocolPresent) &&
        loadedImageHandles.Items() == old(loadedImageHandles.Items()) + located.value &&
        contexts.Items() == old(contexts.Items()) + ContextsOf(db) &&
        eventHandles.Items() == old(eventHandles.Items()) + CreatedEvents(fw, |db|)
      ensures status != Success ==> status.IsError()
      ensures located.Located? ==>
        events <= StartupImageEvents(fw.platform, located.value, allocs.strings) + ExistenceEvents(db, fw.protocolPresent)
      ensures located.Located? && status != Success ==>
        StoppedPartway(db, fw, located.value, allocs, old(loadedImageHandles.Items()), old(contexts.Items()),
                       old(eventHandles.Items()), events, loadedImageHandles.Items(), contexts.Items(),
                       eventHandles.Items())
      ensures located.Located? && StartCanSucceed(db, fw, allocs) ==> status == Success
    {
      status, events := DetectImagesLoadedOnStartup(fw.platform, located, allocs.snapshotGrowth, allocs.strings);
      assert located.Located? ==> located.value[..|located.value|] == located.value;
      if status.IsError() {
        if located.Located? {
          StartupImagesOfPrefix(fw.platform, located.value, |events|, allocs.strings);
        }
        return;
      }
      var existence;
      status, existence := ReportAndSubscribe(db, fw, allocs);
      events := events + existence;
    }

    /** The two loops of EventProvider_Start after the startup images: the
        existence check and then the subscription for every table entry. */
    method ReportAndSubscribe(db: ProtocolDatabase, fw: Firmware, allocs: StartAllocations)
      returns (status: Status, existence: seq<LoadingEvent>)
      requires Valid() && Ready() && CreateFailuresAreErrors(fw)
      modifies contexts, contexts.allocatedMemory, eventHandles, eventHandles.allocatedMemory
      ensures Valid() && Ready()
      ensures existence == ExistenceEvents(db, fw.protocolPresent)
      ensures status == Success ==>
        contexts.Items() == old(contexts.Items()) + ContextsOf(db) &&
        eventHandles.Items() == old(eventHandles.Items()) + CreatedEvents(fw, |db|)
      ensures status != Success ==>
        status.IsError() &&
        PartlySubscribed(db, fw, old(contexts.Items()), old(eventHandles.Items()), contexts.Items(), eventHandles.Items())
      ensures StartCanSucceed(db, fw, allocs) ==> status == Success
    {
      existence := CheckAllProtocols(db, fw.protocolPresent);
      status := SubscribeAll(db, fw, allocs);
    }
  }

  /** The first loop of EventProvider_Start: CheckProtocolExistenceOnStartup for
      every table entry, in table order. */
  method CheckAllProtocols(db: ProtocolDatabase, present: Guid -> bool) returns (events: seq<LoadingEvent>)
    ensures events == ExistenceEvents(db, present)
  {
    events := [];
    var count := GetProtocolGuidCount(db);
    var index := 0;
    assert db[..0] == [];
    while index < count
      invariant index <= count
      invariant events == ExistenceEvents(db[..index], present)
    {
      var guid := GetProtocolGuid(db, index).value;
      events := events + CheckProtocolExistenceOnStartup(guid, present(guid));
      assert db[..index + 1][..index] == db[..index];
      index := index + 1;
    }
    assert db[..index] == db;
  }

  /** The multiple-candidate branch of ProtocolInstalledCallback: both names
      start as "One of: | " and, for each handle of the NULL-terminated array,
      receive its name and " | " by StrAllocAppend. */
  method ListCandidates(p: Platform, newHandles: array<Handle>, ghost found: seq<Handle>, ok: nat -> bool)
    returns (names: ImageNames)
    requires |found| < newHandles.Length && newHandles[..|found|] == found && newHandles[|found|] == NullHandle
    requires NullHandle !in found
    ensures names == CandidateListing(p, found, |found|, ok)
  {
    var imageName := new StrRef(StrAllocCopy(OneOf, ok(0)));
    var parentImageName := new StrRef(StrAllocCopy(OneOf, ok(1)));
    var index := 0;
    while newHandles[index] != NullHandle
      invariant index <= |found|
      invariant index < |found| ==> newHandles[index] == found[index] != NullHandle
      invariant ImageNames(imageName.value, parentImageName.value) == CandidateListing(p, found, index, ok)
      decreases |found| - index
    {
      AppendCandidate(p, found, index, newHandles[index], imageName, parentImageName, ok);
      index := index + 1;
    }
    names := ImageNames(imageName.value, parentImageName.value);
  }

  /** The body of the candidate loop: the names of the candidate at
      `index`, then " | ", are appended to the two listings. */
  method AppendCandidate(p: Platform, ghost found: seq<Handle>, index: nat, handle: Handle,
                         imageName: StrRef, parentImageName: StrRef, ok: nat -> bool)
    requires index < |found| && handle == found[index] && imageName != parentImageName
    requires ImageNames(imageName.value, parentImageName.value) == CandidateListing(p, found, index, ok)
    modifies imageName, parentImageName
    ensures ImageNames(imageName.value, parentImageName.value) == CandidateListing(p, found, index + 1, ok)
  {
    ghost var before := ImageNames(imageName.value, parentImageName.value);
    var b := 2 + 6 * index;
    var current := GetHandleImageNameAndParentImageName(p, handle, ok(b), ok(b + 1));
    AppendPair(imageName, parentImageName, current, ok(b + 2), ok(b + 3));
    ghost var middle := ImageNames(imageName.value, parentImageName.value);
    AppendPair(imageName, parentImageName, ImageNames(Some(Separator), Some(Separator)), ok(b + 4), ok(b + 5));
    CandidateListingStep(p, found, index, ok, before, current, middle, ImageNames(imageName.value, parentImageName.value));
  }

  /** Two StrAllocAppend calls: the image listing, then the parent listing. */
  method AppendPair(imageName: StrRef, parentImageName: StrRef, tails: ImageNames, imageOk: bool, parentOk: bool)
    requires imageName != parentImageName
    modifies imageName, parentImageName
    ensures imageName.value == Appended(old(imageName.value), tails.imageName, imageOk)
    ensures parentImageName.value == Appended(old(parentImageName.value), tails.parentImageName, parentOk)
  {
    var _ := StrAllocAppend(imageName, tails.imageName, imageOk);
    var _ := StrAllocAppend(parentImageName, tails.parentImageName, parentOk);
  }

  /** One more candidate appends its names and then the separators. */
  lemma CandidateListingStep(p: Platform, found: seq<Handle>, index: nat, ok: nat -> bool,
                             before: ImageNames, current: ImageNames, middle: ImageNames, after: ImageNames)
    requires index < |found|
    requires before == CandidateListing(p, found, index, ok)
    requires current == GetHandleImageNameAndParentImageName(p, found[index], ok(2 + 6 * index), ok(2 + 6 * index + 1))
    requires middle == ImageNames(Appended(before.imageName, current.imageName, ok(2 + 6 * index + 2)),
                                  Appended(before.parentImageName, current.parentImageName, ok(2 + 6 * index + 3)))
    requires after == ImageNames(Appended(middle.imageName, Some(Separator), ok(2 + 6 * index + 4)),
                                 Appended(middle.parentImageName, Some(Separator), ok(2 + 6 * index + 5)))
    ensures after == CandidateListing(p, found, index + 1, ok)
  {
  }

  /** The name of an image when no allocation fails. */
  function ImageNameOf(p: Platform, handle: Handle): (name: string)
    ensures Some(name) == GetHandleImageNameAndParentImageName(p, handle, true, true).imageName
  {
    GetHandleImageName(p, handle, true).value
  }

  /** The parent name of an image when no allocation fails. */
  function ParentNameOf(p: Platform, handle: Handle): (name: string)
    ensures Some(name) == GetHandleImageNameAndParentImageName(p, handle, true, true).parentImageName
  {
    if IsHandleImage(p, handle) then GetHandleImageName(p, p.loadedImages[handle].parentHandle, true).value
    else CantOpenLoadedImage
  }

  /** The first `n` image names, each followed by " | ". */
  function ListedImageNames(p: Platform, handles: seq<Handle>, n: nat): string
    requires n <= |handles|
  {
    if n == 0 then "" else ListedImageNames(p, handles, n - 1) + ImageNameOf(p, handles[n - 1]) + Separator
  }

  /** The first `n` parent names, each followed by " | ". */
  function ListedParentNames(p: Platform, handles: seq<Handle>, n: nat): string
    requires n <= |handles|
  {
    if n == 0 then "" else ListedParentNames(p, handles, n - 1) + ParentNameOf(p, handles[n - 1]) + Separator
  }

  /** When no allocation fails the callback reports "One of: | " followed by
      every candidate's name and " | ", and likewise for the parent names. */
  lemma {:induction false} CandidateListingWithoutFailures(p: Platform, handles: seq<Handle>, n: nat, ok: nat -> bool)
    requires n <= |handles| && forall k :: ok(k)
    ensures CandidateListing(p, handles, n, ok) ==
            ImageNames(Some(OneOf + ListedImageNames(p, handles, n)), Some(OneOf + ListedParentNames(p, handles, n)))
  {
    if n == 0 {
      assert ok(0) && ok(1);
      assert OneOf + "" == OneOf;
    } else {
      var k := n - 1;
      CandidateListingWithoutFailures(p, handles, k, ok);
      var b := 2 + 6 * k;
      var image, parent := ImageNameOf(p, handles[k]), ParentNameOf(p, handles[k]);
      var before := ImageNames(Some(OneOf + ListedImageNames(p, handles, k)), Some(OneOf + ListedParentNames(p, handles, k)));
      var current := GetHandleImageNameAndParentImageName(p, handles[k], ok(b), ok(b + 1));
      NamesWithoutFailures(p, handles[k], ok(b), ok(b + 1));
      var middle := ImageNames(Some(before.imageName.value + image), Some(before.parentImageName.value + parent));
      var after := ImageNames(Some(middle.imageName.value + Separator), Some(middle.parentImageName.value + Separator));
      assert ok(b + 2) && ok(b + 3) && ok(b + 4) && ok(b + 5);
      CandidateListingStep(p, handles, k, ok, before, current, middle, after);
      ConcatenationRegroups(OneOf, ListedImageNames(p, handles, k), image, Separator);
      ConcatenationRegroups(OneOf, ListedParentNames(p, handles, k), parent, Separator);
    }
  }

  /** The prefix can be attached before or after the appended parts. */
  lemma ConcatenationRegroups(prefix: string, listed: string, name: string, separator: string)
    ensures prefix + (listed + name + separator) == prefix + listed + name + separator
  {
  }

  /** With both allocations succeeding, an image's names are its own. */
  lemma NamesWithoutFailures(p: Platform, handle: Handle, imageOk: bool, parentOk: bool)
    requires imageOk && parentOk
    ensures GetHandleImageNameAndParentImageName(p, handle, imageOk, parentOk) ==
            ImageNames(Some(ImageNameOf(p, handle)), Some(ParentNameOf(p, handle)))
  {
  }




  /** Extending the enumeration prefix by one handle adds its event and its
      snapshot entry. */
  lemma StartupImagesStep(p: Platform, handles: seq<Handle>, index: nat, strings: nat -> bool)
    requires index < |handles|
    ensures handles[..index + 1] == handles[..index] + [handles[index]]
    ensures StartupImageEvents(p, handles[..index + 1], strings) ==
            StartupImageEvents(p, handles[..index], strings) +
            [StartupImageEvent(p, handles[index], strings(2 * index), strings(2 * index + 1))]
  {
    assert handles[..index + 1][..index] == handles[..index];
  }

  /** The startup events of a prefix of the enumeration are a prefix of all of them. */
  lemma StartupImagesOfPrefix(p: Platform, handles: seq<Handle>, n: nat, strings: nat -> bool)
    requires n <= |handles|
    ensures StartupImageEvents(p, handles[..n], strings) <= StartupImageEvents(p, handles, strings)
  {
    var prefix := StartupImageEvents(p, handles[..n], strings);
    var all := StartupImageEvents(p, handles, strings);
    forall i | 0 <= i < n
      ensures prefix[i] == all[i]
    {
      assert handles[..n][i] == handles[i];
    }
  }

  /** The invariant of the filling pass after `index` enumerated handles:
      `snap` extends the original snapshot `s0` by found handles only; the
      found handles are enumerated handles outside `s0`, no more than the
      counting pass saw; when no growth fails they are the new images and
      exactly what was added, and for an enumeration without repetitions
      they are the handles outside `s0`. */
  ghost predicate FillState(s0: seq<Handle>, snap: seq<Handle>, found: seq<Handle>, handles: seq<Handle>, index: nat,
                            count: nat, growthOk: nat -> bool)
  {
    FillShape(s0, snap, found, handles, index, count) && FillExact(s0, snap, found, handles, index, growthOk)
  }

  /** The part of FillState that holds whatever the pushes do. */
  ghost predicate FillShape(s0: seq<Handle>, snap: seq<Handle>, found: seq<Handle>, handles: seq<Handle>, index: nat,
                            count: nat)
  {
    index <= |handles| && s0 <= snap &&
    (forall h :: h in snap[|s0|..] ==> h in found) &&
    (forall h :: h in found ==> h in handles[..index] && h !in s0) &&
    |AddedHandles(s0, handles[..index])| <= count && |found| <= |AddedHandles(s0, handles[..index])|
  }

  /** The part of FillState that pins the found handles down exactly. */
  ghost predicate FillExact(s0: seq<Handle>, snap: seq<Handle>, found: seq<Handle>, handles: seq<Handle>, index: nat,
                            growthOk: nat -> bool)
  {
    index <= |handles| &&
    ((forall k :: growthOk(k)) ==> snap == s0 + found && found == NewImages(s0, handles[..index])) &&
    (NoDuplicates(handles) ==> found == AddedHandles(s0, handles[..index]))
  }

  /** The filling pass skips a handle already in the snapshot. */
  lemma FillStoredStep(s0: seq<Handle>, snap: seq<Handle>, found: seq<Handle>, handles: seq<Handle>, index: nat,
                       count: nat, growthOk: nat -> bool)
    requires FillState(s0, snap, found, handles, index, count, growthOk)
    requires index < |handles| && handles[index] in snap && count == |AddedHandles(s0, handles)|
    ensures FillState(s0, snap, found, handles, index + 1, count, growthOk)
  {
    var handle := handles[index];
    AddedHandlesStep(s0, handles, index);
    AddedHandlesOfPrefix(s0, handles, index + 1);
    StoredIsOldOrFound(s0, snap, found, handle);
    assert forall h :: h in found ==> h in handles[..index + 1] && h !in s0 by {
      assert handles[..index + 1] == handles[..index] + [handle];
    }
    if handle in s0 {
      assert AddedHandles(s0, handles[..index + 1]) == AddedHandles(s0, handles[..index]);
    } else {
      FillRepeatedStep(s0, snap, found, handles, index, count, growthOk);
    }
  }

  /** The case of FillStoredStep where the handle was found earlier in this pass. */
  lemma FillRepeatedStep(s0: seq<Handle>, snap: seq<Handle>, found: seq<Handle>, handles: seq<Handle>, index: nat,
                         count: nat, growthOk: nat -> bool)
    requires FillState(s0, snap, found, handles, index, count, growthOk)
    requires index < |handles| && handles[index] in found && handles[index] !in s0
    requires AddedHandles(s0, handles[..index + 1]) == AddedHandles(s0, handles[..index]) + [handles[index]]
    ensures (forall k :: growthOk(k)) ==> found == NewImages(s0, handles[..index + 1])
    ensures !NoDuplicates(handles)
  {
    DedupOfRepeated(AddedHandles(s0, handles[..index]), handles[index]);
    if NoDuplicates(handles) {
      DistinctNotEarlier(handles, index);
      assert false;
    }
  }

  /** A handle outside the snapshot is outside `s0`, and the counting pass left room for it. */
  lemma FillNewStepBound(s0: seq<Handle>, snap: seq<Handle>, found: seq<Handle>, handles: seq<Handle>, index: nat,
                         count: nat, growthOk: nat -> bool)
    requires FillState(s0, snap, found, handles, index, count, growthOk)
    requires index < |handles| && handles[index] !in snap && count == |AddedHandles(s0, handles)|
    ensures handles[index] !in s0 && |found| < count
    ensures AddedHandles(s0, handles[..index + 1]) == AddedHandles(s0, handles[..index]) + [handles[index]]
  {
    assert snap == s0 + snap[|s0|..];
    AddedHandlesStep(s0, handles, index);
    AddedHandlesOfPrefix(s0, handles, index + 1);
  }

  /** The filling pass records a handle outside the snapshot and pushes it;
      the push may fail only when growth fails. */
  lemma FillNewStep(s0: seq<Handle>, snap: seq<Handle>, snap': seq<Handle>, found: seq<Handle>, handles: seq<Handle>,
                    index: nat, count: nat, growthOk: nat -> bool)
    requires FillState(s0, snap, found, handles, index, count, growthOk)
    requires index < |handles| && handles[index] !in snap && count == |AddedHandles(s0, handles)|
    requires handles[index] !in s0
    requires AddedHandles(s0, handles[..index + 1]) == AddedHandles(s0, handles[..index]) + [handles[index]]
    requires snap' == snap + [handles[index]] || (snap' == snap && !growthOk(index))
    ensures FillState(s0, snap', found + [handles[index]], handles, index + 1, count, growthOk)
  {
    FillNewStepShape(s0, snap, snap', found, handles, index, count);
    FillNewStepExact(s0, snap, snap', found, handles, index, growthOk);
  }

  lemma FillNewStepShape(s0: seq<Handle>, snap: seq<Handle>, snap': seq<Handle>, found: seq<Handle>,
                         handles: seq<Handle>, index: nat, count: nat)
    requires FillShape(s0, snap, found, handles, index, count)
    requires index < |handles| && count == |AddedHandles(s0, handles)|
    requires handles[index] !in s0
    requires AddedHandles(s0, handles[..index + 1]) == AddedHandles(s0, handles[..index]) + [handles[index]]
    requires snap' == snap + [handles[index]] || snap' == snap
    ensures FillShape(s0, snap', found + [handles[index]], handles, index + 1, count)
  {
    AddedHandlesOfPrefix(s0, handles, index + 1);
    assert handles[..index + 1] == handles[..index] + [handles[index]];
    assert snap'[|s0|..] == snap[|s0|..] || snap'[|s0|..] == snap[|s0|..] + [handles[index]];
  }

  lemma FillNewStepExact(s0: seq<Handle>, snap: seq<Handle>, snap': seq<Handle>, found: seq<Handle>,
                         handles: seq<Handle>, index: nat, growthOk: nat -> bool)
    requires FillExact(s0, snap, found, handles, index, growthOk)
    requires index < |handles| && handles[index] !in snap
    requires AddedHandles(s0, handles[..index + 1]) == AddedHandles(s0, handles[..index]) + [handles[index]]
    requires snap' == snap + [handles[index]] || (snap' == snap && !growthOk(index))
    ensures FillExact(s0, snap', found + [handles[index]], handles, index + 1, growthOk)
  {
    DedupOfRepeated(AddedHandles(s0, handles[..index]), handles[index]);
  }

  /** A handle of the extended snapshot is in the original one or was found. */
  lemma StoredIsOldOrFound(s0: seq<Handle>, snap: seq<Handle>, found: seq<Handle>, handle: Handle)
    requires s0 <= snap && handle in snap
    requires forall h :: h in snap[|s0|..] ==> h in found
    ensures handle in s0 || handle in found
  {
    assert snap == s0 + snap[|s0|..];
  }

  /** Appending an element Dedup has already kept changes nothing; appending
      another one extends the result by it. */
  lemma DedupOfRepeated<T>(s: seq<T>, x: T)
    ensures x in Dedup(s) ==> Dedup(s + [x]) == Dedup(s)
    ensures x !in Dedup(s) ==> Dedup(s + [x]) == Dedup(s) + [x]
  {
    assert (s + [x])[..|s|] == s;
  }

  /** In a sequence without duplicates no element occurs before its position. */
  lemma DistinctNotEarlier<T>(s: seq<T>, i: nat)
    requires i < |s| && NoDuplicates(s)
    ensures s[i] !in s[..i]
  {
    forall j | 0 <= j < i
      ensures s[..i][j] != s[i]
    {
      assert s[..i][j] == s[j];
    }
  }
}
