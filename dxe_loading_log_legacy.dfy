/**
 * The first version of the logger's protocol-notification logic
 * (Source/DxeLoadingLog.c), built on the unchecked vector of Source/Vector.c.
 *
 * Its log records are those of Source/DxeLoadingLog.h: a PROTOCOL_INSTALLED
 * entry names the protocol, an IMAGE_LOADED entry holds two fixed 32-byte
 * ASCII name fields. The file uses these record fields although the header
 * that defines them is an older one, so this module has its own entry type.
 * SetEntryImageNames is only declared in the file; the names it writes for a
 * handle are a function parameter.
 */
module DxeLoadingLogLegacy {
  import opened Wrappers
  import opened Uefi
  import opened LegacyVector
  import opened HandleDatabaseDump
  import opened EventProviderProtocolNotify

  /** LOG_ENTRY_IMAGE_NAME_LENGTH: the size of each name field, NUL included. */
  const ImageNameLength: nat := 32

  const CantGetHandleBuffer: string := "<ERR: can't get handle buffer>"
  const MultipleCandidates: string := "<ERR: multiple candidates>"
  const NoOneCandidate: string := "<ERR: no one candidate>"

  /** ProtocolEntry: the GUID to observe and its display name (the Logger
      member is always the DxeLoadingLog the entry belongs to). */
  datatype ProtocolEntry = ProtocolEntry(guid: Guid, name: string)

  /** The two names SetEntryImageNames writes for an image handle. */
  datatype SetNames = SetNames(imageName: string, parentImageName: string)

  /** LOG_ENTRY. An IMAGE_LOADED entry's ParentImageName is None when no path
      writes it: the record is a stack variable, so the field is then
      whatever was on the stack. */
  datatype LogEntry =
    | ProtocolInstalledEntry(protocolName: string)
    | ImageLoadedEntry(imageName: string, parentImageName: Option<string>)
    | ProtocolExistenceEntry(protocolName: string)

  /** Each error message, with its terminating NUL, fits the ImageName field,
      so the AsciiStrCpyS calls copy it whole. */
  lemma ErrorMessagesFit()
    ensures |CantGetHandleBuffer| < ImageNameLength
    ensures |MultipleCandidates| < ImageNameLength
    ensures |NoOneCandidate| < ImageNameLength
  {
  }

  /** The diff of one enumeration step: a handle already in `s0` or already
      found leaves the new images as they were, any other is appended. */
  lemma NewImagesStep(s0: seq<Handle>, found: seq<Handle>, handles: seq<Handle>, index: nat)
    requires index < |handles| && found == NewImages(s0, handles[..index])
    ensures NewImages(s0, handles[..index + 1]) ==
      if handles[index] in s0 + found then found else found + [handles[index]]
  {
    var h := handles[index];
    AddedHandlesStep(s0, handles, index);
    var added := AddedHandles(s0, handles[..index]);
    assert h in s0 + found <==> h in s0 || h in found;
    if h in s0 {
      assert AddedHandles(s0, handles[..index + 1]) == added + [] == added;
    } else {
      DedupOfRepeated(added, h);
    }
  }

  /** The state of DetectEntryImageNames after `index` enumerated handles:
      the snapshot is the original one followed by the new images found so
      far; NewImageHandle is the first of them (NULL while there is none) and
      MultipleCandidates says there are at least two. */
  ghost predicate DetectState(s0: seq<Handle>, snap: seq<Handle>, found: seq<Handle>, handles: seq<Handle>,
                              index: nat, newImageHandle: Handle, multipleCandidates: bool)
  {
    index <= |handles| &&
    found == NewImages(s0, handles[..index]) && snap == s0 + found && NullHandle !in found &&
    newImageHandle == (if |found| == 0 then NullHandle else found[0]) &&
    (multipleCandidates <==> |found| >= 2)
  }

  /** struct DxeLoadingLog: the log, the created events and the snapshot of
      loaded-image handles. */
  class DxeLoadingLog {
    const logData: Vector<LogEntry>
    const eventHandles: Vector<EfiEvent>
    const loadedImageHandles: Vector<Handle>

    constructor (logData: Vector<LogEntry>, eventHandles: Vector<EfiEvent>, loadedImageHandles: Vector<Handle>)
      ensures this.logData == logData && this.eventHandles == eventHandles
      ensures this.loadedImageHandles == loadedImageHandles
    {
      this.logData := logData;
      this.eventHandles := eventHandles;
      this.loadedImageHandles := loadedImageHandles;
    }

    /** All three vectors are constructed. */
    ghost predicate Valid()
      reads this, logData, eventHandles, loadedImageHandles
    {
      logData.Valid() && logData.hasMemory &&
      eventHandles.Valid() && eventHandles.hasMemory &&
      loadedImageHandles.Valid() && loadedImageHandles.hasMemory
    }

    /** SubscribeToProtocolInstallation: CreateEvent (notify at TPL_CALLBACK),
        then RegisterProtocolNotify for the GUID; only when both succeed is
        the event recorded. A registration failure leaves the created event
        unrecorded. */
    method SubscribeToProtocolInstallation(protocol: ProtocolEntry, created: Located<EfiEvent>, registered: Status)
      returns (status: Status)
      requires Valid() && FailureIsError(created)
      modifies eventHandles, eventHandles.allocatedMemory
      ensures Valid()
      ensures created.LocateFailed? ==> status == created.status
      ensures created.Located? && registered.IsError() ==> status == registered
      ensures status == Success <==> created.Located? && !registered.IsError()
      ensures status == Success ==> eventHandles.Items() == old(eventHandles.Items()) + [created.value]
      ensures status != Success ==> eventHandles.Items() == old(eventHandles.Items())
    {
      if created.LocateFailed? {
        return created.status;
      }
      var callbackEvent := created.value;
      if registered.IsError() {
        return registered;
      }
      eventHandles.PushBack(callbackEvent);
      return Success;
    }

    /** The FOR_EACH_VCT search of the snapshot; it stops at the first match. */
    method IsStored(handle: Handle) returns (stored: bool)
      requires Valid()
      ensures stored <==> handle in loadedImageHandles.Items()
    {
      var it := loadedImageHandles.GetBegin();
      var end := loadedImageHandles.GetEnd();
      while it != end
        invariant it <= end == loadedImageHandles.countUsed
        invariant handle !in loadedImageHandles.Items()[..it]
      {
        if loadedImageHandles.allocatedMemory[it] == handle {
          assert loadedImageHandles.Items()[it] == handle;
          return true;
        }
        assert loadedImageHandles.Items()[..it + 1] == loadedImageHandles.Items()[..it] + [loadedImageHandles.Items()[it]];
        it := it + 1;
      }
      assert loadedImageHandles.Items()[..it] == loadedImageHandles.Items();
      return false;
    }

    /** DetectEntryImageNames: enumerates the loaded-image handles, appends
        every one not yet in the snapshot to it (once), and names the entry
        after the result: an enumeration error, no new handle, exactly one
        (named by SetEntryImageNames), or several. */
    method DetectEntryImageNames(located: Located<seq<Handle>>, setNames: Handle -> SetNames)
      returns (entry: LogEntry, ghost found: seq<Handle>)
      requires Valid() && WellFormedHandles(located)
      modifies loadedImageHandles, loadedImageHandles.allocatedMemory
      ensures Valid()
      ensures located.LocateFailed? ==>
        entry == ImageLoadedEntry(CantGetHandleBuffer, None) && found == [] &&
        loadedImageHandles.Items() == old(loadedImageHandles.Items())
      ensures located.Located? ==>
        found == NewImages(old(loadedImageHandles.Items()), located.value) &&
        loadedImageHandles.Items() == old(loadedImageHandles.Items()) + found
      ensures located.Located? && |found| == 0 ==> entry == ImageLoadedEntry(NoOneCandidate, None)
      ensures located.Located? && |found| == 1 ==>
        entry == ImageLoadedEntry(setNames(found[0]).imageName, Some(setNames(found[0]).parentImageName))
      ensures located.Located? && |found| >= 2 ==> entry == ImageLoadedEntry(MultipleCandidates, None)
    {
      if located.LocateFailed? {
        return ImageLoadedEntry(CantGetHandleBuffer, None), [];
      }
      var handles := located.value;
      ghost var s0 := loadedImageHandles.Items();
      var newImageHandle := NullHandle;
      var multipleCandidates := false;
      found := [];
      var index := 0;
      while index < |handles|
        invariant index <= |handles| && Valid()
        invariant loadedImageHandles.allocatedMemory == old(loadedImageHandles.allocatedMemory) ||
                  fresh(loadedImageHandles.allocatedMemory)
        invariant DetectState(s0, loadedImageHandles.Items(), found, handles, index, newImageHandle, multipleCandidates)
      {
        found, newImageHandle, multipleCandidates := DetectStep(handles, index, s0, found, newImageHandle, multipleCandidates);
        index := index + 1;
      }
      assert handles[..index] == handles;
      if multipleCandidates {
        entry := ImageLoadedEntry(MultipleCandidates, None);
      } else if newImageHandle == NullHandle {
        entry := ImageLoadedEntry(NoOneCandidate, None);
      } else {
        var names := setNames(newImageHandle);
        entry := ImageLoadedEntry(names.imageName, Some(names.parentImageName));
      }
    }

    /** One pass of DetectEntryImageNames' loop over the enumerated handles. */
    method DetectStep(handles: seq<Handle>, index: nat, ghost s0: seq<Handle>, ghost found: seq<Handle>,
                      newImageHandle: Handle, multipleCandidates: bool)
      returns (ghost found': seq<Handle>, newImageHandle': Handle, multipleCandidates': bool)
      requires Valid() && index < |handles| && NullHandle !in handles
      requires DetectState(s0, loadedImageHandles.Items(), found, handles, index, newImageHandle, multipleCandidates)
      modifies loadedImageHandles, loadedImageHandles.allocatedMemory
      ensures Valid()
      ensures loadedImageHandles.allocatedMemory == old(loadedImageHandles.allocatedMemory) ||
              fresh(loadedImageHandles.allocatedMemory)
      ensures DetectState(s0, loadedImageHandles.Items(), found', handles, index + 1, newImageHandle', multipleCandidates')
    {
      var handle := handles[index];
      NewImagesStep(s0, found, handles, index);
      var handleStored := IsStored(handle);
      found', newImageHandle', multipleCandidates' := found, newImageHandle, multipleCandidates;
      if !handleStored {
        loadedImageHandles.PushBack(handle);
        if newImageHandle == NullHandle {
          newImageHandle' := handle;
        } else {
          multipleCandidates' := true;
        }
        found' := found + [handle];
      }
    }

    /** The raised-TPL section of ProtocolInstalledCallback. */
    method RecordAtHighLevel(protocol: ProtocolEntry, located: Located<seq<Handle>>,
                             setNames: Handle -> SetNames, tpl: TaskPriority)
      returns (entry: LogEntry, ghost found: seq<Handle>)
      requires Valid() && WellFormedHandles(located) && tpl.level == TplHighLevel
      modifies logData, logData.allocatedMemory, loadedImageHandles, loadedImageHandles.allocatedMemory
      ensures Valid()
      ensures logData.Items() == old(logData.Items()) + [entry]
      ensures protocol.guid != LoadedImageProtocolGuid ==>
        entry == ProtocolInstalledEntry(protocol.name) && found == [] &&
        loadedImageHandles.Items() == old(loadedImageHandles.Items())
      ensures protocol.guid == LoadedImageProtocolGuid ==>
        entry.ImageLoadedEntry? &&
        (located.LocateFailed? ==> entry == ImageLoadedEntry(CantGetHandleBuffer, None) &&
                                   loadedImageHandles.Items() == old(loadedImageHandles.Items())) &&
        (located.Located? ==>
           found == NewImages(old(loadedImageHandles.Items()), located.value) &&
           loadedImageHandles.Items() == old(loadedImageHandles.Items()) + found &&
           (|found| == 0 ==> entry == ImageLoadedEntry(NoOneCandidate, None)) &&
           (|found| == 1 ==> entry == ImageLoadedEntry(setNames(found[0]).imageName,
                                                       Some(setNames(found[0]).parentImageName))) &&
           (|found| >= 2 ==> entry == ImageLoadedEntry(MultipleCandidates, None)))
    {
      if protocol.guid == LoadedImageProtocolGuid {
        entry, found := DetectEntryImageNames(located, setNames);
      } else {
        entry, found := ProtocolInstalledEntry(protocol.name), [];
      }
      logData.PushBack(entry);
    }

    /** ProtocolInstalledCallback: exactly one entry is appended to the log,
        IMAGE_LOADED for the loaded-image GUID and PROTOCOL_INSTALLED with the
        protocol's name otherwise, all at TPL_HIGH_LEVEL. */
    method ProtocolInstalledCallback(protocol: ProtocolEntry, located: Located<seq<Handle>>,
                                     setNames: Handle -> SetNames, tpl: TaskPriority)
      returns (ghost entry: LogEntry, ghost found: seq<Handle>)
      requires Valid() && WellFormedHandles(located) && tpl.level <= TplHighLevel
      modifies logData, logData.allocatedMemory, loadedImageHandles, loadedImageHandles.allocatedMemory, tpl
      ensures Valid() && tpl.level == old(tpl.level)
      ensures logData.Items() == old(logData.Items()) + [entry]
      ensures protocol.guid != LoadedImageProtocolGuid ==>
        entry == ProtocolInstalledEntry(protocol.name) &&
        loadedImageHandles.Items() == old(loadedImageHandles.Items())
      ensures protocol.guid == LoadedImageProtocolGuid ==>
        entry.ImageLoadedEntry? &&
        (located.LocateFailed? ==> entry == ImageLoadedEntry(CantGetHandleBuffer, None) &&
                                   loadedImageHandles.Items() == old(loadedImageHandles.Items())) &&
        (located.Located? ==>
           found == NewImages(old(loadedImageHandles.Items()), located.value) &&
           loadedImageHandles.Items() == old(loadedImageHandles.Items()) + found &&
           (|found| == 0 ==> entry == ImageLoadedEntry(NoOneCandidate, None)) &&
           (|found| == 1 ==> entry == ImageLoadedEntry(setNames(found[0]).imageName,
                                                       Some(setNames(found[0]).parentImageName))) &&
           (|found| >= 2 ==> entry == ImageLoadedEntry(MultipleCandidates, None)))
    {
      var oldTpl := tpl.RaiseTpl(TplHighLevel);
      var e;
      e, found := RecordAtHighLevel(protocol, located, setNames, tpl);
      entry := e;
      tpl.RestoreTpl(oldTpl);
    }
  }
}
