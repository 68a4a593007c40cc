/**
 * The logged event record of Include/Library/LoadingEventLib.h and its
 * destructor, LoadingEvent_Destruct (Library/LoadingEventLib/LoadingEventLib.c).
 *
 * LOADING_EVENT is a tagged union. Its CHAR16* members are owned strings:
 * Some(s) is a live allocation holding s, None is NULL.
 */
module LoadingEvents {
  import opened Wrappers
  import opened Uefi

  /** BDS_STAGE_SUB_EVENT_INFO */
  datatype BdsSubEvent = BeforeEntryCalling | AfterEntryCalling

  /** LOADING_EVENT: one constructor per LOG_ENTRY_TYPE value, plus Unknown for
      a Type value outside the enumeration, which the destructor's default
      branch handles. */
  datatype LoadingEvent =
    | ProtocolInstalled(guid: Guid, successful: bool, handleDescription: Option<string>)
    | ProtocolReinstalled(guid: Guid, successful: bool, handleDescription: Option<string>)
    | ProtocolRemoved(guid: Guid, successful: bool, handleDescription: Option<string>)
    | ProtocolExistsOnStartup(guid: Guid, handleDescription: Option<string>)
    | ImageLoaded(imageName: Option<string>, parentImageName: Option<string>)
    | ImageExistsOnStartup(imageName: Option<string>, parentImageName: Option<string>)
    | BdsStageEntered(subEvent: BdsSubEvent)
    | Error(message: Option<string>)
    | Unknown(typeValue: nat)

  /** The numeric LOG_ENTRY_TYPE stored in the Type member. */
  function TypeOf(e: LoadingEvent): nat
  {
    match e
    case ProtocolInstalled(_, _, _) => 0
    case ProtocolReinstalled(_, _, _) => 1
    case ProtocolRemoved(_, _, _) => 2
    case ProtocolExistsOnStartup(_, _) => 3
    case ImageLoaded(_, _) => 4
    case ImageExistsOnStartup(_, _) => 5
    case BdsStageEntered(_) => 6
    case Error(_) => 7
    case Unknown(t) => t
  }

  /** The allocations an event owns, in the order the destructor frees them. */
  function OwnedStrings(e: LoadingEvent): seq<string>
  {
    match e
    case ProtocolInstalled(_, _, d) => Present(d)
    case ProtocolReinstalled(_, _, d) => Present(d)
    case ProtocolRemoved(_, _, d) => Present(d)
    case ProtocolExistsOnStartup(_, d) => Present(d)
    case ImageLoaded(n, p) => Present(n) + Present(p)
    case ImageExistsOnStartup(n, p) => Present(n) + Present(p)
    case BdsStageEntered(_) => []
    case Error(m) => Present(m)
    case Unknown(_) => []
  }

  function Present(p: Option<string>): seq<string>
  {
    if p.Some? then [p.value] else []
  }

  /** The event with every owned pointer of its variant set to NULL. */
  function Released(e: LoadingEvent): LoadingEvent
  {
    match e
    case ProtocolInstalled(g, ok, _) => ProtocolInstalled(g, ok, None)
    case ProtocolReinstalled(g, ok, _) => ProtocolReinstalled(g, ok, None)
    case ProtocolRemoved(g, ok, _) => ProtocolRemoved(g, ok, None)
    case ProtocolExistsOnStartup(g, _) => ProtocolExistsOnStartup(g, None)
    case ImageLoaded(_, _) => ImageLoaded(None, None)
    case ImageExistsOnStartup(_, _) => ImageExistsOnStartup(None, None)
    case BdsStageEntered(_) => e
    case Error(_) => Error(None)
    case Unknown(_) => e
  }

  /** Storage for one LOADING_EVENT, the object a LOADING_EVENT* points at. */
  class EventSlot {
    var event: LoadingEvent

    constructor (e: LoadingEvent)
      ensures event == e
    {
      event := e;
    }
  }

  /**
   * LoadingEvent_Destruct: for a non-NULL event, frees the owned members of
   * its variant (SHELL_FREE_NON_NULL frees a non-NULL pointer and sets it to
   * NULL) and returns the strings freed, in order. A NULL event is a no-op.
   */
  method Destruct(slot: EventSlot?) returns (freed: seq<string>)
    modifies slot
    ensures slot == null ==> freed == []
    ensures slot != null ==> slot.event == Released(old(slot.event)) && freed == OwnedStrings(old(slot.event))
  {
    if slot == null {
      return [];
    }
    freed := [];
    match slot.event
    case ProtocolInstalled(g, ok, d) =>
      freed := FreeNonNull(d);
      slot.event := ProtocolInstalled(g, ok, None);
    case ProtocolReinstalled(g, ok, d) =>
      freed := FreeNonNull(d);
      slot.event := ProtocolReinstalled(g, ok, None);
    case ProtocolRemoved(g, ok, d) =>
      freed := FreeNonNull(d);
      slot.event := ProtocolRemoved(g, ok, None);
    case ProtocolExistsOnStartup(g, d) =>
      freed := FreeNonNull(d);
      slot.event := ProtocolExistsOnStartup(g, None);
    case ImageLoaded(n, p) =>
      var f1 := FreeNonNull(n);
      slot.event := ImageLoaded(None, p);
      var f2 := FreeNonNull(p);
      slot.event := ImageLoaded(None, None);
      freed := f1 + f2;
    case ImageExistsOnStartup(n, p) =>
      var f1 := FreeNonNull(n);
      slot.event := ImageExistsOnStartup(None, p);
      var f2 := FreeNonNull(p);
      slot.event := ImageExistsOnStartup(None, None);
      freed := f1 + f2;
    case BdsStageEntered(_) =>
    case Error(m) =>
      freed := FreeNonNull(m);
      slot.event := Error(None);
    case Unknown(_) =>
  }

  /** SHELL_FREE_NON_NULL: frees the pointer when it is not NULL. */
  method FreeNonNull(p: Option<string>) returns (freed: seq<string>)
    ensures p.None? ==> freed == []
    ensures p.Some? ==> freed == [p.value]
  {
    if p.Some? {
      freed := [p.value];
    } else {
      freed := [];
    }
  }

  /** Destruct frees every owned pointer: afterwards the event owns nothing,
      so a second Destruct frees nothing and no pointer is freed twice. */
  lemma ReleasedOwnsNothing(e: LoadingEvent)
    ensures OwnedStrings(Released(e)) == []
    ensures Released(Released(e)) == Released(e)
  {
  }

  /** The Type tag and the non-pointer members survive the destructor. */
  lemma ReleasedKeepsTagAndValues(e: LoadingEvent)
    ensures TypeOf(Released(e)) == TypeOf(e)
    ensures Released(e).ProtocolInstalled? ==> Released(e).guid == e.guid && Released(e).successful == e.successful
    ensures Released(e).ProtocolReinstalled? ==> Released(e).guid == e.guid && Released(e).successful == e.successful
    ensures Released(e).ProtocolRemoved? ==> Released(e).guid == e.guid && Released(e).successful == e.successful
    ensures Released(e).ProtocolExistsOnStartup? ==> Released(e).guid == e.guid
  {
  }

  /** An event that owns nothing (BdsStageEntered, an unknown tag, or one whose
      pointers are all NULL) is left exactly as it was. */
  lemma ReleasedOfUnowned(e: LoadingEvent)
    ensures OwnedStrings(e) == [] <==> Released(e) == e
  {
  }
}
