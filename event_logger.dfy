/**
 * The LOGGER of Library/EventLoggerLib/EventLoggerLib.c: an append-only
 * vector of LOADING_EVENT records (LogData) fed by an EVENT_PROVIDER through
 * the AddEventToLog callback.
 *
 * The provider here is the protocol-notification one
 * (module EventProviderProtocolNotify), whose methods return the events they
 * deliver, in order; the logger appends them in that order, which is what
 * the synchronous AddEvent callback does. The outcome of each growth of
 * LogData is a boolean (`logGrowth(k)` for the k-th delivered event).
 */
module EventLogger {
  import opened Wrappers
  import opened Uefi
  import opened VectorLib
  import opened LoadingEvents
  import opened ProtocolGuidDatabase
  import opened EventProviderUtility
  import opened EventProviderProtocolNotify

  /** sizeof(LOADING_EVENT): a 4-byte type tag and a packed union whose
      largest member is a GUID, a BOOLEAN and a pointer. */
  const LoadingEventSize: nat := 29
  /** Initial capacity of LogData. */
  const LogCapacity: nat := 1024

  /** The allocation outcomes of Logger_Construct: LogData's buffer, then the
      provider's data structure and its three vectors. */
  datatype ConstructAllocations = ConstructAllocations(
    logData: bool, providerData: bool, snapshot: bool, events: bool, contexts: bool)

  /** `log` grew from `before` by some of `delivered`, in order. */
  ghost predicate AppendedFrom(before: seq<LoadingEvent>, log: seq<LoadingEvent>, delivered: seq<LoadingEvent>)
  {
    before <= log && |log| <= |before| + |delivered| &&
    forall i :: |before| <= i < |log| ==> log[i] in delivered
  }

  class Logger {
    const logData: Vector<LoadingEvent>
    const provider: Provider

    /** The LOGGER variable before Logger_Construct. */
    constructor ()
      ensures Valid() && !provider.hasData && !logData.hasMemory
      ensures fresh(logData) && fresh(provider)
      ensures fresh(provider.eventHandles) && fresh(provider.loadedImageHandles) && fresh(provider.contexts)
    {
      logData := new Vector();
      provider := new Provider();
    }

    ghost predicate Valid()
      reads this, logData, provider, provider.eventHandles, provider.loadedImageHandles, provider.contexts
    {
      logData.Valid() && provider.Valid()
    }

    /** Every state Logger_Construct leaves behind, whatever its status,
        except a provider whose data structure exists but one of whose
        vectors does not: either the provider holds no data (LogData may or
        may not exist), or LogData and the whole provider are constructed. */
    ghost predicate Ready()
      reads this, logData, provider, provider.eventHandles, provider.loadedImageHandles, provider.contexts
    {
      Valid() && (provider.hasData ==> provider.Ready() && logData.Constructed())
    }

    /** The events collected so far, in order. */
    ghost function Log(): seq<LoadingEvent>
      reads this, logData, logData.allocatedMemory
      requires logData.Constructed()
    {
      logData.Items()
    }

    /** Logger_Construct: LogData with 1024 slots, then the provider (with
        AddEventToLog and this logger as its callback), stopping at the first
        failure. */
    method Construct(db: ProtocolDatabase, allocs: ConstructAllocations) returns (status: Status)
      requires Valid()
      modifies logData, provider, provider.eventHandles, provider.loadedImageHandles, provider.contexts
      ensures Valid()
      ensures status == Success <==>
        allocs.logData && allocs.providerData && allocs.snapshot && allocs.events && allocs.contexts
      ensures status != Success ==> status == OutOfResources
      ensures !allocs.logData ==>
        !logData.hasMemory && unchanged(provider, provider.eventHandles, provider.loadedImageHandles, provider.contexts)
      ensures allocs.logData ==>
        logData.Constructed() && Log() == [] && logData.countAllocated == LogCapacity
      ensures allocs.logData && !allocs.providerData ==> Ready() && !provider.hasData
      ensures allocs.logData && allocs.providerData ==> provider.hasData
      ensures status == Success ==> Ready() && provider.Ready()
    {
      status := VectorLib.Construct(logData, LoadingEventSize, LogCapacity, allocs.logData);
      if status.IsError() {
        return;
      }
      status := provider.Construct(db, allocs.providerData, allocs.snapshot, allocs.events, allocs.contexts);
    }

    /** The body of AddEventToLog's raised-TPL section. */
    method AppendAtHighLevel(event: LoadingEvent, tpl: TaskPriority, growthOk: bool)
      requires logData.Constructed() && tpl.level == TplHighLevel
      modifies logData, logData.allocatedMemory
      ensures logData.Constructed()
      ensures logData.allocatedMemory == old(logData.allocatedMemory) || fresh(logData.allocatedMemory)
      ensures Log() == if old(logData.countUsed) < old(logData.countAllocated) || growthOk
                       then old(Log()) + [event] else old(Log())
    {
      var _ := PushBack(logData, Some(event), growthOk);
    }

    /** AddEventToLog: one copy of the event at the end of LogData, unless
        the vector is full and cannot grow, in which case the log stays as it
        was and the failure is ignored. The push runs at TPL_HIGH_LEVEL. */
    method AddEventToLog(event: LoadingEvent, tpl: TaskPriority, growthOk: bool)
      requires logData.Constructed() && tpl.level <= TplHighLevel
      modifies logData, logData.allocatedMemory, tpl
      ensures logData.Constructed() && tpl.level == old(tpl.level)
      ensures logData.allocatedMemory == old(logData.allocatedMemory) || fresh(logData.allocatedMemory)
      ensures Log() == if old(logData.countUsed) < old(logData.countAllocated) || growthOk
                       then old(Log()) + [event] else old(Log())
    {
      var oldTpl := tpl.RaiseTpl(TplHighLevel);
      AppendAtHighLevel(event, tpl, growthOk);
      tpl.RestoreTpl(oldTpl);
    }

    /** AddEventToLog for each delivered event, in delivery order. */
    method LogEvents(events: seq<LoadingEvent>, tpl: TaskPriority, logGrowth: nat -> bool)
      requires logData.Constructed() && tpl.level <= TplHighLevel
      modifies logData, logData.allocatedMemory, tpl
      ensures logData.Constructed() && tpl.level == old(tpl.level)
      ensures logData.allocatedMemory == old(logData.allocatedMemory) || fresh(logData.allocatedMemory)
      ensures AppendedFrom(old(Log()), Log(), events)
      ensures (forall k :: logGrowth(k)) ==> Log() == old(Log()) + events
    {
      var i := 0;
      while i < |events|
        invariant i <= |events|
        invariant logData.Constructed() && tpl.level == old(tpl.level)
        invariant logData.allocatedMemory == old(logData.allocatedMemory) || fresh(logData.allocatedMemory)
        invariant AppendedFrom(old(Log()), Log(), events[..i])
        invariant (forall k :: logGrowth(k)) ==> Log() == old(Log()) + events[..i]
      {
        AddEventToLog(events[i], tpl, logGrowth(i));
        assert events[..i + 1] == events[..i] + [events[i]];
        i := i + 1;
      }
      assert events[..i] == events;
    }

    /** The AddEventToLog calls of one provider operation: one per delivered
        event, so none when nothing was delivered, LogData or not. */
    method LogDelivered(events: seq<LoadingEvent>, tpl: TaskPriority, logGrowth: nat -> bool)
      requires logData.Valid() && (events != [] ==> logData.Constructed()) && tpl.level <= TplHighLevel
      modifies logData, logData.allocatedMemory, tpl
      ensures logData.Valid() && tpl.level == old(tpl.level)
      ensures events == [] ==> unchanged(logData)
      ensures old(logData.Constructed()) ==>
        logData.Constructed() &&
        (logData.allocatedMemory == old(logData.allocatedMemory) || fresh(logData.allocatedMemory)) &&
        AppendedFrom(old(Log()), Log(), events) &&
        ((forall k :: logGrowth(k)) ==> Log() == old(Log()) + events)
    {
      if events != [] {
        LogEvents(events, tpl, logGrowth);
      }
    }

    /** Logger_Start: EventProvider_Start, whose status is returned; every
        event the provider delivered before returning is in the log. Without
        provider data (a failed Logger_Construct) nothing is delivered and the
        status is EFI_INVALID_PARAMETER. */
    method Start(db: ProtocolDatabase, fw: Firmware, located: Located<seq<Handle>>,
                 allocs: StartAllocations, tpl: TaskPriority, logGrowth: nat -> bool)
      returns (status: Status, ghost delivered: seq<LoadingEvent>)
      requires Ready() && FailureIsError(located) && CreateFailuresAreErrors(fw)
      requires tpl.level <= TplHighLevel
      modifies logData, logData.allocatedMemory, tpl,
               provider.loadedImageHandles, provider.loadedImageHandles.allocatedMemory,
               provider.contexts, provider.contexts.allocatedMemory,
               provider.eventHandles, provider.eventHandles.allocatedMemory
      ensures Ready() && tpl.level == old(tpl.level)
      ensures !provider.hasData ==>
        status == InvalidParameter && delivered == [] && unchanged(logData) &&
        (old(logData.Constructed()) ==> Log() == old(Log()))
      ensures provider.hasData && status == Success ==>
        located.Located? &&
        delivered == StartupImageEvents(fw.platform, located.value, allocs.strings) +
                     ExistenceEvents(db, fw.protocolPresent)
      ensures provider.hasData && located.Located? ==>
        delivered <= StartupImageEvents(fw.platform, located.value, allocs.strings) +
                     ExistenceEvents(db, fw.protocolPresent)
      ensures status != Success ==> status.IsError()
      ensures provider.hasData && located.Located? && status != Success ==>
        StoppedPartway(db, fw, located.value, allocs, old(provider.loadedImageHandles.Items()),
                       old(provider.contexts.Items()), old(provider.eventHandles.Items()), delivered,
                       provider.loadedImageHandles.Items(), provider.contexts.Items(), provider.eventHandles.Items())
      ensures old(logData.Constructed()) ==> logData.Constructed() && AppendedFrom(old(Log()), Log(), delivered)
      ensures old(logData.Constructed()) && (forall k :: logGrowth(k)) ==> Log() == old(Log()) + delivered
    {
      var events;
      status, events := provider.Start(db, fw, located, allocs);
      delivered := events;
      LogDelivered(events, tpl, logGrowth);
    }

    /** A protocol-installation notification while started: the provider's
        callback builds one event and delivers it to AddEventToLog. */
    method OnProtocolInstalled(context: NotifyContext, p: Platform,
                               located: Located<seq<Handle>>, allocs: CallbackAllocations,
                               tpl: TaskPriority, growthOk: bool)
      returns (ghost event: LoadingEvent, ghost detected: Option<seq<Handle>>)
      requires Ready() && provider.hasData && WellFormedHandles(located)
      requires tpl.level <= TplHighLevel
      modifies logData, logData.allocatedMemory, tpl,
               provider.loadedImageHandles, provider.loadedImageHandles.allocatedMemory
      ensures Ready() && tpl.level == old(tpl.level)
      ensures context.guid != LoadedImageProtocolGuid ==>
        event == ProtocolInstalled(context.guid, true, None) && detected.None?
      ensures context.guid == LoadedImageProtocolGuid ==>
        event == ImageLoadedEvent(p, detected, allocs.strings) &&
        (detected.None? <==> located.LocateFailed? || !allocs.newArray)
      ensures SnapshotDiffed(old(provider.loadedImageHandles.Items()), provider.loadedImageHandles.Items(), located,
                             detected, allocs.snapshotGrowth)
      ensures Log() == if old(logData.countUsed) < old(logData.countAllocated) || growthOk
                       then old(Log()) + [event] else old(Log())
    {
      var e;
      e, detected := provider.ProtocolInstalledCallback(context, p, located, allocs);
      event := e;
      AddEventToLog(e, tpl, growthOk);
    }

    /** Logger_Stop: only the provider is stopped; the log is kept. */
    method Stop() returns (closed: seq<EfiEvent>)
      requires Ready()
      modifies provider.eventHandles
      ensures Ready() && unchanged(logData)
      ensures old(logData.Constructed()) ==> Log() == old(Log())
      ensures closed == if provider.hasData then old(provider.eventHandles.Items()) else []
      ensures provider.hasData ==> provider.eventHandles.Items() == []
      ensures !provider.hasData ==> unchanged(provider.eventHandles)
    {
      closed := provider.Stop();
    }

    /** Logger_Destruct: Stop, Vector_Destruct of LogData, then the provider's
        destructor; either may find nothing to release after a failed
        Logger_Construct. The logged events themselves are not destructed:
        their records are left as they were in the released buffer. */
    method Destruct() returns (closed: seq<EfiEvent>)
      requires Ready()
      modifies logData, provider, provider.eventHandles, provider.loadedImageHandles, provider.contexts
      ensures Valid() && !logData.hasMemory && !provider.hasData
      ensures logData.allocatedMemory == old(logData.allocatedMemory)
      ensures logData.countUsed == old(logData.countUsed)
      ensures old(logData.Constructed()) ==> logData.allocatedMemory[..logData.countUsed] == old(Log())
      ensures closed == if old(provider.hasData) then old(provider.eventHandles.Items()) else []
      ensures old(provider.hasData) ==>
        !provider.eventHandles.hasMemory && !provider.loadedImageHandles.hasMemory && !provider.contexts.hasMemory
      ensures !old(provider.hasData) ==>
        unchanged(provider.eventHandles, provider.loadedImageHandles, provider.contexts)
    {
      closed := Stop();
      VectorLib.Destruct(logData);
      var _ := provider.Destruct();
    }
  }
}
