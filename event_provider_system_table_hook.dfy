/**
 * The EVENT_PROVIDER built on patching the boot-services table
 * (EventProviderSystemTableHookLib.c).
 *
 * Start saves five entries of the EFI_BOOT_SERVICES table into static
 * globals, overwrites them with the library's own substitutes and
 * recomputes the table header's CRC; Stop writes the saved entries back and
 * recomputes the CRC again. Both run with the TPL raised to
 * TPL_HIGH_LEVEL. Function pointers are opaque `Service` values, the table is
 * a class whose fields are overwritten in place, and CalculateCrc32 is a
 * function parameter over the table and the number of bytes it covers.
 *
 * Construct always sets `Data` to NULL and nothing else ever sets it, so
 * Start and Stop return at their guard on every provider that Construct
 * produced; the patch path is modelled for a provider whose `Data` is set.
 */
module EventProviderSystemTableHook {
  import opened Wrappers
  import opened Uefi

  /** A function pointer stored in the table: NULL, a firmware
      implementation at some address, or one of the library's substitutes. */
  datatype Service =
    | NullService
    | FirmwareService(address: nat)
    | MyInstallProtocolInterface
    | MyReinstallProtocolInterface
    | MyUninstallProtocolInterface
    | MyInstallMultipleProtocolInterfaces
    | MyUninstallMultipleProtocolInterfaces

  /** The five entries that Start and Stop rewrite. */
  datatype Services = Services(
    installProtocolInterface: Service,
    reinstallProtocolInterface: Service,
    uninstallProtocolInterface: Service,
    installMultipleProtocolInterfaces: Service,
    uninstallMultipleProtocolInterfaces: Service)

  /** What Start installs, entry by entry. */
  const Substitutes: Services := Services(
    MyInstallProtocolInterface,
    MyReinstallProtocolInterface,
    MyUninstallProtocolInterface,
    MyInstallMultipleProtocolInterfaces,
    MyUninstallMultipleProtocolInterfaces)

  /** EFI_TABLE_HEADER (section 4.2 of the UEFI Specification). */
  datatype TableHeader = TableHeader(signature: nat, revision: nat, headerSize: nat, crc32: bv32)

  /** The contents of the boot-services table: its header, the five entries,
      and every other entry as one opaque value. */
  datatype TableImage = TableImage(hdr: TableHeader, services: Services, otherServices: nat)

  /** CalculateCrc32 over the first `size` bytes of the table: the byte layout
      and the CRC algorithm belong to the firmware. */
  type Crc32Function = (TableImage, nat) -> bv32

  /** The table with its CRC32 field cleared, which is what the CRC covers. */
  function WithZeroCrc(t: TableImage): (r: TableImage)
    ensures r.hdr.crc32 == 0
    ensures r.services == t.services && r.otherServices == t.otherServices
    ensures r.hdr.signature == t.hdr.signature && r.hdr.revision == t.hdr.revision
    ensures r.hdr.headerSize == t.hdr.headerSize
  {
    t.(hdr := t.hdr.(crc32 := 0))
  }

  /** Section 4.2 of the UEFI Specification: the CRC32 field holds the CRC of
      the HeaderSize bytes of the table computed with that field set to 0. */
  predicate CrcValid(t: TableImage, crc: Crc32Function)
  {
    t.hdr.crc32 == crc(WithZeroCrc(t), t.hdr.headerSize)
  }

  /** The table after CalculateEfiHdrCrc. */
  function WithRecomputedCrc(t: TableImage, crc: Crc32Function): (r: TableImage)
    ensures CrcValid(r, crc)
    ensures WithZeroCrc(r) == WithZeroCrc(t)
    ensures CrcValid(t, crc) ==> r == t
  {
    t.(hdr := t.hdr.(crc32 := crc(WithZeroCrc(t), t.hdr.headerSize)))
  }

  /** The table and the saved originals, seen together. */
  datatype HookState = HookState(table: TableImage, saved: Services)

  /** What the patch section of Start does to the state. */
  function Started(s: HookState, crc: Crc32Function): (r: HookState)
    ensures r.saved == s.table.services
    ensures r.table.services == Substitutes
    ensures r.table.otherServices == s.table.otherServices
    ensures r.table.hdr.headerSize == s.table.hdr.headerSize
    ensures CrcValid(r.table, crc)
  {
    HookState(WithRecomputedCrc(s.table.(services := Substitutes), crc), s.table.services)
  }

  /** What the patch section of Stop does to the state. */
  function Stopped(s: HookState, crc: Crc32Function): (r: HookState)
    ensures r.saved == s.saved
    ensures r.table.services == s.saved
    ensures r.table.otherServices == s.table.otherServices
    ensures r.table.hdr.headerSize == s.table.hdr.headerSize
    ensures CrcValid(r.table, crc)
  {
    HookState(WithRecomputedCrc(s.table.(services := s.saved), crc), s.saved)
  }

  /** Start followed by Stop gives back the five entries, and, when the
      table's CRC was valid before Start, the whole table. */
  lemma StopUndoesStart(s: HookState, crc: Crc32Function)
    ensures Stopped(Started(s, crc), crc).table.services == s.table.services
    ensures CrcValid(s.table, crc) ==> Stopped(Started(s, crc), crc).table == s.table
  {
    var t := Stopped(Started(s, crc), crc).table;
    assert WithZeroCrc(t) == WithZeroCrc(s.table);
  }

  /** A second Start overwrites the saved originals with the substitutes, so
      a Stop after it leaves the substitutes installed. */
  lemma StartTwiceLosesOriginals(s: HookState, crc: Crc32Function)
    ensures Started(Started(s, crc), crc).saved == Substitutes
    ensures Stopped(Started(Started(s, crc), crc), crc).table.services == Substitutes
  {
  }

  /** gST->BootServices: the header and the entries, overwritten in place. */
  class BootServices {
    var hdr: TableHeader
    var installProtocolInterface: Service
    var reinstallProtocolInterface: Service
    var uninstallProtocolInterface: Service
    var installMultipleProtocolInterfaces: Service
    var uninstallMultipleProtocolInterfaces: Service
    var otherServices: nat

    constructor (image: TableImage)
      ensures Image() == image
    {
      hdr := image.hdr;
      installProtocolInterface := image.services.installProtocolInterface;
      reinstallProtocolInterface := image.services.reinstallProtocolInterface;
      uninstallProtocolInterface := image.services.uninstallProtocolInterface;
      installMultipleProtocolInterfaces := image.services.installMultipleProtocolInterfaces;
      uninstallMultipleProtocolInterfaces := image.services.uninstallMultipleProtocolInterfaces;
      otherServices := image.otherServices;
    }

    function Entries(): Services
      reads this
    {
      Services(installProtocolInterface, reinstallProtocolInterface, uninstallProtocolInterface,
               installMultipleProtocolInterfaces, uninstallMultipleProtocolInterfaces)
    }

    function Image(): TableImage
      reads this
    {
      TableImage(hdr, Entries(), otherServices)
    }
  }

  /** The static gOriginal* globals; being static they start out NULL. */
  class OriginalServices {
    var installProtocolInterface: Service
    var reinstallProtocolInterface: Service
    var uninstallProtocolInterface: Service
    var installMultipleProtocolInterfaces: Service
    var uninstallMultipleProtocolInterfaces: Service

    constructor ()
      ensures Entries() == Services(NullService, NullService, NullService, NullService, NullService)
    {
      installProtocolInterface := NullService;
      reinstallProtocolInterface := NullService;
      uninstallProtocolInterface := NullService;
      installMultipleProtocolInterfaces := NullService;
      uninstallMultipleProtocolInterfaces := NullService;
    }

    function Entries(): Services
      reads this
    {
      Services(installProtocolInterface, reinstallProtocolInterface, uninstallProtocolInterface,
               installMultipleProtocolInterfaces, uninstallMultipleProtocolInterfaces)
    }
  }

  /** EVENT_PROVIDER: the delivery callback and its context are opaque
      pointers; `hasData` stands for `Data != NULL`. */
  class HookProvider {
    var addEvent: nat
    var externalData: nat
    var hasData: bool

    constructor ()
      ensures !hasData
    {
      addEvent := 0;
      externalData := 0;
      hasData := false;
    }
  }

  ghost function State(bs: BootServices, saved: OriginalServices): HookState
    reads bs, saved
  {
    HookState(bs.Image(), saved.Entries())
  }

  /** The guard of Start and Stop: `This != NULL && This->Data != NULL`. */
  predicate Active(provider: HookProvider?)
    reads provider
  {
    provider != null && provider.hasData
  }

  /** EventProvider_Construct: NULL is refused; otherwise the callback and its
      context are stored and `Data` is set to NULL. */
  method Construct(provider: HookProvider?, addEvent: nat, externalData: nat) returns (status: Status)
    modifies provider
    ensures provider == null ==> status == InvalidParameter
    ensures provider != null ==>
      status == Success && provider.addEvent == addEvent &&
      provider.externalData == externalData && !provider.hasData
  {
    if provider == null {
      return InvalidParameter;
    }
    provider.addEvent := addEvent;
    provider.externalData := externalData;
    provider.hasData := false;
    return Success;
  }

  /** Copies the five entries into the globals. */
  method SaveServices(bs: BootServices, saved: OriginalServices, tpl: TaskPriority)
    requires tpl.level == TplHighLevel
    modifies saved
    ensures saved.Entries() == bs.Entries()
  {
    saved.installProtocolInterface := bs.installProtocolInterface;
    saved.reinstallProtocolInterface := bs.reinstallProtocolInterface;
    saved.uninstallProtocolInterface := bs.uninstallProtocolInterface;
    saved.installMultipleProtocolInterfaces := bs.installMultipleProtocolInterfaces;
    saved.uninstallMultipleProtocolInterfaces := bs.uninstallMultipleProtocolInterfaces;
  }

  /** Writes the given five entries into the table, leaving the rest of it. */
  method WriteServices(bs: BootServices, entries: Services, tpl: TaskPriority)
    requires tpl.level == TplHighLevel
    modifies bs
    ensures bs.Image() == old(bs.Image()).(services := entries)
  {
    bs.installProtocolInterface := entries.installProtocolInterface;
    bs.reinstallProtocolInterface := entries.reinstallProtocolInterface;
    bs.uninstallProtocolInterface := entries.uninstallProtocolInterface;
    bs.installMultipleProtocolInterfaces := entries.installMultipleProtocolInterfaces;
    bs.uninstallMultipleProtocolInterfaces := entries.uninstallMultipleProtocolInterfaces;
  }

  /** CalculateEfiHdrCrc: clears CRC32, computes the CRC over HeaderSize
      bytes of the table and stores it. */
  method CalculateEfiHdrCrc(bs: BootServices, crc: Crc32Function)
    modifies bs
    ensures bs.Image() == WithRecomputedCrc(old(bs.Image()), crc)
  {
    bs.hdr := bs.hdr.(crc32 := 0);
    var value := crc(bs.Image(), bs.hdr.headerSize);
    bs.hdr := bs.hdr.(crc32 := value);
  }

  /** EventProvider_Start. The guard returns EFI_INVALID_PARAMETER; past it
      the function has no return statement, so no status is defined (None). */
  method Start(provider: HookProvider?, bs: BootServices, saved: OriginalServices,
               tpl: TaskPriority, crc: Crc32Function) returns (status: Option<Status>)
    requires tpl.level <= TplHighLevel
    modifies bs, saved, tpl
    ensures !Active(provider) ==>
      status == Some(InvalidParameter) && unchanged(bs, saved, tpl)
    ensures Active(provider) ==>
      status == None && State(bs, saved) == Started(old(State(bs, saved)), crc) &&
      tpl.level == old(tpl.level)
  {
    if !Active(provider) {
      return Some(InvalidParameter);
    }
    var previousTpl := tpl.RaiseTpl(TplHighLevel);
    SaveServices(bs, saved, tpl);
    WriteServices(bs, Substitutes, tpl);
    CalculateEfiHdrCrc(bs, crc);
    tpl.RestoreTpl(previousTpl);
    return None;
  }

  /** EventProvider_Stop: past the same guard, writes the saved entries back. */
  method Stop(provider: HookProvider?, bs: BootServices, saved: OriginalServices,
              tpl: TaskPriority, crc: Crc32Function)
    requires tpl.level <= TplHighLevel
    modifies bs, tpl
    ensures !Active(provider) ==> unchanged(bs, tpl)
    ensures Active(provider) ==>
      State(bs, saved) == Stopped(old(State(bs, saved)), crc) && tpl.level == old(tpl.level)
  {
    if !Active(provider) {
      return;
    }
    var previousTpl := tpl.RaiseTpl(TplHighLevel);
    WriteServices(bs, saved.Entries(), tpl);
    CalculateEfiHdrCrc(bs, crc);
    tpl.RestoreTpl(previousTpl);
  }

  /** EventProvider_Destruct: nothing but Stop. */
  method Destruct(provider: HookProvider?, bs: BootServices, saved: OriginalServices,
                  tpl: TaskPriority, crc: Crc32Function)
    requires tpl.level <= TplHighLevel
    modifies bs, tpl
    ensures !Active(provider) ==> unchanged(bs, tpl)
    ensures Active(provider) ==>
      State(bs, saved) == Stopped(old(State(bs, saved)), crc) && tpl.level == old(tpl.level)
  {
    Stop(provider, bs, saved, tpl, crc);
  }

  /** A provider fresh from Construct is never active, so Start leaves the
      table alone and answers EFI_INVALID_PARAMETER. */
  method ConstructThenStart(provider: HookProvider, bs: BootServices, saved: OriginalServices,
                            tpl: TaskPriority, crc: Crc32Function, addEvent: nat, externalData: nat)
    returns (constructed: Status, started: Option<Status>)
    requires tpl.level <= TplHighLevel
    modifies provider, bs, saved, tpl
    ensures constructed == Success && started == Some(InvalidParameter)
    ensures unchanged(bs, saved, tpl)
  {
    constructed := Construct(provider, addEvent, externalData);
    started := Start(provider, bs, saved, tpl, crc);
  }

  /** Start then Stop on an active provider restores the five entries, and
      the whole table when its CRC was valid. */
  method StartThenStop(provider: HookProvider, bs: BootServices, saved: OriginalServices,
                       tpl: TaskPriority, crc: Crc32Function)
    requires tpl.level <= TplHighLevel && provider.hasData
    modifies bs, saved, tpl
    ensures bs.Entries() == old(bs.Entries()) && tpl.level == old(tpl.level)
    ensures old(CrcValid(bs.Image(), crc)) ==> bs.Image() == old(bs.Image())
  {
    ghost var before := State(bs, saved);
    var _ := Start(provider, bs, saved, tpl, crc);
    Stop(provider, bs, saved, tpl, crc);
    StopUndoesStart(before, crc);
  }

  /** IsBdsArchProtocolGuid: CompareGuid, field by field, against
      gEfiBdsArchProtocolGuid. */
  function IsBdsArchProtocolGuid(guid: Guid): (r: bool)
    ensures r <==> guid == BdsArchProtocolGuid
  {
    guid.data1 == BdsArchProtocolGuid.data1 && guid.data2 == BdsArchProtocolGuid.data2 &&
    guid.data3 == BdsArchProtocolGuid.data3 && guid.data4 == BdsArchProtocolGuid.data4
  }
}
