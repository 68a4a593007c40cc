/**
 * The few UEFI notions the logger relies on: status codes, GUIDs, handles,
 * task priority levels and the result of a platform enumeration.
 * Values are those of the UEFI Specification (section 2.3.1 for EFI_STATUS
 * kinds, section 7.1 for task priority levels) and of the EDK II headers
 * that define the two protocol GUIDs used here.
 */
module Uefi {

  /** EFI_STATUS, restricted to the codes the core returns itself; any other
      error reported by the platform is `PlatformError`. */
  datatype Status =
    | Success
    | InvalidParameter
    | OutOfResources
    | BufferTooSmall
    | NotFound
    | Unsupported
    | PlatformError(code: nat)
  {
    /** EFI_ERROR (Status) */
    predicate IsError() { !Success? }
  }

  /** EFI_GUID: 32-bit, two 16-bit and eight 8-bit fields. */
  datatype Guid = Guid(data1: bv32, data2: bv16, data3: bv16, data4: seq<bv8>)

  /** gEfiLoadedImageProtocolGuid */
  const LoadedImageProtocolGuid: Guid :=
    Guid(0x5B1B31A1, 0x9562, 0x11d2, [0x8E, 0x3F, 0x00, 0xA0, 0xC9, 0x69, 0x72, 0x3B])

  /** gEfiBdsArchProtocolGuid */
  const BdsArchProtocolGuid: Guid :=
    Guid(0x665E3FF6, 0x46CC, 0x11d4, [0x9A, 0x38, 0x00, 0x90, 0x27, 0x3F, 0xC1, 0x4D])

  /** EFI_HANDLE is an opaque pointer; 0 plays the role of NULL. */
  type Handle = nat
  const NullHandle: Handle := 0

  /** EFI_EVENT, an opaque pointer created by CreateEvent; a type of its own,
      so that a vector of events is never a vector of handles. */
  newtype EfiEvent = n: int | 0 <= n

  /** EFI_TPL values used by the core. */
  type Tpl = nat
  const TplCallback: Tpl := 8
  const TplHighLevel: Tpl := 31

  /** The current task priority level, changed by RaiseTPL and RestoreTPL
      (section 7.1 of the UEFI Specification). Code that writes shared state
      between the two calls requires the level to be TPL_HIGH_LEVEL, which is
      how the model records a raised-TPL bracket. */
  class TaskPriority {
    var level: Tpl

    constructor (level: Tpl)
      ensures this.level == level
    {
      this.level := level;
    }

    /** RaiseTPL: the new level may not be below the current one; the
        previous level is returned. */
    method RaiseTpl(newTpl: Tpl) returns (previous: Tpl)
      requires level <= newTpl
      modifies this
      ensures level == newTpl && previous == old(level)
    {
      previous := level;
      level := newTpl;
    }

    /** RestoreTPL: back to a level not above the current one. */
    method RestoreTpl(previous: Tpl)
      requires previous <= level
      modifies this
      ensures level == previous
    {
      level := previous;
    }
  }

  /** What a boot-services query that fills an OUT buffer produced:
      the buffer, or the (error) status it returned. */
  datatype Located<T> = Located(value: T) | LocateFailed(status: Status)

  /** A failed query reports an error status, as every boot service does. */
  predicate FailureIsError<T>(l: Located<T>)
  {
    l.LocateFailed? ==> l.status.IsError()
  }

  /** The result of LocateHandleBuffer is well formed: an error status on failure,
      and no NULL handle in a returned buffer. */
  ghost predicate WellFormedHandles(l: Located<seq<Handle>>)
  {
    FailureIsError(l) && (l.Located? ==> NullHandle !in l.value)
  }
}
