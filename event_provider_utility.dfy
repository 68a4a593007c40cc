/**
 * The helpers the event providers share
 * (Library/EventProviderLib/EventProviderUtilityLib/EventProviderUtilityLib.c):
 * owned-string copying and appending, naming a handle and the images
 * already loaded when the provider starts.
 *
 * The platform is an input. `Platform` records what the boot-services
 * queries would answer: which handles carry EFI_LOADED_IMAGE_PROTOCOL and
 * what that protocol instance reveals, which handles carry a device path and
 * its text, and how `%p` prints a handle. Each AllocatePool outcome is a
 * boolean argument. An owned CHAR16* is an `Option<string>`, None being NULL.
 */
module EventProviderUtility {
  import opened Wrappers
  import opened Uefi
  import opened LoadingEvents

  /** GET_HANDLE_NAME_BUFFER_SIZE, in CHAR16 units including the terminator. */
  const GetHandleNameBufferSize: nat := 1024

  const CantOpenLoadedImage: string := "<ERROR: can't open the EFI_LOADED_IMAGE_PROTOCOL for the image>"
  const CantFindImageName: string := "<ERROR: can't find the image name>"

  /** What the EFI_LOADED_IMAGE_PROTOCOL instance of an image handle yields:
      its ParentHandle, the name FindLoadedImageFileName reads from the
      firmware volume (None when it returns NULL), and the text
      ConvertDevicePathToText(FilePath, TRUE, TRUE) gives (None for NULL). */
  datatype LoadedImage = LoadedImage(parentHandle: Handle, firmwareVolumeName: Option<string>, filePathText: Option<string>)

  /** The answers of the platform queries used to name handles. A handle is
      in `loadedImages` exactly when OpenProtocol for the loaded-image GUID
      succeeds on it; `devicePaths` maps a handle carrying
      EFI_DEVICE_PATH_PROTOCOL to ConvertDevicePathToText(DevPath, FALSE, FALSE). */
  datatype Platform = Platform(loadedImages: map<Handle, LoadedImage>, devicePaths: map<Handle, string>,
                               pointerText: Handle -> string)

  /** An image name and the name of the image that loaded it, both owned. */
  datatype ImageNames = ImageNames(imageName: Option<string>, parentImageName: Option<string>)

  /** StrAllocCopy: a fresh copy of `s`, or NULL when AllocatePool fails.
      The buffer holds StrLen + 1 characters, so the StrCpyS into it cannot fail. */
  function StrAllocCopy(s: string, allocOk: bool): (r: Option<string>)
    ensures r.Some? <==> allocOk
    ensures r.Some? ==> r.value == s
  {
    if allocOk then Some(s) else None
  }

  /** The storage a CHAR16** points at. */
  class StrRef {
    var value: Option<string>

    constructor (value: Option<string>)
      ensures this.value == value
    {
      this.value := value;
    }
  }

  /** The string StrAllocAppend leaves in *StrHead. */
  function Appended(head: Option<string>, tail: Option<string>, allocOk: bool): (r: Option<string>)
    ensures head.None? || tail.None? || !allocOk ==> r == head
    ensures head.Some? && tail.Some? && allocOk ==>
      r.Some? && |r.value| == |head.value| + |tail.value| &&
      r.value[..|head.value|] == head.value && r.value[|head.value|..] == tail.value
  {
    if head.None? || tail.None? || !allocOk then head else Some(head.value + tail.value)
  }

  /** StrAllocAppend: replaces *StrHead by a fresh string holding the old head
      followed by `strTail`, and frees the old head (returned in `freed`). A
      NULL StrHead, a NULL *StrHead or a NULL tail changes and frees nothing,
      and so does a failed allocation (the copies into a buffer of
      HeadLen + TailLen + 1 characters cannot fail). */
  method StrAllocAppend(strHead: StrRef?, strTail: Option<string>, allocOk: bool) returns (freed: seq<string>)
    modifies strHead
    ensures strHead != null ==> strHead.value == Appended(old(strHead.value), strTail, allocOk)
    ensures freed == if strHead != null && old(strHead.value).Some? && strTail.Some? && allocOk
                     then [old(strHead.value).value] else []
  {
    if strHead == null || strHead.value.None? || strTail.None? {
      return [];
    }
    var headLen := |strHead.value.value|;
    if !allocOk {
      return [];
    }
    var newStr := strHead.value.value + strTail.value;
    assert newStr[..headLen] == strHead.value.value;
    freed := [strHead.value.value];
    strHead.value := Some(newStr);
  }

  /** IsHandleImage: OpenProtocol with EFI_OPEN_PROTOCOL_TEST_PROTOCOL succeeds. */
  predicate IsHandleImage(p: Platform, handle: Handle)
  {
    handle in p.loadedImages
  }

  /** GetHandleImageName: the firmware-volume file name, else the text of the
      image's FilePath, else an error text; an error text too when the
      loaded-image protocol cannot be opened. `allocOk` is the outcome of the
      one StrAllocCopy a path may make. */
  function GetHandleImageName(p: Platform, handle: Handle, allocOk: bool): (name: Option<string>)
    ensures !IsHandleImage(p, handle) ==> name == StrAllocCopy(CantOpenLoadedImage, allocOk)
    ensures IsHandleImage(p, handle) && p.loadedImages[handle].firmwareVolumeName.Some? ==>
      name == p.loadedImages[handle].firmwareVolumeName
    ensures IsHandleImage(p, handle) && p.loadedImages[handle].firmwareVolumeName.None? ==>
      name == if p.loadedImages[handle].filePathText.Some? then p.loadedImages[handle].filePathText
              else StrAllocCopy(CantFindImageName, allocOk)
    ensures name.None? <==> !allocOk && !HasOwnName(p, handle)
  {
    if !IsHandleImage(p, handle) then
      StrAllocCopy(CantOpenLoadedImage, allocOk)
    else
      var image := p.loadedImages[handle];
      if image.firmwareVolumeName.Some? then image.firmwareVolumeName
      else if image.filePathText.Some? then image.filePathText
      else StrAllocCopy(CantFindImageName, allocOk)
  }

  /** The image handle has a name of its own, from its firmware volume or its
      file path, so naming it allocates nothing. */
  predicate HasOwnName(p: Platform, handle: Handle)
  {
    IsHandleImage(p, handle) &&
    (p.loadedImages[handle].firmwareVolumeName.Some? || p.loadedImages[handle].filePathText.Some?)
  }

  /** GetHandleImageNameAndParentImageName: the image's name, and the name of
      its ParentHandle; when the loaded-image protocol cannot be opened the
      parent name is the same error text. */
  function GetHandleImageNameAndParentImageName(p: Platform, handle: Handle, imageAllocOk: bool, parentAllocOk: bool)
    : (names: ImageNames)
    ensures names.imageName == GetHandleImageName(p, handle, imageAllocOk)
    ensures IsHandleImage(p, handle) ==>
      names.parentImageName == GetHandleImageName(p, p.loadedImages[handle].parentHandle, parentAllocOk)
    ensures !IsHandleImage(p, handle) ==>
      names == ImageNames(StrAllocCopy(CantOpenLoadedImage, imageAllocOk), StrAllocCopy(CantOpenLoadedImage, parentAllocOk))
  {
    var imageName := GetHandleImageName(p, handle, imageAllocOk);
    if !IsHandleImage(p, handle) then
      ImageNames(imageName, StrAllocCopy(CantOpenLoadedImage, parentAllocOk))
    else
      ImageNames(imageName, GetHandleImageName(p, p.loadedImages[handle].parentHandle, parentAllocOk))
  }

  /** UnicodeSPrint into the static buffer: output beyond its capacity is cut,
      leaving room for the terminator. */
  function FormatIntoBuffer(s: string): (r: string)
    ensures |r| < GetHandleNameBufferSize
    ensures r <= s
    ensures |s| < GetHandleNameBufferSize ==> r == s
  {
    if |s| < GetHandleNameBufferSize then s else s[..GetHandleNameBufferSize - 1]
  }

  /** `r` is what a buffer of GetHandleNameBufferSize characters keeps of
      `text`: the whole text when it fits beside the terminator, otherwise
      its first GetHandleNameBufferSize - 1 characters. */
  predicate BufferedText(r: string, text: string)
  {
    r <= text &&
    |r| == if |text| < GetHandleNameBufferSize then |text| else GetHandleNameBufferSize - 1
  }

  /** GetHandleName: an image handle is named like an image; otherwise a
      handle with a device path is "[dev: <path>]", and any other handle
      "[unk: <pointer>]". */
  function GetHandleName(p: Platform, handle: Handle, allocOk: bool): (name: Option<string>)
    ensures IsHandleImage(p, handle) ==> name == GetHandleImageName(p, handle, allocOk)
    ensures !IsHandleImage(p, handle) ==> (name.Some? <==> allocOk)
    ensures !IsHandleImage(p, handle) && handle in p.devicePaths && name.Some? ==>
      BufferedText(name.value, "[dev: " + p.devicePaths[handle] + "]")
    ensures !IsHandleImage(p, handle) && handle !in p.devicePaths && name.Some? ==>
      BufferedText(name.value, "[unk: " + p.pointerText(handle) + "]")
  {
    if IsHandleImage(p, handle) then
      GetHandleImageName(p, handle, allocOk)
    else if handle in p.devicePaths then
      StrAllocCopy(FormatIntoBuffer("[dev: " + p.devicePaths[handle] + "]"), allocOk)
    else
      StrAllocCopy(FormatIntoBuffer("[unk: " + p.pointerText(handle) + "]"), allocOk)
  }

  /** The IMAGE_EXISTS_ON_STARTUP event built for one image handle. */
  function StartupImageEvent(p: Platform, handle: Handle, imageAllocOk: bool, parentAllocOk: bool): (e: LoadingEvent)
    ensures e.ImageExistsOnStartup? && TypeOf(e) == 5
    ensures ImageNames(e.imageName, e.parentImageName) ==
            GetHandleImageNameAndParentImageName(p, handle, imageAllocOk, parentAllocOk)
  {
    var names := GetHandleImageNameAndParentImageName(p, handle, imageAllocOk, parentAllocOk);
    ImageExistsOnStartup(names.imageName, names.parentImageName)
  }

  /** The IMAGE_EXISTS_ON_STARTUP events for the enumerated image handles, in
      enumeration order; the i-th handle is named with the string allocation
      outcomes 2i and 2i + 1. */
  function StartupImageEvents(p: Platform, handles: seq<Handle>, allocOk: nat -> bool): (events: seq<LoadingEvent>)
    ensures |events| == |handles|
    ensures forall i :: 0 <= i < |handles| ==>
      events[i] == StartupImageEvent(p, handles[i], allocOk(2 * i), allocOk(2 * i + 1))
    decreases |handles|
  {
    if |handles| == 0 then []
    else
      var n := |handles| - 1;
      StartupImageEvents(p, handles[..n], allocOk) + [StartupImageEvent(p, handles[n], allocOk(2 * n), allocOk(2 * n + 1))]
  }

  /** DetectImagesLoadedOnStartup: one IMAGE_EXISTS_ON_STARTUP event per handle
      LocateHandleBuffer returns for the loaded-image GUID, in that order; the
      events are what the AddEvent callback receives. A failed enumeration is
      returned with no event. */
  method DetectImagesLoadedOnStartup(p: Platform, located: Located<seq<Handle>>, allocOk: nat -> bool)
    returns (status: Status, events: seq<LoadingEvent>)
    requires FailureIsError(located)
    ensures located.LocateFailed? ==> status == located.status && status.IsError() && events == []
    ensures located.Located? ==> status == Success && events == StartupImageEvents(p, located.value, allocOk)
  {
    if located.LocateFailed? {
      return located.status, [];
    }
    var handles := located.value;
    events := [];
    var index := 0;
    while index < |handles|
      invariant index <= |handles|
      invariant events == StartupImageEvents(p, handles[..index], allocOk)
    {
      var names := GetHandleImageNameAndParentImageName(p, handles[index], allocOk(2 * index), allocOk(2 * index + 1));
      events := events + [ImageExistsOnStartup(names.imageName, names.parentImageName)];
      assert handles[..index + 1][..index] == handles[..index];
      index := index + 1;
    }
    assert handles[..index] == handles;
    status := Success;
  }

  // Properties of the naming helpers

  /** A name of its own is returned whatever the allocator does, and an image
      with a firmware-volume file name is always called by it. */
  lemma OwnNameNeedsNoAllocation(p: Platform, handle: Handle, allocOk: bool)
    requires HasOwnName(p, handle)
    ensures GetHandleImageName(p, handle, allocOk) == GetHandleImageName(p, handle, !allocOk)
    ensures GetHandleImageName(p, handle, allocOk).Some?
  {
  }

  /** Appending the empty string keeps the head, and appending twice with
      successful allocations appends the concatenation. */
  lemma AppendedAssociates(head: string, a: string, b: string)
    ensures Appended(Some(head), Some(""), true) == Some(head)
    ensures Appended(Appended(Some(head), Some(a), true), Some(b), true) == Appended(Some(head), Some(a + b), true)
  {
    assert head + "" == head;
    assert (head + a) + b == head + (a + b);
  }
}
