# DXE loading logger — a verified model

This project is a Dafny model of the sequential core of DxeLoadingLoggerPkg, a UEFI
DXE driver that records boot events. It records which protocols were installed and
which images were loaded. It also records what already existed when the logger was
started.

What is modelled:

- **Two growable vectors.**
  - `VectorLib` models `Library/VectorLib/VectorLib.c`. It checks its arguments, can run out of resources, and doubles its capacity when full.
  - `LegacyVector` models `Source/Vector.c`. It checks nothing and ignores allocation failure.
- **The logged event record and its destructor** (`LoadingEvents`).
- **The protocol-name table**, which is read-only (`ProtocolGuidDatabase`).
- **The build-time GUID-name conversions and the dictionary merge** of `make_guid_db_from_edk2_guids.py` (`GuidDbGenerator`).
- **The handle-database dump queries** (`HandleDatabaseDump`).
- **The image-naming helpers** (`EventProviderUtility`).
- **The two event providers.**
  - Protocol notification: `EventProviderProtocolNotify`.
  - Boot-services table patching: `EventProviderSystemTableHook`.
- **The logger that collects events** (`EventLogger`).
- **The first version of the notification logic** in `Source/DxeLoadingLog.c` (`DxeLoadingLogLegacy`).
- **Shared UEFI notions** (`Uefi`): status codes, GUIDs, handles, and task priority levels with RaiseTPL/RestoreTPL.

How the firmware is represented:

- Everything the firmware does is an input:
  - the handles an enumeration returns;
  - whether a protocol is present;
  - what CreateEvent and RegisterProtocolNotify return;
  - the names found for an image;
  - the CRC function.
- The outcome of every AllocatePool is a boolean. In a loop it is a `nat -> bool` indexed by the call's position.
- Objects whose fields the C code overwrites are Dafny classes:
  - vectors;
  - providers;
  - the boot-services table and the saved originals;
  - the logger;
  - the TPL.

  Their methods state the new state in `ensures`. Each such method is tied to a specification function, which carries the lemmas.
- An event provider hands events to its owner through the `AddEvent` callback. The model has provider methods return the delivered events, in order. The logger appends them in that order.
- A block that C runs between `RaiseTPL (TPL_HIGH_LEVEL)` and `RestoreTPL` is a helper method that requires `tpl.level == TplHighLevel`. The calling method ensures that the level is restored.

## Model

| member | source | states |
|---|---|---|
| Uefi.TaskPriority.RaiseTpl | Library/EventLoggerLib/EventLoggerLib.c:137 | RaiseTPL sets the new level and returns the previous one; the new level may not be below the current one |
| Uefi.TaskPriority.RestoreTpl | Library/EventLoggerLib/EventLoggerLib.c:139 | RestoreTPL goes back to a level not above the current one |
| VectorLib.Construct | Library/VectorLib/VectorLib.c:21-49 | a zero element size or count gives EFI_INVALID_PARAMETER; a failed allocation gives EFI_OUT_OF_RESOURCES with no buffer; otherwise an empty vector with exactly the requested capacity and element size |
| VectorLib.Destruct | Library/VectorLib/VectorLib.c:58-67 | the buffer is released and forgotten; the counts stay |
| VectorLib.PushBack | Library/VectorLib/VectorLib.c:80-129 | NULL vector or object gives EFI_INVALID_PARAMETER; a full vector whose growth fails is unchanged with EFI_OUT_OF_RESOURCES; otherwise the contents become old contents plus the object and a full vector doubles its capacity |
| VectorLib.CopyElements | Library/VectorLib/VectorLib.c:108-112 | the CopyMem of the old contents into the grown buffer copies every slot in use |
| VectorLib.PopBack | Library/VectorLib/VectorLib.c:142-154 | NULL for a NULL or empty vector; otherwise the last element, which is removed, the rest kept and the capacity unchanged |
| VectorLib.Get | Library/VectorLib/VectorLib.c:166-177 | the element at an index below Size; NULL for a NULL vector or an index out of range |
| VectorLib.GetBegin | Library/VectorLib/VectorLib.c:188-198 | offset 0 of a constructed vector, NULL for a NULL one |
| VectorLib.GetEnd | Library/VectorLib/VectorLib.c:209-219 | one past the last element in use, so that FOR_EACH_VCT visits exactly Size elements; NULL for a NULL vector |
| VectorLib.GetLast | Library/VectorLib/VectorLib.c:230-240 | the last element; NULL for a NULL or empty vector |
| VectorLib.Size | Library/VectorLib/VectorLib.c:250-260 | the number of elements in use, and 0 for a NULL vector |
| VectorLib.Clear | Library/VectorLib/VectorLib.c:268-278 | the vector becomes empty while the buffer and capacity are kept |
| LegacyVector.Vector.Construct | Source/Vector.c:9-21 | an empty vector with the requested capacity and element size |
| LegacyVector.Vector.Destruct | Source/Vector.c:25-31 | the buffer is released; the counts stay |
| LegacyVector.Vector.PushBack | Source/Vector.c:35-68 | the contents always become old contents plus the object; a full vector doubles its capacity |
| LegacyVector.Vector.PopBack | Source/Vector.c:73-84 | NULL on an empty vector, otherwise the last element, which is removed |
| LegacyVector.Vector.GetBegin | Source/Vector.c:88-91 | offset 0 |
| LegacyVector.Vector.GetEnd | Source/Vector.c:95-98 | one past the last element in use, Size elements after GetBegin |
| LegacyVector.Vector.Size | Source/Vector.c:101-104 | the number of elements in use |
| LegacyVector.Vector.Clear | Source/Vector.c:107-110 | CountUsed becomes 0; the buffer and capacity are kept |
| LoadingEvents.Destruct | Library/LoadingEventLib/LoadingEventLib.c:9-58 | a NULL event is a no-op; otherwise exactly the non-NULL strings the event type owns are freed, and the event becomes its released form |
| LoadingEvents.FreeNonNull | Library/LoadingEventLib/LoadingEventLib.c:21 | SHELL_FREE_NON_NULL frees a present string and ignores NULL |
| LoadingEvents.ReleasedOwnsNothing | Library/LoadingEventLib/LoadingEventLib.c:18-57 | a destructed event owns no string, and destructing it again changes nothing |
| LoadingEvents.ReleasedKeepsTagAndValues | Library/LoadingEventLib/LoadingEventLib.c:18-57 | destruction keeps the type tag, the GUID and the success flag |
| LoadingEvents.ReleasedOfUnowned | Library/LoadingEventLib/LoadingEventLib.c:46-48 | an event is left unchanged by destruction exactly when it owns no string (for example BDS_STAGE_ENTERED) |
| ProtocolGuidDatabase.FindName | Library/ProtocolGuidDatabaseLib/ProtocolGuidDatabaseLib.c:39-50 | the scan returns the name of the first entry at or after the index with that GUID, and NULL exactly when none has it |
| ProtocolGuidDatabase.GetProtocolName | Library/ProtocolGuidDatabaseLib/ProtocolGuidDatabaseLib.c:31-53 | NULL for a NULL GUID or a GUID that is not in the table; otherwise the name of its first entry |
| ProtocolGuidDatabase.GetProtocolGuidCount | Library/ProtocolGuidDatabaseLib/ProtocolGuidDatabaseLib.c:61-65 | the table size, which is positive |
| ProtocolGuidDatabase.GetProtocolGuid | Library/ProtocolGuidDatabaseLib/ProtocolGuidDatabaseLib.c:77-92 | the GUID at an index below the count, NULL from the count on |
| ProtocolGuidDatabase.EveryIndexedGuidIsNamed | Library/ProtocolGuidDatabaseLib/ProtocolGuidDatabaseLib.c:31-92 | every GUID of the table has a name, that of its first occurrence |
| ProtocolGuidDatabase.DistinctTableLookup | Library/ProtocolGuidDatabaseLib/ProtocolGuidDatabaseLib.c:31-92 | in a table without repeated GUIDs, the lookup of the i-th GUID gives the i-th name |
| GuidDbGenerator.Upper | Source/make_guid_db_from_edk2_guids.py:23 | str.upper on one ASCII character: lower-case letters become upper case, everything else is kept |
| GuidDbGenerator.Lower | Source/make_guid_db_from_edk2_guids.py:26 | str.lower on one ASCII character |
| GuidDbGenerator.CaseRoundTrip | Source/make_guid_db_from_edk2_guids.py:23-26 | upper and lower case are inverse on letters |
| GuidDbGenerator.RemoveUnderscores | Source/make_guid_db_from_edk2_guids.py:19-21 | the string without its underscores |
| GuidDbGenerator.SplitOnUnderscores | Source/make_guid_db_from_edk2_guids.py:18-21 | an underscore-separated name as a non-empty list of words |
| GuidDbGenerator.CamelTail | Source/make_guid_db_from_edk2_guids.py:18-26 | the loop of global_var_from_guid keeps one character per non-underscore character of the name and emits no underscore |
| GuidDbGenerator.GlobalVarFromGuid | Source/make_guid_db_from_edk2_guids.py:10-28 | the result always starts with 'g'; a name not starting with 'g' gives 'g' followed by one underscore-free character per non-underscore character |
| GuidDbGenerator.SnakeTail | Source/make_guid_db_from_edk2_guids.py:39-48 | the loop of guid_from_global_var keeps every character and adds at most one underscore before each |
| GuidDbGenerator.StripLeadingUnderscores | Source/make_guid_db_from_edk2_guids.py:50 | lstrip('_'): the result is a suffix of the input that does not start with '_', and everything removed was '_' |
| GuidDbGenerator.GuidFromGlobalVar | Source/make_guid_db_from_edk2_guids.py:31-50 | a name not starting with 'g' is returned as it is; otherwise the result does not start with '_' and is at most twice as long as the name after its 'g' |
| GuidDbGenerator.CamelTailRemovesUnderscores | Source/make_guid_db_from_edk2_guids.py:16-28 | global_var_from_guid drops every underscore and changes only letter case |
| GuidDbGenerator.GlobalVarFromGuidDropsUnderscores | Source/make_guid_db_from_edk2_guids.py:10-28 | a name starting with 'g' is returned unchanged; any other becomes 'g' followed by its letters without underscores, ignoring case |
| GuidDbGenerator.JoinSplit | Source/make_guid_db_from_edk2_guids.py:18-21 | splitting on underscores and joining back gives the name |
| GuidDbGenerator.CamelTailOfJoin | Source/make_guid_db_from_edk2_guids.py:16-28 | the conversion capitalizes each underscore-separated word and concatenates them |
| GuidDbGenerator.GlobalVarFromGuidCapitalizesPieces | Source/make_guid_db_from_edk2_guids.py:10-28 | ACOUSTIC_SETUP_PROTOCOL_GUID style names become 'g' followed by the capitalized words |
| GuidDbGenerator.GlobalVarFromGuidOfJoin | Source/make_guid_db_from_edk2_guids.py:10-28 | the same, for a name built from upper-case words |
| GuidDbGenerator.SnakeTailRemovesUnderscores | Source/make_guid_db_from_edk2_guids.py:39-48 | apart from the inserted underscores the result is the input raised |
| GuidDbGenerator.StripKeepsLetters | Source/make_guid_db_from_edk2_guids.py:50 | lstrip('_') removes only underscores, and the result does not start with one |
| GuidDbGenerator.GuidFromGlobalVarInsertsUnderscores | Source/make_guid_db_from_edk2_guids.py:31-50 | a name not starting with 'g' is returned unchanged; otherwise the letters after the 'g', raised, and nothing else besides underscores |
| GuidDbGenerator.SnakeTailNotLower | Source/make_guid_db_from_edk2_guids.py:44-48 | the result of guid_from_global_var has no lower-case letter |
| GuidDbGenerator.SnakeTailOfCapitalized | Source/make_guid_db_from_edk2_guids.py:44-48 | a capitalized word becomes an underscore followed by the word raised |
| GuidDbGenerator.SnakeTailOfConcatCapitalized | Source/make_guid_db_from_edk2_guids.py:39-48 | concatenated capitalized words come back as the underscore-joined upper-case words, after a leading underscore |
| GuidDbGenerator.SnakeRoundTrip | Source/make_guid_db_from_edk2_guids.py:10-50 | guid_from_global_var(global_var_from_guid(n)) == n for every name n made of underscore-joined words that start with an upper-case letter and contain no lower-case letter |
| GuidDbGenerator.SnakeTailOfConcatCamel | Source/make_guid_db_from_edk2_guids.py:39-48 | concatenated camel words come back as the underscore-joined upper-case words |
| GuidDbGenerator.CamelRoundTrip | Source/make_guid_db_from_edk2_guids.py:10-50 | global_var_from_guid(guid_from_global_var(v)) == v for every 'g' followed by camel words (an upper-case letter, then no upper-case letter and no underscore) |
| GuidDbGenerator.AddGuids | Source/make_guid_db_from_edk2_guids.py:53-60 | add_guids mutates the dictionary it receives, returns that same dictionary, and its new contents are the fold of the GUID list |
| GuidDbGenerator.AddAllKeepsExisting | Source/make_guid_db_from_edk2_guids.py:57-58 | an existing key keeps its value, and every key added is new |
| GuidDbGenerator.AddAllKeepsValuesDistinct | Source/make_guid_db_from_edk2_guids.py:57-58 | a dictionary with distinct values keeps distinct values |
| GuidDbGenerator.AddAllOrigin | Source/make_guid_db_from_edk2_guids.py:54-58 | each new key is the converted name of some input entry whose value it holds |
| GuidDbGenerator.AddAllCovers | Source/make_guid_db_from_edk2_guids.py:54-58 | every input entry ends up with its converted key present or its value already present |
| HandleDatabaseDump.Destruct | Library/HandleDatabaseDumpLib/HandleDatabaseDumpLib.c:89-108 | NULL is a no-op; otherwise every entry's GUID vector and then the dump itself are destructed |
| HandleDatabaseDump.DedupMembers | Library/HandleDatabaseDumpLib/HandleDatabaseDumpLib.c:143-162 | the protocol list has no repetition and the same members as the input |
| HandleDatabaseDump.FirstIndex | Library/HandleDatabaseDumpLib/HandleDatabaseDumpLib.c:146-151 | the position of the first occurrence |
| HandleDatabaseDump.DedupOrder | Library/HandleDatabaseDumpLib/HandleDatabaseDumpLib.c:140-164 | the protocols appear in the order of their first occurrence in the dump |
| HandleDatabaseDump.AllGuidsMembers | Library/HandleDatabaseDumpLib/HandleDatabaseDumpLib.c:140-142 | a GUID is among the dump's GUIDs exactly when some entry carries it |
| HandleDatabaseDump.AllProtocolsProperties | Library/HandleDatabaseDumpLib/HandleDatabaseDumpLib.c:140-164 | each protocol of the dump is listed exactly once |
| HandleDatabaseDump.HandlesWithProtocolProperties | Library/HandleDatabaseDumpLib/HandleDatabaseDumpLib.c:199-211 | a handle is listed exactly when some entry of it carries the GUID, once per such entry, in dump order |
| HandleDatabaseDump.AddedHandlesProperties | Library/HandleDatabaseDumpLib/HandleDatabaseDumpLib.c:249-267 | the added handles are exactly those of the new set absent from the old one, in the new set's order |
| HandleDatabaseDump.AddedHandlesExtremes | Library/HandleDatabaseDumpLib/HandleDatabaseDumpLib.c:249-267 | against an empty old set everything is added; against itself nothing is |
| HandleDatabaseDump.DedupOfPrefix | Library/HandleDatabaseDumpLib/HandleDatabaseDumpLib.c:140-164 | the protocol list of a partial scan is a prefix of the final one, which is what the free-on-error paths see |
| HandleDatabaseDump.IsAlreadyStored | Library/HandleDatabaseDumpLib/HandleDatabaseDumpLib.c:143-151 | the inner search finds the GUID exactly when it is already stored |
| HandleDatabaseDump.PeekAllProtocols | Library/HandleDatabaseDumpLib/HandleDatabaseDumpLib.c:123-168 | a NULL argument gives EFI_INVALID_PARAMETER; on success the vector holds every protocol of the dump once, in first-occurrence order; when a push fails the vector is destructed and the error returned |
| HandleDatabaseDump.PeekHandlesWithProtocol | Library/HandleDatabaseDumpLib/HandleDatabaseDumpLib.c:181-215 | a NULL argument gives EFI_INVALID_PARAMETER; on success the handles of the entries carrying the GUID, in dump order; a failed push destructs the vector |
| HandleDatabaseDump.IsFound | Library/HandleDatabaseDumpLib/HandleDatabaseDumpLib.c:250-257 | the inner scan finds the handle exactly when the old set has it |
| HandleDatabaseDump.GetAddedHandles | Library/HandleDatabaseDumpLib/HandleDatabaseDumpLib.c:231-271 | a NULL argument gives EFI_INVALID_PARAMETER; on success exactly the new handles absent from the old set, in order; a failed push destructs the vector |
| EventProviderUtility.IsHandleImage | Library/EventProviderLib/EventProviderUtilityLib/EventProviderUtilityLib.c:107-126 | a handle is an image exactly when OpenProtocol with EFI_OPEN_PROTOCOL_TEST_PROTOCOL finds the loaded-image protocol on it |
| EventProviderUtility.StrAllocCopy | Library/EventProviderLib/EventProviderUtilityLib/EventProviderUtilityLib.c:176-207 | a copy of the string, or NULL when the allocation fails |
| EventProviderUtility.Appended | Library/EventProviderLib/EventProviderUtilityLib/EventProviderUtilityLib.c:214-261 | with a head, a tail and a successful allocation the concatenation; otherwise the head as it was |
| EventProviderUtility.StrAllocAppend | Library/EventProviderLib/EventProviderUtilityLib/EventProviderUtilityLib.c:214-261 | the head string is replaced in place by its concatenation with the tail and the old head is freed; when the head or tail is NULL or the allocation fails the head is kept and nothing is freed |
| EventProviderUtility.AppendedAssociates | Library/EventProviderLib/EventProviderUtilityLib/EventProviderUtilityLib.c:214-261 | appending "" changes nothing, and two appends make one append of the concatenation |
| EventProviderUtility.GetHandleImageName | Library/EventProviderLib/EventProviderUtilityLib/EventProviderUtilityLib.c:133-169 | a handle without a loaded image gives the error text; otherwise the firmware-volume file name or else the device path text; NULL exactly when a copy was needed and failed |
| EventProviderUtility.OwnNameNeedsNoAllocation | Library/EventProviderLib/EventProviderUtilityLib/EventProviderUtilityLib.c:150-166 | a name the lookup allocates itself does not depend on the copy's allocation |
| EventProviderUtility.GetHandleImageNameAndParentImageName | Library/EventProviderLib/EventProviderUtilityLib/EventProviderUtilityLib.c:71-101 | the image name, and the parent's name taken from the loaded image's ParentHandle, or an error text for a handle without a loaded image |
| EventProviderUtility.FormatIntoBuffer | Library/EventProviderLib/EventProviderUtilityLib/EventProviderUtilityLib.c:297-304 | UnicodeSPrint into the fixed buffer keeps the longest prefix that fits with its NUL |
| EventProviderUtility.GetHandleName | Library/EventProviderLib/EventProviderUtilityLib/EventProviderUtilityLib.c:268-306 | an image handle is named as an image; any other, when the copy succeeds, is exactly "[dev: <device path>]" or else "[unk: <pointer>]", whole when it fits the 1024-character buffer and otherwise cut to its first 1023 characters |
| EventProviderUtility.StartupImageEvent | Library/EventProviderLib/EventProviderUtilityLib/EventProviderUtilityLib.c:44-58 | an IMAGE_EXISTS_ON_STARTUP event carrying the handle's names |
| EventProviderUtility.StartupImageEvents | Library/EventProviderLib/EventProviderUtilityLib/EventProviderUtilityLib.c:44-60 | one such event per enumerated handle, in order |
| EventProviderUtility.DetectImagesLoadedOnStartup | Library/EventProviderLib/EventProviderUtilityLib/EventProviderUtilityLib.c:24-64 | an enumeration failure is returned with no event; otherwise success with one event per handle |
| EventProviderProtocolNotify.NewImagesProperties | Library/EventProviderLib/EventProviderProtocolNotifyLib/EventProviderProtocolNotifyLib.c:594-616 | the new images are exactly the enumerated handles outside the snapshot, each once |
| EventProviderProtocolNotify.NewImagesOfExtendedSnapshot | Library/EventProviderLib/EventProviderProtocolNotifyLib/EventProviderProtocolNotifyLib.c:594-616 | after the snapshot is extended, the same enumeration reports nothing new |
| EventProviderProtocolNotify.CheckProtocolExistenceOnStartup | Library/EventProviderLib/EventProviderProtocolNotifyLib/EventProviderProtocolNotifyLib.c:370-394 | one PROTOCOL_EXISTS_ON_STARTUP event without a description exactly when LocateProtocol finds the GUID |
| EventProviderProtocolNotify.ImageLoadedEvent | Library/EventProviderLib/EventProviderProtocolNotifyLib/EventProviderProtocolNotifyLib.c:467-515 | the event a loaded-image notification builds is always IMAGE_LOADED |
| EventProviderProtocolNotify.Provider.Construct | Library/EventProviderLib/EventProviderProtocolNotifyLib/EventProviderProtocolNotifyLib.c:170-217 | success exactly when the data structure and the three vectors are all allocated: an empty snapshot with 64 slots and event and context vectors with one slot per known protocol; otherwise EFI_OUT_OF_RESOURCES; the data structure exists exactly when its own allocation succeeded |
| EventProviderProtocolNotify.Provider.Stop | Library/EventProviderLib/EventProviderProtocolNotifyLib/EventProviderProtocolNotifyLib.c:290-311 | without data nothing happens; otherwise every recorded event is closed, in order, and the event vector emptied, keeping its buffer |
| EventProviderProtocolNotify.Provider.Destruct | Library/EventProviderLib/EventProviderProtocolNotifyLib/EventProviderProtocolNotifyLib.c:224-244 | Stop, then, with data, the three vectors are destructed and the data released; without data nothing changes |
| EventProviderProtocolNotify.Provider.IsStored | Library/EventProviderLib/EventProviderProtocolNotifyLib/EventProviderProtocolNotifyLib.c:565-571 | the snapshot search finds the handle exactly when it is stored |
| EventProviderProtocolNotify.Provider.CountNewHandles | Library/EventProviderLib/EventProviderProtocolNotifyLib/EventProviderProtocolNotifyLib.c:561-576 | the counting pass counts the enumerated handles outside the snapshot, repetitions included |
| EventProviderProtocolNotify.Provider.FillNewHandles | Library/EventProviderLib/EventProviderProtocolNotifyLib/EventProviderProtocolNotifyLib.c:591-616 | the filling pass writes the handles it finds outside the snapshot to the array and pushes them; with no failed growth these are the new images and the snapshot grows by them; the overflow guard never fires |
| EventProviderProtocolNotify.Provider.FillStep | Library/EventProviderLib/EventProviderProtocolNotifyLib/EventProviderProtocolNotifyLib.c:596-615 | one enumerated handle of the filling pass keeps the pass invariant |
| EventProviderProtocolNotify.Provider.GetNewLoadedImageHandles | Library/EventProviderLib/EventProviderProtocolNotifyLib/EventProviderProtocolNotifyLib.c:535-622 | NULL when the enumeration or the array allocation fails, with the snapshot as it was; otherwise a NULL-terminated array of handles not in the old snapshot, all of them pushed, and with no failed growth exactly the new images, the snapshot grown by them |
| EventProviderProtocolNotify.Provider.DetectImagesLoadedOnStartup | Library/EventProviderLib/EventProviderProtocolNotifyLib/EventProviderProtocolNotifyLib.c:318-364 | an enumeration error is returned; otherwise each handle is pushed onto the snapshot before its IMAGE_EXISTS_ON_STARTUP event is delivered, and a failed push ends the loop with its status |
| EventProviderProtocolNotify.Provider.ReportStartupImages | Library/EventProviderLib/EventProviderProtocolNotifyLib/EventProviderProtocolNotifyLib.c:342-359 | the events delivered are those of the handles pushed so far; success exactly when all were pushed |
| EventProviderProtocolNotify.Provider.ProtocolInstalledCallback | Library/EventProviderLib/EventProviderProtocolNotifyLib/EventProviderProtocolNotifyLib.c:452-525 | another GUID gives a successful PROTOCOL_INSTALLED event; the loaded-image GUID gives IMAGE_LOADED for the diff: an error text, a "no new images" text, one image's names or the "One of:" listing; another GUID or a failed diff leaves the snapshot as it was, and a diff only adds new enumerated handles to it |
| EventProviderProtocolNotify.Provider.Subscribe | Library/EventProviderLib/EventProviderProtocolNotifyLib/EventProviderProtocolNotifyLib.c:400-446 | the context is pushed first, then CreateEvent and RegisterProtocolNotify, then the event is recorded; each failure is returned at once and leaves what was done before it |
| EventProviderProtocolNotify.Provider.SubscribeAt | Library/EventProviderLib/EventProviderProtocolNotifyLib/EventProviderProtocolNotifyLib.c:276-280 | one subscription of the loop: on success the entry's context and created event are added to the vectors; on failure an error, the events as before, and the contexts as before or with the entry's context added |
| EventProviderProtocolNotify.Provider.SubscribeAll | Library/EventProviderLib/EventProviderProtocolNotifyLib/EventProviderProtocolNotifyLib.c:276-280 | on success one context per table entry and every created event are recorded, in table order; on failure an error with the vectors partly subscribed: the events of the entries before the failing one, and their contexts, possibly with the failing entry's context too |
| EventProviderProtocolNotify.Provider.Start | Library/EventProviderLib/EventProviderProtocolNotifyLib/EventProviderProtocolNotifyLib.c:253-284 | no data gives EFI_INVALID_PARAMETER with nothing changed; on success, in order, the startup images, the installed known protocols and the subscriptions; on failure an error and a prefix of that event list, with the state left where it stopped: a failed push of startup image k leaves the first k images pushed and reported and no subscription made, and a failed subscription leaves all images and existence events and the vectors partly subscribed |
| EventProviderProtocolNotify.Provider.StartReady | Library/EventProviderLib/EventProviderProtocolNotifyLib/EventProviderProtocolNotifyLib.c:264-283 | the same outcome as Start once data is present |
| EventProviderProtocolNotify.Provider.ReportAndSubscribe | Library/EventProviderLib/EventProviderProtocolNotifyLib/EventProviderProtocolNotifyLib.c:269-280 | one existence event per present table entry, then the subscriptions, with SubscribeAll's outcome on success and on failure |
| EventProviderProtocolNotify.CheckAllProtocols | Library/EventProviderLib/EventProviderProtocolNotifyLib/EventProviderProtocolNotifyLib.c:271-274 | one existence check per table entry, in table order |
| EventProviderProtocolNotify.ExistenceEventsMembers | Library/EventProviderLib/EventProviderProtocolNotifyLib/EventProviderProtocolNotifyLib.c:271-274 | an event is among the startup existence events exactly when it is the PROTOCOL_EXISTS_ON_STARTUP event of a table entry whose protocol is present |
| EventProviderProtocolNotify.ListCandidates | Library/EventProviderLib/EventProviderProtocolNotifyLib/EventProviderProtocolNotifyLib.c:491-512 | the loop over the NULL-terminated array builds the "One of: | " listing of every found handle |
| EventProviderProtocolNotify.AppendCandidate | Library/EventProviderLib/EventProviderProtocolNotifyLib/EventProviderProtocolNotifyLib.c:495-511 | one iteration appends one handle's names and the separators |
| EventProviderProtocolNotify.AppendPair | Library/EventProviderLib/EventProviderProtocolNotifyLib/EventProviderProtocolNotifyLib.c:504-508 | two StrAllocAppend calls, one per name |
| EventProviderProtocolNotify.ImageNameOf | Library/EventProviderLib/EventProviderProtocolNotifyLib/EventProviderProtocolNotifyLib.c:498-502 | the name used when every allocation succeeds |
| EventProviderProtocolNotify.ParentNameOf | Library/EventProviderLib/EventProviderProtocolNotifyLib/EventProviderProtocolNotifyLib.c:498-502 | the parent name used when every allocation succeeds |
| EventProviderProtocolNotify.CandidateListingWithoutFailures | Library/EventProviderLib/EventProviderProtocolNotifyLib/EventProviderProtocolNotifyLib.c:491-512 | when no allocation fails the listing is "One of: | " followed by "name | " for each handle, for names and parent names alike |
| EventProviderProtocolNotify.StartupImagesOfPrefix | Library/EventProviderLib/EventProviderProtocolNotifyLib/EventProviderProtocolNotifyLib.c:342-359 | the events of a prefix of the handles are a prefix of all events |
| EventProviderSystemTableHook.WithZeroCrc | Library/EventProviderLib/EventProviderSystemTableHookLib/EventProviderSystemTableHookLib.c:293 | only the CRC32 field is cleared |
| EventProviderSystemTableHook.WithRecomputedCrc | Library/EventProviderLib/EventProviderSystemTableHookLib/EventProviderSystemTableHookLib.c:291-295 | the header CRC becomes valid per section 4.2 of the UEFI Specification; only that field changes; a table that was already valid is unchanged |
| EventProviderSystemTableHook.Started | Library/EventProviderLib/EventProviderSystemTableHookLib/EventProviderSystemTableHookLib.c:156-168 | the originals are saved, the five substitutes installed, the rest of the table kept and the CRC made valid |
| EventProviderSystemTableHook.Stopped | Library/EventProviderLib/EventProviderSystemTableHookLib/EventProviderSystemTableHookLib.c:191-197 | the saved entries are written back, the rest of the table kept and the CRC made valid |
| EventProviderSystemTableHook.StopUndoesStart | Library/EventProviderLib/EventProviderSystemTableHookLib/EventProviderSystemTableHookLib.c:156-195 | Start then Stop restores the five entries, and the whole table when its CRC was valid |
| EventProviderSystemTableHook.StartTwiceLosesOriginals | Library/EventProviderLib/EventProviderSystemTableHookLib/EventProviderSystemTableHookLib.c:156-166 | a second Start saves the substitutes over the originals, so that a later Stop leaves the substitutes installed |
| EventProviderSystemTableHook.Construct | Library/EventProviderLib/EventProviderSystemTableHookLib/EventProviderSystemTableHookLib.c:99-118 | NULL gives EFI_INVALID_PARAMETER; otherwise the callback and its context are stored and Data is NULL |
| EventProviderSystemTableHook.SaveServices | Library/EventProviderLib/EventProviderSystemTableHookLib/EventProviderSystemTableHookLib.c:156-160 | the five globals receive the five table entries, at TPL_HIGH_LEVEL |
| EventProviderSystemTableHook.WriteServices | Library/EventProviderLib/EventProviderSystemTableHookLib/EventProviderSystemTableHookLib.c:162-195 | the five entries are overwritten, at TPL_HIGH_LEVEL, and nothing else changes |
| EventProviderSystemTableHook.CalculateEfiHdrCrc | Library/EventProviderLib/EventProviderSystemTableHookLib/EventProviderSystemTableHookLib.c:286-296 | the stored CRC32 is the CRC of HeaderSize bytes of the table taken with the field zeroed |
| EventProviderSystemTableHook.Start | Library/EventProviderLib/EventProviderSystemTableHookLib/EventProviderSystemTableHookLib.c:144-171 | a NULL provider or Data gives EFI_INVALID_PARAMETER and touches nothing; otherwise the Started state, with the TPL raised for the patch and restored, and no return value |
| EventProviderSystemTableHook.Stop | Library/EventProviderLib/EventProviderSystemTableHookLib/EventProviderSystemTableHookLib.c:177-202 | a NULL provider or Data touches nothing; otherwise the Stopped state, with the TPL restored |
| EventProviderSystemTableHook.Destruct | Library/EventProviderLib/EventProviderSystemTableHookLib/EventProviderSystemTableHookLib.c:125-135 | exactly the effect of Stop |
| EventProviderSystemTableHook.ConstructThenStart | Library/EventProviderLib/EventProviderSystemTableHookLib/EventProviderSystemTableHookLib.c:115-152 | Start right after Construct answers EFI_INVALID_PARAMETER and never patches |
| EventProviderSystemTableHook.StartThenStop | Library/EventProviderLib/EventProviderSystemTableHookLib/EventProviderSystemTableHookLib.c:154-199 | on an active provider Start then Stop gives back the entries and the TPL, and the whole table when its CRC was valid |
| EventProviderSystemTableHook.IsBdsArchProtocolGuid | Library/EventProviderLib/EventProviderSystemTableHookLib/EventProviderSystemTableHookLib.c:273-276 | true exactly for gEfiBdsArchProtocolGuid |
| EventLogger.Logger.Construct | Library/EventLoggerLib/EventLoggerLib.c:28-53 | LogData with 1024 slots, then the provider; success exactly when every allocation succeeds; a LogData failure leaves the provider untouched; a failed provider data allocation leaves an empty LogData and a provider without data, from which Start, Stop and Destruct still work |
| EventLogger.Logger.AppendAtHighLevel | Library/EventLoggerLib/EventLoggerLib.c:138 | the push, which needs TPL_HIGH_LEVEL |
| EventLogger.Logger.AddEventToLog | Library/EventLoggerLib/EventLoggerLib.c:127-139 | one copy of the event at the end of the log and the earlier entries kept; if the vector is full and cannot grow the log is unchanged and the failure ignored; the TPL is restored |
| EventLogger.Logger.LogEvents | Library/EventLoggerLib/EventLoggerLib.c:127-139 | the delivered events, in order, are appended to the log, all of them when no growth fails |
| EventLogger.Logger.Start | Library/EventLoggerLib/EventLoggerLib.c:86-100 | the provider's status is returned; every event delivered before it returned is in the log, after the old entries; after a failed Logger_Construct (no provider data) the status is EFI_INVALID_PARAMETER, nothing is delivered and the log is untouched; on a provider failure the provider's state is where it stopped, as Provider.Start states |
| EventLogger.Logger.OnProtocolInstalled | Library/EventLoggerLib/EventLoggerLib.c:127-139 | a notification appends the one event the provider's callback built: PROTOCOL_INSTALLED for another GUID, with the snapshot unchanged, and for the loaded-image GUID the IMAGE_LOADED event of the diff, whose snapshot change is the callback's |
| EventLogger.Logger.LogDelivered | Library/EventLoggerLib/EventLoggerLib.c:127-139 | one AddEventToLog per delivered event: nothing changes when nothing was delivered, and otherwise the events are appended in order, all of them when no growth fails |
| EventLogger.Logger.Stop | Library/EventLoggerLib/EventLoggerLib.c:109-119 | only the provider stops: its events are closed and its event vector emptied, or nothing happens without provider data, the event vector included; the log is kept |
| EventLogger.Logger.Destruct | Library/EventLoggerLib/EventLoggerLib.c:62-75 | Stop, Vector_Destruct of LogData, then the provider's destructor, also after a failed Logger_Construct; afterwards neither LogData nor the provider holds memory, and the logged events are left as they were, not destructed; a provider without data keeps its vectors untouched |
| DxeLoadingLogLegacy.ErrorMessagesFit | Source/DxeLoadingLog.h:25 | each error text with its NUL fits the 32-byte ImageName field |
| DxeLoadingLogLegacy.NewImagesStep | Source/DxeLoadingLog.c:136-159 | one enumerated handle extends the new images exactly when it is neither in the snapshot nor found already |
| DxeLoadingLogLegacy.DxeLoadingLog.SubscribeToProtocolInstallation | Source/DxeLoadingLog.c:47-76 | the event is recorded only after CreateEvent and RegisterProtocolNotify both succeed; each failure status is returned |
| DxeLoadingLogLegacy.DxeLoadingLog.IsStored | Source/DxeLoadingLog.c:138-144 | the snapshot search finds the handle exactly when it is stored |
| DxeLoadingLogLegacy.DxeLoadingLog.DetectEntryImageNames | Source/DxeLoadingLog.c:106-182 | an enumeration error gives "<ERR: can't get handle buffer>" and keeps the snapshot; otherwise every new handle is appended once, and the entry reads "<ERR: no one candidate>", the names of the single new image, or "<ERR: multiple candidates>" |
| DxeLoadingLogLegacy.DxeLoadingLog.DetectStep | Source/DxeLoadingLog.c:136-159 | one iteration keeps the snapshot, the first candidate and the multiple-candidates flag in step with the new images |
| DxeLoadingLogLegacy.DxeLoadingLog.RecordAtHighLevel | Source/DxeLoadingLog.c:93-101 | the entry is built and pushed, at TPL_HIGH_LEVEL |
| DxeLoadingLogLegacy.DxeLoadingLog.ProtocolInstalledCallback | Source/DxeLoadingLog.c:80-103 | exactly one entry is appended: IMAGE_LOADED for the loaded-image GUID, otherwise PROTOCOL_INSTALLED with the protocol's name; the TPL is restored |

## Left out

- Byte layout: `CopyMem`, `PTR_OFFSET` and PACKED records are not modelled. Vector elements are Dafny values and the table CRC is a parameter over the table's contents.
- The platform calls are inputs: OpenProtocol, LocateHandleBuffer, LocateProtocol, CreateEvent, RegisterProtocolNotify, CloseEvent, FindLoadedImageFileName, ConvertDevicePathToText, UnicodeSPrint's formatting and CalculateCrc32. Their implementations belong to the firmware.
- Source/DxeLoadingLogger.c is not modelled. It is the entry point, unload handler, log-file writer and console printer, all I/O. TextAnimationLib is not modelled either; it is a console spinner.
- The debug output is not modelled: the DBG macros, and the event-type switch in AddEventToLog (EventLoggerLib.c:141-224).
- GetHandleDatabaseDump is not modelled because it is platform enumeration. As written it never pushes an entry into `Dump`, so its result is always empty.
- The table-hook substitutes (`My*ProtocolInterface`, `MyBdsArchProtocolEntry`) are only opaque values of `Service`. Their bodies are empty TODO stubs.
- EventProviderSystemTableHook.Start: past the guard the C function has no return statement. The model returns None there instead of inventing a status.
- The legacy DxeLoadingLog_Construct, SetObservingProtocols, QuitObserving and Destruct are only declared in the files at hand, so they are not modelled. SetEntryImageNames is likewise only declared; the names it writes are a function parameter.
- Memory release is modelled only where the source states it: vector buffers, the SHELL_FREE_NON_NULL calls of LoadingEvent_Destruct, and StrAllocAppend's old head (returned as the freed string). The FreePool of enumeration buffers and of the temporary name strings is not modelled.
- GuidDbGenerator.Upper and GuidDbGenerator.Lower: case conversion is modelled for ASCII letters only; Python's Unicode case mapping of other characters is not.
- VectorLib.Construct: takes a non-null vector. Vector_Construct writes `This->AllocatedMemory` (VectorLib.c:28) before its NULL check (line 30), so a NULL `This` is not a case the code handles.
- LegacyVector.Vector.Construct: requires a positive initial count. With zero capacity the doubling in PushBack stays at zero and writes past the buffer. Allocation failure is not checked by Source/Vector.c, and the model assumes every allocation succeeds.
- HandleDatabaseDump follows HandleDatabaseDumpLib.c. Include/Library/HandleDatabaseDumpLib.h declares `Protocols`/`Entries` fields and a `GetNewHandlesForProtocol` function that the .c file does not have.
- The generated GUID_DB table is an abstract non-empty sequence, and `generate_guid_db_file` (file writing) is not modelled.
- EventLogger.Logger.Start, Stop and Destruct, and the provider's Start, Stop and Destruct, do not cover a provider whose data structure was allocated but one of whose three vectors was not. EventProvider_Construct returns at that failure without releasing Data (EventProviderProtocolNotifyLib.c:184-209), and Data comes from AllocatePool, which does not zero it. EventProvider_Start (line 258) and EventProvider_Stop and Destruct then use vectors whose counters were never set, which has no defined outcome to model.
- VectorLib.Construct and VectorLib.PushBack: integers are unbounded, so the UINTN overflow of `InitialCount * SizeOfElement` (VectorLib.c:37) and of the doubling `CountAllocated * 2` and its byte size (VectorLib.c:95-97) is not modelled.
- EventProviderUtility.GetHandleName: `Platform.devicePaths` gives a text for every handle with a device path, so the case where ConvertDevicePathToText returns NULL (EventProviderUtilityLib.c:293-296) is not modelled. The C code would then pass NULL to UnicodeSPrint and FreePool.
- Notify provider methods model only `Data == NULL`, not a NULL `This`, because every caller passes a provider.
- EventProviderProtocolNotify.ListCandidates and AppendCandidate: the names of a handle are computed once per iteration, as in the source. The temporary name strings freed after each iteration are not tracked.
- EventLogger.Logger.Start: the provider really delivers each event during Start, while the model appends them after Start returns. The order of the log is the same, because nothing else touches the log in between.
- EventProviderProtocolNotify.Provider.Subscribe and ProtocolInstalledCallback: SubscribeToProtocolInstallation hands CreateEvent a pointer into the Contexts buffer (EventProviderProtocolNotifyLib.c:423-429), and the callback reads its GUID through it. The model keeps the context as a value and lets ProtocolInstalledCallback take any context, so the link from an event to its context, and whether that pointer is left dangling when a later push reallocates the buffer, are not captured.
- EventLogger pairs the logger with the protocol-notification provider only. The table-hook provider never produces an event.

## Code and comments

Where a comment in the code and the code itself disagree, the model follows the code:

- EventProvider_Start's comment in the notification provider (EventProviderProtocolNotifyLib.c:251) says that on error the object is left as it was before the call. In the code, snapshot pushes, contexts and subscriptions made before the failure stay in place. A created event whose registration fails is never recorded, so Stop never closes it. `Provider.Start` states exactly what is left: on a failed startup-image push, the images pushed and reported so far; on a failed subscription, every startup image, every existence event and the subscriptions made so far. Logger_Start's comment (EventLoggerLib.c:84) makes the same claim for the logger, and `Logger.Start` likewise states the state where the provider stopped.
- GetProtocolGuid's comment (ProtocolGuidDatabaseLib.c:73) gives an inclusive index range, but the code rejects the count itself, as `GetProtocolGuid` states.
- The notification callback fills `ProtocolInstalled.ImageName`. LoadingEventLib.h names that member `HandleDescription`; the model uses the header's name.
- Source/DxeLoadingLog.c uses the record fields of DxeLoadingLog.h (`ProtocolName`, 32-character ASCII image names), not those of LoadingEventLib.h. `DxeLoadingLogLegacy` keeps its own entry type for that reason.
- The notification provider carries its own copies of the naming helpers (EventProviderProtocolNotifyLib.c:629-794). They match the utility library's and are modelled once, in `EventProviderUtility`.
