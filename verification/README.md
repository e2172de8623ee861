# libcamera: protocols, state machines and codecs

This project models the stateful core of libcamera and of its GStreamer source element, and proves what
that core is for. Each C++ class that updates its fields is a class here, whose methods are proved against
functions on values; what the program promises is then proved about those functions, over every input,
every run or every interleaving.

- **Control packets** (`Bytes`, `ByteStreamBuffer`, `CarveTree`, `CarveOverflow`, `ControlFormat`, `PacketWriter`,
  `PacketReader`, `PacketAcceptance`, `Controls`, `ControlSerializer`, `ControlProtocol`). Controls cross a process boundary as a
  32-byte header, 16-byte entries and packed values, written through cursors that are carved out of one
  another. A set of images is described once (`IsPacket`); the writer produces such an image or reports
  `-ENOSPC`, the reader computes `Parse`, and the two are inverse. On top stand the handle tables of two
  processes that exchange maps and lists.
- **Event dispatcher** (`TimerList`, `NotifierTable`, `EventDispatcher`). A sorted list of timers with
  early-exit removal, and a table of notifiers that handlers change while a round walks over it.
- **Device assembly** (`DeviceArrival`, `DeviceEnumeratorUdev`). Media devices and their nodes arrive in any order.
- **Framing** (`IpcFraming`, `IpcUnixSocket`). A payload is two datagrams; the receiver has one bit of state
  and switches its notifier on and off.
- **Camera and buffer allocator** (`CameraStates`, `CameraCalls`, `CameraObject`, `StartRace`). Every sequence of API calls, with the
  hardware unplugged at any point, and every order of the single accesses of start() and disconnect().
- **Media graph** (`MediaGraph`). What populate() builds from a kernel topology, and what link lookups find.
- **Calls across threads** (`Invocation`, `CallHistory`, `MessageQueue`, `ThreadObjects`). Direct, queued and blocking invocation
  under every interleaving of the threads; the message lists and semaphores, which take the steps of that machine.
- **Request completion** (`PipelineHandler`). Requests finish in any order and are handed back in the order queued.
- **GStreamer source** (`FrameStates`, `FrameReferences`, `FrameAllocator`, `StreamingLoop`, `StreamingRequests`,
  `StreamingObjects`). Frames and
  GstBuffers move between pools, requests, pads and downstream, while the streaming task and the
  completion callback interleave under the lock of the element. The objects take the steps of that machine.
- **Sizes and options** (`SensorFormat`, `KeyValueParser`). The order on sizes, the choice of a sensor format,
  and `key=value` arguments.

Some promises hold only under a condition, which is then stated exactly. A lemma named last in each item is a
concrete case where it fails:

- An overflow shows in the buffer that holds what the overflowing one was carved out of, and so on up, iff no
  holder on the way was moved between the carving and the overflow; a later move takes the mark along
  (`CarveOverflow.OverflownIff`; `CarveOverflow.MovedParentMissesOverflow`).
- Restarting a running timer ahead of its predecessors leaves its old entry in the list, so it is due twice
  (`TimerList.StartKeepsOkIff`; `TimerList.RestartEarlierDuplicates`).
- The guest can send a list back iff the list has no map: the map that it was given is a copy, which has no handle.
  The host then gets the list that was sent, and otherwise an empty one
  (`ControlProtocol.GuestSerializesIff`, `ControlProtocol.HostAgreesIff`; `ControlProtocol.SentWithMapArrivesEmpty`).
- A payload crosses unchanged iff its descriptors can be counted in 8 bits and its bytes in 32
  (`IpcFraming.WireIsPayloadIff`; `IpcFraming.TooManyDescriptors`).
- When a data send fails, the next header is delivered as data and every later payload is the bytes of its header,
  until a second data send fails (`IpcFraming.LostDataMisframes`, `IpcFraming.SecondLossRealigns`;
  `IpcFraming.LostDataExample`).
- Starting a camera while it is unplugged leaves it disconnected and running iff disconnect() tests the state before
  start() has stored it, and sets the flag after start() has read it (`StartRace.StartIsSafeIff`; `StartRace.FlagSetTooLate`).
- A start that the pipeline refuses, or unplugging while running, leaves imported buffers behind exactly when
  some active stream is not served by the allocator (`CameraStates.DoBalancedIff`, `CameraStates.BalancedThroughoutIff`;
  `CameraStates.RefusedStartLeavesBuffers`).
- The size that is meant for a sensor format is chosen iff no larger one of the same ratio compares as smaller, or as
  equal and earlier, by its wrapped area (`SensorFormat.ChosenIsLeastIff`; `SensorFormat.WrappedAreaPreferred`).
- One request that the camera refuses is not noticed, and from it on no completed request meets its own wrap. Its
  buffers are dropped, or, if it is at the address of an older one that has been deleted, those of the older one are
  delivered (`StreamingRequests.RefusedRequestStalls`; `StreamingRequests.RefusedRequestMismatches`,
  `StreamingRequests.AddressUsedAgain`). The same goes for a camera that completes out of order
  (`StreamingRequests.MismatchedIff`; `StreamingRequests.OutOfOrderMismatches`).
- Between two turns the streaming loop is quiet until the application plays again iff its task is not started and
  no request is in flight, even if all buffers come back (`StreamingRequests.QuietIff`; `StreamingRequests.PausedTooLate`).
- A frame without planes that is out never returns to its pool (`FrameStates.PlanelessLost`;
  `FrameStates.PlanelessGoesOut`, `FrameStates.PlanelessComesBack`).
- A blocking call whose receiver is deleted before its message is delivered never returns
  (`Invocation.RunIsFinal`; `Invocation.DroppedCallerWaits`).

Where the documentation and the code differ, the code is followed: values are packed and not aligned to 8
bytes; `operator<` on sizes is the order on area and then width, which the three documented criteria amount to.

## Model

| member | source | states |
|---|---|---|
| Bytes.DecodeEncode | src/libcamera/byte_stream_buffer.cpp:244-284 | copying an integer out of the bytes it was copied into gives it back, for every width |
| Bytes.LeastFirst | src/libcamera/byte_stream_buffer.cpp:244-284 | byte i of a copied integer stands for its value times 256 to the power i |
| Bytes.EncodeDecode | src/libcamera/byte_stream_buffer.cpp:244-284 | no two byte strings of one length stand for the same integer |
| Bytes.DecodeU32 | src/libcamera/control_serializer.cpp:215-220 | a size kept in a 32-bit field comes back modulo 2^32 |
| Bytes.DecodeSignedEncode | src/libcamera/control_serializer.cpp:157-182 | the same for two's complement integers |
| ByteStream.ByteStreamBuffer.Move | src/libcamera/byte_stream_buffer.cpp:90-101 | the new buffer takes over the view and the ancestors, the old one becomes null |
| ByteStream.ByteStreamBuffer.SetOverflow | src/libcamera/byte_stream_buffer.cpp:146-151 | this buffer and every ancestor are marked |
| ByteStream.ByteStreamBuffer.CarveOut | src/libcamera/byte_stream_buffer.cpp:166-200 | parent and child views are those of Carve; the child is null iff the buffer is null, has overflown, or has not enough left; a failure marks all ancestors, a success none; an overflown buffer stays as it is |
| ByteStream.ByteStreamBuffer.Read | src/libcamera/byte_stream_buffer.cpp:244-263 | returns 0 iff the buffer is for reading, has not overflown and has the bytes left; then these are the next bytes and the cursor is behind them, else nothing moves; an overflown buffer fails for good |
| ByteStream.ByteStreamBuffer.Write | src/libcamera/byte_stream_buffer.cpp:265-284 | the same for writing: memory is the old memory with exactly these bytes replaced, or unchanged; an overflown buffer fails for good |
| ByteStream.ByteStreamBuffer.Skip | src/libcamera/byte_stream_buffer.cpp:202-224 | as Write with zeroes on a write buffer, as Read without data on a read buffer |
| ByteStream.AccessIff | src/libcamera/byte_stream_buffer.cpp:202-284 | an access succeeds iff the buffer has not overflown and the bytes fit, then moves the cursor by as many; else it leaves the cursor alone and the buffer overflown |
| ByteStream.OverflowIsFinal | src/libcamera/byte_stream_buffer.cpp:202-284 | after an overflow every later access fails and changes neither cursor nor mark |
| ByteStream.CopyIn | src/libcamera/byte_stream_buffer.cpp:265-284 | copies into place and changes no other byte |
| CarveTree.ConsumeConserves | src/libcamera/byte_stream_buffer.cpp:202-284 | an access keeps every cursor in bounds and hands bytes from the live region to the touched ones, one for one |
| CarveTree.CarveConserves | src/libcamera/byte_stream_buffer.cpp:166-200 | a carve-out splits the live region of the parent between parent and child |
| CarveTree.RunConserves | src/libcamera/byte_stream_buffer.cpp:146-284 | over any run on a tree of buffers each byte is held as often as at the start |
| CarveTree.WriteOnce | src/libcamera/byte_stream_buffer.cpp:202-284 | over any run every backing byte is written at most once, and only inside the root buffer |
| CarveTree.LiveRegionsDisjoint | src/libcamera/byte_stream_buffer.cpp:166-200 | no two buffers of a tree can ever reach the same byte |
| CarveOverflow.MarkUpReaches | src/libcamera/byte_stream_buffer.cpp:146-151 | setOverflow marks exactly the buffers that the parent pointers lead to, in terms of the contents they hold |
| CarveOverflow.LinkedIff | src/libcamera/byte_stream_buffer.cpp:90-117 | after any run the pointer of a carved buffer leads to the holder of what it was carved out of iff that holder was not moved since |
| CarveOverflow.OverflowShowsIff | src/libcamera/byte_stream_buffer.cpp:90-284 | an overflow in any run marks the holder of x iff the overflowing contents go back to x and no holder on the way was moved between carving and overflow |
| CarveOverflow.OverflownIff | src/libcamera/byte_stream_buffer.cpp:90-284 | after any run a buffer is marked iff some operation of the run overflowed in this way contents that go back to those it holds |
| CarveOverflow.OverflowReachesOrigin | src/libcamera/byte_stream_buffer.cpp:90-151 | after any run, if contents have overflown, so have those they were carved out of, unless the holder of these was moved after the carving and before the overflow |
| CarveOverflow.MovedParentMissesOverflow | src/libcamera/byte_stream_buffer.cpp:90-117 | the smallest run in which the buffer that took over the contents of the parent misses the overflow of the child |
| CarveOverflow.MovedAfterwardsKeepsOverflow | src/libcamera/byte_stream_buffer.cpp:90-117 | the same with the move after the overflow: it does not |
| CarveOverflow.OverflowIsForGood | src/libcamera/byte_stream_buffer.cpp:146-284 | in every run, contents that have overflown stay so, and no byte is touched through them afterwards |
| ControlFormat.LoadStore | src/libcamera/control_serializer.cpp:157-182 | loading a stored value gives it back, for every type |
| ControlFormat.LoadAllStoreAll | src/libcamera/control_serializer.cpp:329-364 | the same for a run of values followed by anything, using exactly their bytes |
| ControlFormat.RoundTrip | src/libcamera/control_serializer.cpp:385-513 | parsing an image, with anything behind it, gives back handle and records and uses exactly the size of the packet |
| ControlFormat.RoundTripIff | src/libcamera/control_serializer.cpp:205-513 | an image parses back to its records iff these are well typed |
| ControlFormat.UniquelyDecodable | src/libcamera/control_serializer.cpp:205-326 | the same bytes are never the image of two different contents |
| ControlFormat.StreamRoundTrip | src/libcamera/control_serializer.cpp:385-513 | any concatenation of packets parses back to the same sequence |
| ControlFormat.ParsedOkTypes | src/libcamera/control_serializer.cpp:385-513 | whatever bytes parse, the records are well typed and of the right kind |
| PacketAcceptance.AcceptedIff | src/libcamera/control_serializer.cpp:385-513 | bytes are accepted as these records iff the header has this version, handle, count and size and fits, and the entry in each place has the id, type and offset of its record, with its values where the offset says; any byte but 0 is true |
| PacketAcceptance.RefusedIff | src/libcamera/control_serializer.cpp:385-423 | a version is refused iff it is another one; a packet is too small iff its size is not there; an offset mismatches iff the entries before it read as records and it is not where their values end |
| PacketAcceptance.TruncatedIsTooSmall | src/libcamera/control_serializer.cpp:397-403 | an image of which the end is missing is refused as too small, wherever it is cut behind the header |
| ControlFormat.PacketLength | src/libcamera/control_serializer.cpp:107-155 | an image is as long as its header, 16 bytes for each entry, the stored values, and one byte more for each None value |
| ControlFormat.StoredAppend | src/libcamera/control_serializer.cpp:231-242 | appending a control appends its values, and grows the sizes alike |
| ControlFormat.EntriesAppend | src/libcamera/control_serializer.cpp:231-242 | the offset of a new entry is the number of value bytes before it |
| PacketWriter.StoreValue | src/libcamera/control_serializer.cpp:157-182 | writes the image of the value; nothing for None |
| PacketWriter.WriteEntry | src/libcamera/control_serializer.cpp:231-242 | one turn of the loop writes one entry and its values, and skips where a buffer is null |
| PacketWriter.WriteEntries | src/libcamera/control_serializer.cpp:231-242 | the whole loop writes all entries and values and nothing else |
| PacketWriter.WriteEntriesTruncated | src/libcamera/control_serializer.cpp:231-245 | after an overflow the loop stays within what was carved out |
| PacketWriter.Prepare | src/libcamera/control_serializer.cpp:222-229 | header and both carve-outs succeed iff the whole packet fits, and else every ancestor is marked |
| PacketWriter.WritePacket | src/libcamera/control_serializer.cpp:205-326 | returns 0 iff the room is at least the size of the packet, then advances by exactly that and has written an image; else -ENOSPC; no byte outside is changed |
| PacketReader.LoadValue | src/libcamera/control_serializer.cpp:329-354 | one value of the given type from the bytes ahead; None reads nothing |
| PacketReader.ReadEntry | src/libcamera/control_serializer.cpp:407-429 | one entry is what ParseEntry makes of the bytes ahead, including the offset check |
| PacketReader.ReadEntries | src/libcamera/control_serializer.cpp:407-429 | the loop over entries computes ParseEntries |
| PacketReader.ReadBody | src/libcamera/control_serializer.cpp:397-403 | too small a packet is detected iff the carve-outs do not fit |
| PacketReader.ReadPacket | src/libcamera/control_serializer.cpp:385-513 | deserialize computes Parse of the bytes ahead and consumes exactly the size in the header |
| Controls.GenerateIdmap | src/libcamera/controls.cpp:573-589 | the index is right for every control, or the map is cleared iff a minimum has the wrong type |
| Controls.FindIsScan | src/libcamera/controls.cpp:538-566 | with unique ids the numeric lookup is a linear scan, in every iteration order |
| Controls.FindIsScanOnlyIfUnique | src/libcamera/controls.cpp:573-589 | without unique ids two indices are possible that answer differently |
| Controls.DecodedCtrlsAreRecords | src/libcamera/control_serializer.cpp:407-436 | the decoded map has one fresh control per record, with the ids, types and ranges of the sender |
| Controls.DecodedCtrlsPass | src/libcamera/controls.cpp:573-589 | the decoded map is not cleared by its own type check |
| Controls.DecodedListIsList | src/libcamera/control_serializer.cpp:495-513 | decoding the records of a list in any iteration order gives the list back |
| Controls.DecodedListIs | src/libcamera/control_serializer.cpp:495-513 | a decoded list has the ids of its records, and of several records with one id the last one counts |
| Controls.MapRecordsWellTyped | src/libcamera/controls.cpp:573-589 | the records of a map are well typed iff it passed the minimum check and every maximum agrees too |
| Serializer.ControlSerializer.Reset | src/libcamera/control_serializer.cpp:98-105 | all tables are as in a new serializer |
| Serializer.ControlSerializer.SerializeMap | src/libcamera/control_serializer.cpp:205-254 | exact size or -ENOSPC, an image with a new handle, the next number in either case, and the handle recorded only on success |
| Serializer.ControlSerializer.SerializeList | src/libcamera/control_serializer.cpp:268-326 | -ENOENT iff the map of the list has no handle, else exact size or -ENOSPC and an image with that handle |
| Serializer.ControlSerializer.Remember | src/libcamera/control_serializer.cpp:407-439 | the decoded map is cached under its handle |
| Serializer.ControlSerializer.DeserializeMap | src/libcamera/control_serializer.cpp:385-439 | for every input with a defined outcome: a copy of the sender's map, cached under the handle of the packet and returned at an address that has no handle; or an empty map and unchanged tables |
| Serializer.ControlSerializer.DeserializeList | src/libcamera/control_serializer.cpp:451-513 | for every input with a defined outcome: the values sent and the index of the cached map; the global ids without a handle, and an empty list if the handle is unknown or the packet refused |
| ControlProtocol.NextKeeps | src/libcamera/control_serializer.cpp:205-513 | every send, receive and joint reset keeps the invariant of the two tables and both queues |
| ControlProtocol.RunKeeps | src/libcamera/control_serializer.cpp:205-513 | so does every run |
| ControlProtocol.GuestAgrees | src/libcamera/control_serializer.cpp:205-513 | in every run a list sent with a map that the host has serialized arrives with the same values and resolves to the guest's copy of that map; a list that the host refused to serialize arrives empty |
| ControlProtocol.CopyIsCopy | src/libcamera/control_serializer.cpp:407-439 | the guest's map has a control for each of the original, with its id, type and range, and no other |
| ControlProtocol.GuestIsGiven | src/libcamera/control_serializer.cpp:385-439 | in every run a map at the head of the guest's queue is cached under its handle and given to the caller as a copy of the map that was sent |
| ControlProtocol.MapsApart | src/libcamera/control_serializer.cpp:407-439 | in every run no two maps of the guest share a ControlId |
| ControlProtocol.CopyLooksUpAlike | src/libcamera/controls.cpp:538-566 | looking up an id of the original in the copy finds that control |
| ControlProtocol.CopyFindsNothingElse | src/libcamera/controls.cpp:538-566 | no other id is found |
| ControlProtocol.HeldIsCopy | src/libcamera/control_serializer.cpp:385-439 | what the guest's caller is given is a copy of the map, too |
| ControlProtocol.GuestSerializesIff | src/libcamera/control_serializer.cpp:268-300 | in every run the guest can serialize a list iff the list has no map |
| ControlProtocol.HostAgreesIff | src/ipa/libipa/ipa_interface_wrapper.cpp:206-228 | in every run the host gets the list that the guest sent iff it was sent without a map, and an empty list otherwise |
| ControlProtocol.SentWithMapArrivesEmpty | src/ipa/libipa/ipa_interface_wrapper.cpp:206-228 | a run of three steps in which the guest sends a list with the map it was given, and the host gets a zeroed buffer |
| TimerList.EarlyExitIsFullScan | src/libcamera/event_dispatcher_poll.cpp:128-143 | on a sorted list the removal that stops early removes what a full scan would |
| TimerList.InsertSplits | src/libcamera/event_dispatcher_poll.cpp:116-126 | a timer is inserted behind all that are due no later and before all others |
| TimerList.InsertKeepsFifo | src/libcamera/event_dispatcher_poll.cpp:116-126 | the order of arrival is kept among equal deadlines |
| TimerList.StopKeepsOk | src/libcamera/timer.cpp:125-136 | stopping a timer keeps the list sorted, without duplicates, and equal to the running timers |
| TimerList.StartKeepsOkIff | src/libcamera/timer.cpp:96-118 | starting one keeps this iff it was not running or its new deadline does not pass its predecessors |
| TimerList.RestartEarlierDuplicates | src/libcamera/timer.cpp:96-118 | the smallest restart after which a timer is in the list twice |
| TimerList.DueAfterOp | src/libcamera/event_dispatcher_poll.cpp:293-306 | a call from a handler takes its own timer out of those still due, and no other |
| TimerList.StartArms | src/libcamera/timer.cpp:96-118 | a started timer is running and in the list with its new deadline; no other timer is touched |
| TimerList.StopDisarms | src/libcamera/timer.cpp:125-136 | a stopped timer is not running; deadlines and the entries of all other timers stay |
| TimerList.PassFiresInOrder | src/libcamera/event_dispatcher_poll.cpp:293-306 | a pass fires exactly the due timers in list order, less those that handlers stop or re-arm, and leaves only later deadlines |
| NotifierTable.UnregisteredNeverFires | src/libcamera/event_dispatcher_poll.cpp:243-291 | a notifier that is not registered and not added again is not activated, nor registered at the end, whatever handlers do to others |
| NotifierTable.RegisterAdds | src/libcamera/event_dispatcher_poll.cpp:68-81 | a notifier is registered under a free descriptor and event; a taken one, and all others, keep theirs |
| NotifierTable.UnregisterRemoves | src/libcamera/event_dispatcher_poll.cpp:83-114 | a notifier is not registered afterwards, and every other one stays |
| NotifierTable.DroppedNeverFires | src/libcamera/event_dispatcher_poll.cpp:243-291 | a notifier that a handler unregisters before its turn, and nobody adds again, is not activated in the rest of the round, nor registered at its end |
| NotifierTable.InvalidNeverFires | src/libcamera/event_dispatcher_poll.cpp:243-291 | nor is one whose descriptor is invalid: it is unregistered when its turn comes |
| NotifierTable.FiresReadyOnce | src/libcamera/event_dispatcher_poll.cpp:243-291 | only ready notifiers are activated, at most one for each descriptor and event |
| NotifierTable.ReadyFires | src/libcamera/event_dispatcher_poll.cpp:243-291 | a registered ready notifier is activated unless a handler unregisters it |
| NotifierTable.FiresInOrder | src/libcamera/event_dispatcher_poll.cpp:243-291 | activations come in the order of the polled descriptors, and for one of them in the order read, write, exception |
| EventDispatcher.FiredWereAsked | src/libcamera/event_dispatcher_poll.cpp:243-291 | no notifier is activated for a descriptor and type that had none when poll was called |
| EventDispatcher.EventDispatcherPoll.RegisterEventNotifier | src/libcamera/event_dispatcher_poll.cpp:68-81 | refines adding to a map from descriptor and event, unless the key is taken |
| EventDispatcher.EventDispatcherPoll.UnregisterEventNotifier | src/libcamera/event_dispatcher_poll.cpp:83-114 | this very notifier is not registered afterwards, and no other one changes; during a round no descriptor leaves the table |
| EventDispatcher.EventDispatcherPoll.Emit | src/libcamera/event_dispatcher_poll.cpp:243-291 | any calls of a handler refine the same calls on the map; during a round no descriptor leaves the table |
| EventDispatcher.EventDispatcherPoll.ProcessNotifiers | src/libcamera/event_dispatcher_poll.cpp:243-291 | a whole round refines the round on the map; every polled descriptor is still in the table when its turn comes |
| EventDispatcher.EventDispatcherPoll.PollSet | src/libcamera/event_dispatcher_poll.cpp:145-175 | one pollfd for each descriptor of the table, which requests exactly the events that have a notifier |
| EventDispatcher.EventDispatcherPoll.PollAndNotify | src/libcamera/event_dispatcher_poll.cpp:152-172 | the round refines that on the map with the answers to what was requested, and activates only notifiers of descriptors and types that were registered when poll was called |
| EventDispatcher.EventDispatcherPoll.ProcessEvents | src/libcamera/event_dispatcher_poll.cpp:145-175 | messages, poll, the round if there are events, and the timers in any case: the resulting notifiers, timers and activations |
| EventDispatcher.EventDispatcherPoll.RegisterTimer | src/libcamera/event_dispatcher_poll.cpp:116-126 | the loop computes Insert |
| EventDispatcher.EventDispatcherPoll.UnregisterTimer | src/libcamera/event_dispatcher_poll.cpp:128-143 | the loop computes the early-exit removal |
| EventDispatcher.EventDispatcherPoll.StartTimer | src/libcamera/timer.cpp:96-118 | the list and the running set after a start |
| EventDispatcher.EventDispatcherPoll.StopTimer | src/libcamera/timer.cpp:125-136 | the same after a stop |
| EventDispatcher.EventDispatcherPoll.ProcessTimers | src/libcamera/event_dispatcher_poll.cpp:293-306 | the pass terminates when handlers arm only after now, and is the pass of the specification |
| DeviceArrival.AddMediaMatches | src/libcamera/device_enumerator_udev.cpp:170-227 | adding a media device takes the closed form for the set seen so far to that for one more |
| DeviceArrival.AddV4L2Matches | src/libcamera/device_enumerator_udev.cpp:269-310 | so does adding a device node |
| DeviceArrival.OrderDoesNotMatter | src/libcamera/device_enumerator_udev.cpp:170-310 | any two orders of the same arrivals end with the same orphans, pending devices, nodes, and devices handed over |
| DeviceArrival.AddedByLastArrival | src/libcamera/device_enumerator_udev.cpp:269-310 | a media device is handed over by exactly the arrival that completes it, and once |
| DeviceEnumeratorUdev.Enumerator.PopulateMediaDevice | src/libcamera/device_enumerator_udev.cpp:170-227 | orphans are consumed and the rest becomes dependencies, or the first error of a lookup or access is returned and nothing but nodes has changed |
| DeviceEnumeratorUdev.FirstErrorIs | src/libcamera/device_enumerator_udev.cpp:170-227 | that error is zero iff no entity fails, and else that of the first one: -EINVAL for a missing node, or what access() says |
| DeviceEnumeratorUdev.Enumerator.AddMediaDevice | src/libcamera/device_enumerator_udev.cpp:72-96 | hands the device over or files it as pending |
| DeviceEnumeratorUdev.Enumerator.AddV4L2Device | src/libcamera/device_enumerator_udev.cpp:269-310 | an unknown number becomes an orphan, a known one satisfies its media device; the error of a failing lookup or access is returned and nothing has changed |
| DeviceEnumeratorUdev.Enumerator.SetNodes | src/libcamera/device_enumerator_udev.cpp:280-292 | every entity that shares the number gets the node, or the error of the access is returned |
| DeviceEnumeratorUdev.Enumerator.Satisfy | src/libcamera/device_enumerator_udev.cpp:294-307 | the dependency is struck off, and the device handed over when it was the last |
| IpcFraming.ReadHeaderDatagram | src/libcamera/ipc_unixsocket.cpp:170-193 | reading a sent header gives its counts, cut to their widths |
| IpcFraming.HeaderIsRead | src/libcamera/ipc_unixsocket.cpp:311-327 | of any datagram, the bytes of the counts are read as far as it reaches, and the others keep what they were |
| IpcFraming.WireIsPayloadIff | src/libcamera/ipc_unixsocket.cpp:170-193 | a payload crosses unchanged iff its sizes fit the fields of the header |
| IpcFraming.TooManyDescriptors | src/libcamera/ipc_unixsocket.cpp:170-193 | 256 descriptors are counted as none |
| IpcFraming.RunKeeps | src/libcamera/ipc_unixsocket.cpp:170-343 | every send, failed data send, read, close and rebind keeps queue, receiver and history in agreement |
| IpcFraming.ReceivedIsTaken | src/libcamera/ipc_unixsocket.cpp:212-343 | in every run, whatever was lost: what a receiver got is a beginning of what the datagrams make, taken in turn as header and data |
| IpcFraming.ReceivedIsPrefix | src/libcamera/ipc_unixsocket.cpp:170-232 | as long as no data send fails, the payloads received are a prefix of those sent, data and descriptors matching |
| IpcFraming.DisabledMeansReady | src/libcamera/ipc_unixsocket.cpp:311-343 | in every run a disabled notifier means that data waits: the next read delivers what comes next and enables the notifier |
| IpcFraming.OnDataSignals | src/libcamera/ipc_unixsocket.cpp:311-343 | when data is ready a header is held afterwards, and readyRead is emitted iff something is queued behind it, and iff the notifier is left disabled |
| IpcFraming.SignalledIff | src/libcamera/ipc_unixsocket.cpp:311-343 | in every run the notifier is disabled iff readyRead was emitted since the last delivery, once |
| IpcFraming.AllDelivered | src/libcamera/ipc_unixsocket.cpp:170-232 | with the queue drained, nothing half sent and nothing lost, everything has been received |
| IpcFraming.LostDataMisframes | src/libcamera/ipc_unixsocket.cpp:184-193 | in every run in which one data send fails: earlier payloads arrive unchanged; the one in its place does iff it equals what its header makes of the next header; each later one arrives as the bytes of its header |
| IpcFraming.SecondLossRealigns | src/libcamera/ipc_unixsocket.cpp:184-193 | a second failed data send puts the receiver back in step, one payload short |
| IpcFraming.LostDataExample | src/libcamera/ipc_unixsocket.cpp:184-193 | a run of five steps in which a byte of the next header is received in place of the lost payload |
| IpcUnixSocket.IPCUnixSocket.Send | src/libcamera/ipc_unixsocket.cpp:170-193 | header and data go out in this order, or the header alone, with the documented codes |
| IpcUnixSocket.IPCUnixSocket.Receive | src/libcamera/ipc_unixsocket.cpp:212-232 | returns the payload of the last header, or -EAGAIN, and clears the header |
| IpcUnixSocket.IPCUnixSocket.DataNotifier | src/libcamera/ipc_unixsocket.cpp:311-343 | reads a header when none is held; readyRead is emitted iff data is queued behind it, and iff the notifier is left disabled |
| IpcUnixSocket.IPCUnixSocket.Bind | src/libcamera/ipc_unixsocket.cpp:120-130 | refused while bound, else a fresh receiver |
| IpcUnixSocket.IPCUnixSocket.Close | src/libcamera/ipc_unixsocket.cpp:137-149 | no descriptor and no header are left |
| CameraStates.DoIsSafe | src/libcamera/camera.cpp:309-364 | every call keeps the allocator safe and changes state only along documented edges, or Running to Configured on disconnection |
| CameraStates.AllocatorSafety | src/libcamera/framebuffer_allocator.cpp:67-160 | in every run exported buffers belong to active streams of a configured or running camera with its allocator, and a disconnected camera is not running |
| CameraStates.DoBalancedIff | src/libcamera/camera.cpp:908-970 | a call keeps the pipeline's buffers balanced iff it is not a refused start or a disconnection while running, or every active stream is served by the allocator |
| CameraStates.BufferBalance | src/libcamera/camera.cpp:908-970 | in such runs every active stream holds one of imported or exported buffers while running, only the allocator's while configured, and none twice |
| CameraStates.BalancedThroughoutIff | src/libcamera/camera.cpp:908-970 | the buffers are balanced after every call of a run iff no call on the way is one of those |
| CameraStates.RefusedStartLeavesBuffers | src/libcamera/camera.cpp:908-935 | the shortest run that leaves a buffer behind |
| CameraCalls.AcquireOutcome | src/libcamera/camera.cpp:593-612 | acquire() succeeds iff the camera is available, connected and locked, and changes nothing else |
| CameraCalls.ReleaseOutcome | src/libcamera/camera.cpp:628-650 | release() succeeds iff the camera is not running and has no allocator, and makes it available |
| CameraCalls.ConfigureOutcome | src/libcamera/camera.cpp:757-805 | configure() succeeds iff the camera is connected, acquired or configured, its allocator is empty, and everybody agrees; then exactly these streams are active |
| CameraCalls.StartOutcome | src/libcamera/camera.cpp:908-932 | start() succeeds iff the camera is connected and configured and the pipeline agrees; then it runs. Buffers are imported for exactly the active streams without allocator buffers, even if the pipeline refuses |
| CameraCalls.StopOutcome | src/libcamera/camera.cpp:948-970 | stop() succeeds iff it is connected and running; then it is configured and holds nothing for active streams without allocator buffers, and all else it held |
| CameraCalls.AllocateOutcome | src/libcamera/framebuffer_allocator.cpp:118-131 | a stream has buffers afterwards iff the camera is configured, the stream is active and the pipeline exports some |
| CameraCalls.FreeOutcome | src/libcamera/framebuffer_allocator.cpp:145-160 | a stream is freed iff it is allocated and the camera configured; no other stream changes |
| CameraCalls.DisconnectOutcome | src/libcamera/camera.cpp:348-359 | a disconnected camera does not run, and is otherwise where it was |
| CameraCalls.DeleteOutcome | src/libcamera/framebuffer_allocator.cpp:88-98 | without the allocator nothing is allocated; a configured camera has also dropped its buffers |
| CameraCalls.StartThenStop | src/libcamera/camera.cpp:908-970 | stopping a camera that has just started leads back to where it was |
| CameraCalls.AcquireThenRelease | src/libcamera/camera.cpp:593-650 | so does releasing one that has just been acquired |
| CameraCalls.AllocateThenFree | src/libcamera/framebuffer_allocator.cpp:118-160 | and freeing a stream that has just been allocated |
| StartRace.StartIsSafeIff | src/libcamera/camera.cpp:348-359 | start() and disconnect() access by access, in every order: the camera ends safe unless the test of disconnect() precedes the store of start() and its flag is set after start() has read it; then it ends disconnected and running |
| StartRace.FlagSetTooLate | src/libcamera/camera.cpp:348-359 | the order in which the whole of start() falls between the test and the flag |
| StartRace.StartAlone | src/libcamera/camera.cpp:908-935 | by itself start() comes to the call in one step, in whatever order the streams are imported |
| StartRace.RemovalAlone | src/libcamera/camera.cpp:348-359 | by itself disconnect() comes to the call in one step |
| CameraStates.HoldOneMore | src/libcamera/camera.cpp:908-935 | importing stream by stream is importing all of them |
| CameraObject.CameraDevice.Acquire | src/libcamera/camera.cpp:593-612 | new state and return code for every state and lock outcome |
| CameraObject.CameraDevice.Release | src/libcamera/camera.cpp:628-650 | the same, refused while an allocator exists |
| CameraObject.CameraDevice.Configure | src/libcamera/camera.cpp:757-805 | the same, refused while the allocator holds a stream |
| CameraObject.CameraDevice.Start | src/libcamera/camera.cpp:908-935 | the loop imports for exactly the active streams without allocator buffers, before the pipeline is asked |
| CameraObject.CameraDevice.Stop | src/libcamera/camera.cpp:948-970 | the loop frees exactly these |
| CameraObject.CameraDevice.Disconnect | src/libcamera/camera.cpp:348-359 | Running becomes Configured, every other state stays |
| CameraObject.CameraDevice.ExportFrameBuffers | src/libcamera/camera.cpp:539-555 | only configured, only active streams |
| CameraObject.CameraDevice.FreeFrameBuffers | src/libcamera/camera.cpp:557-567 | only configured, disconnected or not |
| CameraObject.FrameBufferAllocator.Allocate | src/libcamera/framebuffer_allocator.cpp:118-133 | one allocation per stream; a failed one leaves an empty entry |
| CameraObject.FrameBufferAllocator.Free | src/libcamera/framebuffer_allocator.cpp:145-160 | the entry goes only when the pipeline frees |
| CameraObject.FrameBufferAllocator.Delete | src/libcamera/framebuffer_allocator.cpp:88-97 | all streams are freed and the camera forgets the allocator |
| MediaGraph.SearchInterface | src/libcamera/media_device.cpp:572-602 | both loops compute the interface of the first interface link |
| MediaGraph.InterfaceFound | src/libcamera/media_device.cpp:572-602 | it is found iff the first interface link to the entity has an interface as its source; later links are not tried |
| MediaGraph.DeviceNumbers | src/libcamera/media_device.cpp:609-648 | an entity has the major and minor numbers of its interface, in this order, or none |
| MediaGraph.AddEntityStep | src/libcamera/media_device.cpp:609-648 | adding an entity takes the graph of some objects to the graph of one more |
| MediaGraph.AddPadStep | src/libcamera/media_device.cpp:650-678 | so does adding a pad, which ends the list of its entity |
| MediaGraph.AddLinkStep | src/libcamera/media_device.cpp:680-726 | so does adding a link, which ends the lists of both its pads |
| MediaGraph.FindsEntityIff | src/libcamera/media_device.cpp:509-513 | an id resolves to an entity iff the topology has that entity |
| MediaGraph.FindsPadIff | src/libcamera/media_device.cpp:509-513 | an id resolves to a pad iff the topology has that pad, which then has its index and its entity |
| MediaGraph.MediaDevice.Clear | src/libcamera/media_device.cpp:551-559 | an empty, invalid graph |
| MediaGraph.MediaDevice.AddObject | src/libcamera/media_device.cpp:525-538 | refused iff the id is taken |
| MediaGraph.MediaDevice.PopulateEntities | src/libcamera/media_device.cpp:609-648 | the graph of all entities, or the topology is malformed |
| MediaGraph.MediaDevice.PopulatePads | src/libcamera/media_device.cpp:650-678 | the graph of entities and pads, or the topology is malformed |
| MediaGraph.MediaDevice.PopulateLinks | src/libcamera/media_device.cpp:680-726 | the whole graph, or the topology is malformed |
| MediaGraph.MediaDevice.LinkPads | src/libcamera/media_object.cpp:235-238 | the link is appended to the source and then to the sink |
| MediaGraph.MediaDevice.Populate | src/libcamera/media_device.cpp:200-289 | valid iff ids are unique, pads belong to entities and data links join pads; then exactly the graph of the topology, else nothing |
| MediaGraph.MediaDevice.FindLink | src/libcamera/media_device.cpp:401-409 | the loop finds the first link of the source that ends in the sink |
| MediaGraph.LinksOfMeans | src/libcamera/media_object.cpp:235-238 | a pad lists exactly the data links that have it as an end |
| MediaGraph.LinkFoundIff | src/libcamera/media_device.cpp:401-409 | a link is found iff the topology has one between the two pads, and it joins them |
| Invocation.Effective | src/libcamera/bound_method.cpp:68-80 | direct iff asked for or in the thread of the receiver and not queued; queued iff asked for or automatic across threads; blocking iff asked for across threads |
| Invocation.ActivateKeeps | src/libcamera/bound_method.cpp:82-107 | each kind of activation keeps the invariant of frames, queues, semaphores and deletions |
| Invocation.TakeKeeps | src/libcamera/thread.cpp:535-554 | so does taking a message |
| Invocation.EndInvokeKeeps | src/libcamera/message.cpp:150-153 | so does the end of a method, which puts its result in the pack |
| Invocation.ReleaseKeeps | src/libcamera/object.cpp:133-150 | so does signalling the caller |
| Invocation.EndMessageKeeps | src/libcamera/message.cpp:134-138 | so does destroying the message and with it the bound method |
| Invocation.WakeKeeps | src/libcamera/bound_method.cpp:96-106 | so does the return of a blocked caller |
| Invocation.DestroyKeeps | src/libcamera/object.cpp:77-103 | so does deleting a receiver with messages pending |
| Invocation.DestroyDismisses | src/libcamera/thread.cpp:501-530 | it drops exactly the calls whose messages to it were queued |
| Invocation.RunKeeps | src/libcamera/bound_method.cpp:68-108 | the invariant holds after every interleaving |
| Invocation.AnsweredCallRan | src/libcamera/bound_method.cpp:68-108 | a call that returned true has run, with its result in the pack, a blocking one taken exactly once by the receiver's thread; methods are deleted once and not while they run; a semaphore never holds more than one release |
| CallHistory.CallWasMade | src/libcamera/bound_method.cpp:68-107 | in every run a call has the caller, receiver and deletion flag with which an action made it, and the type these come to |
| CallHistory.ResultWasReturned | src/libcamera/message.cpp:150-153 | in every run a result is the value with which the method of this call ended, in the innermost frame of its thread: that of the receiver, or of the caller if the call was direct |
| CallHistory.DeletedIsNotCalled | src/libcamera/object.cpp:77-103 | in every run no message waits for an object that was deleted |
| Invocation.PostedInOrder | src/libcamera/thread.cpp:478-554 | calls through the queue of a thread are run in the order in which they were made, unless dropped |
| Invocation.RunIsFinal | src/libcamera/thread.cpp:501-530 | a result never changes, so no call runs twice; a dropped blocking call never returns |
| Invocation.DroppedCallerWaits | src/libcamera/object.cpp:77-103 | two steps after which a caller waits for a dropped call |
| MessageQueue.ThreadMessages.PostMessage | src/libcamera/thread.cpp:478-493 | the queue grows by this message, and the pending counts stay right |
| MessageQueue.ThreadMessages.RemoveMessages | src/libcamera/thread.cpp:501-530 | exactly the messages of the receiver leave, in order, and its pending count is zero as asserted |
| MessageQueue.ThreadMessages.TakeMessage | src/libcamera/thread.cpp:535-554 | the first message still there is taken, null entries are skipped |
| MessageQueue.Semaphore.Acquire | src/libcamera/semaphore.cpp:57-62 | the count falls by n and does not underflow |
| MessageQueue.Semaphore.TryAcquire | src/libcamera/semaphore.cpp:75-83 | succeeds iff n are available |
| MessageQueue.Semaphore.Release | src/libcamera/semaphore.cpp:93-101 | the count grows by n in 32 bits |
| MessageQueue.SemaphoreConserves | src/libcamera/semaphore.cpp:57-101 | over any history acquired plus available is at most initial plus released, and equal as long as that fits 32 bits |
| ThreadObjects.OthersAreNotTo | src/libcamera/thread.cpp:501-530 | the messages that removeMessages() leaves are the calls that stay queued when the receiver is deleted |
| ThreadObjects.MineAreDismissed | src/libcamera/thread.cpp:501-530 | those it takes out are the calls that are dismissed, each as often as it is queued |
| ThreadObjects.CountsShow | src/libcamera/object.cpp:133-150 | the semaphores of blocking calls have the counts of the machine, never more than one |
| ThreadObjects.Threads.constructor | src/libcamera/thread.cpp:478-554 | with empty message lists they are in a starting state of the machine |
| ThreadObjects.Threads.Activate | src/libcamera/bound_method.cpp:68-108 | message lists and semaphores take the step of an activation; the caller is to run the method itself iff the call is direct |
| ThreadObjects.Threads.Take | src/libcamera/thread.cpp:535-554 | they take the step of a message being taken |
| ThreadObjects.Threads.Destroy | src/libcamera/object.cpp:77-103 | they take the step of a receiver being deleted |
| ThreadObjects.Threads.Release | src/libcamera/object.cpp:133-150 | they take the step of a blocked caller being signalled |
| ThreadObjects.Threads.Wake | src/libcamera/bound_method.cpp:96-106 | they take the step of a blocked caller waking |
| FrameStates.PrepareKeeps | src/gstreamer/gstlibcameraallocator.cpp:209-228 | handing out a frame keeps the invariant of pools, counters, buffers and references |
| FrameStates.DropPlaneKeeps | src/gstreamer/gstlibcameraallocator.cpp:100-122 | so does the return of a memory |
| FrameStates.RunKeeps | src/gstreamer/gstlibcameraallocator.cpp:55-136 | so does every run of prepare, reset, and references taken and dropped |
| FrameStates.InPoolIff | src/gstreamer/gstlibcameraallocator.cpp:100-122 | a frame with planes is in its pool iff none of its memories is out |
| FrameStates.NothingLeftBehind | src/gstreamer/gstlibcameraallocator.cpp:125-157 | when the last reference goes, every frame with planes is in its pool with nothing outstanding |
| FrameReferences.ResetDrops | src/gstreamer/gstlibcamerapool.cpp:43-51 | a reset takes one reference from every plane of the frame of this buffer, and from no other plane |
| FrameReferences.StepCounts | src/gstreamer/gstlibcameraallocator.cpp:100-228 | every operation changes the references to a plane by what it is for: a reset or drop by one less, a reference taken by one more, preparing to one |
| FrameReferences.RunCounts | src/gstreamer/gstlibcameraallocator.cpp:100-228 | in every run the references to a plane are those at the start and the sum of these changes |
| FrameReferences.ResetReturnsIff | src/gstreamer/gstlibcameraallocator.cpp:100-122 | after a reset the frame is in its pool iff nobody else had a reference to one of its planes |
| FrameReferences.PrepareThenReset | src/gstreamer/gstlibcamerapool.cpp:27-58 | preparing a buffer and resetting it leaves its frame in the pool of its stream, nothing outstanding, and the references of the allocator as before |
| FrameReferences.StepBuffers | src/gstreamer/gstlibcamerapool.cpp:27-58 | preparing adds the buffer with the first frame of the pool, a reset takes it out, and nothing else changes which buffer has which frame |
| FrameReferences.StepPools | src/gstreamer/gstlibcameraallocator.cpp:100-228 | a pool of frames is a queue: it loses its first frame, to a prepared buffer, and gains one at its end |
| FrameStates.PlanelessLost | src/gstreamer/gstlibcameraallocator.cpp:209-228 | a frame without planes that was handed out never returns |
| FrameStates.OnePlanelessInv | src/gstreamer/gstlibcameraallocator.cpp:181-206 | such a frame in its pool meets the invariant |
| FrameStates.PlanelessGoesOut | src/gstreamer/gstlibcameraallocator.cpp:209-228 | a run that hands such a frame out |
| FrameStates.PlanelessComesBack | src/gstreamer/gstlibcamerapool.cpp:43-51 | the buffer comes back and the frame is in no pool |
| FrameAllocator.GstLibcameraAllocator.AddStream | src/gstreamer/gstlibcameraallocator.cpp:181-206 | one new frame per buffer, all in the new pool |
| FrameAllocator.GstLibcameraAllocator.PrepareBuffer | src/gstreamer/gstlibcameraallocator.cpp:209-228 | the first frame of the pool goes out with all its planes and a reference for each, or nothing changes |
| FrameAllocator.GstLibcameraAllocator.UnrefMemory | src/gstreamer/gstlibcameraallocator.cpp:100-122 | the last reference returns the plane, and the last plane the frame |
| FrameAllocator.GstLibcameraAllocator.RemoveAllMemory | src/gstreamer/gstlibcamerapool.cpp:43-51 | the buffer drops every plane of its frame, as FrameReferences.ResetDrops counts |
| FrameAllocator.GstLibcameraAllocator.FreePool | src/gstreamer/gstlibcameraallocator.cpp:125-136 | frees the queue in order |
| FrameAllocator.GstLibcameraAllocator.Dispose | src/gstreamer/gstlibcameraallocator.cpp:147-157 | no freed frame has an outstanding plane, every frame with planes is freed, and none twice |
| FrameAllocator.GstLibcameraPool.AcquireBuffer | src/gstreamer/gstlibcamerapool.cpp:27-40 | a buffer with a frame, or an error; a buffer popped without a frame is lost |
| FrameAllocator.GstLibcameraPool.ReleaseBuffer | src/gstreamer/gstlibcamerapool.cpp:43-58 | the buffer is emptied and queued last |
| StreamingLoop.StepKeepsWoken | src/gstreamer/gstlibcamerasrc.cpp:286-317 | every step keeps that a paused task has nothing pending unless a delivery is in progress |
| StreamingLoop.StepConserves | src/gstreamer/gstlibcamerasrc.cpp:150-183 | no step creates, destroys or copies a buffer |
| StreamingLoop.StepInOrder | src/gstreamer/gstlibcamerapad.cpp:141-166 | every step keeps that a pad has pushed and holds what was delivered to it, in queue order |
| StreamingLoop.FrontExists | src/gstreamer/gstlibcamerasrc.cpp:150-160 | the callback never takes the front of an empty queue |
| StreamingLoop.NoLostWakeup | src/gstreamer/gstlibcamerasrc.cpp:246-318 | in every interleaving: no lost wakeup, and each pad pushes a beginning of what requests not cancelled or mismatched delivered, in the order queued |
| StreamingLoop.OneOwner | src/gstreamer/gstlibcamerasrc.cpp:64-101 | in every interleaving each buffer of a pool is in exactly one place |
| StreamingLoop.StepPools | src/gstreamer/gstlibcamerasrc.cpp:64-101 | a pool of buffers is a queue: it loses its first buffer, to the task, and gains one at its end |
| StreamingLoop.DecideIff | src/gstreamer/gstlibcamerasrc.cpp:286-317 | the task stops iff the last flow failed, and pauses iff it did not and no pad has anything pending |
| StreamingRequests.MismatchedIff | src/gstreamer/gstlibcamerasrc.cpp:157-160 | in every interleaving the j-th completed request is mismatched iff it is not at the address of the j-th queued one, and no two requests in flight are at the same address |
| StreamingRequests.ExistingIff | src/gstreamer/gstlibcamerasrc.cpp:252-276 | in every interleaving the requests that exist are the one being filled, those in flight, the one that has just completed, and the refused ones, which nobody deletes |
| StreamingRequests.OrderlyNeverMismatches | src/gstreamer/gstlibcamerasrc.cpp:150-165 | when every request is accepted and completed in order, each meets its own wrap |
| StreamingRequests.OutOfOrderMismatches | src/gstreamer/gstlibcamerasrc.cpp:157-160 | a run with two accepted requests that complete in the other order, and mismatch |
| StreamingRequests.RefusedRequestStalls | src/gstreamer/gstlibcamerasrc.cpp:271-276 | in a session whose camera completes in order, a request meets its own wrap iff it comes before the first refused one; the refused wrap is always mismatched, and a later one iff the completed request is not at its address, so always if no address is used twice |
| StreamingRequests.RefusedRequestMismatches | src/gstreamer/gstlibcamerasrc.cpp:271-276 | a run in which the request after a refused one is mismatched |
| StreamingRequests.AddressUsedAgain | src/gstreamer/gstlibcamerasrc.cpp:157-176 | a run in which a request at the address of a deleted one has the buffer of that one delivered |
| StreamingRequests.StalledForGood | src/gstreamer/gstlibcamerasrc.cpp:286-317 | once the task is paused with no request in flight, nothing is queued, completed or pushed until the application plays again |
| StreamingRequests.QuietIff | src/gstreamer/gstlibcamerasrc.cpp:286-317 | between two turns, neither the task nor a completion can run before that iff the task is not started and no request is in flight |
| StreamingRequests.PausedTooLate | src/gstreamer/gstlibcamerasrc.cpp:286-317 | a run with an accepted and delivered request that ends so, with buffers in the pool |
| StreamingLoop.CompletionRuns | src/gstreamer/gstlibcamerasrc.cpp:150-183 | the steps of the callback, uninterrupted: every pad gets its buffer and a paused task is resumed, or every pool gets its buffer back |
| StreamingLoop.FinishRuns | src/gstreamer/gstlibcamerasrc.cpp:246-318 | the steps of the task function from any point reach its end |
| PipelineHandler.Handler.QueueRequest | src/libcamera/pipeline_handler.cpp:429-439 | a request joins the queue unless the device refuses it |
| PipelineHandler.Handler.CompleteRequest | src/libcamera/pipeline_handler.cpp:498-513 | the loop hands back the longest finished front of the queue |
| PipelineHandler.HandedIff | src/libcamera/pipeline_handler.cpp:498-513 | whatever the order of completion, requests are handed back in the order queued, each as soon as it and all before it are finished and not earlier |
| PipelineHandler.SubmittedAreAccepted | src/libcamera/pipeline_handler.cpp:429-439 | in every run the requests submitted are those the device accepted, in the order queued |
| PipelineHandler.StatusIsLast | src/libcamera/pipeline_handler.cpp:498-513 | in every run the status of a request is the one with which it finished last |
| PipelineHandler.HandBackRuns | src/libcamera/pipeline_handler.cpp:498-513 | for the streaming loop this is a run that completes the first requests in flight, in order, and leaves the others |
| StreamingObjects.GstLibcameraPad.QueueBuffer | src/gstreamer/gstlibcamerapad.cpp:141-148 | pushing at the head is joining a first-in first-out queue |
| StreamingObjects.GstLibcameraPad.PushPending | src/gstreamer/gstlibcamerapad.cpp:150-166 | popping at the tail takes its first buffer |
| StreamingObjects.GstLibcameraPad.AcquireBuffer | src/gstreamer/gstlibcamerapool.cpp:27-40 | the first idle buffer, or none; a buffer without a frame is lost |
| StreamingObjects.GstLibcameraPad.HasPending | src/gstreamer/gstlibcamerapad.cpp:168-174 | true iff the queue is not empty |
| StreamingObjects.RequestWrap.AttachBuffer | src/gstreamer/gstlibcamerasrc.cpp:72-87 | the buffer replaces that of its stream, which is dropped |
| StreamingObjects.RequestWrap.DetachBuffer | src/gstreamer/gstlibcamerasrc.cpp:89-101 | the buffer of the stream leaves the wrap |
| StreamingObjects.RequestWrap.Destroy | src/gstreamer/gstlibcamerasrc.cpp:64-70 | exactly the buffers still attached are dropped |
| StreamingObjects.GstLibcameraSrcState.constructor | src/gstreamer/gstlibcamerasrc.cpp:103-114 | with new pads the objects are in a starting state of the streaming loop |
| StreamingObjects.GstLibcameraSrcState.RequestCompleted | src/gstreamer/gstlibcamerasrc.cpp:150-183 | the front wrap delivers one buffer to each pad and resumes a paused task, or is dropped with all its buffers; objects in a state of the streaming loop have taken all the steps of the callback |
| StreamingObjects.CompletionMatches | src/gstreamer/gstlibcamerasrc.cpp:150-183 | what the callback does to pads, wraps and task is what those steps come to |
| StreamingObjects.GstLibcameraSrcState.TaskRun | src/gstreamer/gstlibcamerasrc.cpp:246-318 | objects in a state of the streaming loop take all the steps of one turn of the task |
| StreamingObjects.GstLibcameraSrcState.AcquireAll | src/gstreamer/gstlibcamerasrc.cpp:254-270 | the loop over the pools takes the acquiring steps |
| StreamingObjects.GstLibcameraSrcState.PushAll | src/gstreamer/gstlibcamerasrc.cpp:279-285 | the loop over the pads takes the pushing steps |
| SensorFormat.LessIsLexicographic | src/libcamera/geometry.cpp:139-156 | for all 32-bit sizes the operator is the order on area and then width, without overflow |
| SensorFormat.LessIsStrictWeakOrder | src/libcamera/geometry.cpp:139-156 | irreflexive, transitive, and so is being incomparable |
| SensorFormat.LessIsTotalIff | src/libcamera/geometry.cpp:139-156 | two sizes are incomparable iff equal or both of zero width |
| SensorFormat.ContainsIff | src/libcamera/geometry.cpp:274-283 | a range contains a size iff it is within bounds and some number of steps from the minimum |
| SensorFormat.AreaDiffExact | src/libcamera/camera_sensor.cpp:206-221 | the 32-bit difference of areas is exact iff it fits, even where the areas do not |
| SensorFormat.BestIsUnique | src/libcamera/camera_sensor.cpp:212-230 | at most one size is the best |
| SensorFormat.BestIsLeast | src/libcamera/camera_sensor.cpp:212-230 | with differences below 2^32 the chosen size is the first minimum of ratio distance and then area among the covering sizes |
| SensorFormat.LeastExists | src/libcamera/camera_sensor.cpp:205-230 | some size is meant as soon as one covers the desired size |
| SensorFormat.ChosenIsLeastIff | src/libcamera/camera_sensor.cpp:205-230 | the chosen size always has the least ratio distance; it is the first with the least area among those iff that one wins against all larger ones by wrapped area, else it is larger |
| SensorFormat.WrappedAreaPreferred | src/libcamera/camera_sensor.cpp:219-229 | a concrete pair where it does not |
| SensorFormat.CameraSensor.Resolution | src/libcamera/camera_sensor.cpp:147-154 | no size of the sensor has a larger area |
| SensorFormat.CameraSensor.SelectCode | src/libcamera/camera_sensor.cpp:192-198 | the first acceptable code that is supported |
| SensorFormat.CameraSensor.GetFormat | src/libcamera/camera_sensor.cpp:187-238 | the best covering size, or none iff none covers, for the selected code |
| KeyValueParser.Scan | src/cam/options.cpp:144-162 | the first occurrence of a character before the end, or the end |
| KeyValueParser.Parse | src/cam/options.cpp:140-198 | the pointer loop computes Parsed, the values of the pairs up to the first bad one |
| KeyValueParser.ParseConcat | src/cam/options.cpp:140-198 | parsing `a,b` is valid iff parsing a and b are, and then yields the values of a overridden by those of b |
| KeyValueParser.ParseJoin | src/cam/options.cpp:140-198 | the comma-join of pairs is valid iff each is acceptable by itself, and gives back every key with its last value |
| KeyValueParser.AcceptIff | src/cam/options.cpp:164-198 | a pair is acceptable iff its key is an option, it has a value where one is required and none where none may be, and an integer is one |
| KeyValueParser.StringsComeBack | src/cam/options.cpp:140-198 | the comma-join of pairs for string options gives back the strings themselves, the last one for each key |

## Left out

- Bytes: the host is little-endian, as the packets assume when values are copied.
- CarveTree: sums of pointers and sizes are assumed not to wrap.
- ByteStream.ByteStreamBuffer.Move: move assignment onto a buffer that is in use is not modelled, only move construction.
- Controls.GenerateIdmap: `at()` and `count()` follow from the lookup and are not modelled; `ControlValue` equality, which is false for two None values, is replaced by structural equality.
- ControlFormat.RoundTrip: sizes and handles stay below 2^32, as in every packet the serializer can announce.
- PacketReader.ReadPacket: a failed entry read is unchecked in the code, and so is a type outside the enumeration; such packets have the outcome Undefined, about which nothing is stated.
- Serializer.ControlSerializer.DeserializeList: the map is looked up after the entries have been read, where the code looks it up before; the result is the same.
- ControlProtocol.GuestAgrees: every map that is sent is well typed, its maxima included, which the code checks for minima only; events with several maps or lists are sent as several messages. Runs serialize fewer than 2^32 maps between resets, and both sides reset together with no packet in flight.
- ControlValidator and the templated accessors of ControlList are not part of this model.
- EventDispatcher.EventDispatcherPoll.ProcessEvents: what poll() answers is a parameter and its timeout is left out, and a handler does not call processEvents() again; the interrupt event descriptor is not modelled.
- TimerList.PassFiresInOrder: a timer's deadline changes only through start and stop; timers are ids and the clock is a parameter.
- DeviceArrival.OrderDoesNotMatter: each number arrives once, numbers of different media devices differ, and looking up and setting a node succeeds; re-plugging, which the code does not undo, is left out.
- DeviceEnumeratorUdev.Enumerator.PopulateMediaDevice: udev and sysfs lookups are parameters.
- IpcFraming.ReceivedIsPrefix: the channel is reliable and in order, and the socket was empty when it was bound; that no data send fails is a condition, whose failure IpcFraming.LostDataMisframes states.
- PipelineHandler.HandedIff: each request is queued once, as it is deleted when it is handed back, and a device only finishes requests that it has accepted.
- StartRace.StartIsSafeIff: accesses are sequentially consistent; start() is called once at a time, as its documentation asks of the caller, and the hardware goes away once.
- CameraObject.CameraDevice.Start: pipeline handlers and locks are return codes passed as parameters; requests are not part of this model of the camera.
- CameraStates.BufferBalance: lists of streams are sets, so the order in which buffers are imported is not modelled.
- MediaGraph.MediaDevice.Populate: pointers between objects are the ids under which they are stored; ioctls, the retry until the topology is stable, names, flags and enabling of links are left out.
- Invocation.AnsweredCallRan: a bound method that deletes itself is made for one call; moving objects between threads and nested children are left out. That a blocked caller wakes eventually is not claimed.
- MessageQueue.Semaphore.Acquire: waiting is the precondition that enough is available.
- FrameAllocator.GstLibcameraAllocator.PrepareBuffer: frames are entries of a sequence and memories their planes; GObject and GstMiniObject reference counting is modelled only where it decides who returns a frame. The two early exits of gst_libcamera_allocator_new() are left out.
- StreamingLoop.NoLostWakeup: a session starts with empty pad queues; the application plays only while the task is not stopped, and its other state changes are left out.
- StreamingRequests.RefusedRequestStalls: a request is refused when it is queued, where the device may also refuse it later; either way it never completes and nobody deletes it.
- StreamingLoop.OneOwner: the buffers of an unqueued or dropped wrap are released from the last pad to the first, where the code goes in the order of stream addresses; a buffer for which no frame is left stays in the lost place.
- StreamingObjects.GstLibcameraSrcState.RequestCompleted: pads have different streams. A method is one thread that is not interrupted; interleavings are those of StreamingLoop.
- StreamingObjects.GstLibcameraSrcState.TaskRun: the address of the request is passed in, and whether pools have frames, the camera accepts and pads push are parameters; the event that ends a stream is left out.
- ThreadObjects.Threads.Activate: a call is the number under which it is made, and the thread of an object is passed in.
- SensorFormat.CameraSensor.Resolution: std::sort is its postcondition, a sorted vector; CameraSensor::init() is otherwise left out.
- SensorFormat.CameraSensor.GetFormat: the distance of aspect ratios is an arbitrary finite non-negative function, which covers every rounding; a desired height of zero is excluded by that.
- KeyValueParser.Parse: options of type key=value inside key=value lists, for which the code has no parser, are excluded by the types; strtoul() is a parameter.
- Logging, caps negotiation, the fourcc table, the Android layer, qcam, code generation, IPA module loading and kernel headers are not part of this model.
