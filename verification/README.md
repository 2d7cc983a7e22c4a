# A verified model of the ECI bridge

The repository lets programs of one architecture use a speech engine that exists only as an ARM
library. A host library (the shim) turns every ECI call into a request, a bridge process under
an emulator serves it, and the engine's callbacks travel back over a second channel to a thread
of the host process, which runs the application's own callback. Around this core there is a
Speech Dispatcher module that strips SSML, a command line program that collects samples, and a
script that rewrites version names in old ELF libraries.

The model follows the C and Python code branch by branch and proves what these parts promise
over all inputs and all runs. What the source does in place stays in place: arrays, classes, a
linked list and loops with invariants, each method proved against a function, and the promises
proved of the functions. The connection as a whole is a machine over its threads' steps.

| files | part of the source |
|---|---|
| `Protocol*.dfy`, `Endpoints.dfy`, `Events.dfy`, `Handshake.dfy` | the two channels, the locks and threads at their ends |
| `HandleMap.dfy`, `Slots.dfy`, `ClientState.dfy`, `Ledger.dfy`, `Bridge.dfy`, `BridgeRuns.dfy` | the bridge's tables, its clients and their list |
| `CallbackTable.dfy`, `PcmBuffer.dfy` | the host's callback table and the sample accumulator |
| `Bytes.dfy`, `Codec.dfy`, `RpcBuffer.dfy`, `Signatures.dfy`, `Framing.dfy`, `WireLayout.dfy` | the wire format |
| `Ssml.dfy` | `strip_ssml` |
| `ElfVersions.dfy`, `ElfStrings.dfy`, `ElfHashes.dfy`, `ElfRecords.dfy`, `ElfPatch.dfy` | the version patcher |

## What was found on the way

- README.md:142 of the repository says, without a condition, that the two channels keep the
  callbacks from deadlocking. A run that cannot go on has completed all calls, with any number of
  application threads, if and only if no callback made a call that goes to the bridge and every
  request, event and answer fitted a message (`ProtocolReentry.CompleteIff`).
  - From the moment a callback makes such a call no thread can take a step
    (`ProtocolReentry.ReentryIsTheEnd`, `ProtocolWitness.ReentryIsReached`).
  - An event too long for a message ends the callback thread, and the call under way is never
    answered (`ProtocolProgress.DeafForGood`). That can happen exactly with output buffers above
    2097143 samples (`ProtocolLimits.MaxSamplesIsExact`, `ProtocolLimits.SmallBuffersComplete`,
    `ProtocolWitness.TooLongIsReached`), which nobody refuses.
  - A request or an answer too long for a message makes the thread that asked give the connection
    up, and nothing else does (`ProtocolBreaks.ConnectionHolds`). For eciAddText that is a text
    of more than 4194287 bytes (`ProtocolLimits.MaxTextIsExact`).
- spd/sd_eloquence.c:428-433 says that calling `eciStop` from a second thread would deadlock. It
  would only wait: `ProtocolProgress.EveryCallCompletes` holds for any set of threads.
- Audio arrives whole exactly when, at each delivery, the handle's callback is on record and the
  recorded buffer is as large as the block (`ProtocolAudio.AudioIntactIff`). A thread that
  records a smaller buffer while another thread's call is being served truncates the block under
  way, and the callback reads stale samples: `ProtocolWitness.SamplesAreLost` gives such a run
  from the start of a connection.
- `rpc_buf_ensure` takes its sum modulo 2^32 (proto/rpc_msg.c:24). It has made room exactly when
  the true sum is at most 2^31; above that it never returns, except that from 2^32 on it returns
  without room when the wrapped sum is at most 2^31 (`RpcBuffer.EnsureMakesRoomIff`).
- `rpc_decode_skip` accepts a length that makes its sum wrap, and then makes no progress
  (`Codec.SkipAcceptsWrappedLength`); on everything a typed decoder accepts it agrees with it.
- After 2^32 - 1 handles of one client the counter wraps to zero: the next engine is deleted at
  once, stays in the table, where it catches the events of whoever is given its address next
  (`BridgeRuns.WrapMisroutes`), and is deleted again at the latest at disconnect, whatever the
  client does meanwhile. Every engine of a run is settled if and only if the run takes fewer than 2^32
  handles (`Ledger.AllSettledIff`).
- Decoding entities is not the inverse of escaping them: `&amp;` is looked for again from the left
  after every rewrite, so `&amp;lt;` and longer towers collapse. Escaping is undone exactly for
  texts without the five entities (`Ssml.StripUndoesEscapeIff`).
- The patcher replaces an old version name wherever a string ends in one, but the hash only where
  the whole name is an old one; names that merely end in one, such as "XGLIBC_2.0", are left
  with the wrong hash (`ElfPatch.SuffixedNameExists`), and so are all records whose name is a
  proper tail of an old one, which may even become empty (`ElfPatch.TailsDisagree`). The exact
  condition for every record is in `ElfPatch.PatchKeepsAgreement`.
- `main` acknowledges a callback channel before it joins it to its client
  (arm/bridge_main.c:222-237), so a client may create an engine and register a callback that has
  no channel yet (`Ledger.CallbackWithoutChannel`); until the channel is joined
  (`Ledger.SlotHasChannelIff`) the bridge itself answers its events with "data processed".

## Assumptions of the connection model

- The engine calls back on the thread that dispatches, one callback at a time, at most as often in
  a call as that call's `events` says, and only with samples from an output buffer it was given, no
  more than that holds. How long an answer is, is the engine's choice.
- A message over 2^31 bytes, which would not even leave its sender's buffer
  (`RpcBuffer.EnsureMakesRoomIff`), is treated like any other that does not fit; one that the
  reader refuses counts as written in full.
- Callbacks return; calls they make themselves are the subject of `ProtocolReentry`.
- One client, one connection, no read or write errors but those that messages too long bring about,
  and the callback channel joined before use. The model ends where a thread gives the connection up.
  The callback thread listens from the start, although the source starts it with the first engine
  (host/shim_libeci.c:62-65); no event is sent before that. A client that has used up all its
  handle numbers creates no further engine. Queues hold any number of messages, though
  `ProtocolInvariant.OneInFlight` shows that none ever holds more than one.
  Dispatch steps are atomic with respect to other clients. The bridge's tables enter as a map,
  and `ProtocolTables.CallsActInOrder` shows that it is that of the tables themselves.
- Wrappers are called with arguments of their kinds. What an application passes as an output buffer
  is really there, where sizes on record are spoken of. What an engine has "produced" are the
  events it raised for handles with a registered callback; the others are not sent.

## Model

| member | source | states |
|---|---|---|
| `ProtocolInvariant.StepKeeps` | host/shim_connection.c:143-208 | every step any of the threads can take keeps the invariant: one outstanding call at most, whose stage determines all four queues, both locks and where every thread is |
| `ProtocolInvariant.OneInFlight` | host/shim_connection.c:149-180 | after any run, for any number of threads and any programs, at most one message is in all the queues together, and only while the RPC lock is held |
| `ProtocolInvariant.ReadKeeps` | arm/bridge_main.c:48-61 | the bridge decodes the header of the request under way and carries on with that number, or leaves when the request is too long |
| `ProtocolInvariant.ReturnKeeps` | host/shim_connection.c:182-190 | the answer a thread takes apart after unlocking decodes to what the bridge encoded |
| `ProtocolInvariant.HearKeeps` | host/shim_callback.c:86-104 | the callback thread sees just the event the engine raised |
| `ProtocolInvariant.ResumeKeeps` | arm/bridge_callback.c:57-74 | the engine resumes with what the callback thread sent for this event |
| `ProtocolProgress.SomeoneCanGoOn` | README.md:142 | no deadlock: as long as the callback thread is there and the connection is up, in every reachable state short of the end some thread can take a step |
| `ProtocolProgress.EveryStepFalls` | host/shim_connection.c:143-208 | a natural number falls with every step of every thread |
| `ProtocolProgress.DeafForGood` | host/shim_callback.c:86-91 | once the callback thread has left over an event too long, nothing is answered any more, whatever happens |
| `ProtocolBreaks.ConnectionHolds` | proto/rpc_io.c:42-69 | over any run of calls whose requests and answers fit a message, neither side gives the connection up |
| `ProtocolProgress.EveryCallCompletes` | README.md:142 | under every schedule a run is no longer than the work of all calls and their events, and all calls of all threads have been answered if and only if nothing more can happen and every request, event and answer fitted a message |
| `ProtocolLimits.MaxSamplesIsExact` | proto/rpc_io.c:46-47 | a block of up to 2097143 samples fits a message and a longer one does not |
| `ProtocolLimits.SmallBuffersComplete` | arm/bridge_dispatch.c:555-575 | an application that sets no larger output buffer meets no event too long, so its calls all complete if and only if requests and answers fit |
| `ProtocolLimits.MaxTextIsExact` | host/shim_libeci.c:232-242 | eciAddText's request fits exactly for texts up to 4194287 bytes |
| `ProtocolLimits.LongTextIsFatal` | host/shim_connection.c:168-178 | with a longer one among its calls no application sees all of them answered |
| `ProtocolReentry.NobodyMoves` | host/shim_callback.c:127-133 | while a callback waits for the lock of its own ECI call no thread of the system can take a step |
| `ProtocolReentry.CompleteIff` | README.md:142 | a run that cannot go on has completed all calls if and only if no callback has made a call and every request, event and answer fitted a message |
| `ProtocolReentry.ReentryIsTheEnd` | host/shim_callback.c:108-136 | in any reachable state, a call made by a callback is the last thing that happens |
| `ProtocolHistory.EveryAnswerIsToTheQuestion` | host/shim_connection.c:154-190 | over any run the answers received are the answers given, in order, each by the thread that sent its number, even after the numbers wrap, though shim_rpc never compares them |
| `ProtocolHistory.EveryEventOnce` | arm/bridge_callback.c:47-74 | over any run each event sent is dealt with once, in order, and the engine gets the number its callback returned |
| `ProtocolTables.CallsActInOrder` | arm/bridge_dispatch.c:213-276 | many threads' calls act on the bridge's tables one after another: after any run the requests read are those of the calls sent, in that order, each thread's in its own order with none left out, and at rest the engines are those of the two tables after dispatching just these requests |
| `ProtocolTables.StepActs` | arm/bridge_main.c:48-61 | every step of every thread keeps that |
| `ProtocolAudio.HeardExactlyIff` | host/shim_callback.c:119-126 | a callback finds the engine's samples exactly when the host's buffer is as large as the block, or the stale rest happens to be the missing samples |
| `ProtocolAudio.FoundIs` | host/shim_callback.c:119-126 | what a callback finds otherwise: as much of the block as fits, then what lay in the buffer before |
| `ProtocolGentle.StepAgrees` | host/shim_libeci.c:436-452 | while threads keep to the rules of `GentleRun`, the host's buffer is as large as the bridge's whenever an engine can be at work, because it is recorded before the request goes out |
| `ProtocolLimits.RequestArrives` | arm/bridge_dispatch.c:224-276 | the bridge acts on what the wrapper was called with: eciNew and eciNewEx make an engine, eciDelete deletes its handle's, eciSetOutputBuffer and eciRegisterCallback reach their handle, no other call touches the tables |
| `ProtocolAudio.FoundInFullIff` | host/shim_callback.c:119-126 | so for every event, samples or not, and every registration with a real buffer |
| `ProtocolAudio.AllHeardIff` | host/shim_callback.c:106-134 | over any run of any threads, every event so far was heard in full if and only if at every delivery a callback was on record and found all that came |
| `ProtocolAudio.AudioIntactIff` | host/shim_callback.c:106-134 | with real buffers that is if and only if at every delivery the size on record sufficed, or what lay behind happened to be the missing samples |
| `ProtocolAudio.AudioConserved` | arm/bridge_callback.c:36-74 | over any run with deliveries in full, what a handle's callback has accumulated is what its engine has produced, in order, up to the block under way |
| `ProtocolGentle.GentleRunsAreInFull` | host/shim_libeci.c:436-452 | a rule for threads under which that is always so: no buffer made smaller while other threads have calls to make, no callback taken back, at most 64 handles |
| `ProtocolPcm.Collect` | cli/eloquence.c:46-60 | calling the program's callback with each heard block leaves their samples in its accumulator, in order |
| `ProtocolPcm.ProgramHasTheAudio` | cli/eloquence.c:46-60 | so after such a run the accumulator holds exactly the samples the engine of that handle has produced, each of its two bytes, least significant first |
| `ProtocolPcm.SamplesBytes` | cli/eloquence.c:46-60 | sample for sample, which two bytes it is made of |
| `ProtocolGentle.ShrinkingLosesSamples` | host/shim_callback.c:55-64 | a smaller buffer recorded while an event is under way leaves the callback with other samples than the engine produced |
| `ProtocolWitness.SamplesAreLost` | host/shim_callback.c:55-64 | that happens: a run of two threads from the start of a connection after which an event has not been heard in full |
| `ProtocolWitness.CallbackIsReached` | host/shim_callback.c:128-132 | a run from the start of a connection in which the application's callback is called |
| `ProtocolWitness.ReentryIsReached` | host/shim_callback.c:128-132 | and one in which any call it makes there is the end, with a call outstanding |
| `ProtocolWitness.TooLongIsReached` | host/shim_callback.c:89-91 | with any output buffer above 2097143 samples, a run in which the callback thread leaves, though no callback made a call, and after which the call under way is never answered |
| `Protocol.CopyCheckIff` | host/shim_callback.c:119-126 | the check before the copy, its sum taken modulo 2^32, holds exactly for a length within the message or within 16 of 2^32; for the events the bridge builds it is always the former |
| `Protocol.CopiedIs` | host/shim_callback.c:119-126 | byte by byte, what the copy leaves in the application's memory, for every event, registration and memory |
| `Protocol.NoteOnRecord` | host/shim_callback.c:29-78 | what a thread's call leaves on the host's record are its own buffer and size, or callback and user data |
| `Events.EventRoundTrip` | arm/bridge_callback.c:28-45 | the event message decodes to handle, kind, parameter and samples |
| `Events.ReturnRoundTrip` | host/shim_callback.c:137-143 | the bridge reads back the number the callback returned |
| `Events.EventFitsIff` | arm/bridge_callback.c:48-51 | an event passes the framing exactly when 17 bytes and its samples are within MAX_MSG_SIZE |
| `Events.BuildEvent` | arm/bridge_callback.c:23-45 | appending field by field builds that message |
| `WireLayout.EventLayout` | arm/bridge_callback.c:28-45 | the event on the wire, place by place: kind 3, handle, event, parameter and length as big-endian words, then the samples |
| `WireLayout.EventReadIff` | host/shim_callback.c:86-104 | the callback thread takes up messages of kind 3 with at least 16 bytes, as the words and bytes at these places, and no others |
| `WireLayout.ReturnLayout` | host/shim_callback.c:137-143 | the answer on the wire: kind 4, handle and number |
| `WireLayout.ReturnReadIff` | arm/bridge_callback.c:57-74 | the bridge reads the number in a message of kind 4 with at least 8 bytes, and makes "data processed" of any other |
| `WireLayout.FrameLayout` | proto/rpc_io.c:71-81 | a frame, place by place: the length of what follows, the kind, the data |
| `WireLayout.ArgLayout` | proto/rpc_msg.c:43-101 | each kind of argument, place by place: its tag, its word or length in network order, its bytes |
| `WireLayout.HeaderLayout` | proto/rpc_msg.c:219-278 | both headers, place by place |
| `WireLayout.HeaderDecodesIff` | proto/rpc_msg.c:219-278 | a header is read exactly where six, or ten, bytes are left, as the numbers they spell; else the cursor stays |
| `WireLayout.FailedDecode` | proto/rpc_msg.c:108-193 | where a decoder that fails leaves the cursor |
| `WireLayout.SkipOfOthers` | proto/rpc_msg.c:195-217 | skip of a word, a null, an unknown tag and at the end |
| `WireLayout.BigEndian` | proto/rpc_msg.c:108-118 | the words read are most significant byte first |
| `Endpoints.ShimConn.Rpc` | host/shim_connection.c:143-208 | the request is framed under the next number; the connection ends exactly by an error, the end of the stream or a message that is no response, and then there is no answer |
| `Endpoints.ShimConn.Answered` | host/shim_connection.c:168-206 | a caller whose answer is next gets its number, result, error and trailing bytes, and what follows is left for the next call |
| `Endpoints.ShimConn.Unanswered` | host/shim_connection.c:168-193 | any other message gives no answer; a response too short leaves the connection up, another kind of message ends it |
| `Endpoints.InternalCallback` | arm/bridge_callback.c:13-75 | without slot, callback or channel "data processed" and nothing sent; otherwise the event with the engine's samples is sent and the answer's number returned, "data processed" on any error |
| `Endpoints.Announce` | arm/bridge_callback.c:28-74 | what is sent parses to handle, event and parameter, with all 2 * lParam bytes of a block or none, and the engine gets the number of the answer that comes |
| `Endpoints.CallbackThread.Serve` | host/shim_callback.c:83-144 | one round of the loop: messages that are no events are passed over, samples are copied for a known handle, one reply goes out |
| `Endpoints.RoundTrip` | arm/bridge_callback.c:13-75 | over streams with any short transfers the engine gets back the application's result, a block lies whole in a buffer that is large enough, with the rest of it and all other memory unchanged, and both streams are empty |
| `Endpoints.MachineServesAlike` | host/shim_callback.c:86-144 | the callback thread of the connection machine takes an event to the same memory and the same answer |
| `Endpoints.MachineSendsAlike` | host/shim_connection.c:151-160 | and a thread of the machine sends header and arguments under the next number, as `Rpc` does |
| `Handshake.NumberRoundTrip` | host/shim_connection.c:46-69 | hello and acknowledgement carry the number through framing and decoding |
| `WireLayout.HandshakeReadIff` | arm/bridge_main.c:184-200 | a handshake message has the kind asked for and at least four bytes, which spell the number; any other is none |
| `Handshake.DoHandshake` | host/shim_connection.c:46-69 | the hello goes out and the number in the acknowledgement is returned; any other message fails |
| `Handshake.Acceptor.Accept` | arm/bridge_main.c:184-242 | number zero creates and registers a client under a fresh number before acknowledging; another number gives the channel's descriptor to the client of that number and to its slots in use, and leaves all else alone |
| `Handshake.Connect` | host/shim_connection.c:71-119 | the descriptor a process brings second becomes the channel of the client its first handshake created, whatever clients there are |
| `HandleMap.AddBinds` | arm/bridge_handle.c:11-24 | adding binds the next id, which was not bound, or changes nothing for NULL and a full table |
| `HandleMap.GetIsLookup` | arm/bridge_handle.c:26-34 | the table is a partial map from id to pointer, and zero resolves to nothing |
| `HandleMap.RemoveUnbinds` | arm/bridge_handle.c:36-46 | removing unbinds that id and no other |
| `HandleMap.FindInvertsGet` | arm/bridge_handle.c:48-56 | with distinct live pointers the lookup by pointer inverts the lookup by id, and fails exactly for pointers that are not live |
| `HandleMap.NeverReissued` | arm/bridge_handle.c:11-46 | over any sequence of operations with at most 2^32 - 1 adds, ids are issued in increasing order and a removed one never resolves again |
| `HandleMap.WrapLosesTheEntry` | arm/bridge_handle.c:15-19 | when the counter has wrapped, an add stores the pointer, reports failure, and no id finds it |
| `HandleMap.EmptyTableInv` | arm/bridge_handle.c:4-9 | a fresh table is the empty map |
| `HandleMap.TableOperations` | arm/bridge_handle.c:11-46 | an add takes the first free entry, a removal and a lookup the first in use with that id; else nothing changes |
| `HandleMap.HandleTable.AddPtr` | arm/bridge_handle.c:11-24 | the scan over the real array implements the add |
| `HandleMap.HandleTable.GetPtr` | arm/bridge_handle.c:26-34 | the scan implements the lookup |
| `HandleMap.HandleTable.RemoveId` | arm/bridge_handle.c:36-46 | the scan implements the removal |
| `HandleMap.HandleTable.FindByPtr` | arm/bridge_handle.c:48-56 | the scan implements the lookup by pointer |
| `Slots.ChangeKeeps` | arm/bridge_dispatch.c:153-186 | changing the slot of one handle along with its liveness keeps slots and handles matched and every other handle's engine as it was |
| `Slots.SlotOperations` | arm/bridge_dispatch.c:153-186 | field by field: each operation acts on the first slot it looks for, and on no other |
| `ClientState.RoomTogether` | arm/bridge_dispatch.c:153-166 | alloc_cb_state finds room whenever hmap_add did, by counting over the two tables of 64 |
| `ClientState.FullIff` | arm/bridge_handle.c:14-23 | the table is full exactly when 64 handles are live |
| `ClientState.DispatchRefines` | arm/bridge_dispatch.c:224-276 | every dispatch keeps the two tables in lockstep and changes the map from handles to engines just as the request says, replies included; a callback registered on handle zero leaves no trace |
| `ClientState.DispatchSpelledOut` | arm/bridge_dispatch.c:224-276 | request by request, what becomes of every engine's address, callback flag and buffer size, and what is answered; a negative size leaves no buffer |
| `ClientState.EnginesAre` | arm/bridge_dispatch.c:224-276 | what is meant by the map of engines: address, flag and buffer are those in the entry and the slot of the handle |
| `ClientState.AssociateKeeps` | arm/bridge_main.c:231-237 | handing over the callback channel reaches exactly the occupied slots and changes no engine's entry |
| `ClientState.AssociateIs` | arm/bridge_main.c:231-237 | field by field: the client and every slot in use get that descriptor, and nothing else changes |
| `Bridge.ClientNode.AllocCbState` | arm/bridge_dispatch.c:153-166 | the first free slot is overwritten whole |
| `Bridge.ClientNode.FreeCbState` | arm/bridge_dispatch.c:168-177 | the slot of the handle is cleared |
| `Bridge.ClientNode.GetCbState` | arm/bridge_dispatch.c:179-186 | the first slot with that id, which for zero is a free one |
| `Bridge.ClientNode.DispatchRpc` | arm/bridge_dispatch.c:213-276 | the branches on the real tables implement the dispatch, engine calls in order |
| `Bridge.ClientNode.AssociateChannel` | arm/bridge_main.c:231-237 | the loop stores the descriptor in the client and in each slot in use |
| `Bridge.ClientNode.RunClient` | arm/bridge_main.c:48-73 | the request loop and the cleanup after it implement the client's whole run |
| `Ledger.EnginesDeletedOnce` | arm/bridge_main.c:48-73 | over any run from connect to disconnect every engine created is deleted as often as created, and never while it is not alive |
| `Ledger.AllSettledIff` | arm/bridge_main.c:48-73 | all engines of a client's run are settled if and only if the run takes fewer than 2^32 handle numbers |
| `Ledger.DispatchBalances` | arm/bridge_dispatch.c:224-276 | after each dispatch the table holds just the engines that are alive |
| `Ledger.CleanupSettlesIff` | arm/bridge_main.c:67-73 | the cleanup deletes no engine that is not alive exactly when all the table holds are |
| `Ledger.WrapDeletesTwice` | arm/bridge_dispatch.c:226-231 | an engine created when the numbers are used up is deleted twice, whatever the client does until it disconnects |
| `Ledger.SlotHasChannelIff` | arm/bridge_main.c:227-237 | a live handle's slot has a channel exactly when one has been handed over to the client |
| `Ledger.SlotHasLastChannel` | arm/bridge_main.c:227-237 | and it is the last one handed over, whatever was served before and after |
| `Ledger.ServeOneMore` | arm/bridge_main.c:48-61 | each request and each channel acts on what those before it left |
| `Ledger.ServeEnds` | arm/bridge_main.c:56-61 | after a reply that cannot be sent nothing acts any more |
| `Ledger.CallbackWithoutChannel` | arm/bridge_main.c:222-237 | before that a client can have an engine with a registered callback |
| `Bridge.RouteIsRight` | arm/bridge_dispatch.c:48-70 | with live engines at distinct addresses the lookup returns the slot of the client that created the engine, with the handle it was given and its channel |
| `Bridge.RouteOfStranger` | arm/bridge_dispatch.c:48-70 | and nothing for an address that is no live engine's |
| `BridgeRuns.TurnKeeps` | arm/bridge_dispatch.c:213-276 | a request served, a channel joined, a client's coming or leaving keeps live engines of all clients at distinct addresses, as long as the engine gives out addresses where nothing is alive and the numbers last |
| `BridgeRuns.RoutesAlwaysRight` | arm/bridge_dispatch.c:48-70 | so over any such run, with clients served in any order, the lookup finds the client, handle and channel of every live engine |
| `BridgeRuns.WrapMisroutes` | arm/bridge_dispatch.c:48-70 | when a client's numbers are used up, the table entry of its next engine, deleted at once, catches the lookup of that address before the clients behind it on the list |
| `Bridge.ClientList.Register` | arm/bridge_dispatch.c:26-32 | the client is put in front of a list that stays acyclic and without repetition |
| `Bridge.ClientList.Unregister` | arm/bridge_dispatch.c:34-46 | exactly that client is taken out, wherever it is, and the rest keep their order |
| `Bridge.ClientList.FindById` | arm/bridge_dispatch.c:15-24 | the first client of that number, or null when there is none |
| `Bridge.ClientList.FindCbState` | arm/bridge_dispatch.c:48-70 | the nested loops over list and tables implement the lookup |
| `CallbackTable.UpsertRefines` | host/shim_callback.c:29-78 | either call changes what its own handle has on record and nothing else; only a 65th handle is dropped |
| `CallbackTable.OnRecordAfter` | host/shim_callback.c:29-78 | field by field: on record are the function and data, or the buffer and size, passed last, and what the other call left |
| `CallbackTable.LookupIs` | host/shim_callback.c:107-114 | a lookup gives what the entry in use for that handle holds |
| `CallbackTable.OrderOfCallsIrrelevant` | host/shim_callback.c:29-78 | registering a callback and setting the buffer commute |
| `CallbackTable.RoomWhileFew` | host/shim_callback.c:43-53 | none of the first 64 handles is ever dropped |
| `CallbackTable.Callbacks.Set` | host/shim_callback.c:29-78 | the two loops implement the update |
| `CallbackTable.Callbacks.Find` | host/shim_callback.c:107-114 | the loop finds the entry |
| `PcmBuffer.Pcm.Append` | cli/eloquence.c:38-62 | the block goes behind what was accumulated, whole and once, as long as the total is within 2^30 samples |
| `PcmBuffer.Pcm.Grow` | cli/eloquence.c:51-57 | growing keeps what was accumulated and stays below twice what is needed |
| `PcmBuffer.DoublesInRange` | cli/eloquence.c:51-52 | within that limit no doubling leaves the range of an int |
| `RpcBuffer.EnsureMakesRoomIff` | proto/rpc_msg.c:22-33 | with the sum taken modulo 2^32: the call returns exactly when the wrapped sum is at most 2^31, and has made room exactly when the true sum is |
| `RpcBuffer.DoublingEndsIff` | proto/rpc_msg.c:26-27 | from any capacity the doubling loop ends exactly for a need of at most 2^31 |
| `RpcBuffer.DoubledStaysCapacity` | proto/rpc_msg.c:26-27 | capacities are 256 times a power of two until they wrap to zero |
| `RpcBuffer.Buffer.Ensure` | proto/rpc_msg.c:22-33 | for every need the loop ends for: the contents are kept, there is room exactly when the true sum is at most 2^31, the capacity is below twice the need, and all bytes ever copied by growing are no more than the capacity |
| `RpcBuffer.Buffer.EncodeValue` | proto/rpc_msg.c:43-101 | encoding appends the argument's bytes and nothing else |
| `RpcBuffer.Buffer.EncodeRaw` | proto/rpc_msg.c:35-41 | pure append |
| `RpcBuffer.Reader.Decode` | proto/rpc_msg.c:108-193 | the decoders with their moving cursor return what the bytes say and leave the cursor where it should be, on failure too |
| `RpcBuffer.Reader.DecodeAll` | proto/rpc_msg.c:108-193 | so does a sequence of them up to the first failure |
| `Codec.DecodeKind` | proto/rpc_msg.c:108-193 | the cursor never goes back and never passes the end of an accepted frame, on success or failure |
| `Codec.CursorAfter` | proto/rpc_msg.c:103-193 | nor does it over any sequence of decodes |
| `Codec.NoSumWraps` | proto/rpc_msg.c:103-106 | in a frame rpc_read_msg accepts, no sum of the typed decoders wraps |
| `Codec.ArgDecodesIff` | proto/rpc_msg.c:43-193 | an encoded argument decodes to itself exactly when it is within the limits; otherwise the cursor stops behind the length |
| `Codec.DecodedWasEncoded` | proto/rpc_msg.c:108-193 | the decoders accept nothing but encodings |
| `Codec.ArgsRoundTrip` | proto/rpc_msg.c:43-193 | a list of arguments decodes to itself with the cursor at its end |
| `Codec.ArgPrefixFree` | proto/rpc_msg.c:43-101 | no encoded argument is the beginning of another |
| `Codec.EncodingInjective` | proto/rpc_msg.c:43-101 | no two lists share an encoding |
| `Codec.SkipFollowsDecode` | proto/rpc_msg.c:195-217 | skip steps over whatever a typed decoder accepts, to the same position |
| `Codec.SkipExact` | proto/rpc_msg.c:207-213 | skip of a block lands on its end exactly when that end lies in the frame |
| `Codec.SkipAcceptsWrappedLength` | proto/rpc_msg.c:207-213 | five bytes that skip accepts without moving and no decoder accepts |
| `Codec.RequestHeaderRoundTrip` | proto/rpc_msg.c:219-244 | number and function survive, whatever follows |
| `Codec.ResponseHeaderRoundTrip` | proto/rpc_msg.c:246-278 | number, signed result and error survive, whatever follows |
| `Bytes.Be32RoundTrip` | proto/rpc_msg.c:47-49 | network byte order and back |
| `Signatures.SignaturesAgree` | host/shim_libeci.c:44-1045 | for each of the functions the branch reads the kinds of arguments its wrapper writes |
| `Signatures.RequestReachesItsBranch` | arm/bridge_dispatch.c:213-223 | a wrapper's request decodes in its branch to the same number, function and values with nothing left over |
| `Signatures.RequestDecodesIff` | arm/bridge_dispatch.c:807-829 | exactly when its strings and buffers are within the decoders' limits |
| `Signatures.ArgsWereEncoded` | arm/bridge_dispatch.c:807-829 | a branch accepts nothing but the encoding of what it read |
| `Signatures.ReadWasRequest` | arm/bridge_dispatch.c:213-223 | whatever is read as a request is, byte for byte, one a wrapper could have sent |
| `Signatures.BuildRequest` | host/shim_connection.c:151-158 | wrapper and shim_rpc build these bytes |
| `Signatures.Receive` | arm/bridge_dispatch.c:213-223 | header and arguments are read by the cursor as specified |
| `Framing.FrameParsesIff` | proto/rpc_io.c:42-81 | a written message is read back, leaving what follows, exactly when its data is shorter than MAX_MSG_SIZE |
| `Framing.ParsedWasFramed` | proto/rpc_io.c:42-69 | the reader accepts nothing but frames |
| `Framing.AllFramesParse` | proto/rpc_io.c:42-81 | a list of messages is read back up to the first that does not fit |
| `Framing.ParseAllInverse` | proto/rpc_io.c:42-69 | whatever a receive loop read, the stream was those messages and the rest |
| `Framing.ReadExact` | proto/rpc_io.c:9-24 | any short reads and interruptions give the same bytes; fails only at the end or on a real error |
| `Framing.WriteExact` | proto/rpc_io.c:26-40 | any short writes and interruptions put out the same bytes; a failure leaves a proper prefix |
| `Framing.ReadMsg` | proto/rpc_io.c:42-69 | reads the message the bytes parse to and stops behind it |
| `Framing.WriteMsg` | proto/rpc_io.c:71-81 | puts out the frame, or on a real error a proper prefix |
| `Framing.ReadAll` | host/shim_callback.c:83-92 | a receive loop gets just the messages the bytes parse to |
| `Framing.SendAndReceive` | proto/rpc_io.c:9-81 | whatever the short transfers and interruptions, a list of messages is read back as written, up to one that does not fit, and all of it leaves the stream at its end |
| `Ssml.AmpLoopIsSinglePass` | spd/sd_eloquence.c:322-326 | the loop that starts over after each rewrite comes to one pass that takes an ampersand and any number of "amp;" behind it for one ampersand |
| `Ssml.EntityLoopIsSinglePass` | spd/sd_eloquence.c:327-342 | each of the other loops comes to one pass, for its rewrites make no new occurrence |
| `Ssml.LoopsCommute` | spd/sd_eloquence.c:327-342 | those four in any order come to one simultaneous substitution |
| `Ssml.SubstCompose` | spd/sd_eloquence.c:327-342 | substituting one set of entities and then another is substituting both at once |
| `Ssml.DecodeIsTwoPasses` | spd/sd_eloquence.c:322-342 | all five loops are the collapse followed by the substitution |
| `Ssml.DecodeLeavesNoEntity` | spd/sd_eloquence.c:322-342 | none of the five entities is left, the text is no longer than before, and one without entities is unchanged |
| `Ssml.DecodeOfEscape` | spd/sd_eloquence.c:322-342 | decoding the escaped text is decoding the text |
| `Ssml.StripOfEscape` | spd/sd_eloquence.c:302-345 | the whole function on an escaped text gives the decoded text |
| `Ssml.StripUndoesEscapeIff` | spd/sd_eloquence.c:302-345 | it gives the text back exactly when that contains none of the five entities |
| `Ssml.KeptWithoutBrackets` | spd/sd_eloquence.c:308-320 | text without brackets passes the tag machine unchanged |
| `Ssml.OpenTagSwallowsRest` | spd/sd_eloquence.c:308-320 | an opening bracket never closed removes the rest |
| `Ssml.ClosedTagGoes` | spd/sd_eloquence.c:308-320 | a closed tag is taken out with all that stands in it, and the text goes on behind it |
| `Ssml.StrayBracketGoes` | spd/sd_eloquence.c:313-314 | a closing bracket outside a tag disappears |
| `Ssml.OpenTagEndsText` | spd/sd_eloquence.c:308-320 | from an opening bracket never closed nothing is kept |
| `Ssml.StripSsmlByCases` | spd/sd_eloquence.c:302-345 | so the whole function does not see closed tags, stray closing brackets and unclosed rests, and decodes text without brackets: taken from the left, these are all texts |
| `Ssml.StripSsml` | spd/sd_eloquence.c:302-345 | the tag loop and the five in-place loops on a terminated buffer implement this |
| `Ssml.EntityLoop` | spd/sd_eloquence.c:322-326 | strstr and memmove on the buffer rewrite until nothing is found, and end |
| `Ssml.RewriteInPlace` | spd/sd_eloquence.c:323-326 | one rewrite shortens the terminated text just there |
| `ElfVersions.FoldByParts` | sysroot/patch-glibc-versions.py:20-24 | the masked fold of the ELF hash as arithmetic |
| `ElfVersions.XorBits` | sysroot/patch-glibc-versions.py:22-23 | its exclusive or, bit by bit |
| `ElfVersions.NamesSpelledOut` | sysroot/patch-glibc-versions.py:28-37 | the version names in letters |
| `ElfVersions.ComputeElfHash` | sysroot/patch-glibc-versions.py:16-25 | the loop computes the hash, which stays below 2^28 |
| `ElfVersions.NewTailsHashDifferently` | sysroot/patch-glibc-versions.py:28-37 | no proper tail of the new version has its hash |
| `ElfVersions.NewHashIsNotOld` | sysroot/patch-glibc-versions.py:28-37 | the new version's hash is none of the old ones |
| `ElfStrings.OccurrencesAfter` | sysroot/patch-glibc-versions.py:140-150 | a pass removes the occurrences of its names, and neither makes nor breaks one of any other |
| `ElfStrings.NoOldNameLeft` | sysroot/patch-glibc-versions.py:125-152 | afterwards no old version string occurs anywhere, not even across the edge of a replacement |
| `ElfStrings.PassOrderIrrelevant` | sysroot/patch-glibc-versions.py:127-138 | any two orders of the same passes give the same bytes |
| `ElfStrings.RenamedIdempotent` | sysroot/patch-glibc-versions.py:125-152 | patching twice is patching once |
| `ElfStrings.RenamedCompose` | sysroot/patch-glibc-versions.py:140-150 | two rounds of patching are one for the names of both |
| `ElfStrings.ReplaceAll` | sysroot/patch-glibc-versions.py:140-150 | one find-and-replace loop renames every occurrence and counts them |
| `ElfStrings.PatchDynstrVersions` | sysroot/patch-glibc-versions.py:125-152 | the five passes rename all old names, keep the length and count the sites |
| `ElfHashes.WalkRemapsRecords` | sysroot/patch-glibc-versions.py:86-123 | the nested walk over records it is patching itself remaps the hash of every record once, changes no other byte, and counts the old hashes |
| `ElfHashes.WalkNeedCorrect` | sysroot/patch-glibc-versions.py:97-121 | so it does from any point of the outer list |
| `ElfHashes.WalkNeedIdle` | sysroot/patch-glibc-versions.py:86-123 | a walk over records none of whose hashes is an old one changes and counts nothing |
| `ElfHashes.PatchVerneedHashes` | sysroot/patch-glibc-versions.py:86-123 | the loops on the byte array do this walk, always end, and stop where unpacking would raise |
| `ElfRecords.WalkPatchesSection` | sysroot/patch-glibc-versions.py:97-121 | a section made of records, written field by field in structure order, is afterwards made of the same records, vn_cnt Vernaux to a Verneed or up to one that points nowhere, but for the old hashes, all of which are replaced and counted; no byte outside a hash changes |
| `ElfRecords.VisitedIsSection` | sysroot/patch-glibc-versions.py:97-121 | and every section the walk gets through is made of such records |
| `ElfRecords.PatchSection` | sysroot/patch-glibc-versions.py:86-123 | the patch on the byte array does that |
| `WireLayout.LittleEndian` | sysroot/patch-glibc-versions.py:99-105 | the file's words are least significant byte first |
| `ElfPatch.NameAfterPatch` | sysroot/patch-glibc-versions.py:125-152 | what the string patch makes of a name: an old ending becomes the new version |
| `ElfPatch.TailAfterPatch` | sysroot/patch-glibc-versions.py:125-152 | a name that is a tail of an old one, anywhere in the file, becomes the same tail of the new one, or nothing |
| `ElfPatch.PatchKeepsAgreement` | sysroot/patch-glibc-versions.py:86-152 | if every hash was that of its name, it is so afterwards exactly for the records whose hash is remapped to that of what becomes of their name, wherever the name starts |
| `ElfPatch.WholeNamesDecide` | sysroot/patch-glibc-versions.py:86-152 | for names that start inside no old one the name alone decides |
| `ElfPatch.OldAndUnrelatedNames` | sysroot/patch-glibc-versions.py:28-37 | which old versions are, and unrelated names are exactly when their hash is not by accident an old one |
| `ElfPatch.SuffixedNameDisagrees` | sysroot/patch-glibc-versions.py:127-138 | and longer names that end in an old version are not |
| `ElfPatch.SuffixedNameExists` | sysroot/patch-glibc-versions.py:127-138 | such as "XGLIBC_2.0", by the value of its hash |
| `ElfPatch.TailsDisagree` | sysroot/patch-glibc-versions.py:127-138 | a record whose name is a proper tail of an old version is wrong afterwards, for every tail of every old version; a tail that starts behind the ninth character becomes the empty name |
| `ElfPatch.HashesMakeNoName` | sysroot/patch-glibc-versions.py:86-123 | the hash patch makes no old version name appear anywhere |
| `ElfPatch.SecondRunFindsNothing` | sysroot/patch-glibc-versions.py:154-172 | after a run over a well laid out file no name and no hash is left to patch |
| `ElfPatch.PatchFile` | sysroot/patch-glibc-versions.py:154-172 | files that are not ELF stay as they are; of the others the finished bytes are the two patches in turn, reported with their counts; where nothing is left to patch, as on a second run, the file stays as it is |

## Left out

- Opening sockets, launching the bridge, polling for it, signals, process files and logging: input and output only.
- Connection failure and reconnection: the connection model ends where a channel breaks; handle numbers start again after a reconnect while the host's table persists.
- Memory exhaustion: allocations succeed, but for a negative size passed to calloc.
- The engine itself, and loading it: it appears as the choices `Read`, `Raise` and `Finish` leave open. A reply's result and trailing data are such choices too, so what `eciNew` returns is stated of the dispatch and not of the connection.
- The get and set calls beyond their signatures: each is one branch around one engine call.
- Dictionary and filter handles: the source does not delete them when a table is full or a client leaves, so nothing is conserved. Output buffers still allocated at disconnect are not modelled either.
- The bridge's `cb_write_lock`: with one engine callback at a time nobody ever waits for it.
- Data races: tables are read under the list's lock and written without it by their own client; the model takes dispatch steps as atomic.
- `find_section` and the ELF headers: its result is a parameter of the patcher.
- Console messages of the patcher, and writing the file.
- Clamps, voice tables, option and configuration parsing, the WAV header: one branch settles each.
- ProtocolGentle.GentleRunsAreInFull: a sufficient rule; the exact condition is in `ProtocolAudio.AudioIntactIff`.
- ProtocolGentle.StepAgrees: speaks of steps that keep to that rule.
- PcmBuffer.Pcm.Append: asks for a block no longer than the callback buffer, which the engine was told, and for no more than 2^30 samples in all, after which the capacity overflows an int.
- ElfPatch.PatchFile: takes the section's offset as `find_section` would return it.
- Endpoints.CallbackThread.Serve: copies only what lies in the message; announced lengths within 16 of 2^32, for which the source's check would also hold (`Protocol.CopyCheckIff`), come in no message of the bridge.
- Handshake.Acceptor.Accept: acknowledges and joins in one step, and stops before the client numbers run out.
- Events.BuildEvent: sample counts whose double leaves 32 bits are excluded, as such an event does not fit a message.
