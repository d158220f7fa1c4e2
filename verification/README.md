# Verified model of the display framework

The display framework is a set of C and C++ components around a Wayland compositor: a helper that
keeps the compositor's connectors and outputs and carries out mode switches, a JSON-over-socket
server that helper is driven through, a framebuffer surface, two sample clients with buffer
protocols of their own, and the choice of a display mode. This project models the parts that keep
real state and proves what they promise.

Each part has two layers where the source changes things in place: a class with the source's own
fields, links and loops, and functions on plain values that its methods are proved against. The
main results are lemmas about those functions, for every input, every run or every interleaving.

| Files | What they model |
|---|---|
| OutputSlots, OutputRuns, OutputHistory, OutputList | the compositor output list: five passes that find, de-duplicate, place, shrink and promote |
| ConnectorSlots, ConnectorHistory, ConnectorList | the connector list and the property writes that wait for a flush |
| TaskRing, SetMode | the ring of deferred tasks and "set mode" from message to mode switch |
| Decimal, Scanf, ModeString | the mode string parser and the format it is documented to read |
| Framing, Streams, RequestReader | JSON messages read from a stream into a growing buffer |
| ClientTable, IpcServer | the client table of the server loop |
| Shutdown | server thread and destroyer, every interleaving |
| BlitGeometry, FbSurface | the clipped blit and the page flipping |
| Json, ModesReply, ModesLists, ModesTransport | the reply to "get modes", written by the server, read from the socket and decoded by the client |
| Options, Machine | what the parts share |
| EglBuffers, EglWindow | buffers, release objects and fences of the explicit-sync sample |
| V4lCapture | capture buffers between driver queue and compositor |
| AutoMode | the automatic mode selection |

## Where the code does less than expected

These are properties of the code as it is; the model keeps each of them.

- Promotion in the output list leaves the tail's back link on the freed node
  (compositor-drm-help.c:914-921). `OutputSlots.UpdateCorrect` gives the exact condition under
  which one update goes through, `OutputHistory.RunKnown` the one for a whole run, told from the
  calls alone, and `OutputRuns.RunCanGoWrong` five calls after which it does not.
- Promotion copies the size of the smaller struct, so a promoted output comes out disabled
  (`OutputRuns.ExchangeFlags`).
- An update that replaces a listed connector by another listed one puts it in twice
  (`ConnectorHistory.DistinctKept`).
- Connector keys are cut to four digits, so longer ids can share a key
  (`ModesReply.RoundTrip`, `ModesReply.LongIdsCollide`).
- A destroyer that reads INITED, being faster than the server thread, stops nothing and never
  returns; one that reads LISTENING returns if its wake-up connection is made
  (`Shutdown.ReturnsIffListening`, `Shutdown.CanReadInited`, `Shutdown.ReturnsInTime`).
- With one surface every blit writes the page on display (`FbSurface.DisplayedPageUntouched`).
- If the parser took no bytes for a message, a peer that closes at once would be answered with a
  message and a return value of 0 (`Framing.PositiveIffParsed`).
- A lost capture buffer lets a redraw wait for a driver that holds nothing
  (`V4lCapture.CheckMeans`).
- The selected mode index is used even when nothing was selected (`AutoMode.NothingSelected`); the
  cap is not held against modes without an area.
- A mode string with nothing but white space in place of a height is accepted with height 0;
  `ModeString.AcceptedIff` says exactly which strings are accepted.
- Bytes read behind the end of a message go with its buffer (`Streams.NextMessageKept`).
- A reply that does not fit into the client's buffer leaves it with an empty list
  (`ModesTransport.ReplyUnderstood`).

## Model

| member | source | states |
|---|---|---|
| OutputSlots.UpdateCorrect | display_framework/src/extension/weston-6.0/compositor-drm-help.c:815-926 | One call of the five-pass update, on every well-formed list of distinct outputs: it goes through if and only if the node it unlinks, if any, has a back link that names its predecessor; then the list is well formed again (no gap, one empty tail, the head empty only without outputs) and its entries are exactly the documented exchange, computed on entries alone; all back links stay good if and only if no output was promoted into the head |
| OutputSlots.FinishDrop | display_framework/src/extension/weston-6.0/compositor-drm-help.c:892-921 | Shrinking and promoting after one slot was emptied removes that entry and no other; the last output takes the place of an emptied head, disabled; exact condition on the back link |
| OutputSlots.ShrinkOne | display_framework/src/extension/weston-6.0/compositor-drm-help.c:896-911 | The shrink pass unlinks the one empty inner slot, or follows a stale back link |
| OutputRuns.ExchangeOutputs | display_framework/src/extension/weston-6.0/compositor-drm-help.c:815-926 | After an update the registered outputs are the old ones without `older` and with `newer`, each once, and `newer` is disabled: older absent, newer present elsewhere, and both present included |
| OutputRuns.ExchangeFlags | display_framework/src/extension/weston-6.0/compositor-drm-help.c:847-921 | An output that stays keeps its enable flag, except `newer` itself and the output promoted into the head, which both come out disabled |
| OutputRuns.SwitchCorrect | display_framework/src/extension/weston-6.0/compositor-drm-help.c:928-942 | A switch changes the flag of the named output, if registered, and nothing else |
| OutputRuns.RunWellFormed | display_framework/src/extension/weston-6.0/compositor-drm-help.c:815-942 | Over every run of updates and switches, as far as it goes: outputs without gaps, one empty tail, the head empty only without outputs, each output once, and only slots that hold an output are enabled |
| OutputHistory.RunOutputs | display_framework/src/extension/weston-6.0/compositor-drm-help.c:815-926 | Over every run, failing allocations included, the list holds exactly the outputs that the callers registered and did not take back; a new output is left out exactly when memory fails and the list has no free head |
| OutputRuns.RunGoesOn | display_framework/src/extension/weston-6.0/compositor-drm-help.c:899-921 | A run goes on with the next call if and only if that call unlinks no node whose back link names a freed one, read off the list |
| OutputHistory.RunKnown | display_framework/src/extension/weston-6.0/compositor-drm-help.c:815-942 | Over every run, told from the calls alone: the run goes through if and only if no call takes out an output whose node the calls before it left with a stale back link; the entries, their flags, and which nodes have a stale back link are then exactly those the calls tell |
| OutputHistory.UpdateMatches | display_framework/src/extension/weston-6.0/compositor-drm-help.c:815-926 | One update, told from the entries and stale marks: when it follows a freed node, and what entries and marks it leaves |
| OutputRuns.RunWithoutPromotion | display_framework/src/extension/weston-6.0/compositor-drm-help.c:914-921 | A run in which no output is promoted never follows a freed node and keeps every back link |
| OutputRuns.RunCanGoWrong | display_framework/src/extension/weston-6.0/compositor-drm-help.c:914-921 | Five concrete calls after which the code has followed a freed node: register two outputs, remove the first, register a third, remove the head again |
| OutputList.CompositorOutputs.FindSlot | display_framework/src/extension/weston-6.0/compositor-drm-help.c:826-842 | The first pass finds the first slot that holds the output to replace |
| OutputList.CompositorOutputs.ClearDuplicates | display_framework/src/extension/weston-6.0/compositor-drm-help.c:844-858 | The second pass empties every other slot that holds the newer output |
| OutputList.CompositorOutputs.PlaceNewer | display_framework/src/extension/weston-6.0/compositor-drm-help.c:859-891 | The third and fourth pass write the newer output to the chosen slot, the first empty one, or the tail, behind which a fresh tail is linked; only a failed calloc leaves it out |
| OutputList.CompositorOutputs.ShrinkEmpty | display_framework/src/extension/weston-6.0/compositor-drm-help.c:892-912 | The fifth pass on the linked nodes: unlinks and frees every empty inner node, each once, or reports the first stale back link |
| OutputList.CompositorOutputs.MoveToHead | display_framework/src/extension/weston-6.0/compositor-drm-help.c:914-921 | The copy of the last node into the head by the smaller struct size: the links are right again, the flag of the head stays, and the tail keeps naming the freed node |
| OutputList.CompositorOutputs.UpdateOutput | display_framework/src/extension/weston-6.0/compositor-drm-help.c:815-926 | The whole update on the heap: the acyclic linked list afterwards holds the documented entries; it follows a freed node if and only if the node to unlink has a stale back link |
| OutputList.CompositorOutputs.SwitchOutput | display_framework/src/extension/weston-6.0/compositor-drm-help.c:928-942 | The switch on the heap: the flag of the first slot with the output, links untouched |
| ConnectorItems.AppendRefines | display_framework/src/extension/weston-6.0/compositor-drm-help.c:638-662 | Append on slots is append-if-absent on the plain sequence; pending writes of a connector already listed stay |
| ConnectorItems.ReplaceRefines | display_framework/src/extension/weston-6.0/compositor-drm-help.c:664-686 | Update on slots is replace-first-or-append, with nothing pending for a connector just put in |
| ConnectorItems.DeleteRefines | display_framework/src/extension/weston-6.0/compositor-drm-help.c:719-741 | Delete on slots is remove-first, whether the head becomes a hole or the node is unlinked |
| ConnectorItems.SetRefines | display_framework/src/extension/weston-6.0/compositor-drm-help.c:489-508 | Setting a property marks every listed HDMI connector and no other |
| ConnectorItems.FlushRefines | display_framework/src/extension/weston-6.0/compositor-drm-help.c:756-781 | A flush clears every pending write of a listed connector and changes nothing else |
| ConnectorItems.RefreshRefines | display_framework/src/extension/weston-6.0/compositor-drm-help.c:159-164 | "get modes" refreshes the property ids of every listed connector and changes no pending write |
| ConnectorHistory.RunRefines | display_framework/src/extension/weston-6.0/compositor-drm-help.c:638-781 | Over every run of appends, updates, deletes, sets, flushes and "get modes" the linked slots stand for the plain sequence |
| ConnectorHistory.DistinctKept | display_framework/src/extension/weston-6.0/compositor-drm-help.c:664-686 | Distinct connectors stay distinct if and only if the call is not an update that replaces a listed connector by another listed one |
| ConnectorHistory.RunDistinct | display_framework/src/extension/weston-6.0/compositor-drm-help.c:638-741 | Over every run without such a call no connector is listed twice |
| ConnectorHistory.RunAgrees | display_framework/src/extension/weston-6.0/compositor-drm-help.c:225-258 | Over every such run the listed connectors are those put in and not taken out; each waits, per property, for exactly the last value set since it was put in or last flushed; and each property has the last id that DRM answered for it since the connector was put in. All three are told from the calls alone |
| ConnectorHistory.FlushAsksForOwed | display_framework/src/extension/weston-6.0/compositor-drm-help.c:756-781 | One flush asks, in list order, for exactly one write per listed HDMI connector and property set since that connector was put in or last flushed, with the last value set and with the last id that DRM answered for that very property; connector id, property id and value are all told from the calls alone |
| ConnectorHistory.SecondFlushEmpty | display_framework/src/extension/weston-6.0/compositor-drm-help.c:756-781 | A second flush with no set in between asks for nothing, whatever the list holds |
| ConnectorHistory.NonHdmiNeverPending | display_framework/src/extension/weston-6.0/compositor-drm-help.c:260-267 | Over every run a connector that is not HDMI never has a pending write |
| ConnectorList.Connectors.AppendConnector | display_framework/src/extension/weston-6.0/compositor-drm-help.c:638-662 | Append on the heap: doubly linked, acyclic, one empty tail, and the slots are those of the specification |
| ConnectorList.Connectors.UpdateConnector | display_framework/src/extension/weston-6.0/compositor-drm-help.c:664-686 | Update on the heap |
| ConnectorList.Connectors.DeleteConnector | display_framework/src/extension/weston-6.0/compositor-drm-help.c:719-741 | Delete on the heap: the neighbours are linked to each other, or the head becomes a hole |
| ConnectorList.Connectors.SetProperty | display_framework/src/extension/weston-6.0/compositor-drm-help.c:497-508 | The loop over the connectors that marks one property |
| ConnectorList.Connectors.SetProperties | display_framework/src/extension/weston-6.0/compositor-drm-help.c:478-513 | The whole message: every known name with a readable value, in message order |
| ConnectorList.SetManyNamed | display_framework/src/extension/weston-6.0/compositor-drm-help.c:478-513 | A message leaves, for each of "Content Protection", "Color Depth" and "Color Space" on each listed connector of type 11 or 12, the last readable value under that name to be written, and everything else as it was |
| ConnectorList.Connectors.RefreshProperties | display_framework/src/extension/weston-6.0/compositor-drm-help.c:463-470 | The loop of "get modes" over the list, as far as it changes it |
| ConnectorList.Connectors.AddProperties | display_framework/src/extension/weston-6.0/compositor-drm-help.c:756-781 | The flush on the heap: the requests made, in order, the cleared flags, and -1 if and only if some request is refused |
| TaskRing.TaskQueue.Schedule | display_framework/src/extension/weston-6.0/compositor-drm-help.c:334-349 | The ring as a FIFO of capacity 9 whose dead slots are null: enqueues unless full or the copy fails |
| TaskRing.TaskQueue.HaveTask | display_framework/src/extension/weston-6.0/compositor-drm-help.c:352-354 | True if and only if a task waits |
| TaskRing.TaskQueue.GetTask | display_framework/src/extension/weston-6.0/compositor-drm-help.c:356-366 | Takes the oldest task and leaves its slot null |
| SetMode.SwitchEnabled | display_framework/src/extension/weston-6.0/compositor-drm-help.c:384-392 | The switch goes to every enabled output, each once, in list order; the assertion on the entry holds |
| SetMode.ProcessTask | display_framework/src/extension/weston-6.0/compositor-drm-help.c:368-402 | A task that passed the parser never reaches a failing assertion or the parse-failure branch, and makes exactly the calls for the enabled outputs, or for the legacy output if none is registered |
| SetMode.RepaintCompleted | display_framework/src/extension/weston-6.0/compositor-drm-help.c:783-797 | The drain ends with the queue empty, having executed all waiting tasks in order |
| SetMode.HandleMessage | display_framework/src/extension/weston-6.0/compositor-drm-help.c:428-458 | A "set mode" message: an accepted one whose copy succeeds and finds a place is executed behind those that waited and leaves the queue empty; the refreshes follow an accepted one; a refused one changes nothing; the answer is 0 if and only if the message was executed, and -1 otherwise |
| SetMode.ExecutedOnceInOrder | display_framework/src/extension/weston-6.0/compositor-drm-help.c:428-457 | Over every run of messages and repaint cycles each accepted "set mode" whose deep copy succeeds is executed exactly once, in arrival order, and the queue is empty after every event, so no message finds it full |
| SetMode.ServeEvent | display_framework/src/extension/weston-6.0/compositor-drm-help.c:428-458 | One event on the real ring is one step of that run: the queue and the executed tasks afterwards, and the calls made |
| SetMode.ServeAll | display_framework/src/extension/weston-6.0/compositor-drm-help.c:428-458 | A whole run on the real ring: it ends empty, exactly the taken messages were executed, in order, and exactly their calls and the refreshes of the accepted messages were made; DocumentedTold and OthersTellNothing say what these calls carry |
| SetMode.LegacyOnlyWithoutOutputs | display_framework/src/extension/weston-6.0/compositor-drm-help.c:383-396 | The legacy output is told if no output is registered; otherwise exactly the enabled registered outputs are |
| SetMode.EnabledAreEntries | display_framework/src/extension/weston-6.0/compositor-drm-help.c:384-392 | The outputs told are exactly the enabled registered ones |
| SetMode.EnabledKept | display_framework/src/extension/weston-6.0/compositor-drm-help.c:384-392 | One more entry adds its output at the end if it is enabled, and nothing otherwise |
| SetMode.TaskTells | display_framework/src/extension/weston-6.0/compositor-drm-help.c:381-396 | An executed task makes exactly one switch call per recipient, in order, with the mode its text is parsed to, and none without the hook; the recipients are the enabled entries, or the legacy output if there is no entry |
| SetMode.RefreshTells | display_framework/src/extension/weston-6.0/compositor-drm-help.c:442-451 | An accepted message asks each enabled entry once for a refresh, in order, and never the legacy output; none without the hook |
| SetMode.DocumentedTold | display_framework/src/extension/weston-6.0/compositor-drm-help.c:381-393 | At any point of a run, a "set mode" message in the documented format adds exactly: one switch call per recipient with the width, height, letter, rate and ratio of the text, if its copy succeeds and the hook is there; then one refresh per enabled entry, if that hook is there |
| SetMode.OthersTellNothing | display_framework/src/extension/weston-6.0/compositor-drm-help.c:428-458 | Any other command, a missing or refused mode string and a repaint cycle add no call |
| ModeString.ParseModestring | display_framework/src/extension/weston-6.0/compositor-drm-help.c:270-332 | The parser as one function of the string |
| ModeString.ReadFlags | display_framework/src/extension/weston-6.0/compositor-drm-help.c:306-319 | The loop over the letters: interlaced if and only if an i is among them, doubled if and only if a d is |
| ModeString.ParseUndoesDocumented | display_framework/src/extension/weston-6.0/client/drm-help-client.h:88-90 | For all non-negative 32-bit sizes and rates, any letter, with or without a rate and with any of the four aspect ratios, parsing the documented format gives back exactly those values |
| ModeString.ParseNumbers | display_framework/src/extension/weston-6.0/compositor-drm-help.c:282-294 | WxH[i/d]@R A:B is accepted for any A and B, with the values of the text and the ratio that ParseRatio spells out |
| ModeString.ParseRatio | display_framework/src/extension/weston-6.0/compositor-drm-help.c:279-294 | For all A and B the text is accepted, and its ratio is 4:3, 16:9, 64:27 or 256:135 if and only if A and B are those numbers; any other pair gives none |
| ModeString.ParseLetters | display_framework/src/extension/weston-6.0/compositor-drm-help.c:301-319 | Any letters may follow the height: interlaced if and only if an i is among them, doubled if and only if a d is; the others are skipped |
| ModeString.ParseSigned | display_framework/src/extension/weston-6.0/compositor-drm-help.c:282 | A width is read with its sign |
| ModeString.NoDenominator | display_framework/src/extension/weston-6.0/compositor-drm-help.c:295-300 | An aspect numerator without a denominator is refused, with or without the colon |
| ModeString.HeightFound | display_framework/src/extension/weston-6.0/compositor-drm-help.c:301-305 | The second scan refuses a text if and only if it neither starts with a number nor is nothing but white space |
| ModeString.AcceptedIff | display_framework/src/extension/weston-6.0/compositor-drm-help.c:282-305 | Whatever stands between the x and the first '@' or the end: the string is accepted if and only if that text starts with a number or is nothing but white space, and what follows converts to none, one or three numbers; without a number the height is 0 |
| ModeString.AcceptedWithRate | display_framework/src/extension/weston-6.0/compositor-drm-help.c:282-305 | So without a rate, or with one, the text before the '@' decides alone |
| ModeString.NothingRefused | display_framework/src/extension/weston-6.0/compositor-drm-help.c:295-300 | Nothing between the x and the '@', or the end, is refused |
| ModeString.BlankHeight | display_framework/src/extension/weston-6.0/compositor-drm-help.c:301-305 | The witness: a height of one blank is accepted as 0 |
| Framing.FillTakes | display_framework/src/ipc/ipc.c:133-151 | Reading and parsing inside one growth step: the buffer holds what came before plus the next bytes of the stream, in order |
| Framing.GrowTakes | display_framework/src/ipc/ipc.c:161-178 | The same over all growth steps |
| Framing.GrowBounded | display_framework/src/ipc/ipc.c:155-172 | The bytes read never exceed the room of the growth steps |
| Framing.RequestSound | display_framework/src/ipc/ipc.c:154-192 | The buffer holds exactly the first bytes of the stream, at most 3 MiB of them; a message is what the parser makes of them; the returned value is positive if and only if there is a parsed message |
| Framing.PositiveIffParsed | display_framework/src/ipc/ipc.c:181-189 | That equivalence holds for every stream if and only if the parser finds nothing in no bytes |
| Framing.FragmentationInvariant | display_framework/src/ipc/ipc.c:133-192 | For every way the reads cut up a stream that carries one message, none of whose proper prefixes parses, and for every growth step, the answer is that message |
| Streams.AnsweredIffFits | display_framework/src/ipc/ipc.c:154-192 | However the reads cut up a stream that carries one message, that message is the answer if and only if it fits into the growth steps; otherwise the answer is the empty object and -1 |
| Streams.NextMessageKept | display_framework/src/ipc/ipc.c:133-192 | A message in front of a longer stream is answered all the same; what follows it is still to come if and only if an arrival or a growth step ends where the message ends, and is otherwise lost in part or whole with the buffer |
| Streams.NoMessage | display_framework/src/ipc/ipc.c:133-192 | A stream without a message is answered with the empty object, however the reads cut it up: 0 if and only if the peer ended the stream before the room that memory allowed was filled, and -1 if it broke or filled it; the bytes read are told as well |
| RequestReader.Socket.ReadInto | display_framework/src/ipc/ipc.c:91-102 | A read writes what arrives at its place in the buffer and nothing else |
| RequestReader.ReadAndCheckComplete | display_framework/src/ipc/ipc.c:133-151 | The inner loop on the buffer |
| RequestReader.ReadRequest | display_framework/src/ipc/ipc.c:154-192 | The outer loop with the growing buffer; the message is what the parser makes of a prefix of the stream |
| ClientTable.AcceptKeeps | display_framework/src/ipc/ipc.c:251-257 | Accepting keeps the table: distinct clients, the watched set is the listening descriptor and the clients, max_fd is its maximum |
| ClientTable.CloseKeeps | display_framework/src/ipc/ipc.c:264-286 | Closing keeps it, and takes out exactly that descriptor |
| ClientTable.PassKeeps | display_framework/src/ipc/ipc.c:246-305 | Every table of a pass is valid, and a descriptor whose turn is still to come is still registered, even when accept reuses a number closed earlier in the pass |
| ClientTable.PassReachesAll | display_framework/src/ipc/ipc.c:239-246 | max_fd bounds the pass so that every reported descriptor gets its turn |
| ClientTable.PassRegistered | display_framework/src/ipc/ipc.c:246-305 | After a pass the watched descriptors are those before, without the closed ones, with the accepted one |
| ClientTable.RoundsRegistered | display_framework/src/ipc/ipc.c:236-306 | Over every run of passes the table stays valid, and the watched descriptors are the listening one and exactly the clients accepted and not closed since, however numbers are reused |
| ClientTable.PassDispatches | display_framework/src/ipc/ipc.c:246-305 | A pass hands the handler the message of every reported client that sent one, each once, in the order of their descriptors, and nothing else |
| ClientTable.NoDispatchAfterClose | display_framework/src/ipc/ipc.c:261-303 | If a message comes only with a positive return value, no client closed in a step has a message dispatched in it |
| ClientTable.ReplyHasReceiver | display_framework/src/ipc/ipc.c:287-298 | The same for the answers read_request really gives, whatever the clients send: the branch without a receiver is unreachable |
| IpcServer.Server.constructor | display_framework/src/ipc/ipc.c:200-224 | The table of a fresh server: the listening descriptor alone |
| IpcServer.Server.AddClient | display_framework/src/ipc/ipc.c:251-257 | The accept branch on the arrays |
| IpcServer.Server.RemoveClient | display_framework/src/ipc/ipc.c:264-286 | The close branch on the arrays |
| IpcServer.Server.Sweep | display_framework/src/ipc/ipc.c:272-281 | One loop both swaps the last client into the free slot and recomputes the maximum, although the count shrinks under it |
| IpcServer.Server.ServePass | display_framework/src/ipc/ipc.c:239-305 | A whole pass over the reported descriptors, its bound read before it |
| IpcServer.Server.ServeRounds | display_framework/src/ipc/ipc.c:236-306 | The server loop on the arrays, pass after pass |
| IpcServer.Server.CloseAll | display_framework/src/ipc/ipc.c:308-312 | The end of the thread: no client left |
| Shutdown.RunSafe | display_framework/src/ipc/ipc.c:228-247 | The invariant of thread, destroyer, status and wake-up connection in every interleaving |
| Shutdown.StatusForward | display_framework/src/ipc/ipc.h:42-48 | In every interleaving the status moves forward one value at a time |
| Shutdown.FreedAfterLastAccess | display_framework/src/ipc/ipc.c:390-425 | In every interleaving the context is freed only once the thread has written STOPED and can make no further access |
| Shutdown.ReturnsOnlyIfItSawListening | display_framework/src/ipc/ipc.c:391-418 | A destroyer that has returned read LISTENING, and one that read INITED stands at the socket or in the join |
| Shutdown.ReturnsIffListening | display_framework/src/ipc/ipc.c:391-418 | What the destroyer reads decides: from then on some interleaving lets it return if and only if it read LISTENING; the only other value is INITED |
| Shutdown.NeverReturns | display_framework/src/ipc/ipc.c:391-418 | A destroyer that read INITED returns in no interleaving |
| Shutdown.CanReadInited | display_framework/src/ipc/ipc.c:391-394 | A run in which it reads INITED |
| Shutdown.ReturnsInTime | display_framework/src/ipc/ipc.c:395-420 | A destroyer that read LISTENING and whose wake-up connection was made returns in every interleaving: after as many thread steps as descriptors are left in the pass, plus a constant, and then at most five of its own steps |
| Shutdown.DestroyerRank | display_framework/src/ipc/ipc.c:405-420 | After STOPED every step of the destroyer brings it one nearer to its return |
| Shutdown.DestroyerGoesOn | display_framework/src/ipc/ipc.c:405-420 | After STOPED the destroyer is never blocked before it has returned |
| Shutdown.NeverBlocked | display_framework/src/ipc/ipc.c:236-247 | Once the wake-up connection is made the thread is never blocked before it is through |
| Shutdown.StopsInTime | display_framework/src/ipc/ipc.c:246-314 | Then it writes STOPED after at most as many of its steps as descriptors are left in the current pass, plus a constant, in every interleaving |
| Shutdown.ReachesStopped | display_framework/src/ipc/ipc.c:228-314 | The same for every run from the start |
| Shutdown.CanBlockUnwoken | display_framework/src/ipc/ipc.c:399-403 | A run in which the wake-up connection fails and the thread stays blocked in select |
| FbSurface.BlitPixel | display_framework/src/extension/FBsurface/hwalFBSurface.cpp:326-362 | A blit replaces exactly the bytes of the clipped rectangle on its page, each by the matching byte of the image; every other byte of every page stays |
| FbSurface.BlitBytes | display_framework/src/extension/FBsurface/hwalFBSurface.cpp:326-362 | The same in plain numbers of the call: position, size, pixel width and page |
| FbSurface.ClipFits | display_framework/src/extension/FBsurface/hwalFBSurface.cpp:326-333 | Every row copy stays inside the image and the mapped memory |
| FbSurface.Addresses | display_framework/src/extension/FBsurface/hwalFBSurface.cpp:359-361 | The byte addresses that the code computes are the row starts of the clipped rectangle |
| FbSurface.PagesAlternate | display_framework/src/extension/FBsurface/hwalFBSurface.cpp:334-370 | Over every run, failing pans included, the successful blits show page 0 and 1 in turn and mCurSurface names the page on display |
| FbSurface.ShowsWhatItWrote | display_framework/src/extension/FBsurface/hwalFBSurface.cpp:334-370 | After every run, with any number of surfaces, a blit whose pan succeeds puts the page that it wrote on display, the first blit included |
| FbSurface.BlitShown | display_framework/src/extension/FBsurface/hwalFBSurface.cpp:334-370 | So the rows then on display hold the image, cut off at the edges of the screen, and around it what the page held before |
| FbSurface.DisplayedPageUntouched | display_framework/src/extension/FBsurface/hwalFBSurface.cpp:334-370 | Once a blit has succeeded no blit is aimed at the page on display, if and only if there are at least two surfaces |
| FbSurface.DisplayedBytesStay | display_framework/src/extension/FBsurface/hwalFBSurface.cpp:334-370 | Then, whatever is copied, no byte of the page on display changes |
| FbSurface.Surface.constructor | display_framework/src/extension/FBsurface/hwalFBSurface.cpp:43-63 | A surface with no page on display of its own yet |
| FbSurface.Surface.ChoosePage | display_framework/src/extension/FBsurface/hwalFBSurface.cpp:317-356 | The page to write and the row to pan to |
| FbSurface.Surface.CopyImage | display_framework/src/extension/FBsurface/hwalFBSurface.cpp:357-362 | The row loop on the memory |
| FbSurface.Surface.BlitImage | display_framework/src/extension/FBsurface/hwalFBSurface.cpp:304-375 | The whole call: its error cases, the copied memory, and the page state for a pan that succeeds or fails |
| BlitGeometry.RowsPixel | display_framework/src/extension/FBsurface/hwalFBSurface.cpp:357-362 | After n row copies exactly the first n rows of the rectangle are replaced |
| ModesReply.ModeRoundTrip | display_framework/src/extension/weston-6.0/client/drm-help-client.c:13-28 | One mode as the server writes it is read back with its name, and its hdisplay, vdisplay and vrefresh as width, height and refresh |
| ModesReply.NameCut | display_framework/src/extension/weston-6.0/client/drm-help-client.c:18-19 | A name is read back whole if it is shorter than 32 bytes, and cut to its first 32 otherwise |
| ModesReply.ModeWritten | display_framework/src/extension/weston-6.0/compositor-drm-help.c:182-196 | Each of the 13 fields of a mode is written under its own name |
| ModesReply.NumbersWritten | display_framework/src/extension/weston-6.0/compositor-drm-help.c:162-177 | Properties and encoders are written with their count and, up to 10^7 of them, each under its number |
| ModesReply.NumberedDistinct | display_framework/src/extension/weston-6.0/compositor-drm-help.c:179-198 | The printed numbers of elements, cut to 7 characters, are distinct if and only if there are at most 10^7 |
| ModesReply.ConnectionRoundTrip | display_framework/src/extension/weston-6.0/compositor-drm-help.c:148-201 | One connector is read back with all its numbers and modes if and only if it has at most 10^7 modes |
| ModesReply.ConnectionRead | display_framework/src/extension/weston-6.0/client/drm-help-client.c:156-183 | Then each value the client holds is the one of the connector, field by field and mode by mode |
| ModesReply.RoundTrip | display_framework/src/extension/weston-6.0/client/drm-help-client.c:142-190 | The client reads back every live connector, in order, with every mode, if and only if the printed connector keys are distinct and no connector has more than 10^7 modes |
| ModesReply.SeenInOrder | display_framework/src/extension/weston-6.0/compositor-drm-help.c:463-470 | What the client is to see: one more connector adds itself at the end, and a hole nothing |
| ModesReply.ModesEnd | display_framework/src/extension/weston-6.0/client/drm-help-client.c:172-182 | Reading ends at the first mode without a name, whatever follows it |
| ModesReply.ConnectionsEnd | display_framework/src/extension/weston-6.0/client/drm-help-client.c:168-171 | Reading ends behind the first connection without modes, which is still part of the list |
| ModesReply.SmallIdsDistinct | display_framework/src/extension/weston-6.0/compositor-drm-help.c:461-469 | Distinct ids of at most four digits have distinct keys |
| ModesReply.RoundTripSmallIds | display_framework/src/extension/weston-6.0/compositor-drm-help.c:459-473 | So with such ids the client reads back everything |
| ModesReply.LongIdsCollide | display_framework/src/extension/weston-6.0/compositor-drm-help.c:461-469 | Five-digit ids that differ in the last digit share a key, and a connector is lost |
| ModesLists.GetModes | display_framework/src/extension/weston-6.0/compositor-drm-help.c:463-471 | The loop of the reply over the connector list |
| ModesLists.DumpElements | display_framework/src/extension/weston-6.0/compositor-drm-help.c:181-198 | The element loops of one connector |
| ModesLists.ReadModes | display_framework/src/extension/weston-6.0/client/drm-help-client.c:165-183 | The inner loop with its moving pointer: the linked modes are the decoded ones, and a node that cannot be filled is freed and unlinked |
| ModesLists.ConnectionList.Read | display_framework/src/extension/weston-6.0/client/drm-help-client.c:149-185 | One turn of the outer loop appends the decoded connection |
| ModesLists.DumpModes | display_framework/src/extension/weston-6.0/client/drm-help-client.c:142-190 | The linked list stands for the decoded reply; a connection without modes ends it and stays |
| ModesLists.DumpReply | display_framework/src/extension/weston-6.0/client/drm-help-client.c:142-190 | Both ends on the reply as a value, without the socket: the client list holds every live connector with every mode if and only if the keys are distinct and no connector has more than 10^7 modes |
| ModesTransport.ReplyUnderstood | display_framework/src/extension/weston-6.0/client/drm-help-client.c:113-133 | However the reads cut up the text of the reply: the client understands every live connector with every mode if and only if the text fits into its buffer, the keys are distinct and no connector has more than 10^7 modes, or there is no connector; a reply that does not fit leaves it with nothing |
| ModesTransport.GetConnections | display_framework/src/extension/weston-6.0/client/drm-help-client.c:113-194 | The same for the linked list that the client holds once it has read its socket |
| ModesLists.FreeModes | display_framework/src/extension/weston-6.0/client/drm-help-client.c:248-253 | Every node of the list is freed, none twice |
| Json.AddAllCollides | display_framework/src/extension/weston-6.0/compositor-drm-help.c:165-199 | Adding members under keys that are not distinct loses at least one of them |
| Json.LastAdded | display_framework/src/extension/weston-6.0/compositor-drm-help.c:459-473 | Under each key stands the value that was added last, whatever keys collide |
| Decimal.NumeralInjective | display_framework/src/extension/weston-6.0/compositor-drm-help.c:166-196 | Different numbers are printed differently |
| Decimal.PrintedInjective | display_framework/src/extension/weston-6.0/compositor-drm-help.c:461-469 | And so are different integers, negative ones included |
| EglBuffers.StepSound | display_framework/src/samples/weston/simple-dmabuf-egl-yuv-on-osd.c:853-963 | One redraw, release event or teardown keeps the protocol sound |
| EglBuffers.RunSound | display_framework/src/samples/weston/simple-dmabuf-egl-yuv-on-osd.c:853-963 | For every order of redraws, release events and the teardown: no assertion of a release handler fails, a buffer is busy exactly when it holds a release object, a busy buffer holds no fence, the live release objects are exactly those the buffers hold, and each fence received is in exactly one place: given to EGL, closed, or held |
| EglBuffers.ReleasedSound | display_framework/src/samples/weston/simple-dmabuf-egl-yuv-on-osd.c:853-882 | A release event finds the buffer that waits for it, without a fence |
| EglBuffers.TeardownLeavesNothing | display_framework/src/samples/weston/simple-dmabuf-egl-yuv-on-osd.c:594-608 | After the teardown no release object is live and each fence received was given to EGL or closed, once |
| EglBuffers.NoBufferIff | display_framework/src/samples/weston/simple-dmabuf-egl-yuv-on-osd.c:724-734 | A redraw finds no buffer if and only if each of the three waits for a release event |
| EglBuffers.RedrawWithoutBuffer | display_framework/src/samples/weston/simple-dmabuf-egl-yuv-on-osd.c:917-931 | With all three buffers waiting for a release a redraw aborts and changes nothing else |
| EglBuffers.RedrawDoes | display_framework/src/samples/weston/simple-dmabuf-egl-yuv-on-osd.c:917-963 | Otherwise, with the first buffer that is not busy: a redraw aborts if and only if the acquire fence fails or the buffer holds a fence that cannot be imported or waited for; if not, that buffer becomes busy with the newest release object and without a fence; the fence it held is the last one given to EGL unless the import failed; the other buffers stay |
| EglBuffers.ReleaseDoes | display_framework/src/samples/weston/simple-dmabuf-egl-yuv-on-osd.c:853-882 | A release event frees the one buffer that waits for it, with the newest fence or none; the other buffers, release objects and fences stay |
| EglWindow.Window.Next | display_framework/src/samples/weston/simple-dmabuf-egl-yuv-on-osd.c:724-734 | The first buffer that is not busy |
| EglWindow.Window.Wait | display_framework/src/samples/weston/simple-dmabuf-egl-yuv-on-osd.c:888-915 | The fence goes to EGL and the buffer forgets it, unless the import fails |
| EglWindow.Window.Redraw | display_framework/src/samples/weston/simple-dmabuf-egl-yuv-on-osd.c:917-963 | The whole redraw on the buffers, with every way it can abort |
| EglWindow.Window.HandleRelease | display_framework/src/samples/weston/simple-dmabuf-egl-yuv-on-osd.c:853-882 | Both release handlers, with their assertions |
| EglWindow.Window.Free | display_framework/src/samples/weston/simple-dmabuf-egl-yuv-on-osd.c:150-182 | Teardown of one buffer |
| EglWindow.Window.Destroy | display_framework/src/samples/weston/simple-dmabuf-egl-yuv-on-osd.c:605-608 | The teardown loop |
| V4lCapture.RunOwned | display_framework/src/samples/weston/simple-dmabuf-v4l.c:634-675 | Over every run, whatever fails, each buffer has one owner: no buffer is both queued and held by the compositor, and the assertion after the dequeue never fires |
| V4lCapture.RunKeepsAll | display_framework/src/samples/weston/simple-dmabuf-v4l.c:121-172 | While no call fails, the driver and the compositor together hold every buffer |
| V4lCapture.CheckMeans | display_framework/src/samples/weston/simple-dmabuf-v4l.c:641-651 | The busy count lets a redraw through if and only if the driver holds a buffer or one is lost; so it guards against waiting forever if and only if none is lost or the driver holds one |
| V4lCapture.CheckExact | display_framework/src/samples/weston/simple-dmabuf-v4l.c:641-651 | While no call fails, the check is exactly that the driver holds a buffer |
| V4lCapture.LostOnlyByRelease | display_framework/src/samples/weston/simple-dmabuf-v4l.c:121-172 | A buffer is lost only by a release whose queueing stops before the driver takes it; a plane mismatch is reported but loses nothing |
| V4lCapture.StepMoves | display_framework/src/samples/weston/simple-dmabuf-v4l.c:121-172 | Which buffers an event moves between driver and compositor, for each way its calls can end, and that the sample goes on if and only if it ran and the event went through |
| V4lCapture.StoppedIff | display_framework/src/samples/weston/simple-dmabuf-v4l.c:641-651 | The busy count stops a redraw if and only if the compositor holds all three buffers |
| V4lCapture.CanWaitForever | display_framework/src/samples/weston/simple-dmabuf-v4l.c:163-172 | A run with one failed release after which a redraw passes the check while the driver holds nothing |
| V4lCapture.Window.constructor | display_framework/src/samples/weston/simple-dmabuf-v4l.c:398-423 | The initial queueing: running with all three buffers queued, if and only if every call went well |
| V4lCapture.Window.Queue | display_framework/src/samples/weston/simple-dmabuf-v4l.c:121-161 | Where the buffer ends up for each way queue can end |
| V4lCapture.Window.BufferRelease | display_framework/src/samples/weston/simple-dmabuf-v4l.c:163-172 | The release callback |
| V4lCapture.Window.DrawNext | display_framework/src/samples/weston/simple-dmabuf-v4l.c:634-675 | redraw: the busy count, the dequeue, and the assertion that the dequeued buffer is not busy |
| AutoMode.SelectMode | display_framework/src/extension/display_settings/meson/meson_settings.c:459-476 | The loop returns the first mode that is greatest by area and then refresh rate among those it can select at all, or -1 |
| AutoMode.SelectsEligible | display_framework/src/extension/display_settings/meson/meson_settings.c:459-476 | With a mode of positive area within the cap on the list, the answer is such a mode: no other is above it, and earlier ones are below it |
| AutoMode.SelectsLargest | display_framework/src/extension/display_settings/meson/meson_settings.c:459-476 | In plain numbers: with a mode whose area is positive and at most the cap on the list, the selected mode keeps to the cap, has no smaller area, and at the same area no lower refresh rate, the first such mode winning |
| AutoMode.NothingSelected | display_framework/src/extension/display_settings/meson/meson_settings.c:434-481 | The index stays -1, and is used as one, if and only if no mode can be selected |
| AutoMode.NothingToSelect | display_framework/src/extension/display_settings/meson/meson_settings.c:459-476 | In plain numbers: the index stays -1 if and only if every mode with an area is above the cap and every mode without one has no refresh rate |
| AutoMode.SelectedOnce | display_framework/src/extension/display_settings/meson/meson_settings.c:459-476 | There is only one such answer |

## Premises

- Sockets, select, DRM, EGL, V4L2, Wayland, mmap and memory allocation are parameters: each call
  takes from its caller what the environment answers.
- The JSON parser is an arbitrary function of the bytes read so far. The socket's receive buffer
  size lies between 1 byte and 3 MiB, and a successful read delivers at least one byte.
- Fewer than 50 clients are connected when one is accepted, and descriptors are below FD_SETSIZE;
  the code tests neither.
- The text of a reply is read back by the parser, and no proper prefix of it is a message; what
  the parser takes for the first message of a longer stream does not depend on what follows it.
- Bounds on stopping count steps of the server thread and of the destroyer; they take it that each
  read and each call of the message handler returns, and that both threads go on being scheduled.
- The framebuffer's line length is the width of a row of pixels, and the screen has one of the
  sizes and depths the surface is created with.
- The compositor sends one event to each release object, as in interface
  zwp_linux_buffer_release_v1 of linux-explicit-synchronization-unstable-v1, and releases capture
  buffers that it was given; the driver dequeues buffers that it holds.
- The ring operations are taken as atomic, `status` as sequentially consistent, and the mutex and
  the read-write lock as held where the code holds them.

## Left out

- Other messages: "get connector range properties", "get display mode", the two ui rect messages, "get info" and unknown commands, which read or write plain values.
- A "cmd" member that is null, on which the code compares a null string.
- Null connectors passed to append or as the newer connector of an update, which the code dereferences.
- Failure of malloc while a connector is appended and of calloc while the client builds its lists; the first is not tested by the code, the second cuts the list short.
- JSON as text: what the library prints is any byte string with the properties named under Premises, so the client's reading of a value the server never writes is modelled only as far as its type.
- The request side of a synchronous command: behind each command send_cmd_sync sends a second text (drm-help-client.c:118-119, ipc.c:371); only its fate as bytes behind a message is modelled, in NextMessageKept.
- HandleMessage: commands other than "set mode"; none of them touches the ring or makes a switch or refresh call.
- ServeAll: the outputs and the hooks stay the same over the run; ServeEvent holds for whatever they are at the event.
- ScanNumber: numbers beyond 64 bits are taken as glibc takes them, since C leaves them undefined.
- SelectMode: the product that becomes the cap is a parameter, so the reading of the environment variable is not modelled.
- Area: a product of 2^31 and more is taken as it wraps in 32 bits, which C leaves undefined.
- Finer interleavings of the ring operations, whose ring has no lock of its own.
- Liveness of stop_help_worker, which holds the global mutex across server_destory; only the server's own handshake is modelled.
- The accepted client of the wake-up connection is closed by the destroyer; that the next pass reads its end is part of ClientTable, not of Shutdown.
- HwalFBSurface::clean and setDimensions: the page copy in clean uses the size of the region, so nothing is claimed for partial cleans.
- An uninitialised page choice is modelled by a parameter (`junk`), with one surface as the code leaves it.
- free_connection_list, whose recursion is that of free_modes one level up.
- The EGL sample without explicit synchronisation, and windows whose creation failed.
- libuvm, display_attribute.c, westeros_settings.c, weston_settings.c and the rest of meson_settings.c: ioctl and property wrappers and translation tables.
- Test programs, option parsing, debug output, pixel-format tables and the vendored Mutex, Singleton and Errors headers.
