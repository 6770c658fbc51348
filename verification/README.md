# A verified model of the multiplexed tunnel

The program carries many byte streams over one TLS connection with a private frame protocol: a
9-byte header (length, stream id, command) and a payload. Below it lies TLS, which is taken as a
byte stream that may be cut anywhere. This project models five parts of it and proves what they
promise, over all inputs and all interleavings.

1. **Frames and receive loops** (`Bytes`, `Protocol`, `ReceiveLoops`, `Multiplexing`). The codec with
   its resync path, the server's and the client's buffer loops as loops, chunked sending, and
   demultiplexing by stream id. Main results: both loops agree with one parse of the whole stream for
   every segmentation, and every stream gets exactly what was written to it.
2. **The life of a stream on the server** (`ServerSession`, `ServerRuns`, `ForwardProxy`,
   `SessionHandler`). A step is the code one task runs between two suspensions; the frame reader
   interleaves with one connect or relay task a stream. `ServerSession` is the step machine with its
   invariant, `ServerRuns` states the results on the events of a run, and `SessionHandler` is the same
   code on mutable maps and a relay registry shared by all clients, each method proved equal to a step,
   with the relay objects tied to the histories of their streams.
   Main results: hand-off ordering (exactly while the pending buffer has not overflowed), relay
   ownership through cleanup, safety of deferred closes, independence of streams and clients.
3. **The client's streams and pool** (`TunnelStream`, `TunnelClient`, `TunnelPool`). The receive buffer
   with partial reads, cap and close sentinel; the stream table with connect futures racing with a
   disconnect; round-robin; one reconnect task for each lost tunnel.
4. **The interval index** (`Arithmetic`, `Sorting`, `GeoIp`). Sort, merge and bisect against a linear
   scan over the networks, and uniqueness of the canonical form.
5. **Routing state** (`CircuitBreaker`, `DnsCaches`, `RuleEngine`, `Router`). Each fast form refines a
   plain history or list: the breaker its events, the caches the unbounded table of answers, the rule
   lists one stable sort, and the lazy routing decision the one taken with the address in hand.

`EndToEnd` joins parts 1 and 2 for the way to the targets, and parts 1 and 3 for the way back.
`Completeness` is the other side of these safety results: a run in which everything arrives.

One promise of the program turned out not to hold: `create_stream` leaves a stream in the table when its
target cannot be packed into a CONNECT frame, for instance a host name of 65536 bytes. `TunnelClient`
proves that this is the only way, and `LongHostStays` is the input.

Time is a parameter that does not decrease. Bytes are integers from 0 to 255; ids, lengths and ports
are checked against their 32 or 16 bits where the program packs them. Where source and documentation
differ the source is followed: a TLS reject is only counted and does not block, and rules are ordered
by priority alone, not exact names before wildcards (`TECHNICAL.md`, sections on the circuit breaker
and on rule priority).

Verify with `dafny verify dfyconfig.toml`.

## Model

| member | source | states |
|---|---|---|
| Protocol.UnpackFrame | common/protocol.py:55-89 | A decoded frame lies within the buffer, moves the reader by at least 9 bytes and at most MAX_FRAME_SIZE; asking for more bytes means less than a maximal frame is waiting |
| Protocol.UnpackAtOffset | common/protocol.py:58-60 | Parsing in place at an offset is parsing the rest of the buffer |
| Protocol.UnpackStable | common/protocol.py:69-89 | Bytes that arrive later never change a frame that was decodable, resync headers and unknown commands included |
| Protocol.PackedBytes | common/protocol.py:33-52 | The wire format in numbers: a frame can be packed exactly if both header integers fit 32 bits; then its bytes are length and id in big-endian order, the command's number and the payload |
| Protocol.HeaderBytes | common/protocol.py:69-89 | What any bytes at the head of a buffer are read as, in numbers: length and id big-endian, lengths under 9 or over 4194304 resynchronise, numbers from 1 to 10 name the commands and all others mean CLOSE |
| Protocol.UnpackHeader | common/protocol.py:69-89 | Any header, anywhere in a buffer: a length out of range yields an empty PONG, an incomplete frame asks for more, an unknown command byte is delivered as CLOSE with its payload |
| Protocol.ConnectBytes | common/protocol.py:97-101 | A target can be packed exactly if its host encodes to fewer than 65536 bytes and its port fits 16 bits; the layout of the payload in bytes |
| Protocol.UnpackPacked | common/protocol.py:47-89 | A packed frame anywhere in a buffer decodes to itself if and only if it respects MAX_FRAME_SIZE; a longer one is taken for a corrupt header |
| Protocol.PackUnpacked | common/protocol.py:47-89 | Packing a decoded frame restores the consumed bytes if and only if its length was in range and its command known |
| Protocol.UnpackPackedConnect | common/protocol.py:97-123 | A CONNECT target survives the trip exactly if the host is not empty and the port not 0, whatever follows it |
| Protocol.UnpackedConnect | common/protocol.py:104-123 | Whatever is accepted has a host, a port from 1 to 65535, and a payload that starts with exactly their encoding |
| ReceiveLoops.ParseAppend | server/tunnel_server.py:143-153 | Parsing can stop after any prefix of a stream and resume from the unparsed tail |
| ReceiveLoops.Extended | server/tunnel_server.py:140-143 | Threshold compaction drops only bytes already parsed and leaves at most 65536 of those |
| ReceiveLoops.HandleClient | server/tunnel_server.py:125-190 | The server loop, threshold compaction included, loses and invents no byte: its frames and unread bytes are the parse of the stream if no PONG failed; a failed PONG and nothing else ends the parsing of a read early; only a first frame that is AUTH with the secret opens the gate, and everything after it is served; the buffer never exceeds 65536 + 4194303 + 262144 bytes, and 262144 more for each failed PONG |
| ReceiveLoops.NoneMissed | server/tunnel_server.py:180-190 | No PONG is missed exactly if every PING behind the gate was answered |
| ReceiveLoops.OnlyTheSecretOpens | server/tunnel_server.py:155-178 | The gate on the bytes of the connection: what is served was preceded by the secret in a packed AUTH frame, and a connection that starts with any packed frame is rejected if and only if that is not AUTH with the secret |
| ReceiveLoops.ReadLoop | client/core/tunnel.py:422-467 | The client loop emits exactly the frames and the tail of one parse of the whole stream, with at most (MAX_FRAME_SIZE - 1) + 262144 bytes buffered |
| ReceiveLoops.SameBytesSameFrames | server/tunnel_server.py:134-153 | Segmentation independence across both loops: the same bytes, cut in any two ways, give the same frames and the same tail |
| Multiplexing.Chunks | client/core/tunnel.py:405-411 | The pieces of a write respect the frame limit, are not empty, and concatenate to the write |
| Multiplexing.ChunksAreFull | client/core/tunnel.py:405-411 | Every piece of a write but the last is as long as a frame allows |
| Multiplexing.SendData | client/core/tunnel.py:394-411 | The frames sent are a prefix of the chunk frames, all of them if no send failed, and it stops at the first failure |
| Multiplexing.TransmitKeepsStreams | client/core/tunnel.py:303-321 | Under every order of turns on the shared connection, each stream's bytes are on the wire in order or still queued, and every frame may be sent |
| Multiplexing.TurnsSendChunks | client/core/tunnel.py:313-321 | Every turn of a stream sends its next chunk as long as there is one: what is left is the queue without as many chunks as there were turns |
| Multiplexing.ControlsAreSent | client/core/tunnel.py:313-321 | Every control frame is sent, in order, and no other frame without data is |
| Multiplexing.TransmitInOrder | client/core/tunnel.py:316-321 | Turns take effect one after the other, so frames of all streams and control frames are on the wire in the order of their turns |
| Multiplexing.ParseEncoded | common/protocol.py:47-89 | Frames packed back to back are parsed back exactly, with no tail |
| Multiplexing.ParseArrived | common/protocol.py:47-89 | Whatever part of packed frames has arrived parses to a prefix of those frames |
| Multiplexing.StreamsArriveIntact | client/core/tunnel.py:394-411 | End-to-end multiplexing: any writes of any length, chunked, interleaved, packed, parsed and sorted by id give each stream exactly the chunks that had their turn, and exactly what was written to it once there were turns enough |
| Multiplexing.DeliverToServer | server/tunnel_server.py:134-245 | The same through the server's loop, for every segmentation, with the authentication frame in front, and wherever the connection breaks off: what is served is a prefix of the frames sent, all of them if everything arrived and every PONG could be sent, and so each stream is handed a prefix of its writes |
| ServerSession.StepKeepsInv | server/tunnel_server.py:62-299 | Every step of reader, connect tasks, relay tasks and cleanup keeps the invariant on tasks, relays, buffers and received bytes |
| ServerSession.DataGoes | server/tunnel_server.py:209-245 | Where a DATA frame goes, in numbers: to the target of a relay; behind the pending bytes while connecting, up to 262144 bytes in all; beyond that the buffer is dropped and the close deferred; without a stream, nowhere |
| ServerSession.DataAccounted | server/tunnel_server.py:209-245 | A DATA frame is written behind all earlier bytes, buffered behind all earlier bytes, or lost together with all of them |
| ServerSession.UnwoundKeepsInv | server/tunnel_server.py:97-99 | The callback of a cancelled relay task finds nothing to undo: it changes no map |
| ServerRuns.ReachableInv | server/tunnel_server.py:62-299 | The invariant holds in every state of every run |
| ServerRuns.HistoryFaithful | server/tunnel_server.py:209-260 | The recorded bytes, losses and early closes are those that can be read off the events of the run |
| ServerRuns.HandOffKeepsOrder | server/tunnel_server.py:69-85 | Hand-off ordering: what the target was given followed by the pending buffer is, in order and complete, what arrived since the CONNECT, if and only if no DATA frame of the stream hit the cap |
| ServerRuns.SmallStreamsNeverOverflow | server/tunnel_server.py:230-245 | A stream that was sent no more than 262144 bytes since its CONNECT never hits the cap |
| ServerRuns.SmallStreamsArrive | server/tunnel_server.py:230-245 | So while it is live all its bytes are at the target or pending, in order |
| ServerRuns.TargetHoldsPrefix | server/forward_proxy.py:260-269 | Live or not, without an overflow a target never holds anything but the first bytes that arrived |
| ServerRuns.OverflowBreaksOrder | server/tunnel_server.py:231-238 | The condition is needed: a run in which an overflow is followed by a buffer that is still flushed |
| ServerRuns.RelaysAreOwned | server/tunnel_server.py:87-104 | A registered relay belongs to a stream listed in `active_streams` whose task is unfinished and past the connect; none exists once the cleanup is over |
| ServerRuns.CleanupLeavesNoRelay | server/tunnel_server.py:277-292 | After the disconnect cleanup, whatever other tasks did during its awaits or do later, the client has no relay and no active stream |
| ServerRuns.DeferredStreamsNeverRelay | server/tunnel_server.py:87-103 | A stream closed or overflowed while connecting never starts relaying, and no relaying stream is marked for a deferred close |
| ServerRuns.PendingIsBounded | server/tunnel_server.py:230-241 | In every reachable state a stream's pending bytes are at most MAX_PENDING_BYTES, and none are pending beside a relay |
| ServerRuns.ReusedIdLosesRelay | server/tunnel_server.py:200-204 | The assumption on ids is needed: with a CONNECT for an id in use a relay can end up outside `active_streams` |
| ServerRuns.SwallowedCancelLosesRelay | server/tunnel_server.py:282-290 | The assumption on cancelled tasks is needed: a connect that swallowed the cleanup's cancellation would register a relay that the cleanup has already passed |
| ServerRuns.StreamsAreIndependent | server/tunnel_server.py:192-292 | A step changes nothing of a stream it is not about, except that the end of the cleanup forgets the buffers, when no stream is active |
| ServerRuns.EndedStreamsAreForgotten | server/tunnel_server.py:87-110 | How steps of a stream end it or not: a drain in time changes nothing of it; after a failed connect or a finished relay nothing is left and the id may be used again; after a CLOSE a stream whose connect still runs is marked for a deferred close; a deferred close and a crashed connect leave the id in `active_streams` without a task; the cleanup waits exactly for a task that is unfinished |
| ServerRuns.NothingIsStuck | server/tunnel_server.py:62-299 | In every reachable state the reader can take any frame, every unfinished task has a step for each way its wait can end, and the cleanup can go on, since what it waits for has been cancelled |
| ServerRuns.FullRuns | server/tunnel_server.py:69-105 | For any pieces that come before the target is there, up to 262144 bytes, and any that come after, there is a run that ends with all of them at the target, in order |
| Relays.KeysAreInjective | server/forward_proxy.py:172-180 | Composite keys collide only for the same client and the same 32-bit id, and splitting inverts making |
| Relays.ForwardProxy.GetRelay | server/forward_proxy.py:190-191 | The lookup answers with the relay registered for the stream, and null exactly if there is none |
| Relays.ForwardProxy.Register | server/forward_proxy.py:263-269 | Registration adds exactly one relay of one client |
| Relays.ForwardProxy.RemoveRelay | server/forward_proxy.py:307-313 | The relay is closed and deregistered; no other entry and no other client is affected |
| Relays.ForwardProxy.CloseAll | server/forward_proxy.py:315-320 | Every relay of every client is reached through its split key, closed and deregistered |
| SessionHandler.SessionHandler.OnConnect | server/tunnel_server.py:192-204 | Equals the machine's step for a CONNECT frame, and keeps the invariant and the tie between relays and histories, as every method of the class does |
| SessionHandler.SessionHandler.RelayHoldsWhatArrived | server/tunnel_server.py:69-85 | Hand-off ordering for the relay object: in every valid state that a run leads to, a registered relay has been given exactly what arrived for its stream since the CONNECT, if and only if no DATA frame hit the cap |
| SessionHandler.SessionHandler.OnData | server/tunnel_server.py:209-245 | Equals the step for a DATA frame; the relay, if there is one, is given exactly the payload |
| SessionHandler.SessionHandler.Forward | server/tunnel_server.py:213-220 | With a relay the payload goes behind all that the relay was given |
| SessionHandler.SessionHandler.Buffer | server/tunnel_server.py:230-245 | Without one it is buffered up to the cap, or the stream's buffer is dropped and its close deferred |
| SessionHandler.SessionHandler.OnDrained | server/tunnel_server.py:215-229 | Equals the step that ends a drain; only a timeout drops the stream, and of this client only |
| SessionHandler.SessionHandler.OnClose | server/tunnel_server.py:247-264 | Equals the step for a CLOSE frame and leaves other clients' relays alone |
| SessionHandler.SessionHandler.OnConnected | server/tunnel_server.py:69-83 | Equals the uninterrupted segment from registration to flush; the relay is given the pending pieces, all and in order |
| SessionHandler.SessionHandler.HandOver | server/tunnel_server.py:74-81 | Registration and flush: afterwards the relay has been given all that was pending, in order, nothing is pending, and every other relay still has what its history says |
| SessionHandler.SessionHandler.Flush | server/tunnel_server.py:80-81 | The target is given the concatenation of the pieces, behind what it already had |
| SessionHandler.SessionHandler.OnFlushed | server/tunnel_server.py:87-105 | Equals the step that carries out a deferred close or starts the relay task |
| SessionHandler.SessionHandler.OnConnectFailed | server/tunnel_server.py:106-110 | Equals the step of a failed connect |
| SessionHandler.SessionHandler.OnRelayDone | server/tunnel_server.py:97-99 | Equals the step of a relay task's callback |
| SessionHandler.SessionHandler.OnUnwound | server/tunnel_server.py:225-227 | Equals the end of a cancelled task, and changes nothing but the set of tasks |
| SessionHandler.SessionHandler.OnDisconnect | server/tunnel_server.py:277-282 | Equals the step that begins the cleanup |
| SessionHandler.SessionHandler.OnCleanStream | server/tunnel_server.py:282-290 | Equals one turn of the cleanup loop |
| SessionHandler.SessionHandler.OnCleanupDone | server/tunnel_server.py:291-292 | Equals the last step, after which the registry holds no relay of the client |
| EndToEnd.ReceivedIsDispatched | server/tunnel_server.py:192-247 | What a stream received in a run is the DATA that the loop dispatched to it |
| EndToEnd.FramesAreDispatched | server/tunnel_server.py:180-267 | A CONNECT of a real target, DATA and CLOSE reach the stream they name; a corrupt CONNECT and every other command change no stream |
| EndToEnd.ClosesAreDispatched | server/tunnel_server.py:247-264 | A stream was closed since its CONNECT if and only if a CLOSE frame for it was dispatched that no later CONNECT made obsolete |
| EndToEnd.TargetsGetWhatWasWritten | server/tunnel_server.py:62-292 | In every run that dispatches a prefix of the frames sent, unless its pending buffer overflowed, which takes more than 262144 bytes, a stream's target holds a prefix of the client's writes, the pending bytes of a live stream continue it without a gap, and nothing is missing once the stream had turns enough and all is dispatched |
| EndToEnd.WritesReachTargets | server/tunnel_server.py:134-292 | The end-to-end result: for every write table, schedule and segmentation, arrived in full or in part, every run that dispatches any prefix of what the loop serves gives the targets what the client wrote |
| Completeness.TargetCanGetEverything | server/tunnel_server.py:62-245 | Whatever is written to one stream of a real target, with any part up to 262144 bytes ahead of the target, a schedule and a run exist in which all of it is sent, dispatched and given to the target |
| EndToEnd.StreamsHoldWhatTargetsSent | client/core/tunnel.py:422-463 | The way back, in every state of a client and whatever calls and reads have interleaved: each registered stream was fed a prefix of its target's bytes, all of them once there were turns enough and every frame is dispatched; it has delivered or still holds all it accepted, and it accepted all it was fed if the server did not close it and never more than 8388608 bytes were undelivered |
| TunnelStream.TunnelStream.FeedData | client/core/tunnel.py:141-150 | A payload is accepted whole and queued last, or, if the stream is closed or would hold more than 8388608 bytes, not at all, and the stream is closed |
| TunnelStream.TunnelStream.Close | client/core/tunnel.py:152-155 | Closing an open stream queues the sentinel, last, so that a read that waits is woken; closing again does nothing |
| TunnelStream.TunnelStream.ReadStart | client/core/tunnel.py:80-139 | Exactly what a read takes: of a remainder or of the first chunk as much as n allows, or everything queued; with non-empty payloads the answer is empty if and only if the stream is closed and everything accepted was delivered; it waits only if nothing is undelivered |
| TunnelStream.TunnelStream.ReadLeftover | client/core/tunnel.py:89-96 | A remainder is served first, whole or up to n bytes, and the rest of it kept |
| TunnelStream.TunnelStream.TakeChunk | client/core/tunnel.py:127-136 | The first chunk is delivered whole or up to n bytes, and the rest of it kept for the next read |
| TunnelStream.TunnelStream.DrainQueue | client/core/tunnel.py:105-114 | Draining takes every queued byte in order and leaves the queue empty |
| TunnelStream.TunnelStream.ReadResume | client/core/tunnel.py:118-136 | The same promises for the part of a read after it waited; after a close it never waits again |
| TunnelClient.TunnelClient.CreateStream | client/core/tunnel.py:332-359 | A stream is registered under the next id, with its future in place, or nothing changes; ids run from 1 to 2^32 - 2 and wrap; the call goes on to its send if and only if the target can be packed, and otherwise raises with the stream registered |
| TunnelClient.TunnelClient.OnlyUnpackableTargetsStay | client/core/tunnel.py:340-392 | In every state of every interleaving, a call that has ended without returning its stream has left the id unregistered if and only if its target could be packed; otherwise the stream stays until a disconnect |
| TunnelClient.TunnelClient.EarlyIdsAreUnique | client/core/tunnel.py:344-347 | As long as no more than 4294967294 streams were created, no id is handed out while its earlier stream is in use |
| TunnelClient.LongHostStays | client/core/tunnel.py:356-359 | The input: a host name of 65536 bytes ends the call with the stream in the table, open, and its future unresolved |
| TunnelClient.TunnelClient.AfterSend | client/core/tunnel.py:359-371 | Of a call whose target could be packed, a failed send ends it and unregisters the stream |
| TunnelClient.TunnelClient.WakeUp | client/core/tunnel.py:373-392 | Of a call that was sent, one that does not return the stream leaves its id unregistered; closed at wake-up is what counts as rejected |
| TunnelClient.TunnelClient.TimeOut | client/core/tunnel.py:381-387 | Giving up closes the stream and unregisters its id |
| TunnelClient.TunnelClient.OnFrame | client/core/tunnel.py:435-467 | One turn of the inner loop takes the next frame off the buffer; it touches only the stream it names: DATA is accepted by an open stream up to its cap, CLOSE and CONNECT_FAIL close it, answers resolve its future |
| TunnelClient.TunnelClient.OnRead | client/core/tunnel.py:427-434 | A read appends its bytes to the unread ones, so that dispatched frames and unread bytes remain the parse of all that was read |
| TunnelClient.TunnelClient.ReadStream | client/core/tunnel.py:80-139 | A read of the application delivers its bytes and disturbs nothing the tunnel relies on |
| TunnelClient.TunnelClient.Dispatch | client/core/tunnel.py:445-467 | After each frame every registered stream has been fed exactly the DATA payloads for its id since its registration, and was closed from outside exactly if one of those frames said so |
| TunnelClient.TunnelClient.CloseStream | client/core/tunnel.py:413-420 | The stream is closed and its id unregistered |
| TunnelClient.TunnelClient.DisconnectEnd | client/core/tunnel.py:280-295 | The table is empty, streams left behind by raised calls included, every stream of it closed, and no create_stream is left with an unresolved future |
| TunnelPool.RingVisitsAll | client/core/tunnel.py:649-651 | A call's ring visits each tunnel index exactly once |
| TunnelPool.RefusedByAll | client/core/tunnel.py:649-666 | A call that gives up was refused by every tunnel |
| TunnelPool.TurnsAreFair | client/core/tunnel.py:645-651 | Over any k consecutive calls each of n tunnels is first in line floor(k/n) or ceil(k/n) times |
| TunnelPool.TunnelPool.CreateStream | client/core/tunnel.py:640-666 | The call ends at the first connected tunnel of its ring that does not refuse, and gives up only after all n |
| TunnelPool.TunnelPool.SpreadEvenly | client/core/tunnel.py:640-666 | Over k calls on n connected accepting tunnels each gets floor(k/n) or ceil(k/n) streams |
| TunnelPool.TunnelPool.ConnectStart | client/core/tunnel.py:569-586 | A new connect cancels the old reconnect tasks, lets the old tunnels go and re-arms the latch |
| TunnelPool.TunnelPool.ConnectLaunch | client/core/tunnel.py:588-596 | A new batch of tunnels begins to connect, with no task and no result yet |
| TunnelPool.TunnelPool.Launched | client/core/tunnel.py:595-602 | A tunnel of the batch is up, or waits for the end of the batch to get its task |
| TunnelPool.TunnelPool.ConnectFinish | client/core/tunnel.py:598-608 | Afterwards every tunnel that is down has exactly one reconnect task that nobody cancelled |
| TunnelPool.TunnelPool.AttemptStart | client/core/tunnel.py:700-708 | During an attempt the task keeps its link, which is now inside connect |
| TunnelPool.TunnelPool.AttemptEnd | client/core/tunnel.py:707-716 | Success ends the task, frees its entry and re-arms the latch; failure keeps the task as the owner |
| TunnelPool.TunnelPool.Unwound | client/core/tunnel.py:698-716 | A cancelled task ends without touching the registry, so it never removes its successor |
| TunnelPool.TunnelPool.LossStart | client/core/tunnel.py:269-279 | A lost tunnel is inside its disconnect, with no task yet |
| TunnelPool.TunnelPool.LossEnd | client/core/tunnel.py:673-696 | A lost tunnel gets its one task, and the pool-down callback fires if and only if no tunnel is left and it has not fired yet |
| TunnelPool.TunnelPool.NotifyIfDown | client/core/tunnel.py:689-696 | The pool-down callback fires at most once between two re-arms of the latch |
| TunnelPool.TunnelPool.Disconnect | client/core/tunnel.py:613-621 | No tunnel is left and every reconnect task is cancelled |
| Sorting.SortIsStable | client/core/rule_engine.py:97-109 | Sorting keeps the order of elements that compare equal |
| GeoIp.Cidr.ContainsRange | client/core/geoip.py:60-62 | An address shares the prefix of a network if and only if it lies between network and broadcast address |
| GeoIp.OneAddress | client/core/geoip.py:60-62 | A network of prefix 32 is one address |
| GeoIp.PrefixGrows | client/core/geoip.py:60-62 | Without the last bit of addresses, every network is the one with a prefix longer by one; with the former this fixes the members of every network |
| GeoIp.BisectRight | client/core/geoip.py:80 | The bisection point: everything before it is at most x, everything from it on is greater |
| GeoIp.IntervalSet.Rebuild | client/core/geoip.py:58-73 | The arrays are in canonical form and cover an address if and only if some network contains it |
| GeoIp.MergeSorted | client/core/geoip.py:64-73 | Merging overlapping and adjacent ranges yields disjoint intervals with gaps and keeps what is covered |
| GeoIp.IntervalSet.Contains | client/core/geoip.py:75-81 | One bisect answers whether any interval covers the address; text that is no address is in no set |
| GeoIp.CanonicalFormIsUnique | client/core/geoip.py:63-73 | Two canonical forms that cover the same addresses are the same arrays |
| GeoIp.SameAddressesSameIndex | client/core/geoip.py:53-73 | Two lists of networks with the same addresses give identical start and end arrays |
| GeoIp.GeoDatabase.Lookup | client/core/geoip.py:85-98 | The index answers like a linear scan over the ranges |
| GeoIp.GeoDatabase.Load | client/core/geoip.py:101-134 | Afterwards the ranges cover exactly the union of what they covered and the valid lines; the count is that of the lines added |
| CircuitBreaker.RecentTwice | client/core/circuit_breaker.py:75-77 | Forgetting failures outside the window at one time loses nothing for any later time |
| CircuitBreaker.BlockedSnoc | client/core/circuit_breaker.py:70-95 | How one more event changes which addresses the history blocks |
| CircuitBreaker.ThirdFailureBlocks | client/core/circuit_breaker.py:23-25 | In numbers: of three failures the third blocks for 120 seconds exactly if the first was less than 360 seconds before it, and two never block |
| CircuitBreaker.MaxIsNewest | client/core/circuit_breaker.py:131-136 | Eviction goes by the newest failure of an address |
| CircuitBreaker.AfterFailure | client/core/circuit_breaker.py:70-86 | After a failure the breaker's two maps answer, for every address and every later time, what the longer history says |
| CircuitBreaker.CircuitBreaker.IsBlocked | client/core/circuit_breaker.py:56-68 | As long as no entry was evicted, the answer is yes if and only if some failure at most 120 s ago, with no success since, was the third within 360 s since the last trip or success |
| CircuitBreaker.CircuitBreaker.RecordFailure | client/core/circuit_breaker.py:70-89 | The history grows by the failure, no address keeps more than two timestamps, other addresses keep theirs, and exactness is lost if and only if a new address comes when 500 are tracked |
| CircuitBreaker.CircuitBreaker.RecordSuccess | client/core/circuit_breaker.py:91-95 | The history grows by the success and the breaker goes on answering like it |
| CircuitBreaker.CircuitBreaker.Prune | client/core/circuit_breaker.py:122-139 | Expired blocks are swept without changing an answer; at most 500 addresses stay tracked, and none that stays has an older last failure than one that goes |
| CircuitBreaker.Evict | client/core/circuit_breaker.py:131-139 | Exactly the surplus goes, and none that stays has an older last failure |
| CircuitBreaker.CircuitBreaker.Save | client/core/circuit_breaker.py:179-186 | The snapshot answers like the history from the moment of saving on |
| CircuitBreaker.CircuitBreaker.Load | client/core/circuit_breaker.py:156-172 | A breaker loaded from a snapshot answers like the saved one at every later time; at the very moment of loading it does so exactly for the addresses whose block does not end just then |
| DnsCaches.EvictsSoonest | server/forward_proxy.py:166-169 | Eviction removes exactly n entries, and none of them expires later than one that stays |
| DnsCaches.NewestSurvivesPrune | client/core/router.py:183-197 | An entry appended to a full cache survives the sweep if and only if it has not expired by then, ties included |
| DnsCaches.TrimRefines | client/core/router.py:183-197 | A sweep keeps every good answer but at most one, and that one expires no later than what stays |
| DnsCaches.ServerCache.Get | server/forward_proxy.py:151-158 | The answer is the address most recently put for the host, within its 300 s, unless it was evicted |
| DnsCaches.ServerCache.Put | server/forward_proxy.py:160-170 | Afterwards at most 2048 entries, the new one is a hit, and at most one live answer was forgotten, the one that expires soonest, and only if the cache was full |
| DnsCaches.ClientCache.Resolve | client/core/router.py:174-181 | The same as the server's lookup |
| DnsCaches.ClientCache.Put | client/core/router.py:222-224 | The same with insertion before the sweep, at most 1024 entries, and the new one a hit when the sweep comes within the TTL |
| DnsCaches.ClientCache.Prune | client/core/router.py:183-197 | The sweep leaves exactly the trimmed dict and goes on refining the table of answers |
| RuleEngine.MatchesWholeLabels | client/core/rule_engine.py:57-69 | A pattern *.d matches exactly the names whose last labels are those of d; any other pattern only itself; letter case is ignored |
| RuleEngine.WhatRulesMatch | client/core/rule_engine.py:57-80 | A disabled rule matches nothing; an IP rule matches exactly the IPv4 addresses of its network |
| RuleEngine.CaseIsIgnored | client/core/rule_engine.py:60-69 | Names and patterns that differ only in letter case match alike |
| RuleEngine.OneByOneIsOneSort | client/core/rule_engine.py:97-109 | Adding rules one at a time makes the same list as one stable sort of them all |
| RuleEngine.FirstIsBest | client/core/rule_engine.py:155-171 | The first match is the matching rule of highest priority, among equals the one added first, and there is none exactly if no rule matches |
| RuleEngine.OnlyPriorityDecides | client/core/rule_engine.py:97-99 | Of two matching rules anywhere in a list, the exact name included, the one with the higher priority, or the same and added earlier, is met first; if no other matches, the exact one decides if and only if it is that one |
| RuleEngine.RuleEngine.AddDomainRule | client/core/rule_engine.py:97-99 | The list is the sort of the old list with the new rule, in order of priority and then of age |
| RuleEngine.RuleEngine.AddIpRule | client/core/rule_engine.py:101-103 | The same for IP rules |
| RuleEngine.RuleEngine.ReplaceRules | client/core/rule_engine.py:105-113 | The lists are those that adding the new rules one at a time would have made |
| RuleEngine.RuleEngine.RemoveDomainRule | client/core/rule_engine.py:115-120 | Exactly the rule at a valid index goes; the others keep their order |
| RuleEngine.RuleEngine.RemoveIpRule | client/core/rule_engine.py:122-127 | The same for IP rules |
| RuleEngine.ScansInOrder | client/core/rule_engine.py:155-173 | The best IP rule for a host that is an address, else the best rule for the name, else the best IP rule for what it resolved to if that is something else, else nothing |
| RuleEngine.RuleEngine.MatchExplicit | client/core/rule_engine.py:142-173 | The three scans answer for the first match: IP rules on an IP host, domain rules, IP rules on the resolved address |
| Router.WhatIsDecided | client/core/router.py:232-246 | The decision case by case: PROXY and BLOCK by rule are final; DIRECT by rule, range or default becomes BLOCK while the breaker bars the address; everything else goes through a connected pool |
| Router.WhatIsKnown | client/core/router.py:203-226 | The address decided on is the host itself, else the cached one within 300 seconds, else the resolver's answer if it is an address |
| Router.Router.Route | client/core/router.py:199-246 | Cache-transparent routing: looking a name up late, from the cache or not at all decides like having its address from the start; the resolver is asked exactly if no good answer is cached and no PROXY or BLOCK rule matches the name |
| Router.Router.Settle | client/core/router.py:232-246 | Heuristics and breaker decide as in the reference decision |
| Router.Router.Heuristic | client/core/router.py:232-241 | Special and Chinese ranges go direct, everything else through the pool while it is connected |

## Left out

- TLS, sockets, DNS and drains: their outcomes are the choices of a step (a send succeeds or fails, a connect succeeds, fails or crashes, a drain ends in time or not, a lookup answers or not).
- The order and timing of steps beyond what the code forces: a suspension between registration and start of the relay is allowed even when the pending buffer was empty, and a cancelled task may end at any later time, with its callback only if it was copying.
- ServerRuns.CleanupLeavesNoRelay: assumes that a cancelled task runs nothing but its unwinding. Before Python 3.12 `asyncio.wait_for` (server/forward_proxy.py:236) can swallow a cancellation that meets a connection just made; ServerRuns.SwallowedCancelLosesRelay shows what would follow.
- Reuse of a stream id the server still holds something about: a run admits a CONNECT only for an id that is unused; ServerRuns.ReusedIdLosesRelay shows why.
- Stopping the server: `close_all` is proved for the registry but is not a step of a session.
- A bound on active relays by `max_connections`: the check comes before several awaits and is not repeated at registration, so the code does not give it.
- The receive buffer after a failed PONG: the loop goes on reading, so the proved bound grows with the number of failures.
- Multiplexing.SendData: does not model the guards for a closed stream or a closed tunnel, after which nothing is sent, nor the byte counters.
- Idle timeout, health check, ping loop and the `running` flags of the receive loops: they only end a loop earlier.
- TunnelClient.TunnelClient.Connect: states the flags only, because the handshake is TLS and one AUTH exchange; a connect does not run during a disconnect of the same tunnel.
- TunnelClient.TunnelClient.DisconnectEnd: promises resolved futures for all pending calls only while no id was handed out again before its earlier stream was done with it (2^32 - 2 streams later); for the streams in the table it promises them always.
- TunnelPool.TunnelPool.ConnectStart: the old tunnels leave the pool in one step.
- TunnelPool.TunnelPool.Disconnect: does not overlap a pool connect in the model. In the program it can, when the user disconnects while an automatic reconnect is inside `connect` (client/gui/main_window.py:500-535); the pool can then end with connected tunnels and `_running` false, and no lost tunnel is reconnected.
- The pool-down callback exactly once an outage: a repeated connect can leave the latch set while it tears down, so only at most once is proved.
- CircuitBreaker.CircuitBreaker.RecordFailure: promises nothing about later answers once an address was evicted, because a forgotten failure can shift the third one; ties between last failures are broken freely where the code goes by dict order.
- CircuitBreaker.CircuitBreaker.IsBlocked: assumes a positive clock; the statistics (TLS rejects, counters), the save throttle and the JSON file are not modelled.
- Router.Router.Route: models the decision, not the connection attempt after it; nothing else runs during its lookup, so rules, pool and breaker are those of the call.
- The cache of unreachable proxy hosts, which has the shape of the client's DNS cache.
- UTF-8: a pair of functions, the encoding partial, that invert each other where it is defined; letter case is that of ASCII.
- Cancelling a create_stream call from outside: the program does so only when its event loop ends.
- EndToEnd.StreamsHoldWhatTargetsSent: assumes that no DATA for an id precedes the registration of its stream, which the server guarantees by sending DATA only after the CONNECT, as long as ids have not wrapped.
- EndToEnd.WritesReachTargets: assumes of the client that it opens a stream before it sends data on it and does not open it again.
- GeoIp.GeoDatabase.Load: lines that are IPv6 networks, which the program accepts, are not modelled.
- Textual addresses: an address is its integer and its version; the index is asked with the integer whatever the version, as in the source. IP rules with IPv6 networks are not modelled.
- Reading and writing rule files, the built-in rules and ranges, which are data.
- `_TunnelStreamReader` and `_TunnelStreamWriter`: closing cancels the sender and the feeder stops early, so no claim of complete delivery holds for them.
- The HTTP proxy front end, GUI, logging, configuration, certificates, system proxy settings.
