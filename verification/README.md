# Verified model of rust_frp's streams, tables and codecs

A Dafny model of the parts of rust_frp that carry other people's bytes, with proofs of what they promise.
`dafny verify dfyconfig.toml` checks all of it.

**Record streams.** `Streams.dfy` holds the two stream layers as classes with the fields of the original:
`EncryptedStream` (AES-256-GCM records) and `CompressedStream` (snappy blocks), on top of a `Transport` that at every
poll may take any part of a write, give any part of what has arrived, be pending, or fail. `AnyConn` is the boxed
connection, so layers stack to any height. `Framing.dfy` is the theory both share: length-prefixed frames, the one-shot
parser `Parse`, and the proof that incremental decoding agrees with it on every byte string. `Crypto.dfy` states the
laws assumed of AES-GCM and snappy and gives a model of each. `Stack.dfy` has the main theorems (`Faithful`,
`Complete`, `EndIsComplete`) and shows that every stack asks its transport in turn (`AsksInTurn`); `WorkConn.dfy` wraps
a work connection as `open_work_conn` does and runs arbitrary schedules of polls and network deliveries over two ends;
`Messages.dfy` puts v1 control messages on top, again under any schedule; `WebSocketStack.dfy` puts the layers on a
WebSocket and shows that their frames cross it exactly once.

**Concurrent tables.** `StcpRegistry.dfy`, `KcpRoutes.dfy`, `MuxDriver.dfy`, `Pool.dfy`: a `Step` function gives one
atomic action, the class performs it on its own fields, and the invariants are proved for every sequence of actions. In
the pool an action is what runs between two awaits, so operations interleave wherever the vector lock or the statistics
lock lets them, and the future of any operation may be dropped at any await.

**Codecs.** `Der.dfy`, `Chunked.dfy`, `Form.dfy`, `Stun.dfy`, `EnvVars.dfy`, `WebSocket.dfy`: the loops of the original
as methods, each proved against a function, and that function against an independent decoder, a reference meaning, or
both.

## Where the code and its comments differ

The comments at rust_frp_net/src/compress.rs:19-22 and rust_frp_client/src/work_conn.rs:335 say that data is compressed
first and then encrypted. The code makes encryption the outer layer, so a write is sealed first and the sealed frames
are then compressed. The model follows the code; `WorkConn.StackedWire` states the resulting wire format.

## Properties that hold only under a condition

- With no operation under way, the pool's counts balance (created = closed + in use + idle) exactly when no connection
  ever expired between the two passes of a `cleanup`, as long as no future was dropped between closing or pushing a
  connection and counting that (`Pool.BalancedIff`; either way of losing a count: `Pool.BalanceCanBeLost`,
  `Pool.DroppedGetLosesCount`). In between they balance with what is in flight (`Pool.RunKeeps`).
- The published `current_idle` can be too low, and too high. As long as no task is dropped owing a publication, and
  whenever none is owed: it is too low exactly when the vector is not empty and the length last published was that of a
  `cleanup`, between whose unlock and publication more connections entered the vector than left it; over a non-empty
  vector it is right exactly when that publication was late by none; over an empty vector, exactly when it is zero
  (`Pool.IdleCount`; runs: `Pool.IdleCountCanBeTooLow`, `Pool.IdleCountCanBeStale`). So it is never too low when nothing
  gets between a cleanup's unlock and its publication (`Pool.CalmIdleCount`).
- When a caller that retries pending writes with the same bytes has had them all answered, a WebSocket has carried
  exactly the acknowledged bytes if and only if no flush completed while a non-empty write was unanswered
  (`WebSocket.ExactlyOnceIff`, `WebSocket.FlushSafeIff`, `WebSocket.FlushBeforeRetryDuplicates`). The stream layers keep
  to this on their own (`Stack.AsksInTurn`, `WebSocketStack.InTurnIsDisciplined`).
- A chunked message decodes to the data of the chunks before the first whose size line has blanks before its extension,
  a form RFC 9112 allows; so to its whole body exactly when there is none (`Chunked.DecodesMessage`, `Chunked.SizeLine`,
  `Chunked.BlankBeforeExtensionStops`).
- `rsa_pkcs1_der` yields valid DER exactly when neither integer is empty (`Der.RsaRoundTrip`).
- `${VAR}` substitution ends on every text, for all values made of a given set of characters, exactly when `$`, `{` or `}`
  is not in the set (`EnvVars.TerminatesIff`, `EnvVars.Terminates`, `EnvVars.SelfReferenceLoops`); in a
  text in whose meaning no `${` stands before the last reference, each reference is replaced once by its value and nothing
  else changes, exactly when the resulting text holds no further reference (`EnvVars.ExpandsToMeaning`); a value can
  complete a new one (`EnvVars.ValueCanFormReference`).

## Model

| member | source | states |
|---|---|---|
| Framing.ParseAppend | rust_frp_net/src/crypto.rs:206-240 | continuing a scan with later bytes ends where parsing everything at once does, for arbitrary bytes |
| Framing.SegmentationIrrelevant | rust_frp_net/src/crypto.rs:268-313 | what is decoded depends on the byte string only, not on how it was cut into reads |
| Framing.ParseMonotone | rust_frp_net/src/crypto.rs:212-222 | later bytes never take back a record, and nothing follows a bad frame |
| Framing.ParseFrames | rust_frp_net/src/crypto.rs:159-240 | parsing the frames of any list of records gives back exactly that list |
| Framing.HonestPrefix | rust_frp_net/src/crypto.rs:207-240 | any part of an honest wire that has arrived parses to a prefix of what was sent and never looks bad |
| Crypto.GcmMatches | rust_frp_net/src/crypto.rs:42-57 | every record a sender can make passes the receiver's length check and opens to its plaintext under the same key |
| Crypto.SnappyMatches | rust_frp_net/src/compress.rs:34-42 | every emitted block passes the receiver's three checks: non-zero, at most the maximum payload, at most MAX_BLOCK decompressed |
| Crypto.GcmRejects | rust_frp_net/src/crypto.rs:212-222 | a frame is bad exactly when its length is outside 28 to 16412 or it does not open |
| Crypto.SnappyRejects | rust_frp_net/src/compress.rs:118-140 | a frame is bad exactly when its length is zero or over the bound, or it does not expand, or beyond 32768 bytes |
| Crypto.NonceDistinct | rust_frp_net/src/crypto.rs:145-156 | nonces of one prefix are distinct below 2^32 |
| Crypto.NonceWraps | rust_frp_net/src/crypto.rs:146-150 | the bound is exact: counter 2^32 would reuse nonce 0 |
| Crypto.GcmLawsConsistent | rust_frp_net/src/crypto.rs:33-33 | the laws assumed of AES-GCM have a model |
| Crypto.SnappyLawsConsistent | rust_frp_net/src/compress.rs:40-42 | the laws assumed of snappy have a model |
| Streams.EncryptedStream.NewDirectional | rust_frp_net/src/crypto.rs:102-138 | succeeds exactly for 32-byte keys; starts with counter 0, empty buffers and no error |
| Streams.EncryptedStream.NextNonce | rust_frp_net/src/crypto.rs:145-156 | prefix then counter, counter plus one; fails without change once 2^32 nonces are used |
| Streams.EncryptedStream.SealIntoOutBuf | rust_frp_net/src/crypto.rs:159-174 | appends exactly the frame of the next record, or fails exactly when no nonce is left, changing nothing |
| Streams.EncryptedStream.SealChunks | rust_frp_net/src/crypto.rs:331-337 | all chunks are sealed exactly when enough nonces remain |
| Streams.EncryptedStream.TryDrainOut | rust_frp_net/src/crypto.rs:177-204 | ready only with the output buffer empty and every layer below flushed; no accepted byte is lost whatever happens |
| Streams.EncryptedStream.TryDecryptFrame | rust_frp_net/src/crypto.rs:207-240 | takes at most one frame, exactly as the one-shot parser reads the front of the buffer |
| Streams.EncryptedStream.PollRead | rust_frp_net/src/crypto.rs:244-314 | fills the free space or empties the decoded record; pending only when every layer has nothing left and the transport was pending; zero bytes only at a frame boundary at the end (or an empty record); errors are latched and explained |
| Streams.EncryptedStream.PollWrite | rust_frp_net/src/crypto.rs:318-341 | ready accepts the whole buffer as 16 KB records, and it has left every layer unless the transport was pending or there is trouble; pending or failed accepts nothing; a latched error stays latched and nothing reaches the transport |
| Streams.EncryptedStream.PollFlush | rust_frp_net/src/crypto.rs:343-349 | ready means every layer is empty and the transport flushed; a latched error stays latched and lets no byte out |
| Streams.EncryptedStream.PollShutdown | rust_frp_net/src/crypto.rs:351-356 | the transport is closed only by a ready call, after everything was flushed; a latched error stays latched |
| Streams.CompressedStream.CompressIntoOutBuf | rust_frp_net/src/compress.rs:78-86 | appends exactly the frame of the block |
| Streams.CompressedStream.TryDrainOut | rust_frp_net/src/compress.rs:89-110 | ready only with the output buffer empty and every layer below flushed |
| Streams.CompressedStream.TryDecompressFrame | rust_frp_net/src/compress.rs:113-147 | takes at most one frame, exactly as the one-shot parser reads the front of the buffer |
| Streams.CompressedStream.PollRead | rust_frp_net/src/compress.rs:151-220 | as for the encrypted stream |
| Streams.CompressedStream.PollWrite | rust_frp_net/src/compress.rs:224-246 | ready accepts the whole buffer as 32 KB blocks, and it has left every layer unless the transport was pending or there is trouble; pending or failed accepts nothing |
| Streams.CompressedStream.PollShutdown | rust_frp_net/src/compress.rs:256-261 | the transport is closed only by a ready call, after everything was flushed; a latched error stays latched |
| Stack.LayerFaithful | rust_frp_net/src/crypto.rs:159-341 | a layer over a faithful pipe is a faithful pipe of records |
| Stack.Faithful | rust_frp_net/src/crypto.rs:243-357 | in every reachable state of two stacks of any height, bytes delivered are a prefix of bytes accepted, no frame looks bad, no record is empty |
| Stack.Complete | rust_frp_net/src/crypto.rs:343-349 | sender flushed, wire read to its end, reader caught up: delivered is exactly accepted |
| Stack.EndIsComplete | rust_frp_net/src/crypto.rs:292-303 | after a flushed sender, end of stream is reported only once everything was handed out, and never as cut short |
| Stack.ReadRefinesParse | rust_frp_net/src/crypto.rs:243-315 | for arbitrary incoming bytes, what was decoded is the front of the one-shot parse, and all of it when a read stops |
| Stack.ReadRefinesParseCompressed | rust_frp_net/src/compress.rs:150-221 | the same for the compressed stream |
| Stack.RecordNonce | rust_frp_net/src/crypto.rs:153-172 | the i-th record ever sealed carries prefix and i on the wire, and i is below 2^32 |
| Stack.NoncesNeverRepeat | rust_frp_net/src/crypto.rs:140-156 | no two records of a stream share a nonce, in any run |
| Stack.NoncesNeverShared | rust_frp_net/src/crypto.rs:118-156 | two streams with different random prefixes never put the same nonce on the wire, in any state of both, whatever their keys |
| WorkConn.WrapWorkConn | rust_frp_client/src/work_conn.rs:335-358 | fails exactly when encryption is asked for without a usable key; otherwise compression inside, encryption outside, sealing under the given random prefix |
| WorkConn.WrappedArePeers | rust_frp_server/src/work_conn.rs:455-475 | both ends wrapping alike at the same point of the stream are peers in both directions |
| WorkConn.StackedWire | rust_frp_client/src/work_conn.rs:336-356 | the socket carries the compressed frames of the concatenated sealed frames |
| WorkConn.Act | rust_frp_net/src/compress.rs:360-378 | one poll or delivery keeps both ends connected; what was accepted and delivered grows by exactly what the answer says, and it is pending or failed only for a reason |
| WorkConn.RunSchedule | rust_frp_net/src/crypto.rs:243-357 | after any schedule of polls and deliveries, the bytes given by an end's reads are a prefix of those its peer's writes were told were taken, and all of them once drained, in both directions |
| WorkConn.RunToEnd | rust_frp_net/src/crypto.rs:292-356 | over any schedule in which nobody writes after its own shutdown completed: an end that sees the clean end was given exactly what the other was told it wrote, and is never cut short |
| WorkConn.OpenPair | rust_frp_net/src/compress.rs:363-368 | a connected pair exists for every choice of layers |
| Messages.MessagesMatch | rust_frp_core/src/lib.rs:723-785 | every encoding within the limit is framed and read back |
| Messages.MessageWriter.Poll | rust_frp_core/src/lib.rs:770-785 | what the connection acknowledged plus what is left is the frames of the messages, for any partial writes; pending only if the transport was; a finished message has left every layer unless the transport was pending or there is trouble |
| Messages.MessageReader.Poll | rust_frp_core/src/lib.rs:723-747 | returns a message exactly when the one-shot parser finds it next; an over-long length is rejected with only its four bytes taken; a failed read means the stream ended or broke before the next message was complete |
| Messages.MessagesFaithful | rust_frp_core/src/lib.rs:708-785 | messages over any stack come out in order and unchanged; exactly the list sent once drained |
| Messages.RunMessages | rust_frp_core/src/lib.rs:708-785 | after any schedule of sends, polls, other traffic and deliveries, the messages the reader returned are the first of those handed to the writer, and all of them once everything came through |
| Messages.OverLimitStops | rust_frp_core/src/lib.rs:732-738 | an over-limit message is a bad frame: everything before it is read, nothing after |
| StcpRegistry.RunKeeps | rust_frp_client/src/transport.rs:343-453 | no empty list, unique entries of live waiters only, absent exactly when resolved, in every interleaving |
| StcpRegistry.Registers | rust_frp_client/src/transport.rs:355-380 | a drawn id becomes a live waiter without outcome, for the bridge it was drawn for, in the table, waiting for replies from then on |
| StcpRegistry.NeverLost | rust_frp_client/src/transport.rs:434-448 | as long as a live waiter has no outcome, its next poll gives the first reply resolved for its bridge since it registered, even past the deadline; without one it times out exactly past the deadline |
| StcpRegistry.OwnReplyOnly | rust_frp_client/src/transport.rs:383-395 | a finished wait got a reply of its own bridge resolved after it registered, or timed out; never "dropped" |
| StcpRegistry.OutcomeFinal | rust_frp_client/src/transport.rs:423-448 | an outcome never changes in any later run, and a dropped handle never gets one |
| StcpRegistry.OtherBridgesUntouched | rust_frp_client/src/transport.rs:382-395 | resolving a bridge does not touch waiters of other bridges |
| StcpRegistry.AbsentIffResolved | rust_frp_client/src/transport.rs:383-412 | a live waiter is missing from the table exactly when its bridge was resolved after it entered |
| StcpRegistry.NoLeak | rust_frp_client/src/transport.rs:423-453 | no entries remain once all handles are dropped |
| StcpRegistry.StcpRespRegistry.ResolveBridge | rust_frp_client/src/transport.rs:383-395 | the sending loop performs the resolve action |
| StcpRegistry.StcpRespRegistry.Cancel | rust_frp_client/src/transport.rs:397-412 | removes one waiter, and the key with the last |
| StcpRegistry.StcpRespRegistry.PollWait | rust_frp_client/src/transport.rs:434-448 | one poll of the wait; never the closed-channel error |
| KcpRoutes.RunKeeps | rust_frp_net/src/lib.rs:1430-1506 | a source has route i exactly when i is the last id accepted for it and still live, in every interleaving |
| KcpRoutes.StaleGuardHarmless | rust_frp_net/src/lib.rs:1154-1167 | dropping an older connection leaves every route alone |
| KcpRoutes.RoutedToNewest | rust_frp_net/src/lib.rs:1438-1458 | a datagram goes to the newest connection of its source while that is live, else it is queued exactly when there is room |
| KcpRoutes.AcceptsInOrder | rust_frp_net/src/lib.rs:1452-1490 | first packets are accepted in order, none lost, each once, and every connection is that of a source whose packet was taken |
| KcpRoutes.NoLeak | rust_frp_net/src/lib.rs:1148-1167 | the table is empty once all connections are gone |
| KcpRoutes.KcpListener.DropRoute | rust_frp_net/src/lib.rs:1154-1167 | the guard's drop performs the drop action |
| KcpRoutes.KcpListener.OnDatagram | rust_frp_net/src/lib.rs:1440-1458 | one turn of the reader |
| MuxDriver.RunKeeps | rust_frp_net/src/mux.rs:161-237 | calls in order, outcomes and replies consistent, inbound streams in order, for any connection and any cancellations |
| MuxDriver.RepliesAreFifo | rust_frp_net/src/mux.rs:187-204 | the k-th reply answers the k-th call that entered the channel, and no call is answered twice |
| MuxDriver.CallGetsItsGrant | rust_frp_net/src/mux.rs:187-204 | the k-th call in the channel gets the k-th answer of the connection, the same stream or the same error, exactly when there is one and it was not cancelled; inbound streams are those the peer opened |
| MuxDriver.CommandsInOrder | rust_frp_net/src/mux.rs:205-216 | opens and closes are taken in the order they were sent, none lost while the driver lives |
| MuxDriver.ClosedOnlyWhenStopped | rust_frp_net/src/mux.rs:122-136 | "closed" is reported only once the driver has stopped |
| MuxDriver.StopsIff | rust_frp_net/src/mux.rs:175-233 | the driver stops exactly when the connection ends or fails, a close is done, or the session is gone and nothing is left to do |
| MuxDriver.OwnReply | rust_frp_net/src/mux.rs:122-136 | a call that returned a stream or an error returned the reply to its own request |
| MuxDriver.OutcomeFinal | rust_frp_net/src/mux.rs:131-135 | an outcome never changes in any later run |
| MuxDriver.ExitSettlesAll | rust_frp_net/src/mux.rs:217-237 | once the driver is gone every call has its outcome, or reports "closed" at its next poll |
| MuxDriver.ServesAll | rust_frp_net/src/mux.rs:187-226 | while the connection answers requests and the inbound channel has room for what the peer opens, every call in the channel is answered within a bounded number of turns |
| MuxDriver.AcceptsInOrder | rust_frp_net/src/mux.rs:141-147 | accepted streams are those the peer opened, in order, none lost while the session is in use |
| MuxDriver.Driver.TakeTurn | rust_frp_net/src/mux.rs:175-233 | one turn of the loop: the polls in their order and the event they yield |
| Pool.RunKeeps | rust_frp_net/src/pool.rs:220-382 | in every interleaving at the awaits, dropped operations included: created = closed + in use + idle vector + in flight, in use = handles + connections being given back, permits add up, idle at most max_size, no connection in two places |
| Pool.InUseCovers | rust_frp_net/src/pool.rs:283-316 | whoever is about to decrement the in-use count finds it positive |
| Pool.CountedIsRemoved | rust_frp_net/src/pool.rs:346-352 | a cleanup counts at most what it removes, and as much exactly when no connection expires between the two passes |
| Pool.BalancedIff | rust_frp_net/src/pool.rs:220-382 | with nothing under way, and no future dropped between closing or pushing a connection and counting that, the counts balance exactly when no cleanup slipped |
| Pool.BalanceCanBeLost | rust_frp_net/src/pool.rs:346-365 | a run in which a closed connection is never counted |
| Pool.DroppedGetLosesCount | rust_frp_net/src/pool.rs:230-236 | a run in which a get dropped while waiting to count a closed connection loses it, without any slip |
| Pool.IdleCountGoesStale | rust_frp_net/src/pool.rs:230-365 | the steps that make a right count wrong: a change of the vector, or a cleanup that publishes after one |
| Pool.IdleCount | rust_frp_net/src/pool.rs:247-380 | whenever nothing is owed, if no owing task was dropped: too low exactly when the vector is not empty and the last publication was a cleanup's, late by more connections put in than taken out; over a non-empty vector right exactly when it was late by none |
| Pool.CalmIdleCount | rust_frp_net/src/pool.rs:247-380 | if nothing touches the vector between a cleanup's unlock and its publication: never too low when nothing is owed, and wrong exactly when non-zero over an empty vector |
| Pool.IdleCountCanBeTooLow | rust_frp_net/src/pool.rs:354-365 | a put between a cleanup's unlock and its publication: one reported too few |
| Pool.IdleCountCanBeStale | rust_frp_net/src/pool.rs:230-270 | a get that refuses the only idle connection and fails to dial: one reported too many |
| Pool.ReusedIsUsable | rust_frp_net/src/pool.rs:228-258 | get reuses the most recently returned usable connection of the vector it locked |
| Pool.DialsOnlyWhenNoneUsable | rust_frp_net/src/pool.rs:228-265 | get dials only after refusing, for cause, every connection of the vector it locked |
| Pool.ExpiredIff | rust_frp_net/src/pool.rs:112-116 | expired means idle longer than the idle limit since the last use, or older than the lifetime since the creation |
| Pool.KeepsUnexpired | rust_frp_net/src/pool.rs:351-352 | cleanup keeps exactly the connections not expired when looked at |
| Pool.PutDecides | rust_frp_net/src/pool.rs:281-317 | put closes an unhealthy connection, closes it if the pool is full, and otherwise appends it |
| Pool.HandsOut | rust_frp_net/src/pool.rs:246-277 | a reused connection with its use recorded, or a new one created and last used when handed out |
| Pool.ReusedIsCounted | rust_frp_net/src/pool.rs:248-254 | the reuse count is the number of connections handed out again |
| Pool.ConnPool.PopNext | rust_frp_net/src/pool.rs:230-261 | one turn of the popping loop, or the release of the lock before dialling |
| Pool.ConnPool.LockForPut | rust_frp_net/src/pool.rs:294-309 | pushes, or closes the connection if the pool is full |
| Pool.ConnPool.PublishReturn | rust_frp_net/src/pool.rs:283-316 | the statistics of put, on its three ways out; the in-use count does not go below zero |
| Pool.ConnPool.CleanupExpired | rust_frp_net/src/pool.rs:342-360 | both passes, with their own clock readings, up to the unlock |
| Der.DerLen | rust_frp_auth/src/lib.rs:806-820 | the loop yields the shortest definite length octets |
| Der.DerInteger | rust_frp_auth/src/lib.rs:823-837 | the loop yields the INTEGER element of the stripped, padded bytes |
| Der.LenRoundTrip | rust_frp_auth/src/lib.rs:806-820 | a decoder that accepts only minimal definite lengths (X.690 sections 8.1.3 and 10.1) reads the length back |
| Der.IntegerRoundTrip | rust_frp_auth/src/lib.rs:823-837 | a decoder that accepts only minimal two's complement (X.690 section 8.3) reads the number back, exactly when the input is not empty |
| Der.RsaRoundTrip | rust_frp_auth/src/lib.rs:842-849 | the encoding decodes to the two numbers, exactly when neither input is empty |
| Der.RsaInjective | rust_frp_auth/src/lib.rs:842-849 | two keys encode alike exactly when they are the same numbers |
| Chunked.DecodeChunked | rust_frp_net/src/http.rs:370-394 | the loop terminates on every input and yields the specified body |
| Chunked.SizeLine | rust_frp_net/src/http.rs:380-385 | the size line of a well-formed chunk is read exactly when no blank precedes an extension |
| Chunked.LenientSize | rust_frp_net/src/http.rs:380-385 | blanks around the digits and a plus sign before them are accepted beyond the RFC |
| Chunked.OneChunk | rust_frp_net/src/http.rs:372-393 | one well-formed chunk, in any context |
| Chunked.DecodesMessage | rust_frp_net/src/http.rs:370-394 | every complete chunked message decodes to the data of the chunks before the first unreadable one, and to its whole body exactly when there is none |
| Chunked.TruncationIsPrefix | rust_frp_net/src/http.rs:373-393 | any truncation of any input decodes to a prefix of the full result |
| Chunked.BlankBeforeExtensionStops | rust_frp_net/src/http.rs:381-385 | a well-formed chunk the decoder does not read |
| Form.EncodeForm | rust_frp_net/src/http.rs:292-298 | the loops yield the specified form octets |
| Form.EncodedAlphabet | rust_frp_net/src/http.rs:302-314 | only ASCII letters, digits, `-`, `.`, `_`, `~`, `+` and `%` appear in an encoded key or value, so no separator |
| Form.FormRoundTrip | rust_frp_net/src/http.rs:292-314 | the parser of the URL Standard section 5 gives back every list of pairs, byte for byte |
| Stun.ParseMappedAddress | rust_frp_net/src/stun.rs:87-152 | in bounds and terminating on every input, with the specified result |
| Stun.ParsesResponse | rust_frp_net/src/stun.rs:106-151 | for every well-formed response, the first usable mapped address |
| Stun.XorRoundTrip | rust_frp_net/src/stun.rs:130-141 | encoding an IPv4 address and port (RFC 5389 section 15.2) and parsing is the identity |
| Stun.PlainRoundTrip | rust_frp_net/src/stun.rs:142-144 | the same for a plain MAPPED-ADDRESS |
| Stun.RejectsOthers | rust_frp_net/src/stun.rs:88-105 | which datagrams are too short, of another type, or without the magic cookie, in octets |
| Stun.XorIsBitwise | rust_frp_net/src/stun.rs:136-141 | the exclusive or used is the bitwise one |
| EnvVars.ReplaceEnvVars | rust_frp_config/src/loader.rs:436-448 | the loop performs exactly the specified replacements |
| EnvVars.TerminatesIff | rust_frp_config/src/loader.rs:438-446 | a set of characters allowed in values makes every text end exactly when it lacks one of `$`, `{`, `}` |
| EnvVars.Terminates | rust_frp_config/src/loader.rs:438-446 | if `$`, `{` or `}` is in no value, at most as many rounds as the text has of that character |
| EnvVars.SelfReferenceLoops | rust_frp_config/src/loader.rs:438-446 | a value referring to itself never ends, under any name |
| EnvVars.FuelIrrelevant | rust_frp_config/src/loader.rs:436-448 | a result does not depend on the bound used to state it |
| EnvVars.ResultShape | rust_frp_config/src/loader.rs:438-447 | at exit there is no `${`, or no closing brace after the first |
| EnvVars.PlainUnchanged | rust_frp_config/src/loader.rs:437-447 | text without `${` is unchanged |
| EnvVars.ExpandsToMeaning | rust_frp_config/src/loader.rs:425-435 | with no `${` in the meaning before the last reference: every reference is replaced by its value, once, and nothing else changes, exactly when the meaning holds no `${` with a closing brace after it |
| EnvVars.SetOrUnset | rust_frp_config/src/loader.rs:440-442 | a reference gives way to the value of its variable, and disappears if that is not set |
| EnvVars.ValueCanFormReference | rust_frp_config/src/loader.rs:440-442 | a value can complete a new reference, which is expanded again |
| WebSocket.ExactlyOnce | rust_frp_net/src/lib.rs:262-330 | as long as no flush completes while a non-empty write is unanswered, submitted payloads are the acknowledged bytes plus at most the one pending write |
| WebSocket.ExactlyOnceIff | rust_frp_net/src/lib.rs:262-330 | over whole runs of a retrying caller with all writes answered: no byte doubled exactly when no such flush completed |
| WebSocket.AnswersWrite | rust_frp_net/src/lib.rs:262-304 | which answers of the sink make a write an error, pending, or done, and with which length |
| WebSocket.FlushBeforeRetryDuplicates | rust_frp_net/src/lib.rs:306-318 | a completed flush before the retry makes the bytes go out twice |
| WebSocket.WebSocketConn.PollWrite | rust_frp_net/src/lib.rs:262-304 | one poll performs the write action |
| WebSocket.WebSocketConn.PollRead | rust_frp_net/src/lib.rs:215-255 | bytes returned plus the buffer are the payloads consumed; a zero-byte read is an empty data message, never the end |
| WebSocket.ReadsWhatWasSubmitted | rust_frp_net/src/lib.rs:211-330 | from a writer's run to a reader's adapter: bytes read are a prefix of those acknowledged or pending, and all of them once everything is consumed and answered |
| Stack.AsksInTurn | rust_frp_net/src/crypto.rs:177-204 | every stack retries an unanswered write with the same bytes before anything else, flushes included, whatever its callers do |
| Stack.FaithfulAhead | rust_frp_net/src/crypto.rs:177-204 | safety holds even when the peer has already received a write that has not been acknowledged yet |
| Stack.RunLatched | rust_frp_net/src/crypto.rs:243-357 | once an error is latched, nonce exhaustion included, every later call of any kind answers it, and over any run not a byte is accepted, handed out or sent, nor is the transport closed |
| WebSocketStack.InTurnIsDisciplined | rust_frp_net/src/lib.rs:262-330 | asking in turn is the discipline the WebSocket adapter needs |
| WebSocketStack.FramesOnce | rust_frp_net/src/lib.rs:211-330 | the frames of any layer cross a WebSocket exactly once and in order |
| WebSocketStack.EncryptedOnce | rust_frp_net/src/crypto.rs:177-204 | the sealed records decode at the other end of a WebSocket, none twice; all of them once drained |
| WebSocketStack.CompressedOnce | rust_frp_net/src/compress.rs:89-110 | the same for compressed blocks, whatever is stacked above |
| WebSocketStack.FaithfulOverWebSocket | rust_frp_net/src/lib.rs:211-330 | peer stacks of any height over a WebSocket: bytes delivered are a prefix of bytes accepted, no frame looks bad; all of them once flushed, consumed and caught up |

## Left out

- Streams.Transport.PollWrite: an arbitrary transport; wakers, tasks and real time are not modelled, a poll is a call.
- Streams.EncryptedStream.SealIntoOutBuf: ring's seal is total here; the original also reports a failed seal, which cannot happen for 16 KB records.
- Streams.CompressedStream.CompressIntoOutBuf: snap's compressor is total here; the original reports inputs over 4 GB, which chunks never are.
- Messages.MessageWriter.Start: a failing serde_json serialisation is not modelled.
- Error values are their kinds; message texts are not modelled.
- Confidentiality and authenticity of AES-GCM: only that opening undoes sealing is assumed, so no claim is made about tampered frames that happen to open.
- The random nonce prefix is an input; collisions between streams are not considered.
- KcpRoutes.RunKeeps: route ids are unbounded; the 64-bit counter of the original would wrap after 2^64 accepts.
- StcpRegistry.RunKeeps: waiter ids are unbounded for the same reason; mutex poisoning is ignored as the original does. `resolve` is one step: a waiter polls its channel without the lock, so on another thread it can time out after its entry was taken out and before its reply is sent; the model has that timeout just before the resolve.
- Pool.RunKeeps: the counters are unbounded; health checks, dialling and the clock are inputs. A connection put into a pool it was not taken from is not considered.
- WebSocketStack.FramesOnce: tungstenite's own framing is foreign; a message is a payload, delivered in order.
- MuxDriver.RunKeeps: yamux itself, GoAway and stream contents are foreign; what the connection answers is an input.
- EnvVars.ReplaceEnvVars: takes a bound on the number of rounds, because the original need not terminate.
- Chunked.DecodeChunked: a size that overflows the 64-bit offset is a separate outcome; the original panics there.
- The wire v2 codec, TLS, QUIC, KCP internals, HMAC and OIDC key fetching.
- NAT classification, STUN probing, the admin API, plugins, configuration validators: each settled by one branch or plumbing.
