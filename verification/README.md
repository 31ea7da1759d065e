# A Dafny model of the DCP repository's state machines and codecs

The repository (DCP, a binary companion protocol to MCP) is made of small state machines and codecs whose fast code has
to agree with something simple. This project models them in Dafny and proves that agreement:

* **Streaming stack.** `RingLayout`, `RingBuffer` and `RingSteps` model the single-producer single-consumer byte ring with
  its separate credit counter, once as an object and once as interleaved atomic steps that refine a FIFO queue.
  `Chunks`, `StreamModel` and `DcpStreams` model the framed, numbered chunks on top of it, `ChunkWrites`,
  `ChunkReads` and `ReadAlone` the parts of one write or read, among the steps of the other thread or alone.
* **Multiplexing.** `MuxFrames`, `MuxSpec`, `MuxRuns` and `MuxConnection` model the connection: frame headers, the stream
  table, bounded queues, rollback, and the trace of frames it puts on the wire. `MuxHistory` tells every answer from what
  happened before, without statuses and buffers. `PipelineSpec`, `Pipeline`, `ClientRuns` and `RequestDelivery` model the
  client that sends requests over it and who gets which answer.
* **Shutdown.** `ShutdownSteps` and `Shutdown` model the check / increment / check-again admission protocol.
* **Codecs.** `DeltaSpec`/`Delta` (XOR delta with run-length encoding), `FramingSpec`/`Framing` (length-prefixed frames
  arriving in pieces), `SchemaCodec`/`SchemaConversion`/`SchemaPath` (the binary schema format and its MCP conversion).
* **Templates and roots.** `TemplateSpec`/`Templates`/`MatcherLaws`/`PrinterLaws` (two URI template matchers and the
  client's printer), `RootSpec`/`Roots`/`PathLaws` (normalization of file URIs and the containment test).
* **Arguments.** `Schemas`, `Arguments` and `ArgumentLaws` (JSON arguments to packed bytes, the validator, typed reads).
* **Sessions and replay.** `NonceSpec`/`Nonces`, `RequestWindow`, `Capabilities`, `RouterSpec`/`Router`,
  `AdapterSpec`/`Adapter`.

Objects the program updates in place are classes here; their methods are proved against functions on values, and the
laws are proved about those functions, over every input or every run. `Bits` and `Strings` hold the arithmetic and the
string search the rest shares.

Conventions. A byte is an integer below 256 and a string a sequence of characters. Widths that matter are written out:
`% 256`, `% 0x1_0000`, `U16`, `U32`, `U64`. Atomic operations are sequentially consistent. Hash functions, UTF-8
validity, signature checks and clocks are parameters. One public asynchronous call of the connection, the client or the
adapter is one step; only the ring and the shutdown coordinator are taken apart further. The clock is read once or twice
in a call, and each reading is a parameter of its own.

Where the code does not do what its surroundings suggest, the code is modelled as it is, and the exact condition under
which the expected property holds is proved:

* A chunk is written in two pushes after a space test that does not look at credit. Between the consumer's store of its
  read position and its return of the credit the second push can be refused
  (`ChunkWrites.NeverRefusedExactlyWithCredit`, `ChunkWrites.TornExactly`, `ChunkWrites.TornWriteIsReachable`); what
  later reads make of it is in `ChunkReads.TornChunkIsFilledUp`.
* The frame encoder truncates a length to 32 bits (`FramingSpec.EncodedComesBack`).
* The schema writer truncates lengths to 8 and 16 bits (`SchemaCodec.SurvivesExactlyWhenItFits`).
* Arguments are laid out over all declared fields but validated only up to the furthest supplied one
  (`Arguments.EncodedArgumentsValidate`, `Arguments.OptionalTailIsRefused`).
* The part matcher takes the leftmost occurrence of every literal and can therefore refuse renderings of its template
  (`MatcherLaws.RenderingsAreMatchedExactly`, `TemplateSpec.MatchesMeansEarliest`), and it accepts more than the
  character scan (`MatcherLaws.MatchersAgreeExactly`).
* The client's printer substitutes into values it has just inserted (`PrinterLaws.PrintsExactlyWithoutBrace`).
* A second caller of `shutdown` can return before new work is refused: admission ends with the flag
  (`ShutdownSteps.AdmissionEndsExactlyWithFlag`, `ShutdownSteps.InitiatedRefusesOnceStored`,
  `ShutdownSteps.SecondCallerMayReturnEarly`).
* Rolling back a failed request also removes frames of earlier uses of the same identifier
  (`PipelineSpec.FailedSendRestores`).
* The credit counter has 32 bits and the capacity does not (`RingLayout.OrderIsLeast`).
* Closing a stream locally never removes it from the table, even when it becomes closed (`MuxRuns.RemovalIsExact`).
* The nonce store relies on a clock that does not go back behind a cleanup (`NonceSpec.NoReplayIsAccepted`,
  `NonceSpec.ClockSetBackAdmitsReplay`).

## Model

| member | source | states |
|---|---|---|
| `RingLayout.MaskIsSlot` | src/stream/ring_buffer.rs:141-142 | masking a position with a power-of-two capacity minus one gives the slot reached by wrapping around |
| `RingLayout.OrderIsLeast` | src/stream/ring_buffer.rs:85-95 | the capacity chosen is the least power of two that is at least 16 and holds the request, and it fits the 32-bit credit counter if and only if the request is at most 2^31 |
| `RingLayout.DistinctSlots` | src/stream/ring_buffer.rs:141-156 | positions less than one capacity apart never share a slot |
| `RingLayout.OverwriteAppends` | src/stream/ring_buffer.rs:149-159 | bytes written behind the unread ones, within the capacity, append to them and disturb none, across the wrap-around |
| `RingLayout.WindowDrops` | src/stream/ring_buffer.rs:186-187 | advancing the read position drops the oldest bytes |
| `RingBuffer.StreamRingBuffer.constructor` | src/stream/ring_buffer.rs:85-95 | an empty ring of that capacity, with the capacity modulo 2^32 as credit; credit and capacity agree if and only if the request is at most 2^31 |
| `RingBuffer.StreamRingBuffer.TryReserve` | src/stream/ring_buffer.rs:32-48 | takes credit exactly when there is enough, and otherwise changes nothing |
| `RingBuffer.StreamRingBuffer.Release` | src/stream/ring_buffer.rs:51-54 | gives credit back |
| `RingBuffer.StreamRingBuffer.CopyIn` | src/stream/ring_buffer.rs:149-156 | the one or two block copies of a push fill exactly the slots behind the unread bytes |
| `RingBuffer.StreamRingBuffer.Push` | src/stream/ring_buffer.rs:130-161 | all or nothing: appends the data, or reports lack of space and leaves the contents alone |
| `RingBuffer.StreamRingBuffer.CopyOut` | src/stream/ring_buffer.rs:177-183 | the one or two block copies of a read yield the oldest bytes and touch nothing else in the caller's buffer |
| `RingBuffer.StreamRingBuffer.Pop` | src/stream/ring_buffer.rs:165-191 | removes and returns the oldest bytes, as many as fit the caller's buffer |
| `RingBuffer.StreamRingBuffer.Peek` | src/stream/ring_buffer.rs:195-216 | returns the oldest bytes and leaves the ring as it was |
| `RingBuffer.StreamRingBuffer.Clear` | src/stream/ring_buffer.rs:219-226 | empties the ring and restores all credit |
| `RingSteps.StoreHitsFreeSlot` | src/stream/ring_buffer.rs:130-157 | in every reachable state no byte store of the producer lands in an unread slot or in one it has already filled |
| `RingSteps.StepKeepsInv` | src/stream/ring_buffer.rs:32-54 | every atomic step of either thread keeps the ring invariant |
| `RingSteps.RunIsSafe` | src/stream/ring_buffer.rs:130-191 | in every interleaving the bytes popped are a prefix of the bytes pushed, and free, reserved, unread and consumed-but-unreleased bytes add up to the capacity |
| `RingSteps.StepRefinesFifo` | src/stream/ring_buffer.rs:130-216 | each atomic step is an enqueue, a dequeue, a look at the front, or nothing, on a queue of bytes |
| `RingSteps.RunRefinesFifo` | src/stream/ring_buffer.rs:130-216 | every interleaving is a run of a FIFO queue of bytes |
| `RingSteps.IdleCreditIsFreeSpace` | src/stream/ring_buffer.rs:104-121 | whenever both threads are idle the credit equals the free space: none is ever lost |
| `RingSteps.PushAlone` | src/stream/ring_buffer.rs:130-161 | the steps of an uninterrupted push have the effect of the sequential push |
| `RingSteps.PopAlone` | src/stream/ring_buffer.rs:165-188 | the steps of an uninterrupted pop remove the oldest bytes, with only the credit still to be returned |
| `RingSteps.RetryLooksAgain` | src/stream/ring_buffer.rs:32-48 | after a failed exchange the producer takes or refuses by the credit of that moment |
| `RingSteps.PopOfNothing` | src/stream/ring_buffer.rs:165-171 | a consumer that finds or wants nothing changes nothing |
| `RingSteps.SpaceIsCreditedOutsideTheWindow` | src/stream/dcp_stream.rs:81-86 | between two pushes the space test implies credit for every length if and only if the consumer is not between storing its position and returning credit |
| `RingSteps.WriteIsTornInsideTheWindow` | src/stream/dcp_stream.rs:84-111 | with credit for the header only, the uninterrupted pushes of a chunk publish the header and are refused the payload |
| `ChunkWrites.NeverRefusedExactlyWithCredit` | src/stream/dcp_stream.rs:81-111 | a chunk write that passed the space test has neither push refused in any interleaving with the consumer if and only if the credit, which the writer can read, covers header and payload |
| `ChunkWrites.WholeWithCredit` | src/stream/dcp_stream.rs:104-111 | with that credit, in every interleaving, the bytes published are those of the pushes begun, and after the last one header and payload behind what was there |
| `ChunkWrites.TornExactly` | src/stream/dcp_stream.rs:81-111 | some interleaving publishes part of an admitted write and refuses the rest if and only if the credit covers the header and not the whole |
| `ChunkWrites.TornWriteIsReachable` | src/stream/ring_buffer.rs:186-188 | from a fresh 16-byte ring, an empty chunk written and read leaves the next chunk to be torn |
| `ChunkReads.MoveKeeps` | src/stream/dcp_stream.rs:127-166 | every step of a read, and of the producer beside it, keeps reader and ring in agreement with the chunks published |
| `ChunkReads.ReadIsWhole` | src/stream/dcp_stream.rs:127-166 | a read made of look, length check and pop returns, in every interleaving with a producer that publishes chunks part by part, the next chunk whole or nothing, and the chunk if it was there from the start; the read position then lies behind exactly what was returned |
| `ChunkReads.ReadDuringWrite` | src/stream/dcp_stream.rs:72-166 | in every interleaving of a read with a write the credit covers, the read returns the oldest unread chunk, or, if there was none, nothing or the chunk being written, whole |
| `ChunkReads.TornChunkIsFilledUp` | src/stream/dcp_stream.rs:127-166 | behind a torn write a read returns nothing until as many bytes follow as the lone header announces, then these bytes as its payload, and the next read starts behind them |
| `ReadAlone.ReadsAlone` | src/stream/dcp_stream.rs:127-166 | an uninterrupted read of any unread bytes, well formed or not, gives the answer of the sequential read, takes exactly the bytes it answers and returns their credit |
| `Chunks.HeaderRoundTrip` | src/binary/stream.rs:78-94 | a chunk header is read back exactly when its flags are admitted, and refused otherwise |
| `Chunks.AdmittedFlags` | src/binary/stream.rs:17-28 | of all flag bytes the parser admits first, continuation, last, first-and-last and error |
| `Chunks.ReadsNextFrame` | src/stream/dcp_stream.rs:127-166 | on the encoding of any frames the next one is read whole, with its number, and the encoding of the others remains |
| `Chunks.FlagsForTell` | src/stream/dcp_stream.rs:91-99 | the flags of every chunk tell its number and whether it ends the stream |
| `Chunks.ReadIsDecided` | src/stream/dcp_stream.rs:127-166 | on any bytes: other flags are refused at once, a chunk that is not whole is waited for, and a whole one is taken exactly if its number is the expected one |
| `StreamModel.WriteKeepsValid` | src/stream/dcp_stream.rs:72-123 | an accepted write appends one encoded frame; the buffer always holds whole frames within the capacity |
| `StreamModel.ReadKeepsValid` | src/stream/dcp_stream.rs:127-166 | a read on such a buffer never fails and removes exactly one frame |
| `StreamModel.StreamIsExact` | src/stream/dcp_stream.rs:72-166 | in every run no read fails, payloads come back in order numbered 0, 1, 2, ... modulo 2^32 with their lengths, a chunk's flags have the first bit exactly at number 0, the last bit exactly if it ends the stream, the continuation bit exactly if neither and never the error bit, and only the last accepted frame can be a last one |
| `StreamModel.WriteIsAnswered` | src/stream/dcp_stream.rs:72-123 | in every state a run reaches, exactly which writes are accepted and why the others are refused, and the number, length and flags of the chunk an accepted one answers |
| `StreamModel.CompleteIsFinal` | src/stream/dcp_stream.rs:72-77 | nothing is accepted after a last chunk, whatever follows |
| `StreamModel.DrainReturnsAll` | src/stream/dcp_stream.rs:127-166 | reading to the end returns every accepted payload |
| `DcpStreams.DcpStream.constructor` | src/stream/dcp_stream.rs:43-53 | nothing written, over a ring of at least the requested capacity; a usable stream if and only if the request is at most 2^31 |
| `DcpStreams.DcpStream.WriteChunk` | src/stream/dcp_stream.rs:72-123 | does what the stream model says, with its errors, and a refused write changes neither bytes nor checksum input |
| `DcpStreams.DcpStream.Append` | src/stream/dcp_stream.rs:88-122 | header and payload reach the ring as one encoded frame with the next number, modulo 2^32, and the right flags |
| `DcpStreams.DcpStream.ReadChunk` | src/stream/dcp_stream.rs:127-166 | answers and leaves behind what the byte-level reader says on any buffer, and on a valid stream the next accepted payload |
| `DcpStreams.DcpStream.Reset` | src/stream/dcp_stream.rs:209-215 | from any state, a fresh stream |
| `MuxFrames.HeaderCodec` | src/multiplex/header.rs:149-175 | decoding inverts encoding whatever follows, and a decoded header re-encodes to its bytes |
| `MuxFrames.FlagBits` | src/multiplex/header.rs:44-66 | the flag tests are the low four bits and every other bit is unknown |
| `MuxFrames.ShapeMeaning` | src/multiplex/connection.rs:536-590 | the frames admitted are data, a bare SYN, and FIN, RST or ACK alone or ACK with one of the other two, with a payload only on data and nothing but empty frames on the control stream |
| `MuxRuns.LiveMeans` | src/multiplex/connection.rs:346-375 | a stream is live on a wire exactly when some opener of it has no FIN or RST behind it |
| `MuxRuns.WellOrderedMeans` | src/multiplex/connection.rs:346-375 | the inductive order on wires is: every data frame has such an opener in front of it |
| `MuxRuns.OpIsLocal` | src/multiplex/connection.rs:256-534 | a call touches at most one stream and queues at most one frame, of that stream |
| `MuxRuns.WithoutKeepsOthers` | src/multiplex/connection.rs:618-623 | removing one stream's queued frames leaves what the wire says about every other stream |
| `MuxRuns.WithoutIsFilter` | src/multiplex/connection.rs:618-623 | what rollback leaves of two queues in a row is what it leaves of each, in order |
| `MuxRuns.RollbackKeepsWire` | src/multiplex/connection.rs:618-623 | rollback keeps the wire invariant of all streams |
| `MuxRuns.StepKeepsInv` | src/multiplex/connection.rs:256-685 | every call keeps accounting, wire order and delivery |
| `MuxRuns.WireIsSafe` | src/multiplex/connection.rs:256-685 | in every run, over frames taken and frames queued, no frame belongs to stream 0 and every data frame follows a SYN or ACK of its stream with no FIN or RST in between |
| `MuxRuns.ConnectionIsAccounted` | src/multiplex/connection.rs:121-189 | in every run the counter is the number of streams, identifiers are in 1..65535, unread byte counts are exact and limited, the queue is limited, and a closed connection has neither streams nor frames |
| `MuxRuns.StreamsAreFaithful` | src/multiplex/connection.rs:346-401 | in every run a stream that is not reset holds in its send buffer exactly its payloads on the wire since it was opened, and the payloads received are the accepted ones in order, without those still buffered |
| `MuxRuns.RemovalIsExact` | src/multiplex/connection.rs:404-425 | a stream leaves the table exactly by close, rollback, or a FIN from the peer after the local side finished |
| `MuxHistory.NextKeepsTold` | src/multiplex/connection.rs:256-685 | every call keeps statuses, identifiers and limits in agreement with what has happened to each stream since it was opened |
| `MuxHistory.RunsAreForetold` | src/multiplex/connection.rs:256-534 | in every run a stream is reset exactly if it was reset here, by the peer or by an overflow, otherwise it can send exactly if it was not closed here and receive exactly if the peer sent no FIN; the connection is closed exactly if it was closed; the next call has the one answer, and queues the frames, that the calls, the bytes delivered and the queue so far determine without any status or buffer |
| `MuxHistory.AnswerIsForetold` | src/multiplex/connection.rs:256-534 | the same for the answer of one call in any reachable state: who is refused and why, which identifier is opened in the cycle of 65535, what a receive returns |
| `MuxHistory.FramesAreAnnounced` | src/multiplex/connection.rs:256-534 | a call queues SYN, ACK, data, FIN or RST exactly with its answer, and an RST for a frame of an unknown stream |
| `MuxHistory.EntersExactly` | src/multiplex/connection.rs:256-343 | a stream enters the table, fresh, exactly when its opening call or SYN is answered so |
| `MuxHistory.PeerEndsStream` | src/multiplex/connection.rs:456-534 | once the peer reset a stream sends fail as closed and receives with the stream's error, and after its RST or FIN its data is refused |
| `MuxHistory.ReceivesAllAccepted` | src/multiplex/connection.rs:378-401 | on a stream that was not reset a receive answers nothing exactly when everything accepted has been returned |
| `MuxHistory.WireIsAdmitted` | src/multiplex/connection.rs:536-590 | in every run the peer finds every frame taken or queued well formed, exactly unless its payload is 2^32 bytes or longer |
| `MuxConnection.StreamState.QueueSend` | src/multiplex/connection.rs:122-128 | buffers the payload exactly in the states that can send |
| `MuxConnection.StreamState.QueueRecv` | src/multiplex/connection.rs:131-148 | buffers and counts a payload exactly when the state receives and the limit allows it |
| `MuxConnection.StreamState.TakeRecv` | src/multiplex/connection.rs:159-163 | removes and returns the oldest payload and its bytes from the count |
| `MuxConnection.StreamState.CloseLocal` | src/multiplex/connection.rs:166-172 | the half-close transition of the local side |
| `MuxConnection.StreamState.CloseRemote` | src/multiplex/connection.rs:175-181 | the half-close transition of the remote side |
| `MuxConnection.MultiplexedConnection.constructor` | src/multiplex/connection.rs:230-243 | an open, empty connection with the given limits |
| `MuxConnection.MultiplexedConnection.OpenStream` | src/multiplex/connection.rs:256-301 | takes the next identifier, skipping 0, registers and announces it, or undoes the registration |
| `MuxConnection.MultiplexedConnection.AcceptStream` | src/multiplex/connection.rs:304-343 | registers the peer's identifier and acknowledges it, or undoes the registration |
| `MuxConnection.MultiplexedConnection.Send` | src/multiplex/connection.rs:346-375 | buffers and queues the payload, or takes it out of the buffer again |
| `MuxConnection.MultiplexedConnection.Recv` | src/multiplex/connection.rs:378-401 | returns the oldest buffered payload unless the stream was reset |
| `MuxConnection.MultiplexedConnection.CloseStream` | src/multiplex/connection.rs:404-425 | half-closes, then queues FIN; a full queue does not undo the half-close |
| `MuxConnection.MultiplexedConnection.ResetStream` | src/multiplex/connection.rs:428-453 | resets, then queues RST |
| `MuxConnection.MultiplexedConnection.ProcessFrame` | src/multiplex/connection.rs:456-534 | the reaction to an arriving frame, in the code's order of checks |
| `MuxConnection.MultiplexedConnection.RemoveStream` | src/multiplex/connection.rs:610-615 | removes an entry and counts it down, if there is one |
| `MuxConnection.MultiplexedConnection.RollbackStreamOpen` | src/multiplex/connection.rs:618-623 | removes the entry and every queued frame of the stream |
| `MuxConnection.MultiplexedConnection.QueueFrame` | src/multiplex/connection.rs:626-641 | refuses when closed or full, and otherwise appends |
| `MuxConnection.MultiplexedConnection.TakeFrame` | src/multiplex/connection.rs:644-652 | removes and returns the oldest queued frame |
| `MuxConnection.MultiplexedConnection.Close` | src/multiplex/connection.rs:673-685 | every stream is reset, and table and queue are emptied |
| `PipelineSpec.OpenedIsUsable` | src/multiplex/pipeline.rs:74-100 | a stream opened for a request is the next identifier, was not in the table, and is announced |
| `PipelineSpec.SendFailsWhenQueueIsFull` | src/multiplex/pipeline.rs:100-116 | a request that got a stream fails if and only if its SYN took the last place in the queue |
| `PipelineSpec.RollbackAfterOpen` | src/multiplex/connection.rs:618-623 | rollback restores table and count, and the queue if and only if it held no frame of the identifier |
| `PipelineSpec.FailedSendRestores` | src/multiplex/pipeline.rs:74-116 | a failed request restores pending requests, in-flight count and stream table, and the queue if and only if no stream was opened or no frame of the fresh identifier was queued |
| `PipelineSpec.ClientMovesConnectionByCalls` | src/multiplex/pipeline.rs:74-203 | every client call moves the connection by the listed connection calls and in no other way |
| `ClientRuns.RunIsConnectionRun` | src/multiplex/pipeline.rs:74-203 | a run of client calls is, for connection, queue and frames taken, the run of the connection calls it makes |
| `ClientRuns.ClientWireIsSafe` | src/multiplex/pipeline.rs:74-203 | in every run of client calls, over frames taken and queued, no frame belongs to stream 0 and every data frame follows a SYN or ACK of its stream with no FIN or RST in between |
| `ClientRuns.ClientConnectionIsAccounted` | src/multiplex/pipeline.rs:74-203 | in every run of client calls the connection keeps its counter, identifiers, limits and emptiness once closed |
| `PipelineSpec.EventKeepsInv` | src/multiplex/pipeline.rs:74-203 | every event keeps the conservation invariant |
| `PipelineSpec.RequestsAreConserved` | src/multiplex/pipeline.rs:74-203 | in every run the in-flight count is the number of pending requests and within its limit, and a request sent is either pending or resolved, once |
| `PipelineSpec.RequestsMeans` | src/multiplex/pipeline.rs:134-203 | what it means that a request is among the resolutions, and that none occurs twice |
| `RequestDelivery.RequestSucceedsExactly` | src/multiplex/pipeline.rs:74-116 | exactly when a request is sent, the SYN and the data frame it queues, and its entry |
| `RequestDelivery.ResponseCloses` | src/multiplex/pipeline.rs:134-203 | a response that finds its request closes the stream, and nothing else touches the connection |
| `RequestDelivery.AnswersReachTheirRequests` | src/multiplex/pipeline.rs:134-203 | in every run each outcome is an answer that came for the stream its request was sent on, and the next response or error answers a request waiting on its stream whenever there is one, a cancellation all that wait |
| `Pipeline.PipelinedClient.constructor` | src/multiplex/pipeline.rs:47-55 | no pending requests, first request number 1 |
| `Pipeline.PipelinedClient.Send` | src/multiplex/pipeline.rs:74-116 | opens, registers and sends, or unregisters and rolls back |
| `Pipeline.PipelinedClient.ProcessResponse` | src/multiplex/pipeline.rs:134-164 | resolves a pending request of the stream, if there is one, and closes the stream |
| `Pipeline.PipelinedClient.ProcessError` | src/multiplex/pipeline.rs:167-194 | fails a pending request of the stream, if there is one |
| `Pipeline.PipelinedClient.CancelAll` | src/multiplex/pipeline.rs:197-203 | fails every pending request exactly once and resets the count |
| `ShutdownSteps.StepKeepsInv` | src/shutdown/mod.rs:48-109 | every atomic step of any thread keeps the counter exact |
| `ShutdownSteps.CounterIsExact` | src/shutdown/mod.rs:95-109 | in every interleaving of guarded requests the counter is the number of active guards plus the threads between increment and decrement |
| `ShutdownSteps.ActiveOnlyShrinks` | src/shutdown/mod.rs:95-109 | once the flag is set no guard becomes active |
| `ShutdownSteps.AdmissionEndsExactlyWithFlag` | src/shutdown/mod.rs:48-109 | in every continuation nobody is admitted any more if and only if the flag, which any caller can read, is set, as long as some thread could still ask |
| `ShutdownSteps.DrainIsFinal` | src/shutdown/mod.rs:69-79 | a zero read after the flag was set means that no guard is active then or at any later time |
| `ShutdownSteps.PotentialFalls` | src/shutdown/mod.rs:95-109 | after the flag every step inside a request brings the drain nearer and no step sets it back |
| `ShutdownSteps.DrainIsBounded` | src/shutdown/mod.rs:69-79 | after the flag the requests take a bounded number of steps, after which the counter is zero |
| `ShutdownSteps.InitiatedRefusesOnceStored` | src/shutdown/mod.rs:48-55 | an initiated shutdown has set the flag if and only if its first caller is not between its swap and its store |
| `ShutdownSteps.SecondCallerMayReturnEarly` | src/shutdown/mod.rs:48-55 | an interleaving in which a second caller has returned and work is still admitted |
| `Shutdown.ShutdownCoordinator.Shutdown` | src/shutdown/mod.rs:48-55 | the flag is set afterwards |
| `Shutdown.ShutdownCoordinator.RequestStart` | src/shutdown/mod.rs:95-109 | the guard is active exactly when neither look sees the flag, and only an active guard is counted |
| `Shutdown.ShutdownCoordinator.DropGuard` | src/shutdown/mod.rs:177-185 | dropping an active guard counts it down, an inactive one nothing |
| `Shutdown.WaitDrain` | src/shutdown/mod.rs:69-79 | drained exactly at the first zero count with every earlier look within the deadline, timed out exactly at the first nonzero look past it |
| `DeltaSpec.DecompressCompress` | src/sync/delta.rs:93-138 | decompression inverts compression |
| `DeltaSpec.CompressIsOptimal` | src/sync/delta.rs:93-138 | no byte string that decompresses to the data, zero counts and odd tails included, is shorter than the compressed one |
| `DeltaSpec.SuffixNeedsNoMore` | src/sync/delta.rs:93-119 | a suffix never needs more pairs |
| `DeltaSpec.RunInFrontAddsOne` | src/sync/delta.rs:93-119 | a run of at most 255 bytes in front costs at most one pair |
| `DeltaSpec.SparseIsSmall` | src/sync/delta.rs:93-119 | k bytes that are not zero among n take at most 2k + 1 + n/255 pairs |
| `DeltaSpec.ApplyCompute` | src/sync/delta.rs:24-70 | applying a computed delta to its old state yields the new state, for any lengths and any hash |
| `DeltaSpec.ApplyIsChecked` | src/sync/delta.rs:45-70 | a delta yields a state exactly if both hashes agree, the length is the announced one and state and result differ by the decoded patch; everything else is refused as a hash mismatch |
| `DeltaSpec.ApplyCopies` | src/sync/delta.rs:45-70 | behind the old state the patch is copied, behind the patch the old state, behind both are zeros |
| `DeltaSpec.XorCountsDifferences` | src/sync/delta.rs:26-33 | the difference has as many bytes that are not zero as the states have differing bytes |
| `DeltaSpec.PatchIsSmall` | src/sync/delta.rs:24-41 | with k differing bytes among n the patch has at most 2(2k + 1 + n/255) bytes, and none with the same meaning is shorter |
| `Delta.RleCompress` | src/sync/delta.rs:93-119 | the loop computes the greedy encoding |
| `Delta.CountRun` | src/sync/delta.rs:103-111 | the inner loop finds the longest run of at most 255 equal bytes |
| `Delta.RleDecompress` | src/sync/delta.rs:122-138 | the loop decodes pairs and ignores an odd last byte |
| `Delta.ComputeDelta` | src/sync/delta.rs:24-41 | hashes, lengths and compressed difference of two states |
| `Delta.ApplyDelta` | src/sync/delta.rs:45-70 | both hash checks, the length check and the patched state |
| `FramingSpec.EncodedComesBack` | src/transport/framing.rs:191-210 | an encoded message comes back with whatever follows if and only if its length fits 32 bits, and within the limit it does |
| `FramingSpec.StepIsDecided` | src/transport/framing.rs:158-188 | on the bytes: five bytes with another version or a length above the limit are refused at once, a frame is taken exactly when it is whole, and otherwise more is asked for |
| `FramingSpec.StepIsStable` | src/transport/framing.rs:158-188 | more input never changes what has been decoded or which error was found |
| `FramingSpec.DrainResumes` | src/transport/framing.rs:140-154 | draining, feeding more and draining again equals draining all at once |
| `FramingSpec.ChunkingDoesNotMatter` | src/transport/framing.rs:109-154 | for any split into feeds the messages, the first error and the bytes left are those of one feed |
| `FramingSpec.StreamRoundTrip` | src/transport/framing.rs:109-210 | messages within the limit, sent in any pieces, arrive exactly and leave nothing |
| `Framing.FrameCodec.Feed` | src/transport/framing.rs:109-111 | appends to the buffer |
| `Framing.FrameCodec.HasCompleteFrame` | src/transport/framing.rs:114-126 | holds if and only if decoding would not answer that more is needed |
| `Framing.FrameCodec.DecodeFrom` | src/transport/framing.rs:158-188 | one decoding step on a given buffer, which is left alone on an error |
| `Framing.FrameCodec.Decode` | src/transport/framing.rs:140-154 | one decoding step on the codec's buffer, which an error empties |
| `Framing.FrameCodec.DecodeAvailable` | src/transport/framing.rs:140-154 | decoding until nothing more comes is draining |
| `Framing.FrameCodec.EncodeMessage` | src/transport/framing.rs:191-210 | appends header and message, or refuses an oversized one and appends nothing |
| `Schemas.NibbleIsShiftAndMask` | src/protocol/schema.rs:138-142 | the nibble read is a shift and a mask |
| `Schemas.SetNibble` | src/compat/complete_adapter.rs:470-472 | writing a type code into an empty nibble sets that nibble and no other |
| `Schemas.ValidateMeans` | src/protocol/schema.rs:90-136 | validation accepts exactly the arguments of a schema with at most 16 fields whose present fields are well typed, in bounds and in range, with no other nibble set, no data behind the furthest present field, and every required field |
| `Schemas.ValidateSharedArgs` | src/protocol/schema.rs:90-136 | the validator's loops compute that outcome, with the first error |
| `Arguments.EncodeJsonArgument` | src/compat/complete_adapter.rs:320-421 | writes one value into its field, or changes nothing and says why |
| `Arguments.EncodeJsonArguments` | src/compat/complete_adapter.rs:423-484 | data and layout of all supplied fields, or the first error |
| `Arguments.EncodeMeans` | src/compat/complete_adapter.rs:423-484 | every supplied field holds its value and its type code, every other field neither, and required fields were supplied |
| `Arguments.EncodedArgumentsValidate` | src/compat/complete_adapter.rs:438-448 | for disjoint fields encoded arguments pass validation if and only if a supplied field reaches as far as any declared one or there is nothing to reach |
| `Arguments.OptionalTailIsRefused` | src/protocol/schema.rs:128-132 | leaving out an optional last field makes the arguments fail validation |
| `Arguments.SuppliedBytesReadBack` | src/dispatch/handler.rs:75-82 | every supplied value's bytes are found at its field's offset |
| `Arguments.SuppliedValuesReadBack` | src/dispatch/handler.rs:40-91 | supplied booleans, 32-bit and 64-bit integers read back unchanged |
| `Arguments.SignedRoundTrip` | src/dispatch/handler.rs:40-61 | two's complement bytes read back as the signed value |
| `ArgumentLaws.BytesAreImage` | src/compat/complete_adapter.rs:320-421 | which values a field of each type takes, and the bytes they become: strings their UTF-8, arrays and objects their text, numbers their float image or two's complement, ranged integers one byte |
| `ArgumentLaws.RefusalIsExact` | src/compat/complete_adapter.rs:320-421 | why each refused value is refused |
| `ArgumentLaws.FieldIsWritten` | src/compat/complete_adapter.rs:301-421 | writing one value into any buffer: exactly when it succeeds, what it writes, and the error otherwise |
| `ArgumentLaws.EncodesExactly` | src/compat/complete_adapter.rs:423-484 | exactly which arguments are encoded: an object or none, naming fields of the schema only, that gives each of at most 16 fields a value it takes or leaves out one that is not required |
| `ArgumentLaws.EncodeRefusesExactly` | src/compat/complete_adapter.rs:423-484 | why every other is refused, the first field that is not served deciding |
| `ArgumentLaws.SuppliedImageReadsBack` | src/dispatch/handler.rs:40-91 | every supplied value of every type is found in its field, in the bytes of its type |
| `ArgumentLaws.RestIsZero` | src/compat/complete_adapter.rs:423-484 | the data reaches as far as the fields and is zero where no supplied value lies |
| `ArgumentLaws.CodesAreOrdered` | src/binary/invocation.rs:22-49 | the type codes are the places in the list of types |
| `NonceSpec.CallKeepsInv` | src/security/replay.rs:68-97 | every call keeps each accepted nonce remembered or expired for good |
| `NonceSpec.CheckIsExact` | src/security/replay.rs:68-97 | a nonce is accepted exactly if it is in time, unknown, and fewer than the limit are unexpired at the second clock reading; why the others are refused |
| `NonceSpec.CheckRemembers` | src/security/replay.rs:68-97 | an accepted nonce is remembered under its timestamp; only a full store forgets, and only what is past its lifetime |
| `NonceSpec.NoReplayIsAccepted` | src/security/replay.rs:55-97 | if no check reads an earlier clock than a cleanup before it, no pair is accepted twice in any run despite evictions; the store stays within its limit |
| `NonceSpec.ClockSetBackAdmitsReplay` | src/security/replay.rs:93-97 | for a check, a cleanup and the check again at its first clock, some timestamp is accepted twice if and only if the cleanup read a later clock than the checks and one later than the lifetime of a nonce |
| `NonceSpec.CheckedAgainAccepts` | src/security/replay.rs:55-97 | those timestamps are the ones within their lifetime at the checks and past it at the cleanup |
| `Nonces.NonceStore.CleanupExpired` | src/security/replay.rs:93-97 | removes exactly the nonces past their lifetime |
| `Nonces.NonceStore.CheckNonce` | src/security/replay.rs:68-90 | expiry, replay, cleanup when full, capacity, in this order |
| `RequestWindow.RecordKeepsWindow` | src/compat/request_replay.rs:24-39 | the window holds the latest keys, all different, and equal keys in the log stay far apart |
| `RequestWindow.KeysBetweenAreOthers` | src/compat/request_replay.rs:24-39 | between two acceptances of a key lie at least as many other, different keys as the window holds |
| `RequestWindow.AcceptsExactly` | src/compat/request_replay.rs:25-45 | the window accepts exactly the keys not among the last recorded ones and never exceeds its limit |
| `RequestWindow.RequestReplayGuard.CheckAndRecord` | src/compat/request_replay.rs:24-39 | accepts exactly the keys outside the window, and records them |
| `Capabilities.IdListMeans` | src/capability/manifest.rs:300-340 | the identifier list is ascending and lists exactly the bits set, so their number is the population count |
| `Capabilities.IntersectIsGreatest` | src/capability/manifest.rs:86-114 | negotiation is the greatest common offer: within it is exactly what is within both, and its version is one of the two |
| `Capabilities.BitSet.Set` | src/capability/manifest.rs:154-162 | adds an identifier within the capacity and no other |
| `Capabilities.BitSet.Clear` | src/capability/manifest.rs:165-173 | removes an identifier and no other |
| `Capabilities.BitSet.Has` | src/capability/manifest.rs:176-185 | membership |
| `Capabilities.BitSet.IntersectWith` | src/capability/manifest.rs:86-109 | the word-wise conjunction is the intersection of the sets |
| `Capabilities.BitSet.Ids` | src/capability/manifest.rs:300-310 | the identifiers, ascending, once each |
| `Capabilities.CapabilityManifest.Negotiate` | src/capability/manifest.rs:86-114 | the lower version and the intersection of every kind of capability |
| `RouterSpec.SignedAtMostOnce` | src/dispatch/router.rs:119-141 | in every run in which no check reads an earlier clock than a cleanup before it, one signed invocation reaches a handler at most once |
| `RouterSpec.SignedReachesExactly` | src/dispatch/router.rs:119-141 | exactly which signed calls reach which handler, and which check refuses the others |
| `RouterSpec.RegistersExactly` | src/dispatch/router.rs:36-79 | a tool is registered exactly if it replaces none and names and identifiers still determine each other |
| `Router.BinaryTrieRouter.ViewIsConsistent` | src/dispatch/router.rs:45-79 | names and identifiers name the same tools |
| `Router.BinaryTrieRouter.Register` | src/dispatch/router.rs:45-79 | adds a tool under a free identifier and name and refuses any other |
| `Router.BinaryTrieRouter.Dispatch` | src/dispatch/router.rs:83-88 | the tool registered under the identifier, if any |
| `Router.BinaryTrieRouter.ResolveName` | src/dispatch/router.rs:159-161 | the identifier of the tool with that name, if any |
| `Router.BinaryTrieRouter.ExecuteAuthorized` | src/dispatch/router.rs:105-115 | a handler is reached exactly when capability, registration and schema allow it |
| `Router.BinaryTrieRouter.ExecuteSignedAuthorized` | src/dispatch/router.rs:119-141 | signature and hash first, then the nonce store, then authorization |
| `AdapterSpec.StepShape` | src/compat/complete_adapter.rs:1972-2134 | a request changes the session in one of five ways only |
| `AdapterSpec.ToolsCallExecutesExactly` | src/compat/complete_adapter.rs:1456-1515 | a call executes exactly if the session is initialized, the name resolves to a negotiated and registered tool, its arguments encode and validate, and its key is not in the window; with refused arguments it is only recorded, with a remembered key it is a replay |
| `AdapterSpec.StepExecutesExactly` | src/compat/complete_adapter.rs:1972-2134 | the same through the dispatch or directly, and nothing else executes |
| `AdapterSpec.RunExecutesExactly` | src/compat/complete_adapter.rs:1456-1515 | behind any run, in terms of what the run did: an entry reaches a handler exactly then, as the tool of its name and with its own arguments |
| `AdapterSpec.ExecutionIsValidated` | src/compat/complete_adapter.rs:1494-1505 | in every run everything that reached a handler had been accepted by the schema of its tool |
| `AdapterSpec.HandshakeSucceedsExactly` | src/compat/complete_adapter.rs:1110-1238 | exactly which requests initialize a session and which complete it |
| `AdapterSpec.OthersAreAnsweredExactly` | src/compat/complete_adapter.rs:1972-2134 | which of the other methods are answered and which are refused, in every session |
| `AdapterSpec.KeysAreTexts` | src/compat/complete_adapter.rs:901-911 | two requests share a replay key exactly when their identifiers read the same |
| `AdapterSpec.NegotiatedIsGreatest` | src/compat/complete_adapter.rs:1110-1238 | in every run the negotiated manifest is the greatest within the offers of client and server |
| `AdapterSpec.ServerOfferIsGreatest` | src/compat/complete_adapter.rs:1110-1238 | the server's offer is its manifest with the registered resources, as far as its policy allows |
| `AdapterSpec.ExecutionIsNegotiated` | src/compat/complete_adapter.rs:1110-1238 | in every run, with settings and router free to change between requests, a handler executes only after one initialize and then one initialized notification; the negotiated set is written once, within client, server and policy at that moment, and holds every tool executed |
| `AdapterSpec.ReplaysAreFarApart` | src/compat/complete_adapter.rs:901-911 | two executions under the same replay key have at least 1024 other recorded keys between them, all different |
| `Adapter.CompleteMcpAdapter.Initialize` | src/compat/complete_adapter.rs:1110-1197 | the checks of the handshake, and the negotiated set it leaves |
| `Adapter.CompleteMcpAdapter.Initialized` | src/compat/complete_adapter.rs:1205-1238 | accepted once, after initialize |
| `Adapter.CompleteMcpAdapter.ToolsCall` | src/compat/complete_adapter.rs:1456-1515 | lifecycle, replay, lookup, capability and argument checks, then execution |
| `Adapter.CompleteMcpAdapter.Handle` | src/compat/complete_adapter.rs:1972-2134 | the dispatch by method, with what is refused before it |
| `TemplateSpec.ParseMeans` | src/compat/mcp2025.rs:821-868 | every template with closed braces is a literal followed by placeholders and literals |
| `TemplateSpec.ScanIsExtract` | src/compat/mcp2025.rs:821-868 | the character scan is a recursion over placeholders |
| `TemplateSpec.ScanInvertsRender` | src/compat/mcp2025.rs:821-868 | the scan finds given values if and only if the URI is their rendering and each avoids the first character of the literal behind it |
| `TemplateSpec.HitRerenders` | src/compat/mcp2025.rs:821-868 | a hit has one value for each placeholder and re-renders to the URI |
| `TemplateSpec.PartsOfText` | src/resource/mod.rs:164-185 | the matcher's parts are the template's literals |
| `TemplateSpec.MatchesMeansEarliest` | src/resource/mod.rs:164-199 | the matcher accepts exactly the renderings in which every value ends at the first occurrence of the literal behind it |
| `TemplateSpec.MatchesIsRenderable` | src/resource/mod.rs:164-199 | acceptance implies a rendering, and for templates ending in a placeholder is equivalent to one |
| `TemplateSpec.FinalLiteralMayBeMissed` | src/resource/mod.rs:164-199 | an instance: `a{x}b` refuses its rendering `abb` |
| `MatcherLaws.RenderingsAreMatchedExactly` | src/resource/mod.rs:164-199 | the part matcher accepts every rendering of a closed template if and only if the template ends with a placeholder |
| `MatcherLaws.EarliestIsUnique` | src/resource/mod.rs:164-199 | a URI has at most one rendering with earliest values, so the matcher decides for one assignment |
| `TemplateSpec.ScanImpliesMatches` | src/resource/mod.rs:164-199 | whatever the scan accepts the matcher accepts |
| `TemplateSpec.MatchesDoesNotImplyScan` | src/compat/mcp2025.rs:821-868 | an instance: `a{x}bc` matches `abbc` by its parts and not by the scan |
| `MatcherLaws.MatchersAgreeExactly` | src/compat/mcp2025.rs:821-868 | on closed, named, non-adjacent placeholders the two matchers accept the same URIs if and only if no literal behind a placeholder is longer than one character |
| `TemplateSpec.SubstituteRenders` | languages/python/dcp_client/client.py:99-104 | replacing one name after the other is rendering, for values without opening braces and any order of parameters |
| `TemplateSpec.SubstituteInvertsScan` | languages/python/dcp_client/client.py:99-104 | the values a scan found print the URI again |
| `TemplateSpec.ScanInvertsSubstitute` | languages/python/dcp_client/client.py:99-104 | values that avoid the next literal's first character are recovered after printing |
| `TemplateSpec.BraceInValueIsSubstituted` | languages/python/dcp_client/client.py:99-104 | an instance: `{a}{b}` with `{b}` for a prints `xx` |
| `PrinterLaws.PrintsExactlyWithoutBrace` | languages/python/dcp_client/client.py:99-104 | a value is printed as it is in every closed template, beside all other parameters without opening braces, if and only if it has no opening brace |
| `PrinterLaws.BraceIsPrintedOver` | languages/python/dcp_client/client.py:99-104 | for every value with an opening brace, a template of one placeholder and one more parameter that print something else |
| `Templates.ExtractParams` | src/compat/mcp2025.rs:821-868 | the two-cursor loop computes the scan |
| `Templates.UriMatchesTemplate` | src/resource/mod.rs:164-199 | the part loop computes the match |
| `Templates.SplitTemplate` | src/resource/mod.rs:168-180 | the splitting loop computes the parts |
| `Templates.SubstituteParams` | languages/python/dcp_client/client.py:99-104 | the replacing loop computes the substitution |
| `RootSpec.NormalizedIsProper` | src/compat/mcp2025.rs:279-301 | a normalized path is a slash or consists of segments none of which is empty, `.` or `..` |
| `RootSpec.ProperIsNormal` | src/compat/mcp2025.rs:279-301 | a path of such segments is its own normal form |
| `RootSpec.NormalizeIsIdempotent` | src/compat/mcp2025.rs:279-301 | normalization is idempotent |
| `PathLaws.BackIsDropped` | src/compat/mcp2025.rs:279-301 | a segment followed by `..` can be left out of any URI |
| `PathLaws.EmptyIsDropped` | src/compat/mcp2025.rs:279-301 | empty pieces and `.` can be left out of any URI |
| `PathLaws.RefusedExactlyAboveTop` | src/compat/mcp2025.rs:279-301 | a URI of admitted pieces is refused exactly if at some point more `..` than segments have come |
| `PathLaws.OnlyPiecesAreAdmitted` | src/compat/mcp2025.rs:279-301 | no other URI has a normal form |
| `RootSpec.WithinRootIsPrefix` | src/compat/mcp2025.rs:303-309 | on normalized paths the string test holds if and only if the root's segments are a prefix of the path's |
| `Roots.NormalizeFileUriPath` | src/compat/mcp2025.rs:279-301 | the segment-stack loop computes the normal form |
| `SchemaCodec.SchemaRoundTrip` | src/cli/convert.rs:126-257 | a schema within the length fields comes back from its bytes, whatever follows them |
| `SchemaCodec.ParsedIsPrefix` | src/cli/convert.rs:163-257 | a schema that was parsed prints as a prefix of the bytes it came from |
| `SchemaCodec.SurvivesExactlyWhenItFits` | src/cli/convert.rs:126-160 | a schema survives printing and parsing if and only if its lengths fit their slots |
| `SchemaCodec.HeaderDecides` | src/cli/convert.rs:163-178 | on any bytes, which are refused for their length, magic or version |
| `SchemaCodec.FieldDecides` | src/cli/convert.rs:205-248 | on any bytes, when a field is too short, no text or of no type, and what is read otherwise |
| `SchemaCodec.ToBytesLoop` | src/cli/convert.rs:126-160 | the writing loop computes the format |
| `SchemaCodec.FromBytesLoop` | src/cli/convert.rs:163-257 | the reading loop with its moving offset computes the parse, with its first error |
| `SchemaCodec.ReadFields` | src/cli/convert.rs:205-248 | the field loop reads the declared number of fields or stops at the first error |
| `SchemaConversion.ConvertMcpToDcp` | src/cli/convert.rs:261-309 | the fields of the sorted names, packed, or the refusal of more than 64 |
| `SchemaConversion.SortNames` | src/cli/convert.rs:275-277 | an ascending listing of the property names |
| `SchemaConversion.AscendingIsUnique` | src/cli/convert.rs:275-277 | a set of names has one ascending listing, so conversion is deterministic |
| `SchemaConversion.ConversionIsCanonical` | src/cli/convert.rs:261-309 | a converted schema is ascending, packed from zero, uses nameable types and sets bits of its own fields only |
| `SchemaConversion.ConvertsExactly` | src/cli/convert.rs:261-309 | exactly the schemas of at most 64 properties are converted, with name and description kept |
| `SchemaConversion.TypesThereAndBack` | src/cli/convert.rs:110-121 | which types change there and back: an unknown name becomes a string, a 32-bit integer a 64-bit one, bytes a string |
| `SchemaConversion.OffsetsAreContiguous` | src/cli/convert.rs:270-300 | each field starts where the one in front ends, within 512 bytes, so no 16-bit offset overflows |
| `SchemaConversion.MaskBits` | src/cli/convert.rs:295-298 | a field's bit is set exactly when its name is required |
| `SchemaConversion.ConvertDcpToMcp` | src/cli/convert.rs:312-356 | the loops compute property types and required names |
| `SchemaConversion.RequiredMeans` | src/cli/convert.rs:338-345 | a name is required exactly when some field of that name has its bit set |
| `SchemaConversion.RoundTripIsCanonical` | src/cli/convert.rs:261-356 | converting to MCP and back gives the same schema if and only if it is canonical |
| `SchemaConversion.ConvertedSchemasAreFixed` | src/cli/convert.rs:261-356 | conversion has one result, and converting that to MCP and back is the identity |
| `SchemaPath.BytesKeepExactlyShort` | src/cli/convert.rs:126-309 | a converted schema comes back from its bytes if and only if names fit 8 bits of length and the description 16 |
| `SchemaPath.BackIsNormal` | src/cli/convert.rs:261-356 | converted back, types are normalized and the required names are the declared ones among them, ascending |
| `SchemaPath.SurvivesExactlyWhenNormal` | src/cli/convert.rs:261-356 | an MCP schema survives conversion there and back if and only if its types are known ones and its required names declared and ascending |
| `SchemaPath.WholeWay` | src/cli/convert.rs:126-356 | the same through writing and reading, for schemas within the lengths of the format |
| `SchemaPath.NormalTypes` | src/cli/convert.rs:110-121 | the types that survive are the seven the format knows |
| `SchemaPath.SizesServe` | src/cli/convert.rs:95-107 | the size conversion gives a field is what the encoder needs for every value of a fixed-size type, no more and no less, and 8 for any other type |

## Left out

- Weak memory orders: the ring's and the coordinator's atomics are taken as sequentially consistent.
- Scheduling inside the asynchronous connection, client and adapter: one public call is one step, so interleavings between their internal locks are not modelled.
- RingBuffer.StreamRingBuffer.Push: positions are bounded below 2^64 instead of wrapping, and the ring is one whose capacity fits the credit counter.
- RingBuffer.StreamRingBuffer.TryReserve: its retry loop is one step of the sequential object; failed exchanges appear in `RingSteps` as separate steps.
- RingBuffer.StreamRingBuffer.Clear: modelled for one caller only; `clear` during a push or pop is not.
- StreamModel.StreamIsExact: chunk operations are atomic; what interleaving changes is in `ChunkWrites`.
- DcpStreams.DcpStream.ReadChunk: the expected number wraps at 2^32 as in an unchecked build; a checked build stops at that read.
- RingSteps.RunIsSafe: the credit is a number; a 32-bit counter holds it for capacities below 2^32, and the capacity need not be a power of two.
- ChunkReads.ReadIsWhole: the reader starts between two chunks with the matching expected number, as every finished read leaves it.
- ChunkWrites.TornExactly: the space test is one look at both positions; the chunk lock admits one writer.
- Chunk headers are a packed memory image of the struct; the little-endian byte order is assumed.
- The chunk checksum is modelled by the bytes fed to it, not by the hash.
- MuxRuns.WireIsSafe: `take_send`, window sizes, priorities, byte totals and error texts of streams are not modelled.
- Pipeline.PipelinedClient.ProcessResponse: which of several pending requests of one stream a hash-map search finds is left open; the result channel is a log.
- Batches, the request pipeline wrapper and `can_send` of the client, which only combine the calls modelled.
- ShutdownSteps.CounterIsExact: the manual increment and decrement calls, whose misuse could unbalance the counter, and the notification broadcast are not part of the interleavings.
- Shutdown.WaitDrain: the counter and the clock are the sequence of values the loop observes; sleeping is not modelled.
- DeltaSpec.ApplyCompute: the hash is an arbitrary function, so that a delta applied to another state is refused rests on the hash telling the states apart.
- Frame buffers as growing memory: capacity reservation and zero-copy splitting are not modelled.
- Arguments.EncodeJsonArguments: JSON is an abstract datatype; numbers carry their integer value and 64-bit float image, arrays and objects their serialized text, strings their UTF-8 bytes.
- Schemas.ValidateSharedArgs: typed reads of floats, strings and unsigned integers beyond their byte ranges are not modelled.
- SchemaCodec.FromBytesLoop: names and descriptions are byte strings with a UTF-8 test as parameter; error texts are not modelled.
- SchemaConversion.ConvertMcpToDcp: property descriptions, enumerations and defaults do not reach the binary schema and are left out; the schema's own type name is constant.
- SchemaConversion.ConvertDcpToMcp: the shift of the mask bit wraps at 64 as in an unchecked build; a checked build stops there with more than 64 fields.
- Nonces.NonceStore.CheckNonce: the system clock is two parameters, one for the check and one for the cleanup; `clear` is left out.
- RouterSpec.SignedAtMostOnce: signature and hash checks are outcomes; handler results, audit records and redaction are left out.
- Capabilities.CapabilityManifest.Negotiate: the struct's byte image and its signature are left out; each kind of capability is one bit set.
- AdapterSpec.ExecutionIsNegotiated: manifests are sets, request parameters arrive parsed, and of every other request only the effect on lifecycle, negotiation and replay window is kept; response texts, sessions, subscriptions, elicitation, sampling, logging levels and cancellation are left out.
- TemplateSpec.ScanInvertsRender: needs closed, named, non-adjacent placeholders; other templates are covered by `Templates.ExtractParams` against the scan itself only.
- TemplateSpec.SubstituteRenders: parameter names are free of braces.
- PrinterLaws.PrintsExactlyWithoutBrace: the condition is on a value for all templates; in one given template a value with a brace may still be printed as it is.
- Characters are not encoded: the template and path functions of the source work on UTF-8 strings, of which only the sequence of characters is modelled.
- Sockets, files, processes, signals, the reactor, TCP transport, the command line and the other language clients.
- Observability, benchmarks, audit log, redaction and configuration: formatting and heuristics without a specification to prove.
- Fixed-layout records (envelope, HBTP header, signed records), version enums, subscription and cancellation registries: round trips and maps that would only add easy members.
