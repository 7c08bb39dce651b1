# Verified model of the matching engine and its gateway

A Dafny model of a limit-order matching engine (C++), the byte protocol it speaks, and the Rust gateway that
mirrors its order book, with machine-checked proofs of what the system is for.

- **Storage.** Two free-list pools hold orders and price levels; each side is a doubly linked ladder of levels and
  each level a doubly linked queue. `Pool`, `LinkedNodes`, `BookShape`, `BookUpdates`, `BookOrders`, `BookState` and
  `OrderBook` show that every operation keeps the representation invariant and acts as a stable sorted insert or a
  delete on two sorted sequences.
- **Matching.** `Matching` relates the loop to a declarative price-time priority. `RetiredIds` shows that the
  open-addressing table with back-shift deletion is a bounded FIFO set for every hash function. `MatchingEngine`
  refines the value-level `Engine`.
- **Whole runs.** `EngineRuns`: conservation, exactly when quantity is lost, event bounds, erasure of ineffective
  messages, cancellation verdicts.
- **Processing.** `RingBuffer`, `Processor`, `Pipeline`: rings as bounded queues, a batch as one run, the path from
  socket bytes to response frames. `Guard`: the integrity guard on the linked book.
- **Wire.** `Codec`, `CodecImpl`, `Framing`: both codecs against one specification, framing independent of chunk
  boundaries.
- **Gateway.** `Projection`, `AppState`, `GatewayIds`, and `Replica`, a state machine of gateway and engine joined by
  an ordered command queue and an ordered event queue, with timeouts and failed sends. `Divergence`: exactly when the
  two come apart. `Replay` and `Restart`: rebuilding both from the journal. `Recovery`: restarting after every run,
  timeouts included, and what replay asks of the engine it connects to.

Value-level functions specify the classes; each class method is proved against them, and the properties are proved
about the functions. `dafny verify dfyconfig.toml` covers the whole project.

## Where the code and its documentation differ

The model follows the code.

- README.md:257 says the integrity guard runs after every operation; `EngineProcessor::dispatch`
  (cpp/engine/include/hme/engine_processor.hpp:279-318) never calls it. The invariants are proved to hold by
  construction (`Engine.RunOk`), and the guard is verified on its own.
- A remainder that finds no room is dropped and the order is still acknowledged
  (cpp/engine/include/hme/matching_engine.hpp:311-318). `EngineRuns.LostExactly` says exactly when.
- The engine does not refuse duplicate order ids. Statements about "the" order of an id ask for unique resting ids,
  which the gateway's allocation provides (`GatewayIds.Drive`, `EngineRuns.StepUnique`).
- An accepted order that was lost stays in the projection for good; `Restart.QuiescentExactly` says that this is the
  only way projection and engine come apart without timeouts (`Divergence.LossDiverges` is an instance).
- A timeout drops the in-flight entry and the later acknowledgement is ignored (gateway-server/src/api.rs:143-146,
  gateway-server/src/state.rs:313-315), or credited to another request that holds the id by then.
  `Replica.RunKeepsInv` confines the damage to the id that timed out and `Divergence.LateExactly` says exactly when
  there is any, whoever holds the id. `Divergence.TimeoutDiverges` is an instance, and
  `Divergence.MisfiledAckReached` and `Divergence.MisfiledRejectReached` are runs that end in one.
- README.md:203 says the engine starts empty on every connect, so that the book survives gateway restarts. The server
  initializes its engine once, at start-up (cpp/server/src/main.cpp:96), and a later connection finds the book as it
  was. `Recovery.ConnectExactly`: replay ends in agreement iff the book is empty; `Recovery.StaleEngineDiverges` is
  an instance where it does not.
- The C++ encoder writes the type byte before the range tests, contrary to cpp/codec/include/hme/codec.hpp:27.
- Replay stamps fresh arrival numbers (gateway-server/src/engine_client.rs:166-177), so the rebuilt book is the same
  only if orders came to rest last in line. The request handler releases the gateway lock before it sends
  (gateway-server/src/api.rs:95-132), so the code does not enforce this: `Replay.ReplayNeedsOrder` is a
  counterexample and `Replay.ReplayAgreesExactly` the exact condition.

## Model

| member | source | states |
|---|---|---|
| `Pool.FreeListPool.Acquire` | cpp/engine/include/hme/order_book.hpp:78-86 | Hands out the head of the free list and takes it off; NULL, with nothing changed, exactly when every slot is in use. |
| `Pool.FreeListPool.Release` | cpp/engine/include/hme/order_book.hpp:89-93 | Puts a slot that is not free back at the head of the free list, keeping every slot on it exactly once. |
| `Pool.FreeListPool.Reset` | cpp/engine/include/hme/order_book.hpp:97-105 | Every slot is free, exactly once, whatever the pool held before. |
| `OrderBook.Book.constructor` | cpp/engine/include/hme/order_book.hpp:177-190 | The empty book over two pools satisfies the representation invariant. |
| `OrderBook.Book.InsertOrder` | cpp/engine/include/hme/order_book.hpp:221-246 | Keeps the representation invariant; acts as a stable sorted insert on the side exactly when both pools have room for the order, and otherwise leaves every slot, link and counter untouched. |
| `OrderBook.Book.RemoveOrder` | cpp/engine/include/hme/order_book.hpp:253-262 | Keeps the representation invariant (an emptied level goes too) and deletes exactly the named order from its side. |
| `OrderBook.Book.FindOrder` | cpp/engine/include/hme/order_book.hpp:268-284 | The first order with the id in matching order, bids before asks; NULL iff no side holds it. With duplicate ids this is the first hit. |
| `OrderBook.Book.Clear` | cpp/engine/include/hme/order_book.hpp:309-314 | From any contents back to the empty book, invariant included. |
| `OrderBook.Book.LocateLevel` | cpp/engine/include/hme/order_book.hpp:329-344 | The level of (side, price); NULL iff the ladder, searched only as far as the sorted prices require, has none. |
| `OrderBook.Book.FindOrCreateLevel` | cpp/engine/include/hme/order_book.hpp:349-389 | The level of (side, price), linked in at its sorted place when missing; NULL, with nothing changed, iff it is missing and the level pool is full. |
| `OrderBook.Book.RemoveLevel` | cpp/engine/include/hme/order_book.hpp:392-403 | Unlinks an emptied level and frees its slot without touching either order sequence. |
| `OrderBook.Book.InsertIntoLevel` | cpp/engine/include/hme/order_book.hpp:407-443 | Scanning from the tail, links an order at its (arrival, id) place; the level is a stable sorted insert afterwards. |
| `OrderBook.Book.UnlinkFromLevel` | cpp/engine/include/hme/order_book.hpp:446-460 | The pointer, head, tail and count writes that take one order out of its queue, and nothing else. |
| `OrderBook.Book.FindInLevel` | cpp/engine/include/hme/order_book.hpp:463-471 | The first order of one queue with the id, everything before it having another id. |
| `OrderBook.Book.Front` | cpp/engine/include/hme/order_book.hpp:193-211 | Head of the best level: the highest-priority order of the side and its price; NULL iff the side is empty. |
| `BookState.QueuedOk` | cpp/engine/include/hme/order_book.hpp:407-443 | Linking a loose slot into its level at its time-priority place is a stable sorted insert into the side and keeps all of the invariant. |
| `BookState.UnqueuedOk` | cpp/engine/include/hme/order_book.hpp:446-460 | Unlinking one order deletes exactly its entry, leaving one loose slot and possibly one empty level. |
| `BookState.AddedLevelOk` | cpp/engine/include/hme/order_book.hpp:349-389 | Linking a new empty level at its price place keeps prev/next mutually inverse, prices distinct and best first, and every slot accounted for. |
| `BookState.DroppedLevelOk` | cpp/engine/include/hme/order_book.hpp:392-403 | Dropping an empty level keeps the same, and the freed slot is on the free list once. |
| `BookState.PoolsCount` | cpp/engine/include/hme/order_book.hpp:58-112 | Both in-use counters are exactly the number of resting orders and of distinct resting prices. |
| `RetiredIds.RetiredIdSet.Contains` | cpp/engine/include/hme/matching_engine.hpp:127-129 | For any hash function into the table: true iff the id is in the bounded queue. |
| `RetiredIds.RetiredIdSet.Insert` | cpp/engine/include/hme/matching_engine.hpp:133-148 | Refines a bounded FIFO queue of distinct ids: a known id changes nothing, a new one is appended after evicting the oldest when full. |
| `RetiredIds.RetiredIdSet.Erase` | cpp/engine/include/hme/matching_engine.hpp:192-213 | Back-shift deletion removes exactly one key and leaves every other key reachable from its home slot. |
| `RetiredIds.RetiredIdSet.FindSlot` | cpp/engine/include/hme/matching_engine.hpp:168-177 | The probe loop ends, at the slot of the id or past a free slot that proves its absence. |
| `RetiredIds.RetiredIdSet.TableInsert` | cpp/engine/include/hme/matching_engine.hpp:181-188 | The probe for a free slot ends and the new key keeps every probe path unbroken. |
| `RetiredIds.RetiredIdSet.Clear` | cpp/engine/include/hme/matching_engine.hpp:151-157 | No id is recorded and no slot is occupied. |
| `RetiredIds.RetiredIdSet.Evict` | cpp/engine/include/hme/matching_engine.hpp:136-143 | The oldest id leaves both the ring and the table. |
| `RetiredIds.RetiredIdSet.Append` | cpp/engine/include/hme/matching_engine.hpp:144-147 | A new id joins both the table and the end of the ring. |
| `Rings.WrapIsModulo` | cpp/engine/include/hme/matching_engine.hpp:133-148 | The conditional wrap used for ring positions is the remainder. |
| `RetiredIds.RecordIsLastFresh` | cpp/engine/include/hme/matching_engine.hpp:133-148 | After any sequence of inserts the record is exactly the last Capacity ids that were new when inserted. |
| `RetiredIds.NothingForgotten` | cpp/engine/include/hme/matching_engine.hpp:133-148 | While no more than Capacity distinct ids have been inserted, all of them are recorded. |
| `RetiredIds.EraseShift` | cpp/engine/include/hme/matching_engine.hpp:196-211 | Moving a key into the hole keeps all other probe paths and moves the hole. |
| `RetiredIds.EraseDone` | cpp/engine/include/hme/matching_engine.hpp:196-211 | Reaching a free slot, no key needs the hole any more. |
| `RetiredIds.FibonacciInRange` | cpp/engine/include/hme/matching_engine.hpp:160-165 | The multiplicative hash lands in the table, so it is one of the covered hash functions. |
| `RetiredIds.SourceTableFits` | cpp/engine/include/hme/matching_engine.hpp:96-116 | The table size and hash of the source satisfy what the proofs ask of a table: at least twice the capacity, below four times, and every home inside it. |
| `Matching.MatchIsGreedy` | cpp/engine/include/hme/matching_engine.hpp:258-319 | The loop equals a declarative price-time priority: the trades are the greedy shares of the eligible orders in priority order at resting prices, traded total is min(quantity, eligible quantity), the side loses exactly that from its front, and the filled orders are the ones that leave. |
| `MatchingEngine.MatchingEngine.MatchIncoming` | cpp/engine/include/hme/matching_engine.hpp:258-308 | The loop over the linked book and the retired table ends and refines the value-level match: same trades, remainder, execution counter, book and retired ids. |
| `MatchingEngine.MatchingEngine.ProcessNewOrder` | cpp/engine/include/hme/matching_engine.hpp:258-319 | Matching and resting refine one step of the engine model, a remainder that finds no room being dropped. |
| `MatchingEngine.MatchingEngine.ProcessValidated` | cpp/engine/include/hme/matching_engine.hpp:331-370 | Quantity is judged before price; an invalid order yields one Reject and no change, a valid one the engine step. |
| `MatchingEngine.MatchingEngine.ProcessCancelOrder` | cpp/engine/include/hme/matching_engine.hpp:391-417 | Removes the first order with the id and retires the id, or says NoLongerResting iff the id is recorded as retired. |
| `Engine.DispatchOk` | cpp/engine/include/hme/engine_processor.hpp:279-318 | Every message, valid or not, keeps the book sorted and un-crossed with quantities in [1, 1000000], prices in range, within both pools, and the retired record free of repeats. |
| `Engine.RunOk` | cpp/engine/include/hme/engine_processor.hpp:225-231 | So does every sequence of messages. |
| `EngineRuns.RunConserves` | cpp/engine/include/hme/matching_engine.hpp:258-319 | Over every run: resting before + accepted = resting after + 2 x traded + cancelled + lost. |
| `EngineRuns.LostExactly` | cpp/engine/include/hme/matching_engine.hpp:311-318 | Quantity is lost iff the order crosses nothing and the pools have no room for it; it is then lost whole, is acknowledged, and the engine is unchanged. A partly filled order never loses its remainder. |
| `EngineRuns.LossExample` | cpp/engine/include/hme/matching_engine.hpp:311-318 | A losing input: with one slot taken, a second order that crosses nothing is acknowledged and dropped. |
| `EngineRuns.TradeBound` | cpp/engine/include/hme/matching_engine.hpp:265-318 | Over every run, trades + finally resting <= initially resting + accepted orders, and each message adds exactly one terminator. |
| `EngineRuns.EventBound` | cpp/engine/include/hme/engine_processor.hpp:225-231 | A batch of n messages on a book of r orders emits at most 2n + r events. |
| `EngineRuns.ErasureIsInvisible` | cpp/engine/include/hme/engine_processor.hpp:279-345 | Erasing every invalid message and every missed cancel changes neither the final state nor any other event; each erased message had emitted exactly one Reject. |
| `EngineRuns.GoneStaysGone` | cpp/engine/include/hme/matching_engine.hpp:302-308 | An id that is not resting never trades as a resting order again and never rests again unless it is submitted again. |
| `EngineRuns.CancelVerdict` | cpp/engine/include/hme/matching_engine.hpp:391-417 | A cancel is acknowledged iff the id is resting; with unique resting ids it is gone afterwards. |
| `EngineRuns.CancelClearsExactly` | cpp/engine/include/hme/matching_engine.hpp:391-417 | With duplicate ids as well: after an acknowledged cancel the id is gone iff exactly one resting order had it. |
| `EngineRuns.StepUnique` | cpp/engine/include/hme/matching_engine.hpp:391-417 | Resting ids stay unique as long as submitted ids are not resting. |
| `EngineRuns.RetiredAreLeft` | cpp/engine/include/hme/matching_engine.hpp:302-308 | The retired record of a run is the bounded record of the ids reported as leaving the book, in order. |
| `EngineRuns.LeftExactly` | cpp/engine/include/hme/matching_engine.hpp:302-308 | Those are the right ids: over any run an id that is not resting is among them iff it once rested. Nothing vanishes unreported. |
| `EngineRuns.MissReason` | cpp/engine/include/hme/matching_engine.hpp:391-417 | NoLongerResting is only said of an id that once rested; while at most MaxOrders distinct ids have left, a miss says NoLongerResting iff the id once rested. |
| `EngineRuns.NeverRestedIsNotFound` | cpp/engine/include/hme/matching_engine.hpp:391-417 | An id that never rested gives OrderNotFound. |
| `EngineRuns.EverRestsExactly` | cpp/engine/include/hme/matching_engine.hpp:258-319 | An order submitted once ever rests iff it is valid and its remainder finds room on arrival. |
| `EngineRuns.FilledOnArrivalIsNotFound` | cpp/engine/include/hme/matching_engine.hpp:391-417 | An order submitted once and filled entirely on arrival gives OrderNotFound to every later cancel. |
| `RingBuffer.RingBuffer.TryPush` | cpp/engine/include/hme/ring_buffer.hpp:55-63 | The wrapping array refines a bounded queue: append, or refuse and keep everything iff full. |
| `RingBuffer.RingBuffer.TryPop` | cpp/engine/include/hme/ring_buffer.hpp:79-87 | Takes the oldest element; none iff empty. |
| `Processor.EngineProcessor.Initialize` | cpp/engine/include/hme/engine_processor.hpp:135-162 | Operational iff the requested capacities fit; on success book and retired ids are emptied while the execution counter, rings and counters stay. |
| `Processor.EngineProcessor.SubmitMessage` | cpp/engine/include/hme/engine_processor.hpp:184-189 | Appends to the ingress queue or refuses with no change when it is full. |
| `Processor.EngineProcessor.DispatchMessage` | cpp/engine/include/hme/engine_processor.hpp:279-345 | Refines the engine step; the error counter moves exactly for invalid orders and out-of-place messages, not for missed cancels. |
| `Processor.EngineProcessor.DispatchNewOrder` | cpp/engine/include/hme/engine_processor.hpp:279-303 | The trades and then one acknowledgement, or the one error event of an invalid order. |
| `Processor.EngineProcessor.DispatchCancelOrder` | cpp/engine/include/hme/engine_processor.hpp:304-313 | One acknowledgement or one rejection, which is not counted as an error. |
| `Processor.EngineProcessor.NextEvent` | cpp/engine/include/hme/engine_processor.hpp:238-238 | Takes the oldest event off the egress ring and changes nothing else. |
| `Processor.EngineProcessor.EmitEvents` | cpp/engine/include/hme/engine_processor.hpp:349-353 | Events are queued in order while there is room; the rest are counted as overflow. |
| `Processor.EngineProcessor.ProcessNext` | cpp/engine/include/hme/engine_processor.hpp:208-219 | One message when operational and not empty, otherwise nothing. |
| `Processor.EngineProcessor.ProcessQueue` | cpp/engine/include/hme/engine_processor.hpp:225-231 | Drains the whole ingress ring and returns how many messages it processed. |
| `Processor.BatchIsRun` | cpp/engine/include/hme/engine_processor.hpp:225-231 | A batch is one run of the engine over the queue: final engine, counters, and the events in order, cut off exactly where the egress ring is full. |
| `Processor.EgressSuffices` | cpp/engine/include/hme/engine_processor.hpp:349-353 | With 2n + r free egress slots no event of the batch is lost. |
| `Processor.BatchIsOneByOne` | cpp/engine/include/hme/engine_processor.hpp:208-231 | A batch that fits the ingress ring and overflows nothing gives the same events in the same order, and the same processor, as submitting and processing one message at a time. |
| `Guard.CheckPriceOrdering` | cpp/engine/include/hme/integrity_guard.hpp:100-129 | On any linked book, whatever its prices: true iff both ladders are strictly sorted and every bid level is below every ask level. |
| `Guard.CheckPositiveQuantity` | cpp/engine/include/hme/integrity_guard.hpp:133-151 | On any linked book, whatever its quantities: true iff every resting quantity is positive. |
| `Guard.OrderingMeansUncrossed` | cpp/engine/include/hme/integrity_guard.hpp:100-129 | On a well-formed book the ordering verdict says exactly that no bid reaches an ask. |
| `Guard.Evaluate` | cpp/engine/include/hme/integrity_guard.hpp:263-275 | Walking the lists finds the first violated invariant in the order price, quantity, conservation. |
| `Guard.IntegrityGuard.Conclude` | cpp/engine/include/hme/integrity_guard.hpp:248-258 | For any operation that leaves the book linked: the book is kept as it is iff nothing is violated, and otherwise every slot, link and counter is that of the snapshot. |
| `Guard.IntegrityGuard.Snapshot` | cpp/engine/include/hme/integrity_guard.hpp:224-224 | The snapshot is a full copy of the book. |
| `Guard.IntegrityGuard.Restore` | cpp/engine/include/hme/integrity_guard.hpp:228-228 | The book is the snapshot again; execution counter and retired ids are not part of it. |
| `Guard.IntegrityGuard.CommitNewOrder` | cpp/engine/include/hme/integrity_guard.hpp:247-258 | Around matching, the guard rolls back iff the order would be lost to a full pool, always for quantity conservation; then the whole engine is as it was and no trade had been handed to the sink. |
| `Pipeline.Registry.OnReadable` | cpp/network/include/hme/connection_registry.hpp:123-138 | Delivers what the framer delivers; a malformed stream removes the connection, an unknown one delivers nothing; no other connection changes. |
| `Pipeline.Registry.Accept` | cpp/network/include/hme/connection_registry.hpp:103-113 | Refused with no change iff the cap is reached; a new socket starts with an empty open framer, a tracked one keeps its own; no other connection changes. |
| `Pipeline.ServerPipeline.SubmitFramed` | cpp/server/include/hme/server_pipeline.hpp:184-190 | Framed commands are queued in order; the ones a full ring refuses are counted. |
| `Pipeline.EventsEncode` | cpp/server/include/hme/server_pipeline.hpp:227-240 | Every event of every run passes the encode guard. |
| `Pipeline.ServerPipeline.SubmitClientBytes` | cpp/server/include/hme/server_pipeline.hpp:174-199 | Ends with both rings empty; framed = processed + back-pressured; emitted = responses + overflow; every response is the encoding of one event, in order, to the socket whose bytes caused it; a processor that is not operational does nothing. |
| `Pipeline.ServerPipeline.DrainEvents` | cpp/server/include/hme/server_pipeline.hpp:226-240 | Empties the egress ring and returns one frame per event that can be encoded, in order. |
| `Pipeline.ReadsAreOneRun` | cpp/server/include/hme/server_pipeline.hpp:174-199 | Without losses any number of reads of a connection is one run over everything its framer delivered. |
| `Pipeline.EndToEnd` | cpp/server/include/hme/server_pipeline.hpp:174-199 | However a byte stream is split into reads, the lossless response is the event sequence of the stream, and its bytes parse back to exactly those events. |
| `Pipeline.InterleavedReads` | cpp/server/include/hme/server_pipeline.hpp:174-199 | However the reads of any number of connections interleave, the lossless engine is one run over all framed commands in arrival order and every event goes to the connection whose command caused it. |
| `Pipeline.OwnCommands` | cpp/network/include/hme/connection_registry.hpp:123-138 | What a connection contributes to that run depends on its own bytes only, not on their split or interleaving. |
| `Pipeline.EndToEndForAll` | cpp/server/include/hme/server_pipeline.hpp:174-199 | For every client: its own stream parses to its commands in the run, and its response bytes parse back to exactly the events of its own commands. |
| `Pipeline.ReadFits` | cpp/engine/include/hme/engine_processor.hpp:349-353 | An egress ring of at least 2 x ingress + MaxOrders slots makes overflow impossible on every read from every reachable book. |
| `Pipeline.ArrivalsFit` | cpp/engine/include/hme/engine_processor.hpp:349-353 | So it does over any interleaving of reads of any connections. |
| `Pipeline.RoomyEndToEnd` | cpp/server/include/hme/server_pipeline.hpp:174-199 | With such a ring the end-to-end statement needs only that no command was refused by the ingress ring. |
| `Framing.ChunksDoNotMatter` | cpp/network/include/hme/frame_buffer.hpp:71-135 | Feeding any split of a stream, after any prefix, equals a simple recursive parse of the whole: messages, closed flag and retained bytes. |
| `Framing.SplitsAgree` | cpp/network/include/hme/frame_buffer.hpp:71-135 | Two splits of one stream deliver the same messages and end in the same state. |
| `Framing.ParseRest` | cpp/network/include/hme/frame_buffer.hpp:71-135 | While open, less than one frame of a known type is retained. |
| `Framing.StreamRoundTrip` | cpp/network/include/hme/frame_buffer.hpp:71-135 | The stream of any in-range messages parses back to exactly those messages. |
| `Framing.FrameBuffer.Consume` | cpp/network/include/hme/frame_buffer.hpp:71-135 | The in-place buffer refines the recursive parse of retained bytes followed by the chunk. |
| `Codec.DecodeEncoded` | cpp/codec/src/codec.cpp:131-277 | Decoding an encoded message gives it back iff its fields are in range, and otherwise names the bad field. |
| `Codec.EncodedDecode` | cpp/codec/src/codec.cpp:186-277 | Re-encoding whatever decode accepts gives the same bytes. |
| `Codec.DecodeCharacterized` | cpp/codec/src/codec.cpp:186-277 | Decode accepts b as m iff b is the encoding of m and m is in range, so encoding is injective. |
| `Codec.NewOrderLayout` | cpp/codec/include/hme/wire_protocol.hpp:122-141 | Byte positions of a NewOrder: every field is at its documented offset, least significant base-256 digit first. |
| `Codec.TradeLayout` | cpp/codec/include/hme/wire_protocol.hpp:122-146 | The same for a Trade. |
| `Codec.ShortLayouts` | cpp/codec/include/hme/wire_protocol.hpp:135-151 | The same for CancelOrder, Ack and Reject. |
| `CodecImpl.CppEncode` | cpp/codec/src/codec.cpp:131-184 | Writes exactly the frame; buffer size is judged before field range, and on a range error the type byte has already been written. |
| `CodecImpl.RustEncode` | codec/src/lib.rs:453-505 | Writes exactly the same frame; field range is judged before buffer size and nothing is written on error. |
| `CodecImpl.CppDecode` | cpp/codec/src/codec.cpp:186-277 | Cursor-based decode equals the specification on every byte string, errors included. |
| `CodecImpl.RustDecode` | codec/src/lib.rs:523-588 | So does this one: the two decoders agree on every byte string. |
| `CodecImpl.OutcomesAgreeExactly` | codec/src/lib.rs:453-460 | The two encoders give the same outcome unless the buffer is too small and a field is out of range at once. |
| `Projection.OrderBook.InsertResting` | gateway-server/src/book.rs:68-89 | Keeps the cached levels equal to the fold over the order map, id replacement and zero remainder included. |
| `Projection.OrderBook.ApplyTrade` | gateway-server/src/book.rs:93-122 | The same for fills, over-fills and unknown ids. |
| `Projection.OrderBook.Remove` | gateway-server/src/book.rs:125-137 | The same for removal, a level existing iff some order is there. |
| `Projection.TakenExact` | gateway-server/src/book.rs:93-137 | Taking an order off its cached level leaves exactly the rest, and no level when there is no rest. |
| `AppState.State.RegisterInflight` | gateway-server/src/state.rs:175-200 | Registers a request, refusing an id that is in flight. |
| `AppState.State.DropInflight` | gateway-server/src/state.rs:203-205 | Removes one in-flight entry and nothing else. |
| `AppState.State.HandleEngineEvent` | gateway-server/src/state.rs:240-310 | Refines one step of the value-level gateway: trades reduce the projection and extend the fills, terminators complete their request. |
| `AppState.State.CompleteAccept` | gateway-server/src/state.rs:312-354 | The residual computed in 32 bits rests, the acceptance is journaled unless restoring, the waiting request is answered. |
| `AppState.State.CompleteCancel` | gateway-server/src/state.rs:356-376 | The order leaves the projection, the cancel is journaled, the request is answered. |
| `AppState.State.CompleteReject` | gateway-server/src/state.rs:378-396 | The request is answered and nothing else changes. |
| `ReplicaStep.CommandEffect` | gateway-server/src/state.rs:240-376 | For every command, accepted or rejected, rested or lost, the events it emits turn the projection of the old book into that of the new one plus one phantom for a lost order, no subtraction saturating. |
| `ReplicaStep.ResidualIsLeft` | gateway-server/src/state.rs:312-354 | The residual the gateway computes is the remainder the engine left. |
| `ReplicaStep.ShownExactly` | gateway-server/src/state.rs:312-354 | After any run the projection is the engine book iff every lost order is among the ids left out of account, and there is a lost order iff quantity was lost. |
| `ReplicaStep.EffectIsTrades` | gateway-server/src/state.rs:240-396 | Apart from its own id, a command does to the projection exactly what its trades do. |
| `Replica.StepKeepsInv` | gateway-server/src/state.rs:175-396 | Submitting, sending in any order, failing to send, timing out, processing and delivering each keep the invariant. |
| `Replica.RunKeepsInv` | gateway-server/src/state.rs:240-396 | Over every run of gateway and engine joined by queues, timeouts and lost orders included, resting ids are unique and, for every id that did not time out, projection and journal lag the engine by exactly the undelivered batches. |
| `Replica.ProjectionAtTerminators` | gateway-server/src/state.rs:240-396 | At every terminator of every run the projection becomes the engine book right after that command plus the orders lost so far, for every id that did not time out; a request that did not time out is in flight as its own command's, is answered with its terminator and exactly its trades, and is not in flight afterwards. |
| `Replica.QuiescentAgreement` | gateway-server/src/state.rs:312-376 | Whenever nothing is undelivered the projection is the engine book plus the lost orders, and the journal is the accepted history, for every id that did not time out. |
| `Replica.NothingSaturates` | gateway-server/src/book.rs:93-122 | No delivered trade with an order that did not time out exceeds what the projection shows. |
| `Restart.TerminatorAgreement` | gateway-server/src/state.rs:240-396 | At every terminator of every run projection and engine agree, for every id that did not time out, iff every order lost so far timed out. |
| `Restart.QuiescentExactly` | gateway-server/src/state.rs:240-396 | The same whenever nothing is undelivered; without timeouts they agree iff no quantity was ever lost. |
| `Divergence.HeardExactly` | gateway-server/src/state.rs:312-354 | A registered command takes the projection of the book to that of the new book iff it loses nothing. |
| `Divergence.LossDiverges` | gateway-server/src/state.rs:312-354 | A concrete lost order that the projection shows and the engine does not know. |
| `Divergence.UnheardExactly` | gateway-server/src/api.rs:137-148 | With the in-flight entry dropped, projection and engine still agree after a command iff it put nothing to rest and cancelled nothing. |
| `Divergence.TimeoutDiverges` | gateway-server/src/api.rs:137-148 | A concrete timed-out order that rests in the engine while the projection stays empty. |
| `Divergence.LateExactly` | gateway-server/src/state.rs:240-396 | The exact condition for every late command and every in-flight table: its events leave projection and engine in agreement iff nobody holds its id and it changed nothing of its own, or somebody does and what the holder's entry makes of an order is what came to rest of it (a cancel or a rejected order always stays in step then). |
| `Divergence.LateAckMisfiled` | gateway-server/src/state.rs:312-354 | A late acknowledgement is credited to a cancel that holds the id by then, whatever fills it has: the cancel's request is answered with the order's acknowledgement, the journal receives an order of price and quantity zero, which a replay skips, and projection and engine agree afterwards iff nothing of the order came to rest. |
| `Divergence.LateRejectMisfiled` | gateway-server/src/state.rs:378-396 | The mirror case: the late rejection of a timed-out request answers a new order that holds the id by then; the order gets no other answer, is not journaled, and projection and engine agree after it iff nothing of it came to rest. |
| `Divergence.MisfiledAckReached` | gateway-server/src/api.rs:137-148 | A run that leads there: an order is sent and times out, a cancel takes its id, and the acknowledgement arrives; the order rests unseen and its record is one of price and quantity zero. |
| `Divergence.MisfiledRejectReached` | gateway-server/src/api.rs:137-148 | A run for the mirror case: the late rejection of a cancel answers an order that has not been sent yet. |
| `Replay.StampsMatterExactly` | cpp/engine/include/hme/order_book.hpp:407-443 | For one insert the arrival numbers do not matter iff the order is last in line at its price. |
| `Replay.ReplayAgreesExactly` | gateway-server/src/engine_client.rs:107-198 | A replay with rising stamps agrees after every command with the original iff in the original every order that came to rest was last in line. |
| `Replay.ReplayRebuilds` | gateway-server/src/engine_client.rs:107-198 | Replaying only the accepted commands with fresh stamps gives the same trades, retired ids and book up to stamps, when the accepted commands arrived in rising stamp order. |
| `Replay.ReplayNeedsOrder` | gateway-server/src/engine_client.rs:166-177 | Two concrete orders stamped out of order for which the replayed book differs. |
| `Restart.RunKeepsHistory` | gateway-server/src/state.rs:240-396 | Over every run the processed commands form a run with fresh ids from an empty engine, and without timeouts the answers given so far are exactly those of its delivered prefix. |
| `Restart.PrepareReplay` | gateway-server/src/engine_client.rs:155-198 | Reserves, stamps and registers one record; a record in flight or not encodable is skipped, the stamp being used up. |
| `Restart.ReplayJournal` | gateway-server/src/engine_client.rs:107-150 | The replay loop refines the value-level replay, one record answered before the next; a failed write ends it at that record, whose entry is dropped again while its id and stamp stay taken. |
| `Restart.RestartRebuilds` | gateway-server/src/engine_client.rs:107-198 | From any state, undelivered events and lost orders included, whose journal is complete and whose answered orders were last in line: each record is accepted again, every acknowledged answer is reproduced trade by trade, projection and (up to stamps) engine are restored as of the last answered command, the journal is unchanged, and all invariants hold for what follows, further restarts included. |
| `Restart.QuietIsComplete` | gateway-server/src/state.rs:312-376 | Without timeouts the journal is complete. |
| `Recovery.AnyJournalAgrees` | gateway-server/src/engine_client.rs:107-198 | Whatever a journal with distinct order ids contains: after its replay gateway and engine agree up to orders lost in the replay, every command sent is answered, nothing is in flight, and apart from records that were not accepted again the journal is the accepted history. |
| `Recovery.RunKeepsJournal` | gateway-server/src/state.rs:312-376 | Over every run, timeouts and misfiled answers included, journaled orders have distinct ids, all of them handed out by the gateway and none of them still pending. |
| `Recovery.RestartRecovers` | gateway-server/src/engine_client.rs:107-198 | From any state with such a journal, whatever was lost, timed out or stamped out of order: after the replay on an empty engine the two agree up to orders lost in the replay, and every invariant of normal operation, of the history and of the journal holds again. |
| `Recovery.RestartAfterEveryRun` | gateway-server/src/engine_client.rs:107-198 | The same in every state of every run, with no condition on the run. |
| `Recovery.ConnectExactly` | gateway-server/src/engine_client.rs:107-150 | For every journal with distinct order ids, replay ends in agreement iff the engine's book is empty at connect. |
| `Recovery.StaleEngineDiverges` | cpp/server/src/main.cpp:90-106 | Replaying one journaled order on an engine that still rests it leaves two orders of that id in the book and one in the projection. |
| `Restart.RestartAfterAnyRun` | gateway-server/src/engine_client.rs:107-198 | The same in every state of every run without timeouts whose accepted and answered commands reached the engine in rising stamp order. |
| `GatewayIds.Gateway.Reserve` | gateway/src/lib.rs:174-182 | Takes an id, reporting whether it was free, and moves the allocator past it. |
| `GatewayIds.Gateway.AssignUniqueId` | gateway/src/lib.rs:244-251 | The wrapping search ends whenever fewer than 2^64 ids are in use, at the first free id. |
| `GatewayIds.FirstFreeUnique` | gateway/src/lib.rs:244-251 | The first free id from a starting point is unique, so the contract of the search determines its result. |
| `GatewayIds.Gateway.ResolveOrderId` | gateway/src/lib.rs:224-241 | A supplied id is kept iff free; otherwise refused with no change. |
| `GatewayIds.Gateway.HandleNewOrder` | gateway/src/lib.rs:196-219 | A refused order changes nothing; an accepted one takes exactly one id that was free. |
| `GatewayIds.Gateway.NewOrderMessage` | gateway/src/lib.rs:255-265 | Stamps with the next arrival number. |
| `GatewayIds.Drive` | gateway/src/lib.rs:174-251 | Over any interleaving of supplied-id orders, auto-id orders, refused orders and reservations the granted ids are pairwise distinct and disjoint from those in use before. |

## Left out

- Replica.RunKeepsInv: events are delivered in order and none is lost to a full egress ring; with enough room none is (`Processor.EgressSuffices`).
- Restart.RestartRebuilds: asks for a complete journal; a timed-out acceptance is missing from it (`Divergence.UnheardExactly`), so the past cannot be rebuilt from it; what holds after every run is `Recovery.RestartAfterEveryRun`.
- Recovery.RestartRecovers: restarts on an empty engine; `Recovery.ConnectExactly` shows that no restart theorem holds on one that kept its book.
- Restart.ReplayJournal: a record whose answer times out during replay is not modelled; every record is answered before the next is sent.
- Restart.Resumed: starts with an empty outbox, as a new process does; frames queued for writing survive a reconnect and are then sent without an in-flight entry.
- MatchingEngine.MatchingEngine.ProcessNewOrder: also returns how much came to rest, which the original discards; the guard needs the figure from its caller.
- Guard.IntegrityGuard.Conclude: `commit` takes the operation as a callback; the model splits it into the snapshot, any operation, and this conclusion, and carries the whole through for matching.
- Framing.FrameBuffer.Consume: the source's single loop is written as completing a retained frame and then scanning the chunk, which is the order in which its two branches can occur.
- AppState.State.CompleteAccept: the 32-bit sum of fills wraps, as in a release build; a debug build would panic. In the joint runs it cannot overflow (`ReplicaStep.ResidualIsLeft`).
- Sinks passed as callbacks are returned sequences, in the order of the calls.
- Shifts, masks and `|=` on bytes are written as arithmetic.
- Pipeline.Registry.OnReadable: readiness registration and socket closing are not modelled.
- The trade tape, broadcasts, dirty flag and metrics of the gateway state, timestamps and the projection snapshot: they add easy members only.
- GatewayIds.Gateway.HandleNewOrder: JSON parsing and floating-point price conversion are one parameter saying whether the other fields are valid.
- The journal file is a sequence of records that is appended to without failure.
- Wrap-around of the processed, error, overflow, response and projection counters; the execution, arrival and id counters do wrap at 2^64. `Restart` assumes that the arrival numbers used by one replay do not wrap.
- Sockets, the select loop, outbound queues, HTTP, WebSocket, authentication, client libraries and the web console: input and output.
- The allocation counter, latency statistics and benchmarks: about the runtime, not the logic.
- Determinism of two equal runs: immediate, since the engine is a function.
