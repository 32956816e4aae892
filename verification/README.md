# NEVOS in Dafny

A verified model of the parts of NEVOS that decide things: the firmware's event bus and blob pool, its
WebSocket client, codecs, name resolver, hash, update machine, settings store, clock arithmetic and two of
its games, and the companion daemon's HTTP reader, framing, session and pairing machines. `dafny verify
dfyconfig.toml` checks the whole project.

Where the program changes things in place, the model does too: rings, stacks, buffers, boards and tables are
arrays or fields of classes, and each method is proved against a function of its inputs or of the old state.
The theorems are about those functions, or about all runs of the state machine they form. Where a function
is a convention rather than an algorithm (bit tables, byte orders, constants of a standard), it is fixed by an
independent description of the standard's or by its published example.

| component | files |
|---|---|
| event bus and blob pool | `Blob`, `BlobPool` (in place), `BusModel` (queues, references), `BusSteps` (every interleaving), `BusSync` (ring against semaphore), `BusOrder` (order of what was received and waits), `BusHanded` (order of what is handed out), `BusRuns` (calls as runs of the step system), `EventBus` and `BusCalls` (in place) |
| WebSocket client | `WebSocket` (frames), `WsClient` (parser, receive buffer, outbound buffer) |
| HTTP responses | `Chunked`, `ChunkedReads` (every stream there is), `HttpLines` |
| codec and messages | `Endian`, `Cbor`, `Proto` (schema interpreter, both decoders), `ProtoCalls` (writers and readers in place), `ProtoReads` (exactly what they read), `Golden` (the schema's reference vectors) |
| frames, session, connection | `Framing`, `Session`, `SessionRuns` (histories), `SessionAnswers` (what is answered, and when), `Server` (from socket bytes to answers) |
| pairing | `Pairing` |
| mDNS | `Mdns` (names), `MdnsParse` (query and record walk), `MdnsAnswer` (a daemon's answer, byte for byte) |
| clock, hash, updates | `Civil`, `Sha256`, `Sha256Example` (the standard's example, round by round), `Version`, `Ota` |
| games | `Snake`, `Match` (rules and scans), `MatchDraws` (everything that draws colours) |
| settings | `Store` (values and text), `StoreCache` (cache, backend, debounce) |
| text for the device | `Utf8`, `SplitFrames` |
| shared vocabulary | `Basics` |

Parameters and assumptions: the semaphore of a subscriber starts at zero and saturates at the ring's depth;
the receive buffer of the WebSocket client has any positive size; the settings table is any table with
min <= max below 2^32 and distinct keys; `unsigned long` has 32 bits or more; random draws are any values
in the range asked for, in Match any sequence of them; time is an argument, read anew for every frame of a
connection; whether a send, a save or the flush of a commit succeeds is arbitrary at each call, and what an
erase, the flush after it and an open do is an argument; the lookup of a device's token is any function.

## Where the code and its documentation differ

The model follows the code; each point has a lemma or a clause of its own.

- `docs/event-bus.md`, section 6, guarantees that a subscriber sees the events of one publishing task in publish
  order. With coalescing a newer event takes an older one's place in the queue and overtakes what queued up
  behind it (`BusHanded.HandedOutOfOrder` is such a run, though `BusHanded.OvertakenYetInOrder` is one where nobody
  sees it). `BusHanded.PromiseKeptIff` says exactly which subscribers the guarantee holds for, and
  `BusHanded.HandedInOrderIff` which runs break it for the others.
- `nev_bus.c` says a subscriber's semaphore count always equals its ring count. In runs that race no flush it
  does exactly when no publisher or receiver is between its two steps (`BusSync.QueueAndSemaphoreInStep`). A
  flush lets go of the lock before it drains the semaphore, and an event published in between can lose its
  wake-up for good (`BusSync.WakeUpLostToDrain`). `BusSync.FlushEndsInStepIff` accounts for every flush;
  `BusSync.UndisturbedFlushIff` and `BusSync.PublishesDuringFlushIff` say exactly when the two agree after one that
  nobody joins, and after one that only publishers join.
- The generated decoders are meant to agree. A signed field is cut down in Rust (`gen.py` line 567) where C
  refuses it, text with a NUL is shorter in C, and text that is not UTF-8 is refused by Rust alone
  (`Proto.SignedFieldsDisagree`, `Proto.NulTextDisagrees`; `Proto.DecodersAgreeIff` says exactly when they agree).
  No message of `schema/nevos.toml` has a signed field today, so only text can make shipped decoders differ.
- The schema says sequence numbers let the daemon spot a dropped frame. Only one with frames that arrive on
  either side is spotted (`SessionRuns.LossSpottedIff`; `SessionRuns.LostAtTheStart` and `SessionRuns.LostAtTheEnd` are
  runs with a loss nobody notices).
- `ota_core.c` calls comparing 1.2.3-rc1 as 1.2.3 the right answer. A suffix ends the comparison at once, so
  with suffixes "equal" is no equivalence (`Version.EverySuffixBreaksEquality`, `Version.EqualIff`), and numbers
  wrap at 2^32 (`Version.ComparesTrulyIff`).
- `match_core.h` promises an opening board without ready-made matches and the code calls its filling loop
  unfailing. A tile whose sixteen draws all complete a run keeps the last of them
  (`MatchDraws.ConstantBreaksPromise`; `MatchDraws.OpeningIsPlayableIff` says exactly when the promise is kept).
- `nev_store.h` says a setting outside its range is clamped, strings by length. A string over the limit is
  refused, and a minimum length is never asked for (`StoreCache.Cache.SetStr`).
- A factory reset counts the store as clean even when the medium was not erased, and the host's erase does not
  look whether the file went away. An old value can be back at the next start (`StoreCache.ResetUndone`);
  `StoreCache.Cache.ResetThenReopen` says exactly which outcomes make a reset last, and
  `StoreCache.Cache.FactoryReset` which leave the store telling the truth in the meantime.
- `write_name` takes a name with a trailing dot and writes it without one (`Mdns.ReadsBack`).
- When a read ends in a bad length prefix, the answers to the frames in front of it are dropped although the
  session has acted on them (`Server.PongLostToBadPrefix`; `Server.AnswersAgreeIff` says exactly when the cut of the
  stream shows in the answers).

## Model

| member | source | states |
|---|---|---|
| Blob.HandlesNameBlocks | components/nev_kernel/src/nev_blob.c:43-47 | valid handles and blocks stand for each other one to one, and the "no blob" value is no block's handle |
| Blob.BlocksDisjoint | components/nev_kernel/src/nev_blob.c:137-141 | two different blocks of a class share no byte, and none runs past the class's storage |
| Blob.InitialPool | components/nev_kernel/src/nev_blob.c:49-84 | the pool starts with every count zero and every free list full and in range |
| Blob.ClassFor | components/nev_kernel/src/nev_blob.c:98-112 | the class an allocation is served from is the smallest whose blocks hold it |
| Blob.PoolSizes | docs/event-bus.md:248-255 | counts and sizes are those of the documentation, 336 KB in all |
| BlobPool.RoomToFree | components/nev_kernel/src/nev_blob.c:155-171 | a block somebody holds has room waiting on its free list, so the "freed twice into the list" assertion cannot fire |
| BlobPool.AllFreeMeansUnheld | components/nev_kernel/src/nev_blob.c:192-200 | in a settled pool all free lists are full exactly when nobody holds a block |
| BlobPool.BlobPool.Alloc | components/nev_kernel/src/nev_blob.c:98-135 | hands out an unheld block of the fitting class with count one, or nothing and no change when the length is bad or the class is empty; never a block of a larger class |
| BlobPool.BlobPool.Retain | components/nev_kernel/src/nev_blob.c:148-153 | adds exactly one reference to the named block, does nothing for an invalid handle, and keeps the pool settled |
| BlobPool.BlobPool.Release | components/nev_kernel/src/nev_blob.c:155-171 | drops exactly one reference; the last one puts the block back on its free list, and only then |
| BlobPool.BlobPool.AllFree | components/nev_kernel/src/nev_blob.c:192-200 | answers whether no block is held, although it only compares list lengths |
| BusHanded.PromiseKeptIff | docs/event-bus.md:208-211 | the documented publish order, subscriber by subscriber: in every run of every system with it every publisher's events are handed to it in publish order if and only if it does not coalesce, or holds a single event, or wants no domain with a snapshot type |
| BusHanded.HandedInOrderIff | docs/event-bus.md:208-211 | run by run: what a subscriber has been handed is in a publisher's publish order if and only if no pop of the run handed out one of its events while an older one that was handed out too still waited behind it in the ring |
| BusHanded.NoneOvertakesIsEnough | docs/event-bus.md:208-211 | if no delivery of a run overwrites a snapshot that others of a publisher's events have queued up behind, those handed out are in publish order |
| BusHanded.DrainedInOrderIff | components/nev_kernel/src/nev_bus.c:257-270 | handing out now all that waits leaves a publisher's events handed out in order if and only if what was received and what waits, together, stand in order now |
| BusHanded.OvertakenYetInOrder | components/nev_kernel/src/nev_bus.c:161-177 | a run with an overtaking delivery that is not seen: a second newer snapshot takes the overtaken event's place, and all that is handed out is in order |
| BusOrder.StandInOrderIff | components/nev_kernel/src/nev_bus.c:157-285 | from boot, in any interleaving: a publisher's events stand in publish order at every moment in what was received and what waits, together, if and only if no delivery of the run overwrites a snapshot that others of them have queued up behind |
| BusOrder.DeliverKeepsSequence | components/nev_kernel/src/nev_bus.c:157-206 | one delivery keeps a publisher's events in order, in what was received and what waits, exactly when it overtakes none of them |
| BusHanded.HandedOutOfOrder | docs/event-bus.md:208-211 | the promise broken in a run from boot: one publisher publishes a snapshot, another event and a newer snapshot, and a coalescing subscriber receives the third before the second |
| BusModel.DeliverKeeps | components/nev_kernel/src/nev_bus.c:157-206 | delivering an event with a newer number keeps capacity, order per type (overall without coalescing), one queued snapshot per coalescable type, the domain filter and the accounting of counters |
| BusModel.DeliverDecides | components/nev_kernel/src/nev_bus.c:157-206 | one delivery, whole: the event takes the place of the one it makes stale, or goes to the end, the oldest making room under that policy, or is refused; received, coalesced and dropped count exactly these |
| BusModel.CoalescableAre | components/nev_kernel/src/nev_events.c:17-34 | exactly seven kinds of event may be coalesced |
| BusModel.AssertionsAre | components/nev_kernel/src/nev_blob.c:148-171 | the model notes a failed assertion exactly where a reference is added to or dropped from an unheld block, or a block freed into a full list |
| BusModel.EnqueueHeld | components/nev_kernel/src/nev_bus.c:157-206 | for every block: references held by the ring, plus the one that leaves, equal those before plus the one that enters |
| BusSteps.StepKeeps | components/nev_kernel/src/nev_bus.c:157-285 | every atomic step of every client, in any interleaving, flushes that race publishes and receives included, keeps counts equal to references, each idle block in exactly one place, and the order, domains, capacity and accounting of every queue |
| BusSteps.RunKeeps | components/nev_kernel/src/nev_bus.c:157-285 | so does every finite run of such steps |
| BusSteps.VacatedSlotIsHeld | components/nev_kernel/src/nev_bus.c:169-187 | between the release of a displaced event and the write over its slot, the reference given up is one that ring slots account for, so none is counted away twice |
| BusSteps.CountsAreReferences | components/nev_kernel/src/nev_blob.c:98-171 | in every reachable state a block's count is the number of ring slots, clients and publishes holding it; it is on its free list once exactly if that number is zero and no release or allocation of it is half done; no pool assertion has fired |
| BusSteps.PublishedBlockStaysAlive | components/nev_kernel/src/nev_bus.c:157-250 | coalescing or evicting in the middle of a publish never frees the block of the event being published |
| BusSteps.AllocationIsFresh | components/nev_kernel/src/nev_blob.c:98-135 | in every reachable state an allocation takes a block nobody refers to, disjoint from every block that is referred to |
| BusSync.SyncKeeps | components/nev_kernel/src/nev_bus.c:157-285 | every step that does not race a flush keeps each subscriber in step, or in the middle of its one flush |
| BusSync.QueueAndSemaphoreInStep | components/nev_kernel/src/nev_bus.c:157-285 | in a run that races no flush, wherever no flush is on, ring count = semaphore tokens + gives owed + takes not yet popped; a pop finds an event and a give finds room; the file comment's "semaphore count equals ring count" holds exactly when nobody is between two steps |
| BusSync.FlushEndsInStepIff | components/nev_kernel/src/nev_bus.c:272-285 | whatever happens between the unlock of a flush and the take that finds the semaphore empty: ring and semaphore end in step if and only if the gives since the unlock, with the tokens taken in vain, equal the takes since it plus what was owed and taken at the unlock |
| BusSync.UndisturbedFlushIff | components/nev_kernel/src/nev_bus.c:272-285 | if nobody gives to, takes from or pops that subscriber meanwhile, they end in step if and only if nobody was between two steps at the unlock |
| BusSync.PublishesDuringFlushIff | components/nev_kernel/src/nev_bus.c:272-285 | if only publishers come meanwhile and all are done: they end in step if and only if none of them reached the subscriber, and each event delivered to it is left without a wake-up |
| BusSync.WakeUpLostToDrain | components/nev_kernel/src/nev_bus.c:245-247 | a run from boot with nobody between two steps when the flush begins, in which a publish after the unlock loses its wake-up to the drain: one event queued, no token |
| BusSteps.DeliveryIsOrderedAndCounted | components/nev_kernel/src/nev_bus.c:157-285 | in every reachable state: only wanted domains, numbers rising per type (overall unless coalescing), one snapshot of a type queued, and received = coalesced + evicted + popped + flushed + queued |
| BusSteps.TeardownFreesEverything | components/nev_kernel/src/nev_bus.c:88-98 | with rings empty and client references released, every free list is full |
| EventBus.Subscriber.Find | components/nev_kernel/src/nev_bus.c:164-168 | finds the oldest queued event of a type in the ring, or that there is none |
| EventBus.Subscriber.Evict | components/nev_kernel/src/nev_bus.c:180-194 | removes exactly the oldest event, counts the drop and releases its reference, never the publisher's |
| EventBus.Subscriber.Enqueue | components/nev_kernel/src/nev_bus.c:157-206 | the ring with head, tail and count behaves as the abstract queue with coalescing and eviction, the pool gains and loses exactly the references that enter and leave, and the verdict says whether to signal |
| EventBus.Subscriber.Recv | components/nev_kernel/src/nev_bus.c:257-270 | takes a token and the oldest event, and changes nothing without a token |
| EventBus.Subscriber.Flush | components/nev_kernel/src/nev_bus.c:272-285 | empties ring and semaphore and releases every queued reference |
| BusRuns.PassedIsRun | components/nev_kernel/src/nev_bus.c:219-240 | one subscriber's turn in the locked pass, in the code's order of release, push, write and retain, is a run of the step system |
| BusRuns.RefusedIff | components/nev_kernel/src/nev_bus.c:219-240 | a subscriber refuses an event if and only if it wants the domain and does not have the event queued after its turn |
| BusCalls.Bus.Subscribe | components/nev_kernel/src/nev_bus.c:104-149 | succeeds exactly on a bus that is up, for a depth in range, a non-empty mask and a free slot, and adds an empty subscriber |
| BusCalls.Bus.Publish | components/nev_kernel/src/nev_bus.c:208-250 | a call made alone is a run of the step system that delivers to every subscriber of the domain and to no other, wakes exactly those whose queue grew, and answers accepted if and only if every subscriber of the domain then has the event queued; a bus not up is left alone |
| BusCalls.Bus.Receive | components/nev_kernel/src/nev_bus.c:257-270 | a call made alone is a run of the step system that returns the oldest event exactly if there is one and hands its reference to the caller |
| BusRuns.FlushIsRun | components/nev_kernel/src/nev_bus.c:272-285 | a flush that nobody races, event by event with the push each release calls for and then token by token, is a run of the step system and ends in step |
| BusCalls.Bus.Flush | components/nev_kernel/src/nev_bus.c:272-285 | a call made alone is a run of the step system that empties the subscriber's ring and semaphore and releases every reference it held |
| BusCalls.Bus.Deinit | components/nev_kernel/src/nev_bus.c:88-98 | every ring is flushed by a run of the step system and every slot given up; the bus is down, and if clients hold nothing the whole pool is free |
| BusCalls.Bus.Init | components/nev_kernel/src/nev_bus.c:76-86 | nothing happens to a bus that is up; one that was down starts with no subscriber and numbers from one again |
| WebSocket.FrameReadGrows | components/nev_bridge/src/nev_ws.c:88-148 | a verdict other than "need more" stays whatever bytes follow |
| WebSocket.ReadsServerFrame | components/nev_bridge/src/nev_ws.c:88-148 | a complete unmasked FIN frame that fits is read with its opcode and payload, whatever follows (section 5.2 of RFC 6455) |
| WebSocket.PrefixNeedsMore | components/nev_bridge/src/nev_ws.c:88-148 | every strict prefix of such a frame asks for more and is never an error |
| WebSocket.OnlyServerFramesRead | components/nev_bridge/src/nev_ws.c:88-148 | nothing else is read as a frame: the bytes consumed are exactly the one minimal encoding of what was returned |
| WebSocket.UnmaskMasked | components/nev_bridge/src/nev_ws.c:51-86 | masking with the four-byte key is its own inverse |
| WebSocket.MaskedDiffers | components/nev_bridge/src/nev_ws.c:51-86 | octet k of every four differs from the payload in exactly the bits set in octet k of the key (section 5.3 of RFC 6455) |
| WebSocket.ServerRecovers | components/nev_bridge/src/nev_ws.c:51-86 | a server that unmasks what the client wrote gets back opcode and payload, for every payload and mask |
| WsClient.ReflectedFrameEnds | components/nev_bridge/src/nev_ws.c:88-148 | a masked frame anywhere in the stream ends the connection: everything before it is delivered, nothing of it or behind it is |
| WsClient.OtherFrameEnds | components/nev_bridge/src/nev_ws.c:320-380 | a close, a text or a frame of unknown kind anywhere in the stream ends the connection as such, everything before it passed and nothing behind it |
| WsClient.OversizeFrameEnds | components/nev_bridge/src/nev_ws.c:88-148 | a frame larger than the buffer ends the connection: at its length field if the payload alone is too large, else once the buffer is full |
| WsClient.Client.SendPong | components/nev_bridge/src/nev_ws.c:270-279 | the pong of a ping, with its payload, is queued if and only if nothing is going out and the frame fits; else nothing is |
| WsClient.FirstPingAnswered | components/nev_bridge/src/nev_ws.c:345-362 | with nothing going out at the start, the first ping of a poll is answered before anything else is queued, if its pong fits |
| WebSocket.FrameWrite | components/nev_bridge/src/nev_ws.c:51-86 | writes the whole masked frame, or nothing at all when it does not fit |
| WsClient.ParseContinues | components/nev_bridge/src/nev_ws.c:281-380 | parsing a stream continued from its unfinished frame is parsing it whole |
| WsClient.RestIsIncomplete | components/nev_bridge/src/nev_ws.c:281-380 | what is left over is less than a buffer and holds no complete frame |
| WsClient.StreamParses | components/nev_bridge/src/nev_ws.c:281-380 | any stream of data, ping and pong frames that fit parses to exactly these frames, in order |
| WsClient.CutStreamWaits | components/nev_bridge/src/nev_ws.c:281-380 | cut anywhere inside a frame, the stream is waited for and not refused |
| WsClient.WaitingMeansAllPassed | components/nev_bridge/src/nev_ws.c:281-380 | a client that has read a whole stream and waits has passed exactly its frames |
| WsClient.Outbox.Flush | components/nev_bridge/src/nev_ws.c:189-199 | bytes reach the socket in the order queued, whatever part of them each send takes |
| WsClient.Outbox.Put | components/nev_bridge/src/nev_ws.c:391-395 | queues one whole masked frame exactly if nothing is still going out and it fits |
| WsClient.Client.Send | components/nev_bridge/src/nev_ws.c:386-401 | a payload is taken if and only if the connection is open, nothing is still going out, its frame fits and the socket lives; the frame is then queued whole behind the others, and a socket found dead ends the connection |
| WsClient.Client.ReadFrame | components/nev_bridge/src/nev_ws.c:88-148 | reading in the receive buffer computes the frame reading of the bytes it holds |
| WsClient.Client.TakeOne | components/nev_bridge/src/nev_ws.c:320-380 | the loop over the buffer hands out the next binary payload, waits, or ends, as the simple parser of everything received says; what it queues is the pongs of the pings it passed at which nothing was going out, in order |
| WsClient.Client.Poll | components/nev_bridge/src/nev_ws.c:281-380 | for every sequence of reads, messages delivered and buffer contents agree with the simple parser of the bytes received so far: the in-place buffer with deferred compaction refines it; each poll accounts for every ping it passed and the pong it queued or skipped |
| Chunked.ParsesSizeLine | companion/nevos-agent/src/http.rs:87-97 | a size line as section 7.1 of RFC 9112 writes it, extension included, announces the size it means |
| ChunkedReads.SizeLineIff | companion/nevos-agent/src/http.rs:87-97 | a size line is taken, for n, if and only if it is white space, perhaps a plus sign, hexadecimal digits for n below 2^64, white space, and nothing or an extension |
| ChunkedReads.HexIff | companion/nevos-agent/src/http.rs:87-97 | digits are those of base sixteen in either case and no other byte, each with its value |
| ChunkedReads.HexedIsRead | companion/nevos-agent/src/http.rs:87-97 | a number in base sixteen is read as itself, whatever zeros stand in front of it |
| ChunkedReads.SpaceIff | companion/nevos-agent/src/http.rs:87-97 | what is trimmed is exactly the characters Unicode counts as white space, in UTF-8 |
| ChunkedReads.EveryStreamIs | companion/nevos-agent/src/http.rs:70-127 | every stream there is falls into whole chunks and a rest of one of six kinds, and that decides what comes out, what is kept, whether it is done and whether it is an error |
| Chunked.RunContinues | companion/nevos-agent/src/http.rs:70-127 | decoding what one read brought and then what the next brings is decoding both at once |
| Chunked.PrefixDecodes | companion/nevos-agent/src/http.rs:70-127 | no prefix of a valid coding is an error, and the whole of it gives the body and a finished decoder |
| Chunked.SplitIndependent | companion/nevos-agent/src/http.rs:70-127 | every partition of a valid coding with size lines of at most 63 bytes gives the body and a finished decoder |
| Chunked.SplitIndependentIff | companion/nevos-agent/src/http.rs:70-127 | a valid coding decodes alike under every partition if and only if its size lines are at most 63 bytes long |
| HttpLines.ChunkedDecoder.Push | companion/nevos-agent/src/http.rs:70-127 | the buffer, remaining count and done flag compute the decoding step that the theorems are about |
| HttpLines.ChunkedDecoder.FindCrLf | companion/nevos-agent/src/http.rs:130-132 | finds the first line end |
| HttpLines.LinesContinue | companion/nevos-agent/src/http.rs:145-178 | splitting the left-over line together with the next read loses and invents nothing |
| HttpLines.EveryLineArrives | companion/nevos-agent/src/http.rs:145-166 | non-blank lines, each ended by LF, coded and cut in any way, come out one by one, in order, as their texts |
| HttpLines.LinesAre | companion/nevos-agent/src/http.rs:145-166 | the raw lines of a body are cut exactly behind each LF |
| HttpLines.TextsChosen | companion/nevos-agent/src/http.rs:157-160 | what is handed on is a choice of the raw lines, in order, that hits exactly those with text in them |
| HttpLines.LinesSplitIndependentIff | companion/nevos-agent/src/http.rs:152-166 | a body gives the same lines under every partition if and only if no line exceeds the limit |
| HttpLines.LineSplitter.Push | companion/nevos-agent/src/http.rs:152-166 | hands on the complete non-empty lines, keeps the rest, and fails exactly when the rest is over the limit |
| HttpLines.LineSplitter.Flush | companion/nevos-agent/src/http.rs:173-177 | an unfinished last line is handed on once |
| HttpLines.ResponseIsBodyLines | companion/nevos-agent/src/http.rs:296-307 | chunked decoding feeding the line splitter: the lines handed on are those of the body, for every chunking and every partition |
| SplitFrames.SplitForFrames | companion/nevos-agent/src/lib.rs:176-195 | pieces are valid UTF-8 (section 3 of RFC 3629) of at most max bytes, concatenate to the text, are never empty for non-empty text, and waste at most three bytes each; it always ends for max of at least 4 |
| SplitFrames.FindCut | companion/nevos-agent/src/lib.rs:176-195 | walking back finds the last character boundary at or before max, at most three bytes away |
| Utf8.BoundaryNear | companion/nevos-agent/src/lib.rs:176-195 | among any four neighbouring positions of valid text there is a character boundary |
| Utf8.CutAtBoundary | companion/nevos-agent/src/lib.rs:176-195 | valid text cut at a boundary is two valid texts |
| Utf8.ValidIff | companion/nevos-proto/src/cbor.rs:240-250 | a text is valid if and only if it encodes some sequence of scalar values by the bit table of section 3 of RFC 3629 |
| Cbor.ReadsHead | components/nev_bridge/src/nev_cbor.c:54-77 | a written head reads back as its major type and argument, whatever follows |
| Cbor.HeadIsShortest | components/nev_bridge/src/nev_cbor.c:54-77 | of all heads a reader accepts for a value the written one is the only shortest (section 4.2.1 of RFC 8949) |
| Cbor.PythonHeadAgrees | tools/schema/gen.py:38-49 | the reference encoder of the schema generator writes the same head |
| Proto.FieldRoundTrip | tools/schema/gen.py:306-333 | every field type: what either side writes, either side reads back and consumes exactly, text being UTF-8 for Rust and without NUL for C |
| Proto.FieldSkipped | components/nev_bridge/src/nev_cbor.c:342-391 | every field is one item to a peer that does not know it |
| Proto.MessageRoundTrip | tools/schema/gen.py:253-341 | for every schema and both decoders, text being UTF-8 for Rust and without NUL for C: a decoder that knows fewer fields drops the rest, one that knows more reads the missing ones as zero |
| Proto.SameSchemaRoundTrip | tools/schema/gen.py:253-341 | decode inverts encode, in C, in Rust and across the two, text being UTF-8 for Rust and without NUL for C |
| Proto.ArrivesInC | components/nev_bridge/src/nev_cbor.c:294-311 | what the C decoder has of any message within bounds is every text up to its first NUL and all else unchanged, so the message itself if and only if no text holds a NUL |
| Proto.MessageHeader | components/nev_bridge/src/nev_proto.c:755-765 | the id of a message can be read without decoding it |
| Golden.EveryMessageMatches | components/nev_bridge/test/golden_data.h:33-230 | each of the sixteen messages of the schema, on the sample of the reference vectors, is exactly the reference bytes, and both decoders read them back |
| ProtoReads.DecodesIff | tools/schema/gen.py:290-341 | the decoders find values in a byte string if and only if it is a message that carries them: an array head, the id and the items in any widths of head, known fields within bounds, missing ones zero, surplus ones skippable items, and anything behind |
| ProtoReads.ReadIsItem | tools/schema/gen.py:306-333 | whatever is read as a field is the item of its value in one of the widths its head may have, and respects the type and the bound of the schema |
| ProtoReads.MissingIs | tools/schema/gen.py:306-338 | a field that is missing reads as if zero, false or nothing had been sent for it |
| ProtoReads.SkippedIs | components/nev_bridge/src/nev_cbor.c:342-391 | whatever is stepped over is a number, string or simple value, or an array of items that are no arrays |
| Proto.DecodesInBounds | tools/schema/gen.py:306-333 | whatever bytes arrive, a decoder only yields values its struct can hold, strings within their bounds |
| Proto.DecodersBySides | tools/schema/gen.py:546-580 | on every byte string and for every schema, what either decoder yields is decided by the values on the wire: C refuses integers that do not fit a signed field and shortens text at a NUL, Rust refuses text that is not UTF-8 and cuts integers down |
| Proto.DecodersAgreeIff | tools/schema/gen.py:546-580 | the two decoders do the same with a byte string if and only if it is no message at all, or each has its own reason to refuse it, or its signed integers fit and its texts are UTF-8 without NUL; they accept alike if and only if integers fit exactly when text is valid |
| Proto.NulTextDisagrees | components/nev_bridge/src/nev_cbor.c:294-311 | text with a NUL is accepted by both sides, and C has less of it than Rust |
| Proto.SignedFieldsDisagree | tools/schema/gen.py:567 | for a signed field the two disagree: 2^31 is refused by C and read as -2^31 by Rust |
| ProtoCalls.CWriter.Put | components/nev_bridge/src/nev_cbor.c:35-42 | the fixed buffer holds everything wanted, or the overflow flag says it did not fit, for good |
| ProtoCalls.CWriter.PutN | components/nev_bridge/src/nev_cbor.c:44-52 | the same for a block of bytes |
| ProtoCalls.CWriter.PutHead | components/nev_bridge/src/nev_cbor.c:54-77 | the branches and shift loops write the canonical head |
| ProtoCalls.CWriter.PutText | components/nev_bridge/src/nev_cbor.c:111-115 | writes the bytes before the first NUL as text |
| ProtoCalls.CWriter.PutField | tools/schema/gen.py:265-282 | writes the canonical bytes of a field, and refuses exactly a byte string over its bound |
| ProtoCalls.EncodeC | tools/schema/gen.py:257-288 | succeeds if and only if the byte strings respect their bounds and the canonical message fits the buffer, which then starts with it |
| ProtoCalls.Writer.PutHead | companion/nevos-proto/src/cbor.rs:62-79 | the Rust writer appends the same canonical head |
| ProtoCalls.EncodeRust | tools/schema/gen.py:524-545 | always returns the canonical message, the same bytes as C |
| ProtoCalls.Reader.TakeHead | components/nev_bridge/src/nev_cbor.c:127-171 | the cursor moves past exactly the head it read; reserved and indefinite lengths and truncated heads are refused |
| ProtoCalls.Reader.TakeString | components/nev_bridge/src/nev_cbor.c:271-292 | a string is read exactly if its declared length is present |
| ProtoCalls.Reader.TakeArray | components/nev_bridge/src/nev_cbor.c:322-340 | an array head is read exactly if as many bytes as elements follow |
| ProtoCalls.Reader.TakeSkip | components/nev_bridge/src/nev_cbor.c:342-391 | steps over exactly one item, one level of array at most |
| ProtoCalls.Reader.TakeField | tools/schema/gen.py:306-333 | reads one field as its type demands, in either language |
| ProtoCalls.DecodeFields | tools/schema/gen.py:306-338 | the struct filled field by field is the reading the theorems are about, surplus items skipped |
| ProtoCalls.DecodeMessage | tools/schema/gen.py:290-341 | a generated decoder computes that reading on every byte string |
| ProtoCalls.SendAndReceive | components/nev_bridge/src/nev_proto.c:286-344 | a struct within bounds, encoded in C into a buffer that holds it, arrives as the C strings and values it holds: in C always, in Rust unless some text is not UTF-8 |
| Framing.SplitsWrapped | companion/nevos-proto/src/generated.rs:832-849 | a wrapped payload of at most 8192 bytes splits off as itself, whatever follows |
| Framing.OnlyWrappedSplits | companion/nevos-proto/src/generated.rs:842-849 | whatever splits off is the wrapping of its payload |
| Framing.PrefixDecides | companion/nevos-proto/src/generated.rs:842-849 | the four bytes in front, high one first, announce at most 8192 bytes: that many are a frame once they are there, and more is an error at once |
| Framing.PartitionIndependent | companion/nevosd/src/server.rs:309-327 | what the session is handed does not depend on how the network cuts the stream |
| Framing.FramesSurvivePartition | companion/nevosd/src/server.rs:309-327 | every partition of concatenated frames hands on exactly the payloads and keeps nothing |
| Framing.HandedIsTheStream | companion/nevosd/src/server.rs:309-327 | conversely the stream is the frames handed on and then an unfinished frame, or a prefix that announces too much |
| Framing.FrameWrapC | components/nev_bridge/src/nev_proto.c:767-779 | the C wrapper writes the same frame, or nothing when it is too long or does not fit |
| Server.Connection.DrainFrames | companion/nevosd/src/server.rs:309-327 | the loop over the connection's buffer feeds the session exactly the payloads of the stream, in order, and collects its answers |
| Server.Connection.Receive | companion/nevosd/src/server.rs:128-134 | one turn of the loop: answers are carried out unless a prefix is bad, which closes the connection, and nothing is read after a close |
| Server.PartitionDoesNotMatter | companion/nevosd/src/server.rs:128-134 | for every partition the session ends in the same state and the connection goes on or ends alike |
| Server.AnswersAgreeIff | companion/nevosd/src/server.rs:309-327 | the answers are the same for every partition of a stream if and only if it has no bad prefix, or no frame before it, or a session already closed, or a first frame that is refused outright |
| Server.PongLostToBadPrefix | companion/nevosd/src/server.rs:309-327 | a ping and a bad prefix read together are answered with a close alone; read one after the other the ping gets its pong |
| Server.ParsesHello | companion/nevosd/src/session.rs:246-252 | a hello the device encodes is read back as it was by the session |
| Server.HelloDecides | companion/nevosd/src/session.rs:246-309 | over the wire too, a first hello opens the session if and only if it proves itself |
| Server.VoiceArrives | companion/nevosd/src/session.rs:382-462 | from the microphone to the transcriber: a recording encoded, framed and sent in any partition becomes one utterance with every sample in order |
| Server.RecordingArrives | companion/nevosd/src/session.rs:382-462 | a recording under way grows by each chunk and is handed on once, at its final chunk |
| Server.ChunkFits | companion/nevos-proto/src/generated.rs:832-838 | every audio chunk the device can send fits a frame |
| Session.ParseFrame | companion/nevosd/src/session.rs:201-244 | a payload becomes a frame by its id; an audio chunk that decodes carries at most 4096 bytes |
| SessionAnswers.ArrivesAs | companion/nevosd/src/session.rs:201-244 | each message a device sends, laid out as the schema has it, reaches the session field by field |
| SessionAnswers.OthersArriveAs | companion/nevosd/src/session.rs:201-244 | which ids are pongs, which only a daemon sends and which are unknown |
| SessionAnswers.HeaderDecides | companion/nevosd/src/session.rs:201-212 | only a non-empty array that has room for its elements and begins with a number of 16 bits counts as a message |
| SessionAnswers.HangsUpIff | companion/nevosd/src/session.rs:201-380 | the session hangs up if and only if a frame is not welcome in its state, or greets in another protocol version; the close is the last answer and nothing stays buffered |
| SessionAnswers.GreetingTells | companion/nevosd/src/session.rs:246-309 | a hello ack goes out exactly for a welcome greeting and carries the daemon's name, the time and the state the session is then in |
| SessionAnswers.AnswersDue | companion/nevosd/src/session.rs:201-380 | pongs, markers and requests are handed on exactly when due, and with what came in |
| SessionAnswers.PairingDue | companion/nevosd/src/session.rs:311-362 | pairing is asked for exactly for six decimal digits while it is awaited, and its result told exactly when it is known |
| SessionAnswers.SeenIff | companion/nevosd/src/session.rs:201-485 | exactly which inputs mark the peer as seen |
| SessionAnswers.GapTells | companion/nevosd/src/session.rs:395-415 | a gap is told exactly when a capture continues out of turn, with the number due and the number that came |
| SessionAnswers.PairingIsForTheGreeter | companion/nevosd/src/session.rs:246-333 | in every run pairing is only ever asked for the device whose greeting came in earlier on this connection, with the six digits just received |
| Session.Session.Receive | companion/nevosd/src/session.rs:201-244 | each handler changes the state and answers as the step function says |
| Session.Session.Greet | companion/nevosd/src/session.rs:246-309 | hello: wrong protocol answered then closed, a proven pair admitted, anything else told to pair |
| Session.Session.Pair | companion/nevosd/src/session.rs:311-333 | a code outside pairing closes, a malformed one is refused, a valid one is passed on for a human to confirm |
| Session.Session.Grant | companion/nevosd/src/session.rs:336-349 | a grant counts only while one is awaited |
| Session.Session.Hear | companion/nevosd/src/session.rs:382-462 | audio: new captures, gaps, long captures passed through, overflow cut off, the final chunk |
| Session.TakeSamples | companion/nevosd/src/session.rs:417 | pairs of bytes become signed samples, in order |
| Session.SamplesOfPcm | companion/nevosd/src/session.rs:417 | signed 16-bit values sent low byte first come back as they were |
| SessionRuns.StepKeeps | companion/nevosd/src/session.rs:201-485 | capturing implies authenticated; what is buffered belongs to a capture, is at most 1,920,000 samples and never a long one's |
| SessionRuns.UtterancesAreBounded | companion/nevosd/src/session.rs:382-462 | in every run an utterance has between 1 and 1,920,000 samples |
| SessionRuns.ClosedIsFinal | companion/nevosd/src/session.rs:201-204 | a closed connection stays closed and silent |
| SessionRuns.ReadyIsEarned | companion/nevosd/src/session.rs:246-349 | a session is ready only through a first hello whose device and token were looked up and matched, or a grant while pairing was awaited |
| SessionRuns.CaptureHistory | companion/nevosd/src/session.rs:382-462 | what is buffered is the concatenation of the running capture's chunks since the one that began it, and no gap was reported during it if and only if those chunks are numbered consecutively, modulo 2^32 |
| SessionRuns.UtteranceIsItsCapture | companion/nevosd/src/session.rs:382-462 | every utterance is the in-order concatenation of its capture's chunks, one that would overflow left out; the first chunk's kind decides whether it is filed; no gap was reported if and only if those chunks are numbered without a break |
| SessionRuns.LongCaptureArrives | companion/nevosd/src/session.rs:432-443 | at every chunk of a long capture, the pieces handed on since its first, put together, are everything heard, and gaps were reported exactly where numbers break |
| SessionRuns.LossSpottedIff | schema/nevos.toml:142-145 | at every chunk the session takes, handed on or not: of chunks numbered in turn, some of which are lost, no gap has been reported if and only if those that arrived are an unbroken stretch |
| SessionRuns.RunningLossSpottedIff | schema/nevos.toml:142-145 | the same for a capture still running, whatever else has arrived since its last chunk |
| SessionRuns.LostAtTheStart | companion/nevosd/src/session.rs:395-415 | a run with the first chunk lost: the rest is handed on as the whole dictation and no gap reported |
| SessionRuns.LostAtTheEnd | companion/nevosd/src/session.rs:395-415 | a run with the final chunk lost: no gap is reported, and what did arrive is dropped when the next dictation starts |
| Pairing.GrantIff | companion/nevosd/src/pairing.rs:68-113 | after any run with time not going back, outside a lockout, a code is answered with a grant for a device if and only if the device's latest request carries it, is unexpired, and was neither used nor cancelled |
| Pairing.SingleUse | companion/nevosd/src/pairing.rs:68-113 | a second grant to a device needs a new request after the first |
| Pairing.GuessesAreLimited | companion/nevosd/src/pairing.rs:85-113 | in T seconds without a grant at most 5 * (T / 300 + 1) wrong codes are looked up, from any state a run can be in |
| Pairing.FailedStaysLow | companion/nevosd/src/pairing.rs:85-113 | that premise about the state holds in every run |
| Pairing.WrongCodesCount | companion/nevosd/src/pairing.rs:101-113 | from no count, four wrong codes in a row are each rejected and the fifth locks out |
| Pairing.GrantClearsCount | companion/nevosd/src/pairing.rs:101-105 | after a grant four wrong codes are again answered as rejected |
| Pairing.RequestLivesThreeMinutes | companion/nevosd/src/pairing.rs:68-113 | a request answers its code for 180 seconds and not after |
| Pairing.ValidCodeIff | companion/nevosd/src/pairing.rs:68-72 | a code is valid if and only if it is six decimal digits |
| Pairing.AlwaysAnswered | companion/nevosd/src/pairing.rs:85-113 | every code entered has an answer |
| Pairing.LockoutIsTold | companion/nevosd/src/pairing.rs:85-113 | a lockout tells how many seconds are left: until then every code is answered so, and not after |
| Pairing.ExpiredIsForgotten | companion/nevosd/src/pairing.rs:68-122 | a request that has expired is dropped from the table |
| Pairing.RunExplains | companion/nevosd/src/pairing.rs:68-130 | the request table is explained by what happened: who is in it and who must be |
| Pairing.Desk.DeviceRequested | companion/nevosd/src/pairing.rs:68-82 | records a valid request and replaces the device's own; a malformed code changes nothing |
| Pairing.Desk.UserEntered | companion/nevosd/src/pairing.rs:85-113 | locked out, granted, rejected or locking out, exactly as the state demands |
| Pairing.Desk.Cancel | companion/nevosd/src/pairing.rs:124-126 | forgets the device's request |
| Pairing.Desk.Pending | companion/nevosd/src/pairing.rs:116-122 | lists exactly the devices with an unexpired request |
| Civil.CivilInvertsCount | apps/system/clock/clock_app.c:23-34 | for every day number, negative included, the date shown is valid and counting days to it gives the number back |
| Civil.CountInvertsCivil | apps/system/clock/clock_app.c:23-34 | every valid date is shown for the day number that counting gives it |
| Civil.CivilFollowsCalendar | apps/system/clock/clock_app.c:23-34 | one day later the next date of the Gregorian calendar is shown; day 0 is 1970-01-01 |
| Civil.CivilFromDaysExact | apps/system/clock/clock_app.c:23-34 | with the year stored in 32 bits the result is exact if and only if the year fits; month and day always are |
| Sha256.PaddingIsStandard | components/nev_kernel/src/nev_sha256.c:97-122 | the padding is that of section 5.1.1 of FIPS 180-4: fewest zeros, and the length in bits in the last eight bytes |
| Sha256.Schedule | components/nev_kernel/src/nev_sha256.c:22-33 | the message schedule array is that of section 6.2.2, for every index |
| Sha256.CompressBlock | components/nev_kernel/src/nev_sha256.c:22-63 | 64 rounds in eight local variables compute the standard's compression of the chaining value and the block |
| Sha256.Hasher.Absorb | components/nev_kernel/src/nev_sha256.c:79-95 | a piece that fits goes into the block, which is compressed exactly when it fills |
| Sha256.Hasher.Update | components/nev_kernel/src/nev_sha256.c:79-95 | after any update the state stands for everything fed so far |
| Sha256.Hasher.Final | components/nev_kernel/src/nev_sha256.c:97-122 | the digest is the standard's hash of everything fed |
| Sha256.HashPieces | components/nev_kernel/src/nev_sha256.c:79-129 | any sequence of updates and a final give the hash of the concatenation |
| Sha256Example.DigestOfAbc | components/nev_kernel/src/nev_sha256.c:22-122 | the digest of abc is the 32 bytes the standard gives for it |
| Version.VersionCompare | components/nev_services/src/ota_core.c:7-40 | the two-pointer loop ends on every pair of strings and computes the comparison |
| Version.CompareIsLexicographic | components/nev_services/src/ota_core.c:7-40 | on well-formed versions it is lexicographic comparison of components padded with zeros, as far as a suffix lets it reach |
| Version.NewerIff | components/nev_services/src/ota_core.c:7-40 | a dotted decimal is newer if and only if its component is larger where the two first differ |
| Version.DottedOrder | components/nev_services/src/ota_core.c:7-40 | on dotted decimals it is a total preorder |
| Version.CompareAntisymmetric | components/nev_services/src/ota_core.c:7-40 | exchanging any two strings exchanges the verdict |
| Version.EqualIff | components/nev_services/src/ota_core.c:22-37 | well-formed versions, suffixed or not, compare equal if and only if they agree as far as the comparator reaches |
| Version.SuffixesBreakEquality | components/nev_services/src/ota_core.c:22-37 | with suffixes "equal" is not transitive: 1.0 and 1.1 both equal 1-rc |
| Version.EverySuffixBreaksEquality | components/nev_services/src/ota_core.c:22-37 | every well-formed version with a suffix equals two releases of which one is newer |
| Version.ComparesTrulyIff | components/nev_services/src/ota_core.c:14-20 | a dotted decimal is compared by the numbers it shows, against all whose numbers fit 32 bits, if and only if its own do |
| Version.Rival | components/nev_services/src/ota_core.c:14-20 | a dotted decimal with a number of 2^32 or more is not recognised as newer than some smaller version |
| Ota.OfferNewerIff | components/nev_services/src/ota_core.c:51-74 | among dotted decimals an offer is taken if and only if it names a version, fits the partition, and is larger where the versions first differ |
| Ota.RunKeeps | components/nev_services/src/ota_core.c:51-140 | in every run bytes accepted never exceed the offered size, and a ready image has the offered size and digest |
| Ota.ReadyHistory | components/nev_services/src/ota_core.c:51-140 | a run that ends ready contains a download begun under that very offer and finished later, fed in between with exactly the offered size and digest |
| Ota.DeliveryDecides | components/nev_services/src/ota_core.c:83-133 | the offered image installs however it is cut up; any other of its length fails on its digest, a shorter one as too short and a longer one as too long |
| Ota.RefusedBecause | components/nev_services/src/ota_core.c:51-74 | the reason for a refusal is the first of malformed, not newer and too big that applies |
| Ota.StartsAs | components/nev_services/src/ota_core.c:42-50 | it starts with nothing on offer, running the version it was told, of which 24 characters are kept |
| Ota.OtaCore.AcceptOffer | components/nev_services/src/ota_core.c:51-74 | the program takes the machine's step, with the comparator loop deciding |
| Ota.OtaCore.BeginDownload | components/nev_services/src/ota_core.c:76-81 | starts a fresh hash and count, only from an offer |
| Ota.OtaCore.FeedBytes | components/nev_services/src/ota_core.c:83-103 | an overrun aborts before anything is hashed; otherwise hash and count advance together |
| Ota.OtaCore.FinishDownload | components/nev_services/src/ota_core.c:111-133 | ready exactly if size and digest of what was fed match |
| Ota.OtaCore.Progress | components/nev_services/src/ota_core.c:105-109 | the percentage is the floor of received over offered and is 100 only when all has arrived |
| Mdns.ReadName | components/nev_bridge/src/nev_mdns.c:30-74 | ends on every packet, stays inside packet and output, and returns the text of the name's inductive meaning and the offset past it if and only if there is one that fits; otherwise 0 |
| Mdns.NameAdvances | components/nev_bridge/src/nev_mdns.c:30-74 | a name that is read takes at least one byte and ends within the packet |
| Mdns.CompressedIsSpelledOut | components/nev_bridge/src/nev_mdns.c:30-74 | labels followed by a backward pointer read as the same text as the name spelled out (section 4.1.4 of RFC 1035) |
| Mdns.MoreJumps | components/nev_bridge/src/nev_mdns.c:42-51 | the bound of eight jumps changes no name that has a meaning within it |
| Mdns.OnlyNamesMean | components/nev_bridge/src/nev_mdns.c:30-74 | nothing but labels of 1 to 63 bytes that lie in the packet and then a root or a backward pointer is read as a name |
| Mdns.WriteName | components/nev_bridge/src/nev_mdns.c:101-118 | writes the labels exactly if each has 1 to 63 bytes and all fit; bytes before the start are untouched |
| Mdns.ReadsBack | components/nev_bridge/src/nev_mdns.c:101-118 | reading back what was written gives the name if and only if it does not end in a dot |
| MdnsParse.NameEq | components/nev_bridge/src/nev_mdns.c:77-87 | names compare equal if and only if they do after lowering ASCII capitals |
| MdnsParse.BuildQuery | components/nev_bridge/src/nev_mdns.c:120-150 | builds the 35-byte query exactly if the buffer takes it |
| MdnsParse.QueryAsksForTheService | components/nev_bridge/src/nev_mdns.c:120-150 | the question reads back as the service name and ends where the packet does |
| MdnsParse.RecordsAdvance | components/nev_bridge/src/nev_mdns.c:190-251 | the record walk strictly advances and stays inside the packet |
| MdnsParse.FoundIsInThePacket | components/nev_bridge/src/nev_mdns.c:160-262 | an accepted answer has its port from a service record of an instance of ours and its address from an address record, and where both name the host they name the same one |
| MdnsParse.HonestAnswerIsFound | components/nev_bridge/src/nev_mdns.c:160-262 | a well-formed packet whose records tell one story is accepted with that port and address, in any order and with repetitions |
| MdnsAnswer.ReadsMessage | components/nev_bridge/src/nev_mdns.c:160-200 | of a message laid out as section 4.1 of RFC 1035 has it, any questions in front, every record of the three sections is read as it was written |
| MdnsAnswer.PassedIff | components/nev_bridge/src/nev_mdns.c:152-174 | questions are passed over if and only if each has a name that is read and four bytes more, one behind the other in the packet |
| MdnsAnswer.DaemonFound | components/nev_bridge/src/nev_mdns.c:160-262 | the answer of a daemon, its three records spread over the sections in any way and any questions in front, is found with its address, its port and its name as far as 47 bytes of it |
| MdnsAnswer.OurInstanceIff | components/nev_bridge/src/nev_mdns.c:89-97 | a name is an instance of ours if and only if it is something, a dot and the service in any case |
| MdnsAnswer.LowerIs | components/nev_bridge/src/nev_mdns.c:77-87 | case is that of the twenty-six letters and of no other byte |
| MdnsParse.ParsePacket | components/nev_bridge/src/nev_mdns.c:160-262 | the walk over the packet computes the parse those theorems are about |
| MdnsParse.VisitRecord | components/nev_bridge/src/nev_mdns.c:200-247 | each record is judged by type, owner and what was found before |
| Snake.LifeKeeps | apps/games/snake/snake_core.c:3-132 | in every run up to death: cells in the grid and distinct, neighbours adjacent (wrapping), head = neck + heading, queued turns perpendicular |
| Snake.StepKeeps | apps/games/snake/snake_core.c:86-132 | every surviving step keeps that |
| Snake.StepDecides | apps/games/snake/snake_core.c:86-132 | the snake dies exactly off the grid or on a segment that does not move away; otherwise the head enters the cell ahead, every segment follows, and food adds one segment up to the full length |
| Snake.AheadIs | apps/games/snake/snake_core.c:86-100 | the four headings lead to the four neighbours, and around the edge where it wraps |
| Snake.GridIs | apps/games/snake/snake_core.c:3-16 | the grid has four hundred cells, twenty to a row |
| Snake.TurnKeeps | apps/games/snake/snake_core.c:62-84 | so does every swipe |
| Snake.TurnTakenIff | apps/games/snake/snake_core.c:62-84 | a swipe is queued if and only if two are not queued yet and it is perpendicular to the direction it will be taken from; else nothing changes |
| Snake.NeverOntoTheNeck | apps/games/snake/snake_core.c:62-132 | a step never moves the head onto its neck |
| Snake.HitsOddSegments | apps/games/snake/snake_core.c:116-119 | the only segments a step can collide with are every other one from the fourth on |
| Snake.FoodStaysFree | apps/games/snake/snake_core.c:86-132 | food that lies free stays free until the head reaches it |
| Snake.CoverNeedsSegments | apps/games/snake/snake_core.c:32-60 | pigeonhole: a body that covers n cells has at least n segments |
| Snake.SnakeCore.Restart | apps/games/snake/snake_core.c:3-16 | the opening position, in the arrays |
| Snake.SnakeCore.TakeTurn | apps/games/snake/snake_core.c:62-84 | the turn queue in its arrays accepts exactly the turns the rules accept |
| Snake.SnakeCore.TakeStep | apps/games/snake/snake_core.c:86-132 | queue and body shifted in place compute the step: move, eat and grow, or die |
| Snake.SnakeCore.SpawnFood | apps/games/snake/snake_core.c:32-60 | always succeeds, on a cell of the grid that the body does not cover |
| Match.MarkMatches | apps/games/match/match_core.c:9-46 | marks a tile if and only if it lies in three equal tiles in a row or column, and returns their exact number |
| Match.RunDecides | apps/games/match/match_core.c:12-24 | a maximal run decides for all of its cells, so scanning runs finds every window |
| Match.MatchClearsThree | apps/games/match/match_core.c:9-46 | a match clears at least three tiles, and the count is zero exactly without one |
| Match.AdjacentIff | apps/games/match/match_core.c:67-77 | cells are adjacent if and only if both lie on the seven by seven board, one step apart |
| Match.Swap | apps/games/match/match_core.c:67-77 | a swap is taken if and only if the cells are adjacent and it earns a match; refused, the board is identical |
| Match.FindMove | apps/games/match/match_core.c:79-100 | true if and only if some adjacent swap would earn a match, although only right and lower neighbours are tried |
| MatchDraws.CollapseColumn | apps/games/match/match_core.c:103-112 | a column keeps its tiles in order at the bottom and is filled from above with exactly the colours drawn |
| Match.SolidFrom | apps/games/match/match_core.c:103-112 | the tiles of a column that stay are those of its non-empty cells, each once, from the top down |
| MatchDraws.Resolve | apps/games/match/match_core.c:152-182 | exactly the matched tiles go and every column falls; what then stands is kept, and reshuffled if and only if it has neither match nor move |
| MatchDraws.ResolvedIsPlayable | apps/games/match/match_core.c:152-182 | a pass after which nothing matches leaves a board to play on, unless none of the 64 it rolled is one |
| MatchDraws.GameStaysFull | apps/games/match/match_core.c:67-182 | however a game is played and whatever is drawn, no board of it has a hole |
| MatchDraws.FilledHasMatchIff | apps/games/match/match_core.c:132-148 | for every sequence of draws the filled board has a ready-made match if and only if some tile found no fitting colour among its sixteen draws |
| MatchDraws.PicksFirst | apps/games/match/match_core.c:132-148 | a tile takes the first of its draws that fits, or the sixteenth |
| MatchDraws.OpeningIsPlayableIff | apps/games/match/match_core.h:9 | the opening board has a move and no match if and only if the filling has a move and each tile found a colour, or has none and one of the 64 boards rolled instead is playable |
| MatchDraws.ConstantBreaksPromise | apps/games/match/match_core.h:9 | a generator without variety, and none at all, opens the game on a board of one colour, full of matches, and 64 reshuffles would not help it |
| MatchDraws.Fill | apps/games/match/match_core.c:130-150 | fills in place, tile by tile and draw by draw, to exactly that opening board |
| MatchDraws.ReshuffledIsPlayableIff | apps/games/match/match_core.c:114-128 | a reshuffle ends on a board with a move and without a match if and only if one of the 64 it may roll is such |
| MatchDraws.ReshuffledIsFirst | apps/games/match/match_core.c:114-128 | a reshuffle ends on the first playable of the 64 boards it may roll, or on the last |
| MatchDraws.Reshuffle | apps/games/match/match_core.c:114-128 | rolls in place to exactly the first playable of 64 boards, or the last |
| Store.ParsePrint | components/nev_kernel/src/nev_store.c:203-218 | a number printed in decimal is parsed back, for a 32-bit or a 64-bit unsigned long |
| Store.SavedIsRestored | components/nev_kernel/src/nev_store.c:54-126 | a value in its range, saved as text and restored with clamping and clipping, is unchanged |
| Store.ClampIsNearest | components/nev_kernel/src/nev_store.c:54-58 | clamping gives a value in the range than which none in the range lies nearer |
| Store.ParsesText | components/nev_kernel/src/nev_store.c:112-117 | what a stored text reads as: white space of C, perhaps a sign, and the digits up to the first other byte, saturating, and negated in a machine word after a minus |
| Store.LimitIs | components/nev_kernel/src/nev_store.c:60-64 | a setting holds no more text than it allows, nor than 71 bytes |
| StoreCache.SaveKeeps | components/nev_kernel/src/nev_store.c:203-235 | writing one setting makes its slot clean and disturbs no other |
| StoreCache.Cache.Init | components/nev_kernel/src/nev_store.c:90-126 | every setting is what the backend holds, or its default; a backend that does not open is not an error |
| StoreCache.Cache.SetNum | components/nev_kernel/src/nev_store.c:156-168 | stored clamped; a change, published and dirty, exactly if the clamped value differs |
| StoreCache.Cache.SetStr | components/nev_kernel/src/nev_store.c:170-201 | too long is refused and never cut; otherwise stored as given |
| StoreCache.Cache.Commit | components/nev_kernel/src/nev_store.c:203-235 | whatever saves fail no value changes, and a coherent store stays coherent, clean slots mirroring the backend; if it returns OK nothing is dirty and the medium of a coherent store holds every value; a clean store is not written |
| StoreCache.Cache.Tick | components/nev_kernel/src/nev_store.c:237-247 | writes only after the delay has run, and otherwise changes neither slots nor backend |
| StoreCache.Cache.FactoryReset | components/nev_kernel/src/nev_store.c:249-263 | every setting is its default again and nothing dirty, whatever the erase and the flush do; the store is then coherent if and only if the reset succeeded, or what loads see and the medium were both emptied or empty before, or neither was emptied and both held the same and read as the defaults |
| StoreCache.ResetOfCleanHoldsIff | components/nev_kernel/src/nev_store.c:249-263 | for a store that was clean: if and only if it succeeded, or all was erased, or nothing was there, or nothing was erased and what is there reads as the defaults |
| StoreCache.Cache.ResetThenReopen | components/nev_kernel/src/nev_store.c:249-263 | a factory reset lasts, the next start showing the defaults, if and only if it succeeded, or the medium was emptied all the same, or what was left on it reads as the defaults |
| StoreCache.ResetUndone | components/nev_kernel/src/nev_store.c:249-263 | one that does not last, for any stored text: the erase fails, the default is shown and counts as saved, and the text is back at the next start |
| StoreCache.Cache.Deinit | components/nev_kernel/src/nev_store.c:128-135 | after a commit without error the medium of a coherent store reloads to the values held |
| StoreCache.Cache.Reopen | components/nev_kernel/src/nev_store.c:90-135 | close then open after such a commit restores every setting; a clean store comes back as the medium had it |
| StoreCache.WritesAreSettled | components/nev_kernel/src/nev_store.c:83-88 | a write happens only if nothing changed since a tick at least 600 ms before, on the wrapping clock |
| StoreCache.SettledIsWrittenIff | components/nev_kernel/src/nev_store.c:237-247 | after a change and any number of ticks within the delay of the first, the next tick writes if and only if it comes at least 600 ms after that first, on the wrapping clock |
| StoreCache.DirtyIff | components/nev_kernel/src/nev_store.c:203-247 | there is something to write if and only if some change has not been saved since; a failed write leaves it so |
| StoreCache.FailedWriteWaits | components/nev_kernel/src/nev_store.c:237-247 | after a write that fails the delay starts anew |

## Left out

- Drawing, screens, themes, boards, the simulator and build tools: user interface and foreign calls.
- Sockets, threads, the async runtime, routes, the language model and the transcriber: only the bytes and actions that cross these edges appear.
- BusCalls.Bus.Subscribe: not a step of the step system, whose subscriptions are fixed at its start; it is shown to keep the invariant.
- BusCalls.Bus.Deinit: gives up every slot between calls of others; a publish or receive still under way while the bus goes down is not modelled.
- Sequence numbers and statistics of the bus are unbounded naturals, so their 32-bit wrap-around is not modelled; time in `Pairing` likewise.
- Events that name an invalid blob handle count as naming none, which is how retain and release treat them; overflow reports, timestamps and the check of an event's source are not part of this model.
- BusCalls.Bus.Publish: states a call made alone; calls that interleave are covered by the step system.
- The WebSocket upgrade, its SHA-1 and the connecting and closing states: string search once the frame layer is done; a client starts here where the upgrade leaves it.
- The choice of mask bytes: any four. How much of what is queued the socket takes at a time is arbitrary too, so a pong's moment on the wire is not stated, only that it is queued and its place.
- Chunked.ParseSize: text that is not ASCII after trimming is refused there, which also covers the check for valid UTF-8; `from_utf8_lossy` of the line splitter is an arbitrary function.
- Error kinds: decoders, `Chunked` and `Framing` answer with or without a value, not with which error; a reader's position and sticky error flag after a failure are not modelled, since no generated decoder reads on.
- Floats are their 32 bits, as on the wire.
- The duplicate text of a message's fields in C structs (array sizes, zeroing with memset) appears as sequences of values.
- Encoders for outbound messages of the session (`Out::to_frame`): covered by the schema theorems, not repeated per message.
- `nev_sha256_equal`: equality of digests, without its constant running time; `constant_time_eq` of pairing likewise.
- `u64` addition in pairing, `size_t` overflow on lengths near the address space: buffers are sequences in memory.
- Version strings and names hold no NUL inside, as C strings do not.
- Ota.OtaCore.Progress: says nothing of states other than downloading and ready, where the number has no meaning.
- MatchDraws.Resolve: says which boards can follow, not which colours fall from where; the colours of one column are `MatchDraws.CollapseColumn`.
- StoreCache.Backend.EraseAll: what an erase leaves is what was there or nothing, in memory and on the medium each; losses key by key are not modelled.
- A flush of the settings medium that fails leaves the medium as it was, as the host's rename does; a partly written flash page is not modelled. The host file's line syntax is not either.
- The WebSocket key, `net_core`, `power_core`, `talk_core`, `reflex_core`, floating-point physics, sound and persona: small state machines and numeric code, not part of this model.
- Server.Connection.Receive: grants, broadcasts and timeouts, which also turn the loop, are inputs of `Session` only; a `Connection` sees reads.
- CBOR decode-then-encode: readers accept longer heads than writers produce, so it gives other bytes; `ProtoReads.DecodesIff` says which byte strings are read instead.
