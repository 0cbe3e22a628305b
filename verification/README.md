# Yurei ingest pipeline: verified model

Project Yurei subscribes to a Geyser gRPC stream, recognises PumpFun and Raydium transactions, parses
the events in their log lines, passes them through a bounded queue to one writer thread, and batches
them into multi-row `INSERT` statements. This project models that path in Dafny, from the text codecs
to the committed rows, and proves what each part promises and how the parts compose.

| file | contents |
|---|---|
| `Positional.dfy` | numbers as digit sequences in any base; powers and how they compare |
| `Base58.dfy`, `Base58Order.dfy`, `Base58Codec.dfy` | base 58 as a bijection; its letters and their order; the in-place encoder and decoder |
| `Base64.dfy`, `Base64Table.dfy`, `Base64Codec.dfy` | bit streams, section 4 of RFC 4648; the decode table; the accumulator loop and the size check |
| `LittleEndian.dfy`, `Strings.dfy` | fixed-width numbers; `strstr` |
| `Pumpfun.dfy`, `Raydium.dfy` | the two event parsers and the log-line scan |
| `ProgramSearch.dfy` | the scalar, SSE2 and AVX2 forms of the program-id search |
| `QueueProtocol.dfy`, `EventQueue.dfy` | the queue as an interleaving of lock-held sections; the ring that refines it |
| `HighWater.dfy` | the compare-and-swap loop of the high-water metric |
| `Events.dfy`, `Sql.dfy`, `SqlLossless.dfy`, `SqlReader.dfy`, `SqlBuilder.dfy` | events, statement text, its size, what it determines and how it reads back; the buffer that it is written into |
| `WriterRuns.dfy`, `WriterTimes.dfy`, `DbWriter.dfy` | the batching state machine over whole runs; its flush interval and the rows of its statements; the writer over its arrays |
| `CompletionCache.dfy`, `Subscription.dfy` | waiting for one completion among several; the cache in place; one subscription |
| `GeyserClient.dfy` | from a transaction update to a queued event |
| `Pipeline.dfy` | producers, queue and writer together |

Code that works in place is modelled in place: arrays, classes, loops with invariants. Each such method
is tied to a function or a relation on values, and the theorems are about those. Where other threads,
the clock, gRPC or the database decide something, it is a parameter that may take any value.

Where the code and its own documentation or an obvious reading differ, the model follows the code:

- `=` decodes as six zero bits, so padded input yields whole groups of three bytes, while the capacity
  check subtracts the padding. `Base64Codec.SizeBoundsOutput` says exactly when the check is enough,
  `Pumpfun.Scratch512` which payloads a 512-byte buffer then does not hold, and `Pumpfun.ScratchOverrun`
  which canonical ones. Such a decode ends as an overrun in the model.
- The vector searches compare lane k with byte k of the needle. They return the leftmost occurrence p
  with `needle[p % W] == needle[0]`, which is the scalar answer for every haystack only when the first W
  bytes of the needle are equal (`ProgramSearch.AgreesEverywhereIff`). The repository's README mentions
  NEON; there is no such form.
- A failed flush keeps its batch. An append after a failed flush of a full batch stays inside the array
  only if a timer flush has committed in between (`WriterRuns.FullBatchNextAppend`,
  `WriterRuns.SafeExactly`); `WriterRuns.DownRunUnsafe` is a run in which it does not. Batches are
  unbounded sequences in `WriterRuns` and `Pipeline`, so the conservation results there speak about the
  code for the runs whose appends stay inside: `DbWriter.Loop` reports whether they do, and
  `Pipeline.InsideExactly` says when they do in an interleaving, among others whenever the flushes of
  full batches commit.
- The writer stops without draining the queue, so `Pipeline.Delivered` counts stored events.
- A 64-byte signature may need 88 characters, which leaves no room for the terminator: the field is then
  blank (`GeyserClient.SignatureRecorded` says when; `GeyserClient.SignatureBlank`: whenever the first
  byte is at least 64).
- `process_raydium` decodes into 512 bytes and the parser needs 577, so it never dispatches an event.
- The timer compares an unsigned difference of times whose parts are divided separately
  (`WriterRuns.TimerExactly`), so it may fire up to 1 ms early (`WriterRuns.TimerEarly`).
- Nobody looks at whether the status batch starts (src/geyser_client.c:380). If it does not, the wait
  for it after a successful launch never ends (`Subscription.Run`).
- The repository's README calls the statements parameterized and the queue lock-free; the statements
  are text and the queue has a mutex.

## Model

| member | source | states |
|---|---|---|
| Base58.DecodeEncode | src/base58.c:27-107 | for bytes of every length, decoding their encoding gives them back, leading zeros included |
| Base58.EncodeDecode | src/base58.c:27-107 | for every text over the 58 letters, encoding its decoding gives the text back |
| Base58.DecodeDomain | src/base58.c:40-43 | decoding succeeds exactly on the texts over the alphabet, and those are exactly the encodings: a bijection |
| Base58Order.CharacterRead | src/base58.c:13-25 | a single character is read exactly when it is one of 1 to 9, A to Z without I and O, or a to z without l |
| Base58Order.EncodeKeepsOrder | src/base58.c:70-107 | byte strings without leading zeros whose texts have one length are ordered as numbers exactly as their texts are by character codes |
| Base58Order.LettersAscend | src/base58.c:13 | the letters behind 1, in the order of their digits, have ascending character codes; with the set of letters this fixes the alphabet |
| Base58.EncodeScratchSuffices | src/base58.c:75-87 | the value of every prefix fits the 138/100 scratch digits of base 58 |
| Base58.DecodeScratchSuffices | src/base58.c:35-50 | the value of every prefix fits the 733/1000 scratch digits of base 256 |
| Base58.EncodedLength | src/base58.c:75-97 | n bytes never need more than 26n/19 characters, rounded up, however many are zero |
| Base58.KeyTextLength | src/db_writer.c:85-90 | every 32-byte key encodes to between 32 and 44 characters, so the 64-character buffers suffice |
| Base58.SignatureOverflows | include/yurei_event.h:12 | the text of a 64-byte signature reaches 88 characters if and only if it has at most one leading zero byte and its value is at least 58 to the power 87 less the zeros |
| Base58Codec.MultiplyAdd | src/base58.c:44-49 | one pass multiplies the scratch number by a factor and adds a digit: value and carry together are exact |
| Base58Codec.Accumulate | src/base58.c:80-87 | when the result fits the scratch, the pass ends with carry 0 and the scratch holds exactly the new value |
| Base58Codec.EncodeScratch | src/base58.c:75-87 | after the loops the scratch holds the base-58 digits of the value of the bytes |
| Base58Codec.DecodeScratch | src/base58.c:35-50 | the loops fail exactly on a character outside the alphabet, else the scratch holds the base-256 digits |
| Base58Codec.Encode | src/base58.c:70-107 | writes the encoding and a terminator and nothing behind it if it fits; otherwise returns -1 and writes nothing |
| Base58Codec.Decode | src/base58.c:27-68 | writes the decoded bytes if the text is over the alphabet and they fit; otherwise returns -1 and writes nothing |
| Base64.UnpackIsBitStream | src/base64.c:43-53 | byte j of the output is bits 8j to 8j+7 of the concatenated sextets |
| Base64.SameBitsUnique | src/base64.c:43-53 | the bit stream determines the output |
| Base64.DecodeEncode | src/base64.c:34-57 | decoding the RFC 4648 encoding of any bytes gives the bytes and one zero byte for each padding character |
| Base64Table.InitTable | src/base64.c:13-23 | the loops give every letter's cell its index, `=` zero and every other cell 0x80 |
| Base64Table.ReadAsIndex | src/base64.c:18-21 | each letter is read as its index in the alphabet, `=` as zero, nothing else is read |
| Base64Table.ReadByRange | src/base64.c:18-21 | the same by ranges of character codes, as in table 1 of RFC 4648 |
| Base64Table.DecodeSkips | src/base64.c:45-46 | putting a character that is not read anywhere into a text does not change what it decodes to |
| Base64Codec.SizeBoundsOutput | src/base64.c:25-39 | the size check bounds what is written if and only if the characters read and the padding together fit the groups, and so always without `=` at the end |
| Base64Codec.PaddingSubtracts | src/base64.c:25-32 | three bytes for every four characters begun, less one for each `=` among the last two |
| Base64Codec.EncodedSizes | src/base64.c:25-57 | a canonical encoding of n bytes passes the check at capacity n and produces n rounded up to a multiple of three |
| Base64Codec.Emit | src/base64.c:47-52 | despite the wrap at 32 bits, the shifted accumulator gives off the right byte and keeps the bits not yet given off |
| Base64Codec.Decode | src/base64.c:34-57 | for every text and buffer: refused exactly when the size check fails; overrun exactly when the check passes and more is produced than the buffer holds; otherwise the output is the bit stream of the characters read and the rest of the buffer is untouched |
| LittleEndian.Read64Is | src/raydium_parser.c:10-18 | the eight bytes have the weights 1, 2^8, up to 2^56 |
| LittleEndian.SignedIs | src/pumpfun_parser.c:57 | a timestamp is the unsigned value or that less 2^64, whichever is in the signed range |
| Pumpfun.SerializedAt | src/pumpfun_parser.c:12-37 | the packed layout: each of the 21 fields at its byte offset |
| Pumpfun.OverlaySerialize | src/pumpfun_parser.c:12-60 | overlaying the layout on a serialised record, whatever follows it, recovers every field at its offset |
| Pumpfun.TradeRecord.Parse | src/pumpfun_parser.c:39-60 | accepts exactly inputs of 250 bytes or more and fills all fields from their offsets, else writes nothing |
| Pumpfun.TradeRecord.ParseLogLine | src/pumpfun_parser.c:62-78 | for every line: whether the decoding stays inside the buffer, and if so the outcome and the fields are those of the first payload of the line |
| Pumpfun.DecodeLine | src/geyser_client.c:129-139 | for every line: finds the first marker and leaves the decoded payload in the buffer, or says why not |
| Pumpfun.PayloadExactly | src/pumpfun_parser.c:65-72 | the payload of any line is what follows its leftmost marker, if anything does |
| Pumpfun.LogLineAccepts | src/pumpfun_parser.c:62-78 | a line carrying canonically encoded bytes is accepted if and only if they are at least a record and pass the size check: padding never completes a short record |
| Pumpfun.LogLineRoundTrip | src/pumpfun_parser.c:12-78 | serialise, encode, embed in a line, scan, decode, parse: every field comes back |
| Pumpfun.MarkerCarries | src/pumpfun_parser.c:65-72 | for all bytes there is a line that carries them: the marker and their encoding |
| Pumpfun.Scratch512 | src/pumpfun_parser.c:73-76 | what the size check admits into 512 bytes fits, except for payloads of 684 characters that are all read |
| Pumpfun.ScratchOverrun | src/pumpfun_parser.c:73-76 | among canonical payloads, those of 511 and 512 bytes, and no others, pass the check and outgrow the 512-byte buffer |
| Pumpfun.ScratchOfGroups | src/geyser_client.c:153-156 | a buffer of a multiple of three bytes, such as 768, holds everything the check admits |
| Raydium.CursorStops | src/raydium_parser.c:20-26 | a run of unchecked key reads ends where a further key fits only if all of them did |
| Raydium.SwapRecord.Parse | src/raydium_parser.c:28-93 | accepts exactly 577 bytes or more without the optional target and 609 or more with it, despite unchecked reads; the pool is bytes 64 to 96 and the owner the thirteenth key behind the target; what a rejected input leaves written |
| ProgramSearch.Scalar | src/protocol_detector.c:52-55 | returns the leftmost occurrence, or none if there is none |
| ProgramSearch.TryLanes | src/protocol_detector.c:43-49 | within a block, returns the leftmost occurrence that the lane comparison sees |
| ProgramSearch.Sse2 | src/protocol_detector.c:38-50 | returns exactly the leftmost occurrence p with needle[p mod 16] = needle[0] |
| ProgramSearch.Avx2 | src/protocol_detector.c:19-36 | the same with 32 lanes, shortcut included |
| ProgramSearch.VectorSound | src/protocol_detector.c:15-58 | vector results are occurrences, and every aligned occurrence guarantees a hit no later than it |
| ProgramSearch.VectorAgrees | src/protocol_detector.c:15-58 | vector and scalar results agree if and only if nothing occurs or the leftmost occurrence is seen |
| ProgramSearch.AgreesEverywhereIff | src/protocol_detector.c:15-58 | they agree on every haystack if and only if the needle's first block repeats one byte |
| ProgramSearch.MissedAt | src/protocol_detector.c:15-58 | a haystack in which the scalar form finds the needle and a vector form does not |
| QueueProtocol.StorageKept | src/event_queue.c:50-95 | every step keeps: accepted events are those handed out followed by those stored, and the counters agree |
| QueueProtocol.WakeupsKept | src/event_queue.c:50-103 | every step keeps: while open, an unwoken waiter implies a woken thread for every free cell, or every stored event; once closed nobody waits |
| QueueProtocol.RunKeeps | src/event_queue.c:50-103 | the invariant holds after every interleaving of any number of threads |
| QueueProtocol.Fifo | src/event_queue.c:59-65 | in every reachable state the events handed out are a prefix of those accepted and the rest is stored; pushes minus pops is the size, within the capacity |
| QueueProtocol.PushOutcome | src/event_queue.c:50-70 | a push is refused exactly when the queue is closed, waits exactly when it is open and full, and is accepted otherwise |
| QueueProtocol.PopOutcome | src/event_queue.c:72-95 | a pop gets the oldest event; on an empty open queue it waits exactly when it may block, else it is refused |
| QueueProtocol.AcceptedIsOffered | src/event_queue.c:59-61 | in every run the accepted events are those that the accepted pushes offered, in order |
| QueueProtocol.NothingRefused | src/event_queue.c:50-70 | in every run without close, each section of a push has its event accepted or ends waiting |
| QueueProtocol.WaitingProducersProgress | src/event_queue.c:52-54 | room and waiting producers imply a woken producer whose push goes through |
| QueueProtocol.WaitingConsumersProgress | src/event_queue.c:74-80 | stored events and waiting consumers imply a woken consumer that gets the oldest one |
| QueueProtocol.NeverAllBlocked | src/event_queue.c:50-95 | with capacity at least 1 no reachable open state has both kinds waiting and nobody woken |
| QueueProtocol.ClosedOutcomes | src/event_queue.c:52-84 | after close no call blocks, no push is accepted, and a pop fails exactly when nothing is left |
| QueueProtocol.AfterClose | src/event_queue.c:97-103 | over every run after close: nothing more is accepted, the rest goes out in order, nobody waits, released calls only become fewer |
| QueueProtocol.BlockedProducerReturns | src/event_queue.c:52-58 | a producer blocked when the queue is closed returns false at its next step, whatever runs in between, and one call fewer is in progress |
| QueueProtocol.BlockedConsumerReturns | src/event_queue.c:74-84 | so does a blocked consumer, with the oldest event if one is left by then |
| QueueProtocol.HighWaterIsPeak | src/event_queue.c:63-65 | the mark is the largest size of any state of the run |
| EventQueue.EventQueue.Enqueue | src/event_queue.c:59-61 | the ring holds the same events and the new one last, with tail = (head + size) mod capacity kept |
| EventQueue.EventQueue.Dequeue | src/event_queue.c:85-87 | returns the oldest event and keeps the rest in order |
| EventQueue.EventQueue.PushSection | src/event_queue.c:50-70 | one lock-held section of push is one step of the protocol on the ring's contents |
| EventQueue.EventQueue.PopSection | src/event_queue.c:72-95 | one lock-held section of pop, blocking or not, is one step of the protocol |
| EventQueue.EventQueue.Drive | src/event_queue.c:50-103 | every interleaving of sections on one ring is a run of the protocol, after which cell (head + i) mod capacity holds accepted event popped + i for every stored event |
| HighWater.StepKeeps | include/metrics.h:76-82 | each atomic access keeps the mark an attained upper bound of the finished reports, and never lowers it |
| HighWater.MarkIsMaximum | include/metrics.h:76-82 | so it is in every interleaving, with spurious failures |
| HighWater.AllReported | include/metrics.h:76-82 | when all callers have returned, the mark is the maximum of the start and their sizes |
| HighWater.RetriesBounded | include/metrics.h:76-82 | in every interleaving a caller retries at most as often as the size it reports, spurious failures apart |
| Sql.RowFits | src/db_writer.c:96-111 | no row with its comma reaches 600 characters, or 300 for a swap |
| Sql.InsertFits | src/db_writer.c:72-112 | for every batch the statement is shorter than 512+600n, or 256+300n |
| SqlLossless.JoinRowsInjective | src/db_writer.c:92-112 | the separators of the statement split it into its rows in one way only |
| SqlLossless.RowDetermines | src/db_writer.c:96-111 | the text of a row determines everything of its event but the timestamp of a trade |
| SqlLossless.InsertLossless | src/db_writer.c:70-112 | the text of a statement determines how many events it records and what each is |
| SqlLossless.TablesDiffer | src/db_writer.c:76-151 | the text of a statement determines its table |
| SqlReader.TradeReadsBack | src/db_writer.c:76-111 | split at parentheses and commas, the statement of any batch has under each of the 16 names, in every row, that field of the event: numbers by value, keys by decoding, the side as text |
| SqlReader.SwapReadsBack | src/db_writer.c:151-174 | the same for the 6 columns of swaps |
| SqlReader.StatementShape | src/db_writer.c:76-111 | what stands around these parts: the table, VALUES, and commas between rows |
| SqlBuilder.TradeRow | src/db_writer.c:85-111 | the skip for a key that does not encode is never taken |
| SqlBuilder.SwapRow | src/db_writer.c:158-174 | the same for swaps |
| SqlBuilder.Build | src/db_writer.c:70-112 | the buffer ends up holding the whole statement, one row per event, never cut off |
| WriterRuns.TimerExactly | src/db_writer.c:209-215 | the timer fires if and only if 50 ms have passed, up to 1 ms early when the microseconds wrap, or the clock was set back |
| WriterRuns.TimerEarly | src/db_writer.c:209-215 | a clock reading 49.001 ms after the last flush at which the timer fires |
| WriterTimes.MeasuredFrom | src/db_writer.c:203-219 | in every run the interval is measured from the clock after the last flush by timer, or from the start if there was none |
| WriterTimes.FiringsApart | src/db_writer.c:203-215 | two flushes by timer are more than 49 ms apart while the clock does not go back |
| WriterTimes.FiringFlushes | src/db_writer.c:203-207 | when the timer of a turn fires and the flush of a kind commits, nothing of the kind is left in its batch |
| WriterTimes.BothFlushed | src/db_writer.c:203-207 | PumpFun's statement comes before Raydium's, a batch is emptied exactly when it is committed, and the failed INSERTs are counted |
| WriterTimes.FullStatement | src/db_writer.c:237-247 | before its timer check a turn makes a statement exactly when the event popped is the hundredth and the flush commits, and it has 100 rows |
| WriterTimes.StatementRows | src/db_writer.c:221-257 | statements of runs that stay inside the arrays have 1 to 100 rows, and 100 while the timer does not fire |
| WriterRuns.FlushConserves | src/db_writer.c:64-138 | a flush, however it ends, keeps conservation |
| WriterRuns.StepConserves | src/db_writer.c:221-256 | so does a turn of the main loop |
| WriterRuns.RunConserves | src/db_writer.c:221-256 | in every run of the machine, and so in every run of the code whose appends stay inside the arrays, the popped events of each kind are those of its committed statements, in order, followed by its batch; events_total = success + batches + ignored; each commit is the statement for its events |
| WriterRuns.MainConserves | src/db_writer.c:217-267 | the same, for the same runs, with the last flush, which, when it commits, leaves nothing of the kind uncommitted |
| WriterRuns.SafeWhenFullFlushesCommit | src/db_writer.c:237-247 | while flushes of full batches commit, every append is inside the 100 cells, however timer flushes end |
| WriterRuns.SafeExactly | src/db_writer.c:221-257 | every append of a run is inside the arrays if and only if each batch that a failed flush leaves full is committed by a timer flush before the next event of its kind |
| WriterRuns.DownRunUnsafe | src/db_writer.c:237-242 | a run that leaves the arrays: 101 trades from the start without a connection |
| WriterRuns.FailedFlushLeavesFullBatch | src/db_writer.c:120-125 | a failed flush at the hundredth event leaves a full batch unless the timer flush of the turn commits |
| WriterRuns.FullBatchNextAppend | src/db_writer.c:237-247 | from a full batch the next append of the kind is inside the array if and only if a timer flush has committed in between |
| DbWriter.DbWriter.Flush | src/db_writer.c:64-201 | the new state is the machine's flush, and the committed text is the built buffer; the result is true exactly when nothing was left to flush or it committed |
| DbWriter.DbWriter.Take | src/db_writer.c:234-251 | the event is counted and appended to its batch, which is flushed at 100; the append is outside the array exactly when the batch is full |
| DbWriter.DbWriter.TakeTurn | src/db_writer.c:222-256 | one turn, with or without an event, is one step of the machine, if its append is inside |
| DbWriter.DbWriter.Loop | src/db_writer.c:217-260 | for every run: it stays inside the arrays exactly when it is safe, and then ends in the state of the machine after all turns and the last flush |
| CompletionCache.WaitNextAnswer | src/geyser_client.c:105-127 | a wait returns only its own tag, and blocks exactly when neither its tag nor the shutdown arrives |
| CompletionCache.WaitNextKeeps | src/geyser_client.c:105-127 | nothing is invented, and nothing is lost if and only if the free entries are enough for the foreign completions that come first |
| CompletionCache.WaitGetsOwn | src/geyser_client.c:105-127 | with at most four other batches outstanding, in every order of arrival, the wait returns its own completion and keeps all others |
| Subscription.Cache.Take | src/geyser_client.c:78-90 | takes the first entry with the tag, and frees it |
| Subscription.Cache.Store | src/geyser_client.c:92-103 | fills the first free entry, or drops |
| Subscription.WaitForTag | src/geyser_client.c:105-127 | looks in the cache first, then reads the queue; ends in the state and with the answer that the value form gives, or blocks for good |
| Subscription.WaitInVain | src/geyser_client.c:105-127 | with nothing outstanding a wait never ends |
| Subscription.Read | src/geyser_client.c:392-418 | every read returns the completion of its own batch while the status is outstanding |
| Subscription.ReadExactly | src/geyser_client.c:392-402 | a round is read exactly when every earlier one started, succeeded and carried a message, and it starts itself |
| Subscription.SessionShape | src/geyser_client.c:361-421 | the launch is consumed first, the messages next and the status last |
| Subscription.Run | src/geyser_client.c:296-453 | each started batch's completion is returned once, by its own wait, wherever it arrives; nothing is left after a launch that succeeds, the status after one that fails; the call does not return exactly when the launch succeeds and the status batch has not started |
| GeyserClient.SignatureRecorded | src/geyser_client.c:164-173 | a 64-byte signature is left blank exactly when its value needs 88 digits; a recorded one decodes to the signature |
| GeyserClient.SignatureBlank | src/geyser_client.c:164-173 | every 64-byte signature whose first byte is at least 64 is left blank |
| GeyserClient.ProcessPumpfun | src/geyser_client.c:147-176 | dispatches the first trade among the log lines, with slot and signature |
| GeyserClient.TradeArrives | src/geyser_client.c:147-176 | a serialised trade in a log line becomes the event with its fields |
| GeyserClient.EventHolds | src/geyser_client.c:158-173 | the event has each field of the layout, the slot of the update or 0, and a signature that decodes to that of the update or is blank exactly when there is none or it needs 88 characters |
| GeyserClient.LineMakesEvent | src/geyser_client.c:153-160 | a line makes an event exactly when it carries 250 to 768 bytes |
| GeyserClient.EveryTradeArrives | src/geyser_client.c:147-176 | every trade record, slot and signature make an event: by an update with one log line |
| GeyserClient.EventSigned | src/geyser_client.c:147-176 | dispatched events have signatures over the base-58 alphabet |
| GeyserClient.NoSwapInScratch | src/geyser_client.c:183-189 | no log line that the 512-byte buffer admits is an accepted swap |
| GeyserClient.SwapInLine | src/geyser_client.c:184-206 | for every line and a buffer of any size: whether the decoding stays inside, and the swap of the line if the parser accepts it |
| GeyserClient.ProcessRaydium | src/geyser_client.c:178-207 | for every update: never dispatches an event; stays inside its buffer exactly when the decoding of every line does |
| Pipeline.MoveKeeps | src/db_writer.c:221-260 | every step of a producer, of close, of the writer or of the last flush keeps the invariants of queue and writer together |
| Pipeline.WriterFreesProducer | src/db_writer.c:221-232 | in every reachable open state with a waiting producer and capacity at least 1, the writer's next turn leaves a woken producer whose push is accepted |
| Pipeline.InsideExactly | src/db_writer.c:221-257 | every append of an interleaving is inside the arrays if and only if each batch that a failed flush leaves full is committed by a timer flush before the writer pops the next event of its kind; in particular while flushes of full batches commit |
| Pipeline.Delivered | src/db_writer.c:217-267 | in every interleaving, the accepted events of each kind, in order, are those committed, then those in the batch, then those on the queue, and the counts add up; every append is inside the arrays while flushes of full batches commit |
| Pipeline.AllWritten | src/db_writer.c:259-267 | with an empty queue and a last flush that commits, every accepted event of the kind is in a committed statement; the same about the arrays |
| Pipeline.CommittedFirst | src/db_writer.c:217-267 | when only the client pushes, the committed events are the first of the accepted ones, all trades with signatures over the alphabet |
| Pipeline.TextsDetermine | src/db_writer.c:70-138 | the texts of the committed statements determine the sequence of records of each kind |
| Pipeline.DatabaseTells | src/db_writer.c:217-267 | two systems fed by the client, whatever their interleavings, that have committed the same texts agree on how many accepted events are recorded and on everything recorded about them |
| Pipeline.RowTellsTrade | src/geyser_client.c:147-176 | from log line to row: updates carrying serialised trades that make the same row carried the same trade, slot and signature text, the timestamp apart |

## Left out

- gRPC channel, call, credential and slice handling, and the protobuf decoding of updates: foreign calls; what remains is the order of completions.
- Draining the completion queue when it is destroyed (src/geyser_client.c:40-50).
- libpq and the effect of the SQL: an `INSERT` is accepted or not, as a whole. Quoting is not modelled; texts over the base-58 alphabet need none.
- Allocation failures, null arguments and logging. A flush for which `malloc` fails has the outcome of one without a connection.
- What the code does after a write outside an array: `Overrun` and not `inside` end the modelled call.
- Uint64 counters do not wrap.
- ProgramSearch.Avx2: for needles of 32 bytes, which is what its only caller passes.
- Masks are sets of lanes; signed-integer details of the SIMD masks, unaligned casts and the host's byte order (little-endian) are not modelled.
- The base58 map and the base64 table are built on each call instead of once behind a flag.
- The races on the `running` flags, the latency metrics, signal handling, environment parsing, metric rates.
- `protocol_detector_match_accounts`, `slice_contains_string` and the reconnect backoff: single loops or branches.
- Fairness: the queue results say that a thread able to go on exists, not that the scheduler picks it.
