# A verified model of the asio Redis client

The client sends Redis commands over TCP and hands each reply to the callback of its own query. This
project models the parts that must work together for that, in Dafny, and proves it of the whole:

- **The incremental RESP parser** over a growable, compacting input buffer. `ParserSpec` says what one call
  computes from the unread bytes and from the leftover byte behind them, which the source does inspect;
  `Parser` and `Buffers` are the source's loops and memory moves, proved equal to it; `ParserMachine` feeds
  it chunk after chunk; `WholeReply`, `Stops`, `Chunking` and `StreamRuns` compare that with decoding whole
  replies. `Tokens`, `Counting`, `Budgets` and `NestedRuns` prove the converse for nested arrays by counting
  the headers and scalars of a stream against the nodes of what is delivered. `Integers` and `Departures` hold
  the inputs on which the source goes wrong; `BulkReaders` the two other readers of bulk strings.
- **The query builder** (`QueryBuilder`): a hole for the prefix, parts behind it, the prefix patched in, direct
  buffers spliced in. `QueryRoundTrip` reads back with the parser what the builder wrote.
- **The abstract server** (`Server`): it reads the commands in the bytes it receives and answers each.
- **The pipelining processor**: `OutputBuffer`, the transition system `PipelineSystem` with every interleaving
  of pushes, waits, partial writes, server steps, reads and errors, what holds over its runs in
  `PipelineRuns`, the handlers in `Pipeline`, and that these are runs of the system in `PipelineHandlers`.
- **The half-duplex processor**, down to the bytes in the same way: `SerialSystem`, `SerialRuns`,
  `Serial` and `SerialHandlers`.
- **The two-lock queue** (`TwoLockQueue`, `QueueProgress`) in small steps of any number of threads, and
  on top of it the connection cache (`ConnQueue`) and the socket allocator (`ConnPool`).

What imperative code does is a class or a method with loops, whose contract ties it to a function; what is
promised of the code is then proved of that function. Threads are transition systems: `Enabled` says when an
event can happen, `Step` what it does, and the theorems hold of every sequence of possible events.
`dafny verify dfyconfig.toml` verifies the project.

## Where the source departs from its intent

Each of these is proved, with the exact condition where there is one.

- A reply that arrives in pieces depends on the byte behind the filled region in two places: behind an array
  element that is not the last (the parser throws unless that byte looks like a reply type) and within the
  digits of an array's length (a leftover carriage return ends the number early). `BadStop` is that
  condition; for scalars and arrays of scalars the parser throws if and only if some chunk ends at one
  (`ThrowsIffBadStop`, `EdgeSplitThrows`, `HeaderSplitThrows`).
- Arrays are never tagged as arrays, so an interrupted reply is resumed wrongly once the length of an array inside
  it was taken. Over any stream of replies of any nesting, exactly its replies come out if and only if no chunk
  ends at such a place or at a bad stop and the last line is not empty (`AllDeliveredIff`). Cut behind a nested
  array with only scalars to come the reply is never delivered (`NestedSplitLoses`); cut right behind a nested
  header it is delivered wrong, and parts of it are delivered as the replies to the next queries
  (`HeaderSplitMisdelivers`), or end the reader with the sync error (`CutReachesSyncError`). Held whole in the buffer, any
  nesting is read right (`ReadWhole`).
- The digits of an integer are accumulated in an `int`, its minus sign as if it were a digit. The number comes out
  right, without signed overflow, exactly from 0 to 2^31 - 1 (`IntegerRightIffInRange`); the overflow is absent
  exactly there, for negative numbers above -10^8, and for those from -999999999 to -852516360
  (`DefinedExactly`). Where overflow wraps around, the exact condition is `IntegerRightWithWrapAround`; it lets
  some negative numbers through by accident (`NegativeRightByAccident`). The null array throws.
- A reply whose last line is an empty simple string or error waits for one byte more.
- The three-part fast builder announces two parts and drops a dollar sign. All builders print through `%d`, and
  take the failure of a print longer than an `int` can count for a size: `FastBuildTwo`, `FastBuildThree` and
  `AddQueryPart` say exactly when.
- A push that waits for room when a socket error comes is woken by it and does not look at the stop flag again. In
  both processors a callback is served rightly if and only if its push enters before the error
  (`RightIffBeforeError`, `LostIffAfterError`). One that enters after it is never called in the half-duplex
  processor, nor mostly in the pipelining one, where it can also be handed the reply to another query, when a
  completed read is handled after the error (`LateGetsAnothersReply`).
- Stopping does not hold off a push between its stop test and queueing: if the reader ends meanwhile, that
  callback stays queued (`EndedReaderCallsNobody`; `CalledIffBeforeEnd` is the exact condition in the half-duplex
  processor, whatever ended it).
- The length line of a direct buffer is printed with a limit two bytes above the 13 it has on the stack; it fits and
  is right exactly for buffers below 10^7 bytes (`DirectLineFits`, which also says for which longer ones the
  wrapped length fits again).

## Model

| member | source | states |
|---|---|---|
| `WholeReply.ReadWhole` | src/proto.cpp:318-385 | A reply of any nesting held whole in the buffer is rebuilt exactly, and the parse offset stands exactly behind it, whatever follows (one more byte is needed after a closing empty line) |
| `WholeReply.ReadHeader` | src/proto.cpp:242-283 | A complete array header sizes the slots and leaves the elements, and the incomplete flag, to the element loop |
| `WholeReply.FillWhole` | src/proto.cpp:285-316 | The element loop fills every slot from the elements' bytes and consumes exactly those |
| `WholeReply.FramingUnique` | src/proto.cpp:318-385 | No byte stream begins with two different replies: framing and value are determined by the bytes |
| `Stops.ScalarMore` | src/proto.cpp:150-240 | An incomplete scalar consumes nothing and leaves its slot fit to be read again, for every proper prefix and leftover byte |
| `Stops.FillStop` | src/proto.cpp:285-316 | Elements cut anywhere: exactly the complete ones are taken; the rest wait, or the loop throws if it stands at an edge with a leftover byte that is no reply type |
| `Stops.FillSkips` | src/proto.cpp:298-310 | When the loop starts again, finished scalars are passed over untouched and the rest filled as if alone |
| `Stops.HeaderPart` | src/proto.cpp:256-276 | A header cut at any byte: when it waits untouched, when a leftover carriage return ends it early, and where the parse offset then lies beyond the filled bytes |
| `Chunking.ParseComplete` | src/proto.cpp:33-56 | With the first reply complete, a call delivers it and stands before the next |
| `Chunking.ParseIdle` | src/proto.cpp:33-56 | With it incomplete, a call delivers nothing and waits consistently, except at a bad stop, where it throws or is bound to |
| `Chunking.ParseElements` | src/proto.cpp:44-49 | Resuming an interrupted array of scalars: it is completed with the right value, or waits with exactly the complete elements taken, or throws at an edge |
| `StreamRuns.FeedWaiting` | src/proto.cpp:33-56 | One chunk of any length from any waiting state: exactly the replies it completes come out, in order |
| `StreamRuns.ChunkingInvariance` | src/proto.cpp:33-56 | For every stream of replies of any nesting and every way to cut it with no stop inside a nested array whose length was taken: what is delivered is a prefix of the arrived replies, and without a bad stop all of them |
| `StreamRuns.ThrowsIffBadStop` | src/proto.cpp:33-56 | For scalars and arrays of scalars, arrived completely: the parser throws if and only if some chunk ended at a bad stop, and otherwise has delivered every reply but a last one that ends in an empty line |
| `StreamRuns.ScalarRun` | src/proto.cpp:33-56 | Streams of scalars have no bad stop: every cut is harmless |
| `StreamRuns.TypeByteRun` | src/proto.cpp:298-321 | Leftover bytes that look like reply types are harmless at every cut |
| `NestedRuns.AllDeliveredIff` | src/proto.cpp:33-56 | The exact condition, for replies of any nesting arrived completely: exactly the replies come out if and only if the last line is not empty, no chunk ends at a bad stop, and none inside a nested array whose length was taken |
| `NestedRuns.FillNested` | src/proto.cpp:285-316 | With some element array complete or entered, but not all elements there, the loop waits with fewer nodes to show than the bytes it consumed pay for |
| `NestedRuns.RunShort` | src/proto.cpp:33-56 | From any waiting state, a run with one bad or nested stop delivers fewer nodes than the stream holds headers and scalars, however the rest is cut |
| `Counting.ReadTook` | src/proto.cpp:318-385 | Reading from any place of a stream, into any slot an interrupted read leaves: the nodes gained are at most the headers and scalars consumed, and the read ends behind whole ones or nowhere near the stream |
| `Counting.FillTook` | src/proto.cpp:285-316 | The same for the element loop over any slots |
| `Budgets.ParseTook` | src/proto.cpp:33-56 | The same for any call of the parser: delivered and held nodes never exceed those paid for by the bytes consumed |
| `Budgets.RunTook` | src/proto.cpp:33-56 | So over every run and every way of cutting: what is delivered has at most as many nodes as the stream has headers and scalars |
| `Tokens.ValWeight` | src/proto.cpp:242-316 | A reply read right has exactly one node for each of its headers and scalars |
| `Integers.IntegerRightIffInRange` | src/proto.cpp:174-197 | A complete integer reply of any number is read without signed overflow and to its number if and only if it lies from 0 to 2^31 - 1 |
| `Integers.DefinedExactly` | src/proto.cpp:179-185 | The numbers whose accumulation stays within an `int`, exactly |
| `Integers.IntegerRightWithWrapAround` | src/proto.cpp:174-197 | Where overflow wraps around: the exact condition for the number to come out right, negative ones included |
| `Integers.NegativeRightByAccident` | src/proto.cpp:174-197 | Such a negative number |
| `Integers.Int32IsWrapped` | src/proto.cpp:179-185 | Wrapping at every step comes to wrapping the unbounded accumulation once |
| `Departures.NullArrayThrows` | src/proto.cpp:256-275 | The null array is taken for an impossible length and throws, whatever follows |
| `Departures.EdgeSplitThrows` | src/proto.cpp:298-321 | Every array of scalars cut right behind an element that is not the last makes the parser throw when the leftover byte is no reply type |
| `Departures.HeaderSplitThrows` | src/proto.cpp:260-275 | Every array of scalars cut behind at least three of its length digits, with more to come, makes it throw when a carriage return is left over |
| `Departures.TooFewElements` | src/proto.cpp:298-316 | Fewer scalars than slots that look empty never finish the array, whatever those slots held |
| `Departures.FillFirst` | src/proto.cpp:298-316 | With exactly the first elements there, nested or not, the loop takes them and stops, leaving the other slots |
| `Departures.NestedSplitLoses` | src/proto.cpp:275-315 | Every array cut behind any of its elements, with a nested array before the cut and only scalars behind it, is never delivered, although all its bytes arrive |
| `Departures.HeaderSplitMisdelivers` | src/proto.cpp:275-315 | Every array whose last element is an array beginning with a scalar, cut right behind that array's header: for every leftover byte a wrong tree is delivered, and the inner elements behind the first follow as replies of their own |
| `BulkReaders.ParseString` | src/proto.cpp:58-99 | The loop computes the reader's specification: result, remaining data and size, on null, incomplete and foreign input too |
| `BulkReaders.TryBulkParse` | src/proto.cpp:101-142 | The loop computes the span reader's specification, including the byte it looks at behind the data |
| `BulkReaders.ReadersAgree` | src/proto.cpp:58-142 | On a complete bulk string all three readers find the same payload |
| `BulkReaders.ReadersWait` | src/proto.cpp:58-142 | On every proper prefix of two bytes or more none of them finds a payload |
| `BulkReaders.NullTold` | src/proto.cpp:66-70 | The span reader's result tells the null string from every bulk string, complete or not; the other reader takes it for done and empty |
| `Buffers.BuffAbstract.constructor` | src/buff_abstract.cpp:6-11 | Two blocks, nothing filled |
| `Buffers.BuffAbstract.Release` | src/buff_abstract.cpp:45-61 | Room for n bytes inside the allocation, which never shrinks and grows only for need and to the computed size; filled bytes kept; it throws only when the limit is exceeded, and then changes nothing |
| `Buffers.BuffAbstract.RemallocFreeMem` | include/buffers/buff_abstract.hpp:72-83 | A fresh block, and the figure recorded as its reserve; what is allocated is that figure capped at the limit |
| `Buffers.BuffAbstract.Accept` | src/buff_abstract.cpp:39-43 | The filled region grows by what was written |
| `Buffers.BuffAbstract.Reset` | src/buff_abstract.cpp:69-78 | Nothing filled; a soft reset keeps block and reserve |
| `Buffers.BuffAbstract.Append` | src/buff_abstract.cpp:103-108 | The bytes are appended behind the filled ones; within the limit it never throws |
| `Buffers.BuffAbstract.MoveToFront` | src/io_buffers.cpp:42-43 | The unread bytes become the whole contents |
| `Buffers.InputBuff.ManageMem` | src/io_buffers.cpp:29-45 | Compaction changes nothing the parser can see, and compacts: afterwards nothing is filled, or less than half the reserve, or the unread bytes are more than half of what is filled, or the offset lies beyond it |
| `Buffers.InputBuff.AcceptChunk` | src/pipeline.cpp:100-100 | Bytes read behind the filled region are, to the parser, the machine's arrival step, also with the offset beyond the region |
| `Buffers.InputBuff.Release` | src/pipeline.cpp:90-90 | Growing the block for the next read changes nothing the parser can see, and never fails while it and the bytes received behind the last delivered reply fit half the limit |
| `Parser.RespProto.ReadSimpleString` | src/proto.cpp:150-172 | The loop computes the specification and moves the offset behind the line, or leaves it |
| `Parser.RespProto.ReadInteger` | src/proto.cpp:174-197 | The same for integers, with the digits an interrupted call leaves behind |
| `Parser.RespProto.ReadLength` | src/proto.cpp:214-223 | The length loop finds the first carriage return and the wrapped value before it, or runs out |
| `Parser.RespProto.ReadBulkString` | src/proto.cpp:199-240 | Payload and offset as specified, with wrap-around in the completeness test |
| `Parser.RespProto.InitArray` | src/proto.cpp:242-283 | Header, resize, elements and incomplete flag as specified |
| `Parser.RespProto.FillArray` | src/proto.cpp:285-316 | The element loop, mutually recursive with reading, computes the recursive specification and terminates on every input |
| `Parser.RespProto.ReadData` | src/proto.cpp:318-385 | The type switch as specified, with its size tests and its exception |
| `Parser.RespProto.ParseOne` | src/proto.cpp:33-56 | One step on real memory is exactly one step of the machine for the byte actually left over, and after every delivered reply the block is compact |
| `OutputBuffer.Conservation` | src/io_buffers.cpp:65-123 | Over every run of adding, offering and reporting: sent bytes, then unsent frozen, then live ones are all bytes added, in order |
| `OutputBuffer.OutputBuff.constructor` | src/io_buffers.cpp:48-51 | An empty buffer |
| `OutputBuffer.OutputBuff.NothingToSend` | src/io_buffers.cpp:59-63 | True exactly when no byte is live or unsent and no block frozen |
| `OutputBuffer.OutputBuff.CheckOverflow` | src/io_buffers.cpp:93-97 | True exactly when the live block could not take the query below the limit |
| `OutputBuffer.OutputBuff.AddQuery` | src/io_buffers.cpp:78-91 | A query for which there is room is appended to the live block, with its extra line end where asked for, and never throws, after any number of freezes |
| `OutputBuffer.OutputBuff.GetBuffer` | src/io_buffers.cpp:112-123 | Freezes the live block whole if none is frozen, and offers exactly the unsent bytes |
| `OutputBuffer.OutputBuff.SendingReport` | src/io_buffers.cpp:65-75 | Drops the reported bytes; the block is freed exactly when none is left, and is out of reach from then on |
| `OutputBuffer.OutputBuff.Reset` | src/io_buffers.cpp:99-110 | Everything unsent is gone, and a frozen block freed |
| `QueryBuilder.AddedPartExact` | src/query.cpp:27-35 | Adding a part of any length appends its bulk string, and nothing else happens, if and only if it is shorter than 10^9 bytes |
| `QueryBuilder.Query.AddQueryPart` | src/query.cpp:27-35 | For parts of every length: resize, bounded print and trim append the text, cut by one byte from 10^9 bytes on; within 15 bytes of 2^31 and beyond the print fails, and the trim takes the last byte there was, or throws |
| `QueryBuilder.Query.AddText` | include/query.hpp:180-184 | One part more, the bytes so far still the encoding of all parts |
| `QueryBuilder.Query.AddDirect` | include/query.hpp:227-239 | The same for a direct buffer, whose data is only recorded with its offset |
| `QueryBuilder.Query.DirectLineFits` | include/query.hpp:230-232 | The printed line fits its stack buffer if and only if the length, cast and printed as an `int`, lies above -10^6 and below 10^7; it fits and is right if and only if the data is shorter than 10^7 bytes |
| `QueryBuilder.Query.BuildPart` | include/query.hpp:161-239 | Any argument adds exactly its payloads, text cut at its first NUL |
| `QueryBuilder.Query.BuildNext` | include/query.hpp:161-239 | The recursion over the arguments adds all payloads in order |
| `QueryBuilder.PayloadsAppend` | include/query.hpp:161-208 | Arguments contribute in their order, each what it contributes alone |
| `QueryBuilder.TextsInOrder` | include/query.hpp:161-183 | Texts without NUL contribute themselves, in their order |
| `QueryBuilder.NumberRead` | include/query.hpp:200-208 | A number contributes the text that reads back as it |
| `QueryBuilder.Query.InsQueryPrefix` | src/query.cpp:10-25 | Digit count, print, restored byte and trim leave exactly the array header in front of the parts |
| `QueryBuilder.Query.BuildResp` | include/query.hpp:141-158 | For every mix of text, numbers, lists and direct buffers the spliced query is the RESP encoding of all payloads as one array, offsets sorted after the shift; for texts it is the command of those texts in their order |
| `QueryBuilder.SplicedMoved` | include/query.hpp:155-157 | Shifting every recorded offset by the trim keeps what is sent |
| `QueryBuilder.PiecesSpliced` | src/query.cpp:37-49 | The pieces one after another are the query with the buffers spliced in |
| `QueryBuilder.Query.GetMultibuffer` | src/query.cpp:37-49 | The scatter loop yields exactly those pieces |
| `QueryBuilder.FastBuildOne` | src/query.cpp:51-61 | Right if and only if the command name has at most five length digits; throws if and only if an `int` cannot hold the printed length |
| `QueryBuilder.FastBuildTwo` | src/query.cpp:63-75 | Throws if and only if an `int` cannot hold the printed length; right if and only if it does not throw and the lengths have at most fifteen digits together |
| `QueryBuilder.FastBuildThree` | src/query.cpp:77-92 | For parts of every length: what it emits, up to 26 length digits, when it throws, and that it is never the three-part command |
| `QueryRoundTrip.RoundTrip` | include/query.hpp:141-208 | Every built command cut in every way comes back from the parser as one array of exactly its parts, unless a chunk ends at a bad stop, and then the parser throws |
| `QueryRoundTrip.ArgumentsArrive` | include/query.hpp:141-183 | Texts without NUL given as arguments come back from the parser as given and in their order, for every cut without a bad stop |
| `QueryRoundTrip.ThreePartsMisread` | src/query.cpp:77-92 | Read back, the three-part query is the command of two parts, followed by an exception |
| `QueryRoundTrip.TextExact` | include/query.hpp:161-197 | Texts arrive as given if and only if none contains a NUL |
| `ParserFlow.ParseSound` | src/proto.cpp:33-56 | In every state of the protocol, for replies of any nesting and every leftover byte, a call delivers the next reply, or waits unable to finish it, or throws: never anything else, unless it is left waiting inside a nested array |
| `ParserFlow.AcceptSound` | src/pipeline.cpp:100-100 | Arriving bytes keep that |
| `ParserFlow.ServeSound` | src/proto.cpp:33-56 | So does one more reply of the server |
| `ParserFlow.NothingHeld` | src/proto.cpp:33-56 | A parser that waits with all bytes read holds nothing back but a reply ending in an empty line |
| `ParserFlow.HungryHolds` | src/proto.cpp:33-56 | A parser that waits has received no more than the next reply, unless it is bound to throw |
| `Server.NextRequest` | src/query.cpp:37-49 | For any queries, however much of their bytes has come: the next command that can be read there is the next query, and no other |
| `PipelineSystem.NextRequestPushed` | src/pipeline.cpp:37-43 | The request the server finds next in the bytes sent is the next query pushed, even in the middle of partial writes |
| `PipelineSystem.BytesStep` | src/pipeline.cpp:22-86 | Every event keeps sent, frozen and live bytes equal to the complete queries in push order |
| `PipelineSystem.CallbacksStep` | src/pipeline.cpp:22-122 | Every event keeps each accepted callback in exactly one place, in push order, before and after an error |
| `PipelineSystem.RepliesStep` | src/pipeline.cpp:100-131 | Every event keeps parser, replies on the way and deliveries in step |
| `PipelineSystem.InvStep` | src/pipeline.cpp:22-156 | All of that together is an invariant of every event, waits for room and late pushes included |
| `PipelineRuns.EveryCallbackGetsItsReply` | src/pipeline.cpp:22-135 | In every run: the i-th callback called with a reply before a socket error is the i-th accepted, and the i-th request the server read is that push's query; the reply handed over, of any nesting, is the answer to it unless the parser was once left waiting inside a nested array |
| `PipelineRuns.EveryReplyIsDelivered` | src/pipeline.cpp:102-131 | When the reader waits and nothing is on the wire, every answered query's callback has been called, but for a last reply ending in an empty line, with the same exception |
| `PipelineRuns.EveryReadFindsRoom` | src/pipeline.cpp:88-131 | In every run: when the reader waits it has received of replies not delivered no more than the next one; so while none is longer than half the limit less one read, the next read has room, however many bytes have passed |
| `PipelineRuns.NoSyncError` | src/pipeline.cpp:106-113 | The sync error, also between queueing a callback and adding its bytes, takes a parser left waiting inside a nested array |
| `PipelineRuns.CutReachesSyncError` | src/pipeline.cpp:102-113 | And it is reached: for every array whose last element is an array beginning with a scalar, read in two pieces right behind the inner header, the callback gets a wrong tree and the rest of the reply makes the error |
| `PipelineRuns.ExactlyOnce` | src/pipeline.cpp:147-156 | Accepted callbacks are called with a reply, aborted or queued, in push order: none is aborted before an error; after it, those accepted before it have all been called |
| `PipelineRuns.EveryPushAccounted` | src/pipeline.cpp:22-46 | Counting every callback ever given to push: called with a reply, with the error, refused, queued, or under way between stop test and queueing, waiting for room included, exactly as often as given |
| `PipelineRuns.QuietAfterError` | src/proc_abstract.cpp:66-83 | After an error nothing is sent, nobody aborted, and no push accepted but one that had passed the stop test |
| `PipelineRuns.RightIffBeforeError` | src/pipeline.cpp:26-43 | The exact condition: pushes accepted before an error have their callbacks called exactly once, with their reply or the error; those accepted after it have queries no server ever reads, and stay queued or get a reply to a query accepted before |
| `PipelineRuns.LateGetsAnothersReply` | src/pipeline.cpp:34-43 | For every three pushes of such sizes that the third waits, every reply and leftover byte, a run in which the first query's callback gets the error and the third's its reply |
| `PipelineRuns.EndedReaderCallsNobody` | src/pipeline.cpp:117-121 | Once the reader has ended nobody is called with a reply, also if a push was under way then |
| `PipelineRuns.ReaderEndsIff` | src/pipeline.cpp:102-121 | In every run: an event ends the reader exactly if it completes a reply, stop is set and no callback is left |
| `PipelineRuns.DoneWhenAllDelivered` | src/pipeline.cpp:117-121 | In every run: when the reader ends without an error, every accepted callback has been called with a reply, in push order, and that is final |
| `PipelineRuns.IdleIffAllSent` | src/proc_abstract.cpp:38-50 | In every run: the winner of the writer flag lays it down exactly if every byte is sent, and otherwise offers some |
| `PipelineRuns.StoppedAdmitsNobody` | src/pipeline.cpp:26-32 | After stop no push is accepted but those that had passed the stop test |
| `PipelineRuns.ErrorMakesRoom` | src/proc_abstract.cpp:66-83 | After a socket error every waiting push below the limit fits, and no other |
| `PipelineRuns.WriterExclusiveAndConserving` | src/proc_abstract.cpp:38-50 | The flag is up exactly while there is a writer; without an error no byte of a complete query is lost, doubled or moved |
| `PipelineHandlers.HandlerIsRun` | src/pipeline.cpp:91-132 | Whatever the reading handler does is a run of the system, of one arrival and one parsing event for each turn, and leaves the writing side alone |
| `PipelineHandlers.WrittenIsRun` | src/pipeline.cpp:52-74 | So is what the writing handler does, after which either every byte is sent and the flag down, or there are bytes to write and a write under way |
| `PipelineHandlers.PushIsRun` | src/pipeline.cpp:22-46 | So is a push that finds room: stop test, callback, bytes, and the attempt to write, which with the flag down leaves nothing lying |
| `PipelineHandlers.EnterIsRun` | src/pipeline.cpp:34-45 | So is a push that had to wait, stopped meanwhile or not |
| `Pipeline.PipelineProc.constructor` | src/pipeline.cpp:11-15 | The system's initial client |
| `Pipeline.PipelineProc.Push` | src/pipeline.cpp:22-46 | Refuses with 100, or waits exactly when there is no room, or enters |
| `Pipeline.PipelineProc.Enter` | src/pipeline.cpp:37-45 | With room, at once or after a wait, whatever the stop flag says by then: queues the callback, adds the bytes and tries to write, the system's steps in sequence |
| `Pipeline.PipelineProc.ReqProcManager` | src/proc_abstract.cpp:38-50 | Wins the flag if it is down, and offers the unsent bytes or lays it down again |
| `Pipeline.PipelineProc.Confirm` | src/pipeline.cpp:60-71 | The taken bytes are reported and the flag laid down |
| `Pipeline.PipelineProc.ReqHandler` | src/pipeline.cpp:52-74 | Reports what was taken and goes on, or fails: the system's steps |
| `Pipeline.PipelineProc.PrepareRead` | src/pipeline.cpp:88-90 | Room for the next read, and nothing else changed |
| `Pipeline.PipelineProc.RespHandler` | src/pipeline.cpp:91-132 | The whole reading handler is the system's arrival step and its turns until it stops, for the bytes really left over; it terminates |
| `Pipeline.PipelineProc.ReplyTurn` | src/pipeline.cpp:102-122 | One turn of its loop is the system's turn |
| `Pipeline.PipelineProc.ParseNext` | src/pipeline.cpp:102-102 | The parser's step on the client's real buffer; every delivered reply uses up bytes or ends an interrupted array, so the loop ends |
| `Pipeline.PipelineProc.CallNext` | src/pipeline.cpp:104-121 | The reply goes to the head of the queue; with none there the error flag decides between a quiet end and the sync error |
| `Pipeline.PipelineProc.SocketErrorHandler` | src/proc_abstract.cpp:66-83 | Acts once: drops everything unsent and aborts every queued callback |
| `Pipeline.PipelineProc.SocErrorCallbacks` | src/pipeline.cpp:147-156 | The queue is emptied in order |
| `TwoLockQueue.LinkedStep` | include/threadsafe/queue.hpp:36-111 | Every step keeps the chain from head to tail: distinct nodes, linked in order, holding the queue, one dummy at the end |
| `TwoLockQueue.SomethingToTake` | include/threadsafe/queue.hpp:104-111 | A popper that saw a tail other than the head finds the oldest element there when it moves the head |
| `TwoLockQueue.OwnersStep` | include/threadsafe/queue.hpp:36-59 | A node not linked in belongs to one thread, before linking and after unlinking |
| `TwoLockQueue.PhasesStep` | include/threadsafe/queue.hpp:36-65 | Each operation is called, takes effect once, and returns that effect |
| `TwoLockQueue.Linearizable` | include/threadsafe/queue.hpp:36-111 | In every interleaving of push, try_pop and empty by any number of threads, the effects in their order are those of a sequential FIFO queue, each between call and return of its operation and returned by it |
| `QueueProgress.Completes` | include/threadsafe/queue.hpp:36-111 | In every reachable state with the locks free, an operation of an idle thread, undisturbed, returns within eleven steps with what a sequential queue gives: try_pop takes the oldest value exactly if there is one |
| `QueueProgress.RankFalls` | include/threadsafe/queue.hpp:36-111 | Each step of push, try_pop or empty, whatever the others do in between, brings its thread nearer to its return |
| `QueueProgress.BoundedSteps` | include/threadsafe/queue.hpp:36-111 | So over every run a thread takes no more than that many steps for an operation |
| `QueueProgress.NeverStuck` | include/threadsafe/queue.hpp:85-94 | As long as an operation is under way some thread can take a step: the two locks never block each other |
| `TwoLockQueue.CounterExact` | include/threadsafe/queue.hpp:40-46 | The counter is the number of linked nodes less the push between moving the tail and counting plus the pop between moving the head and counting, and never underflows |
| `TwoLockQueue.MemorySafe` | include/threadsafe/queue.hpp:90-111 | No thread follows a freed or unset pointer |
| `TwoLockQueue.Exclusive` | include/threadsafe/queue.hpp:85-94 | No two threads are in the same critical section or own the same node |
| `ConnQueue.BusyExact` | include/threadsafe/conn_queue.hpp:53-72 | The sifted list holds exactly the sockets found in use |
| `ConnQueue.ConnQueue.Push` | include/threadsafe/queue.hpp:36-47 | The socket is appended |
| `ConnQueue.ConnQueue.HeadToTail` | include/threadsafe/conn_queue.hpp:16-26 | The list turns by one, in place, on the same nodes; a list of one or none stays |
| `ConnQueue.ConnQueue.GetFirstFree` | include/threadsafe/conn_queue.hpp:28-51 | The first free socket, with the list turned just past it, or none, with the list as it was |
| `ConnQueue.ConnQueue.ClearFree` | include/threadsafe/conn_queue.hpp:53-72 | Exactly the busy sockets stay, in their order |
| `ConnPool.BusyCount` | include/threadsafe/conn_queue.hpp:53-72 | Clearing leaves each socket in use as often as it was, and no other |
| `ConnPool.InvStep` | src/conn_pool.cpp:17-48 | Every event keeps each socket cached or connecting at most once, and held only while cached |
| `ConnPool.ReusedIffFree` | src/conn_pool.cpp:17-29 | A request is met from the cache exactly if some cached socket has no holder and no handler, and then with one that has none; otherwise a new socket is made |
| `ConnPool.SocketsExclusive` | src/conn_pool.cpp:17-65 | Over every run no two callers hold the same socket, reused or fresh, and the cache holds none twice |
| `ConnPool.ConnManager.AsyncGet` | src/conn_pool.cpp:17-29 | On the real list: a hit, exactly if some cached socket is free, hands over a free one and turns the list as the system does; a miss starts a new one |
| `ConnPool.ConnManager.ConnectionHandler` | src/conn_pool.cpp:45-47 | The connected socket is cached as in the system |
| `ConnPool.ConnManager.Clear` | src/conn_pool.cpp:102-105 | The list is sifted as in the system |
| `SerialSystem.InvStep` | src/serial.cpp:19-102 | Every event keeps jobs in order, bytes whole, requests and replies matched, the parser in step, and half-duplex operation |
| `SerialRuns.HalfDuplexInOrder` | src/serial.cpp:19-102 | In every run, down to the bytes: the i-th callback called is that of the i-th job that entered, and the server's i-th request is its query; unless the parser was once left waiting inside a nested array, the reply handed over, of any nesting, is the answer to it, and the sync error is unreachable |
| `SerialRuns.OneDirectionAtATime` | src/serial.cpp:19-102 | Without an error: queries sent and queued are the unanswered rest, the flag is up while one is unanswered, at most one operation is outstanding, a batch has at most eleven, and nothing is read before the socket took the batch whole |
| `SerialRuns.EveryReplyIsDelivered` | src/serial.cpp:79-98 | With every received byte parsed and nothing on the wire, every answered query's callback has been called, but for a last reply ending in an empty line, with the same exception |
| `SerialRuns.EveryReadFindsRoom` | src/serial.cpp:65-99 | In every run: the same room for every read as in the pipelining processor |
| `SerialRuns.TurnLeadsOn` | src/serial.cpp:79-98 | In every run: with no complete reply left the processor reads on exactly while a query sent is unanswered, reports the work done exactly if stop is set and every accepted query is answered, and lays the flag down otherwise |
| `SerialRuns.EachJobInOnePlace` | src/serial.cpp:114-133 | Every accepted query is delivered, aborted, sent or queued, in order |
| `SerialRuns.NobodyCalledAfterError` | src/proc_abstract.cpp:66-83 | After an error no callback is called, and what is queued stays |
| `SerialRuns.LostIffAfterError` | include/procs/serial.hpp:20-37 | The exact condition, for every run with an error: the callbacks delivered and aborted are those of exactly the jobs that entered before it, in order, and those that entered after it are exactly the ones left queued |
| `SerialRuns.CalledIffBeforeEnd` | src/serial.cpp:79-133 | The exact condition for every run, with an error or without: once the processor has ended nobody is called; if its work was done or the socket failed, exactly the jobs that had entered by then have been, if the handler threw, exactly those delivered by then |
| `SerialRuns.AdmittedIsLost` | include/procs/serial.hpp:20-37 | Every push that passed the stop test before an error can still enter the queue after it, and is then never called |
| `SerialRuns.AdmittedIsReached` | include/procs/serial.hpp:20-37 | Such a state is reachable |
| `SerialHandlers.BatchedExact` | src/serial.cpp:38-51 | A batch is the first eleven queries, or all there are |
| `SerialHandlers.BatchRefines` | src/serial.cpp:38-51 | The loop is the system's batching events up to the write, whose bytes are the batch's pieces in order |
| `SerialHandlers.HandlerIsRun` | src/serial.cpp:68-99 | Whatever the reading handler does is a run of the system: one arrival, one parsing event for each turn, and, if that lays down the flag, the events of the next batch |
| `SerialHandlers.ManagedIsRun` | src/proc_abstract.cpp:38-50 | Winning the flag and gathering a batch is a run of the system, and the bytes to be sent grow by those of the batch |
| `SerialHandlers.PushIsRun` | include/procs/serial.hpp:18-41 | So is a push that finds room: its test, its entry, and the next batch if the flag is down |
| `Serial.SerialProc.constructor` | src/serial.cpp:9-11 | The system's initial processor |
| `Serial.SerialProc.Push` | include/procs/serial.hpp:18-41 | Refuses with 100, or waits exactly when the queue is full, or enters |
| `Serial.SerialProc.Enter` | include/procs/serial.hpp:33-40 | With room, at once or after a wait, whatever the stop flag says by then: queues and tries to write a batch |
| `Serial.SerialProc.PrepareRead` | src/serial.cpp:67-67 | Room for the next read, and nothing else changed |
| `Serial.SerialProc.ReqProcManager` | src/proc_abstract.cpp:38-50 | Wins the flag only with a query waiting, and writes all pieces of the batch in order |
| `Serial.SerialProc.ReqProc` | src/serial.cpp:33-62 | The batching loop moves the batch and gathers its pieces in order |
| `Serial.SerialProc.RespHandler` | src/serial.cpp:68-99 | The whole reading handler, on the real buffer and parser, is the system's arrival step and its turns for the bytes really left over, then the next batch if the flag was laid down |
| `Serial.SerialProc.ReplyLoop` | src/serial.cpp:79-98 | The parsing loop is the system's turns until it stops; it terminates |
| `Serial.SerialProc.ReplyTurn` | src/serial.cpp:79-98 | One turn of it is the system's turn; every delivered reply uses up bytes or ends an interrupted array |
| `Serial.SerialProc.Pause` | src/serial.cpp:87-98 | With no complete reply left: read on, report the work done, or lay the flag down |
| `Serial.SerialProc.SocketErrorHandler` | src/proc_abstract.cpp:66-83 | Acts once |
| `Serial.SerialProc.SocErrorCallbacks` | src/serial.cpp:114-133 | Sent queries, then queued ones, are aborted in order |

## Left out

- PipelineRuns.EveryCallbackGetsItsReply: the server answers with integers from 0 to 2^31 - 1; queries are those of parts below 10^9 bytes. So it is for SerialRuns.HalfDuplexInOrder.
- PipelineRuns.EveryReplyIsDelivered: says nothing of a reader stopped by a parser exception or by the end of its work.
- PipelineRuns.RightIffBeforeError: a second report of the work done, which a late callback called with a reply causes, ends the reader here; the source's promise throws.
- PipelineSystem.InvStep: queries pushed with an extra line end, which is no part of the protocol for the queries the builder writes, are in `PipelineProc.Push` but not in this system.
- NestedRuns.AllDeliveredIff: for streams that have arrived completely. For others `ChunkingInvariance` says what comes out without such a stop, and `RunShort` that something is missing with one.
- Integers.IntegerRightIffInRange: signed overflow has no defined result in C++; `IntegerRightWithWrapAround` is what a two's-complement machine does. Elsewhere in the model an overflowing integer wraps around.
- Parser.RespProto.ParseOne: an array length that overflows to exactly zero with a leftover carriage return leaves the offset two past the filled bytes, where the source reads one byte further on than the model.
- Parser.RespProto.ReadInteger: bytes above 127 are not taken as negative.
- Parser.RespProto.ReadBulkString: a length close to 2^64 is the string's length_error here; sizes of filled regions are taken to fit `int`.
- Buffers.BuffAbstract.Release: running out of memory is not modelled, beyond the vector's and string's own limits; nor a request for no bytes when the reserve is full, where the source divides by zero.
- BulkReaders.ParseString: a dollar sign alone, whose end the source reads past, and a carriage return as the last byte with a length that wraps.
- Pipeline.PipelineProc.Push: a one-line query for which there is just room without its extra line end, two bytes the source's test does not count; and the empty query on a block filled to its last byte.
- OutputBuffer.OutputBuff.SendingReport: not after an error has reset the buffer, where the source would free its block twice.
- OutputBuffer.OutputBuff.AddQuery: the same two bytes, and the same empty query.
- Pipeline.PipelineProc.ReqProcManager: the flag can be laid down just as a push adds bytes, which then wait for the next push; the transition system allows it; `IdleIffAllSent` says what a check does, not that one follows.
- QueryBuilder.FastBuildTwo: the C library is taken to refuse a print exactly when an `int` cannot hold its length; some also refuse a limit above that, which is less than 25 bytes away. So it is for the other printing functions.
- QueryBuilder.Query.BuildResp: queries without any part, for which the source writes past its string.
- ConnQueue.ConnQueue.GetFirstFree: use counts are those the scan finds, one look per socket; a holder may drop its reference meanwhile, the shared pointer's own counting is not modelled.
- ConnPool.SocketsExclusive: connection timeouts may call back twice; the model only counts references.
- TwoLockQueue.Linearizable: locks exclude and steps are sequentially consistent; destruction of the queue and `size` read without a lock are not operations of the model (the value read is in `CounterExact`).
- Sockets, strands and timers are events; timeouts and their exceptions are not modelled.
- The client's connect, disconnect and reconnect chaining, its routing of queries and the weighted balancer: wiring and one-branch claims.
- Command tables, string and network helpers, the profiler, the examples and the experimental copy of the queue.
