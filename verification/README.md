# A model of the C++ API gateway

The gateway is an HTTP/1.1 reverse proxy: one event-loop thread owns the client
sockets, a pool of workers routes and forwards the requests, and a set of small
hand-written state machines holds it together. This project models those machines in
Dafny and proves what they promise, over every input, every run or every reachable state.

The parts, and where to find them:

- **The incremental request parser.** `HttpParser.dfy` is the object, updated in place.
  `ParserMachine.dfy` is the machine it is proved against: the smallest moves that never
  depend on bytes still to come. `Fragmentation.dfy` proves that the way a stream is cut
  into reads does not matter, `Pipelining.dfy` that well-formed pipelined requests come
  out one by one, `PipelineCuts.dfy` and `StallPoints.dfy` on which cuts the dispatch loop
  comes back, `OneShot.dfy` and `Agreement.dfy` when the second parser, used by the
  workers, agrees.
- **Connections, event loop, registry.** `ConnectionMachine.dfy` and `Connection.dfy` are
  one client connection, as functions on values and as an object with parser and buffers;
  `EventLoop.dfy` is the deferred-task protocol and the object; `Gateway.dfy` steps
  connections, loop, workers, kernel and idle cleanup in any interleaving;
  `GatewayServer.dfy` is the object with the connection objects, their map and the counter;
  `EdgeTriggered.dfy` is one socket between the kernel, epoll and its connection.
- **The path of one request.** `RequestPath.dfy` puts parser, rate limiter, router,
  balancer and circuit breaker together as a worker uses them; `Responses.dfy` is what
  becomes of the backend's response.
- **Supporting machines.** `Buffer.dfy`, `Timer.dfy`, `RateLimit.dfy`, `Router.dfy`,
  `CircuitBreaker.dfy`, `BackendPool.dfy`, `LoadBalancer.dfy`, `AsyncLogger.dfy` with
  `LogFiles.dfy`; `Bytes.dfy`, `HttpSyntax.dfy` and `Numbers.dfy` are shared.

Objects that the source updates in place are classes here, loops are loops with
invariants, and each such method is proved against a function or a state machine over
which the main theorems are stated. Two objects (`EventLoop.EventLoop`,
`Logging.AsyncLogger`) carry their history as a ghost run of the protocol, so what holds
of every run holds of the object.

## Where the code and what is said about it differ

Each entry names the lemmas with the failing input and the exact condition.

- The dispatch loop of the parser leaves the chunked state only when no byte is unused
  (`src/http/parser.cpp:221-222`). When the chunked phase stalls on an incomplete size
  line, chunk ending or trailer line, the loop repeats without change and `parse` never
  returns. The methods report this as `spins`. `Fragmentation.SpinsExactly` gives the
  condition for any stream; for pipelines of requests `StallPoints.StreamCutSpins` and
  `StallPoints.CutSpinsExactly` name the very positions at which a cut is fatal, and
  `PipelineCuts.EveryCutReturnsIffNoChunks` says which pipelines have none. Delivery
  theorems speak about the calls that return.
- Optional blanks (section 5 of RFC 9112): any number after the colon of a field is fine,
  but blanks at its end stay in the value. Behind a Content-Length they hide the length,
  so the request is complete without its body and the body begins the next request. A
  blank before the semicolon of a chunk extension (section 7.1.1) is an error.
  `Pipelining.TakenWholeIff`, `Pipelining.PipelineDeliversIff`,
  `Pipelining.TrailingBlankLosesBody`, `Pipelining.BlankBeforeSemicolonFails`; what comes
  of the rest of the stream is `Pipelining.PipelineOutcome`.
- A completed message that began with two or more empty lines is accepted by the
  incremental parser, but its stored body is cut in the wrong place and the workers'
  parser refuses it: `Agreement.StoredBody`, `Agreement.WorkerParsesTheSame`,
  `Agreement.OneShotAgrees`.
- The request size limit is not applied to bytes that wait for the end of a line of the
  head (`src/http/parser.cpp:148`, `src/net/connection.cpp:66` look elsewhere):
  `ConnectionMachine.EndlessLineGrows`; anywhere later it holds,
  `ConnectionMachine.HeldAfterHeaders`.
- A client's wish to close plays no part (`src/http/request.cpp:20-31`): HTTP/1.1, or
  keep-alive beside close in the same value, keeps the connection open whenever the backend
  sent a Connection header other than close and the filters add no close line. That
  condition is exact: `Responses.KeptIff`, `Responses.CloseNotHeard`,
  `Responses.CloseNotHeardInput`.
- A response without Connection header gets one, and the code then takes the header to be
  two characters longer than it is (`src/core/gateway.cpp:135`), so lines added by filters
  land in the body: `Responses.BodyKeptIff`.
- Rolled log files are named by the second. Two rolls within one second lose the lines of
  the first file, and exactly such a clash loses lines: `LogFiles.LinesKeptIff`,
  `LogFiles.TwoRollsOneStamp`. (A rename that fails loses none.)
- A rename that fails, or a start on a file with contents (the counter begins at zero),
  lets a log file grow beyond the roll size. `LogFiles.AlwaysBoundedIff` says exactly when,
  for any state of the files and any lines; `LogFiles.RestartOverflows`,
  `LogFiles.RestartInput` and `LogFiles.FailedRenameOverflows` are the failing inputs.
- Every roll closes its stream twice (`src/logger/async_logger.cpp:119` and `:105`), so a
  flush is free of that exactly when it does not roll: `LogFiles.ClosedOnceIff`.
- The breaker closes after one success fewer than the requests it admitted in half-open
  state, because the request that opens the episode is not counted
  (`src/proxy/circuit_breaker.cpp:26-27`): `Breakers.ClosesOneEarly`,
  `Breakers.ClosesAfterAllIff`, `Breakers.EarlyCloseHappens`.
- `next_timeout_ms` reads the first live entry in array order, which need not be the
  earliest: `Timers.ExactIffFirstLiveAbove` says for which patterns of cancelled entries
  the answer is right.
- `include/gateway/core/router.h` says that routes are kept by descending length, while
  the sort goes by number of slashes first; `Routing.FirstIsLongest` shows that a longest
  prefix is found all the same.
- `Buffer::prepend` beyond the reserve leaves the write index too small:
  `Buffers.PrependFitsReserve`. `Buffer::shrink` called by itself overruns a full buffer into
  whose reserve something was put; `ensure_writable` never calls it so:
  `Buffers.ShrinkFitsIff`.
- Round robin is fair across the wrap of its counter only for lists whose length divides
  2^64: `Balancing.FairForeverIff`.

## Model

| member | source | states |
|---|---|---|
| `HttpSyntax.LowerLetters` | src/http/parser.cpp:14-16 | each of the 26 capitals becomes its small letter and every other character stays |
| `HttpSyntax.LowerIs` | src/http/parser.cpp:272-275 | lower-casing gives a name without capitals exactly for the texts that equal it letter by letter, case aside |
| `HttpSyntax.StrIEqual` | src/http/parser.cpp:14-33 | the loop decides equality letter by letter, case aside, as the two alphabets have it |
| `HttpSyntax.RequestLineParts` | src/http/parser.cpp:78-88 | an accepted line is method, blank, path, blank, version, with no blank in the first two and nothing empty; headers and body stay |
| `HttpSyntax.RequestLineOf` | src/http/parser.cpp:78-88 | conversely every such line is accepted with exactly those parts |
| `HttpSyntax.StoreHeader` | src/http/parser.cpp:267-280 | the in-place loop stores what the header rule says: lower-case name, left-trimmed value, last one wins |
| `HttpSyntax.HeaderLineOf` | src/http/parser.cpp:267-280 | a field line with any blanks after the colon stores what follows them, blanks at the end included, under the lower-case name |
| `HttpSyntax.HeaderNameAnyCase` | src/http/parser.cpp:267-280 | the name may be written in any letter case: the value is stored under its lower-case form |
| `HttpSyntax.NoColonNoHeader` | src/http/parser.cpp:267-270 | a line without a colon is passed over |
| `HttpSyntax.DecimalWrites` | src/utils/utils.cpp:11-18 | the value of digits is the number they write in base ten |
| `HttpSyntax.ParseIntSafeOf` | src/utils/utils.cpp:11-18 | blank space, a sign and digits are read as their number; negative ones and those beyond 2^31 - 1 are refused |
| `HttpSyntax.ParseIntSafeOnly` | src/utils/utils.cpp:11-18 | and nothing else is read |
| `HttpSyntax.PlainDigitsParse` | src/utils/utils.cpp:11-18 | a Content-Length of digits, as section 8.6 of RFC 9110 has it, is read as its value while it fits an int |
| `HttpSyntax.PaddedDigitsRejected` | src/utils/utils.cpp:11-18 | digits with a blank behind them are no number |
| `HttpSyntax.FindWord` | src/http/parser.cpp:288-293 | the window search finds a word in any case exactly when it is there |
| `HttpSyntax.FindChunked` | src/http/parser.cpp:285-294 | chunked framing is found exactly when the header mentions it |
| `HttpSyntax.ChunkedBeforeBlanks` | src/http/parser.cpp:285-294 | blanks behind the value neither make nor break a mention of chunked |
| `HttpSyntax.ParseHex` | src/http/parser.cpp:355-369 | the shift-and-or loop yields the written number modulo 2^64, and nothing for anything but hex digits |
| `HttpSyntax.HexWrites` | src/http/parser.cpp:355-369 | the value of hex digits, in either case, is the number they write in base sixteen |
| `HttpSyntax.ChunkSizeReads` | src/http/parser.cpp:355-391 | a size line is read as the number written before any semicolon, modulo 2^64 |
| `HttpSyntax.ChunkSizeOnly` | src/http/parser.cpp:355-391 | and only lines of that shape are |
| `HttpSyntax.BeforeSemicolonOf` | src/http/parser.cpp:383-385 | cutting at the semicolon recovers what stands before the extension, blanks included |
| `ParserMachine.StepLowers` | src/http/parser.cpp:206-224 | every move of the machine lowers the measure of unread bytes and state rank |
| `ParserMachine.StepExtends` | src/http/parser.cpp:166-176 | a move that is possible now is the same move when more bytes follow |
| `ParserMachine.RunExtends` | src/http/parser.cpp:184-224 | running, then feeding more, then running equals feeding all and running |
| `ParserMachine.RunMoves` | src/http/parser.cpp:156-164 | message bytes followed by unused bytes never change, bytes only move from the second to the first |
| `ParserMachine.OversizeFails` | src/http/parser.cpp:147-153 | a message over the size limit ends in an error, whichever check notices it |
| `ParserMachine.StepPlaced` | src/http/parser.cpp:246-282 | header lines end the bytes read so far, and a Content-Length body directly follows an empty line, at every move |
| `ParserMachine.BodyInside` | src/http/parser.cpp:345-352 | the body cut out of the message stays inside it |
| `ParserMachine.BodyInOneGo` | src/http/parser.cpp:340-342 | taking any number of body bytes at once equals taking them one by one |
| `ParserMachine.DataInOneGo` | src/http/parser.cpp:418-422 | the same for chunk data, with the size limit checked once instead of after each byte |
| `Parser.HttpParser.Reset` | src/http/parser.cpp:134-145 | a new message begins and the unused bytes are kept |
| `Parser.HttpParser.CheckSizeLimit` | src/http/parser.cpp:147-153 | the error state is entered exactly when the message is over the limit |
| `Parser.HttpParser.ConsumePartial` | src/http/parser.cpp:156-164 | the first n unused bytes become part of the message |
| `Parser.HttpParser.ProcessRequestLine` | src/http/parser.cpp:228-242 | one move of the machine, or nothing at all when the line is incomplete |
| `Parser.HttpParser.ProcessHeaders` | src/http/parser.cpp:246-282 | the loop stops where the machine leaves the headers or stalls, without changing where its run ends |
| `Parser.HttpParser.FinalizeHeaders` | src/http/parser.cpp:284-318 | chunked wins over Content-Length, and a missing, malformed or zero length means no body |
| `Parser.HttpParser.ProcessBody` | src/http/parser.cpp:322-353 | ends exactly where the machine's run ends; unused bytes are left only when the body is complete |
| `Parser.HttpParser.ProcessSizeLine` | src/http/parser.cpp:376-403 | one move of the machine; unchanged when the line is incomplete |
| `Parser.HttpParser.ProcessData` | src/http/parser.cpp:405-426 | moves of the machine up to the end of the bytes or of the chunk; unchanged when stalled |
| `Parser.HttpParser.ProcessTrailer` | src/http/parser.cpp:428-443 | trailer lines are taken up to the empty line; unchanged when stalled |
| `Parser.HttpParser.ProcessChunked` | src/http/parser.cpp:373-450 | ends exactly where the machine's run ends, and is the identity on a stalled parser |
| `Parser.HttpParser.Dispatch` | src/http/parser.cpp:206-224 | one pass of the loop: a change of state lowers the measure, and work is left over only on the way to the next state |
| `Parser.HttpParser.Process` | src/http/parser.cpp:206-224 | comes back unless the run ends in a chunk stall with unused bytes, and then with the run finished or one empty line skipped |
| `Parser.HttpParser.Parse` | src/http/parser.cpp:184-202 | all four outcomes of a call with its return value: done before, finished run with the limit checked, one empty line skipped, or spinning |
| `Fragmentation.OneMessageAnyCut` | src/http/parser.cpp:147-153 | one message, any cut: same verdict, and unless it is an error the same message bytes, request and unused bytes |
| `Fragmentation.VerdictStays` | src/http/parser.cpp:184-202 | completion and error are final whatever bytes follow, and waiting can be resumed |
| `Fragmentation.DeliverExtends` | src/net/connection.cpp:78-109 | delivering in two parts gives the messages of the whole, in order, and the same parser state |
| `Fragmentation.AnyCutDeliversTheSame` | src/http/parser.cpp:184-450 | for every stream and every cut the messages delivered and the final parser state are those of the uncut stream, size limit included |
| `Fragmentation.CutsAgree` | src/net/connection.cpp:78-109 | two cuts of the same stream deliver the same |
| `Fragmentation.SpinsExactly` | src/http/parser.cpp:206-224 | a call never returns if and only if some cut falls where the bytes so far, taken alone, end in a stalled chunk phase with bytes unused, nothing earlier being rejected |
| `ParserDriver.AfterCall` | include/gateway/http/parser.h:30-42 | a call that leaves the message under way keeps all bytes, does not change where the run ends, and either finished it or made progress |
| `ParserDriver.Drive` | src/net/connection.cpp:80-108 | the loop of calls reaches the end of the run, and fails to return exactly on a stuck chunk |
| `ParserDriver.DrivePieces` | include/gateway/http/parser.h:30-42 | parse, take, reset over any pieces yields the messages and the state that the cut-independence theorem speaks of |
| `Pipelining.StoredUnder` | src/http/parser.cpp:267-280 | what the parser holds under a lower-case name is the value of the last field of that name in any letter case |
| `Pipelining.CapitalsTakenWhole` | src/http/parser.cpp:284-353 | a concrete request with `Content-Length: 5` is taken with its body |
| `Pipelining.BadStartLineRejected` | src/http/parser.cpp:228-242 | a first line that is not method, blank, path, blank, version is an error |
| `Pipelining.BadSizeLineRejected` | src/http/parser.cpp:376-403 | after any number of chunks, a size line that does not begin with hex digits, up to a semicolon, is an error |
| `Pipelining.BadChunkEndRejected` | src/http/parser.cpp:405-426 | and so is a chunk whose data is not followed by CRLF |
| `Pipelining.MessageResult` | src/http/parser.cpp:228-450 | what every well-formed message, with whatever optional blanks, followed by anything comes to: taken whole, body left lying, or error |
| `Pipelining.MessageParses` | src/http/parser.cpp:228-450 | every readable message (no body, Content-Length, or chunks with extensions and trailers as in section 7.1 of RFC 9112) followed by anything is parsed into its parts, ending precisely at its last byte |
| `Pipelining.HiddenHead` | src/http/parser.cpp:302-316 | a message with a blank behind its Content-Length is complete as soon as its head is, whatever follows |
| `Pipelining.UnreadableResult` | src/http/parser.cpp:302-316 | a message with a blank behind its Content-Length is complete without its body; one with a padded chunk size fails |
| `Pipelining.TakenWholeIff` | src/http/parser.cpp:284-450 | a well-formed message is taken whole if and only if no blank stands behind the Content-Length that frames it and none before the semicolon of a size line |
| `Pipelining.PipelineDelivers` | src/http/parser.cpp:134-145 | any sequence of readable messages within the size limit comes out message by message, in order, leaving a fresh parser, and without a spinning call |
| `Pipelining.PipelineDeliversIff` | src/http/parser.cpp:134-450 | any sequence of well-formed messages comes out as written if and only if all are readable |
| `Pipelining.PipelineOutcome` | src/http/parser.cpp:134-450 | what any sequence of well-formed messages comes to: the readable ones up to the first that is not; a chunked one is rejected there, one with hidden length comes without its body, and its body with all that follows is delivered as a stream of its own |
| `Pipelining.BodyBecomesRequests` | src/http/parser.cpp:302-316 | in particular a body left behind that consists of readable requests is handed on as those requests |
| `Pipelining.PipelineDeliversAnyCut` | src/http/parser.cpp:134-450 | the same for every cut of their concatenation |
| `Pipelining.TrailingBlankLosesBody` | src/http/parser.cpp:302-316 | the failing input for Content-Length |
| `Pipelining.BlankBeforeSemicolonFails` | src/http/parser.cpp:383-391 | the failing input for a chunk size |
| `Pipelining.SizeLineCutSpins` | src/http/parser.cpp:376-380 | a cut inside the first size line of a chunked message makes the dispatch loop repeat forever |
| `Pipelining.FirstDigitCutSpins` | src/http/parser.cpp:221-222 | every well-formed chunked message has a cut on which the parser does not come back |
| `PipelineCuts.ProperPrefixWaits` | src/http/parser.cpp:284-353 | a proper prefix of a readable message without chunks is neither complete nor stuck |
| `PipelineCuts.PrefixNeverSpins` | src/http/parser.cpp:206-224 | no prefix of a readable pipeline without chunks gets the parser stuck |
| `PipelineCuts.SpinningCut` | src/http/parser.cpp:221-222 | a pipeline with a chunked message behind readable ones has a cut that gets it stuck |
| `PipelineCuts.EveryCutReturnsIffNoChunks` | src/http/parser.cpp:206-224 | every cut of a pipeline in which no Content-Length is hidden returns if and only if no message in it is chunked |
| `StallPoints.StuckExactly` | src/http/parser.cpp:373-450 | of all prefixes of a well-formed chunked message, the parser is stuck exactly on those that end strictly inside a size line, between the CR and LF behind a chunk's data, strictly inside a trailer line, or inside the final CRLF, and not behind a padded size line |
| `StallPoints.StreamSpinsExactly` | src/http/parser.cpp:206-224 | the same for every prefix of any pipeline of well-formed messages; behind a hidden Content-Length the left-over bytes count as a stream of their own |
| `StallPoints.PipelineSpinsExactly` | src/http/parser.cpp:206-224 | when no Content-Length is hidden the points are read off the grammar alone |
| `StallPoints.StreamCutSpins` | src/net/connection.cpp:78-109 | a way of cutting any pipeline is fatal if and only if one of its cuts falls on such a point and nothing before it was rejected |
| `StallPoints.RejectedNeverSpins` | src/http/parser.cpp:206-224 | once a pipeline without hidden lengths has been rejected, no later point stalls |
| `StallPoints.CutSpinsExactly` | src/net/connection.cpp:78-109 | so a way of cutting it is fatal if and only if one of its cuts falls on a stall point |
| `OneShot.ParseHttpRequest` | src/http/parser.cpp:90-123 | the scan over the raw text computes the one-shot rule |
| `OneShot.HeadEnds` | src/http/parser.cpp:91-92 | the first double CRLF after non-empty lines is the one that ends them |
| `OneShot.ScanCollects` | src/http/parser.cpp:96-121 | the line scan collects all header lines, and no more |
| `Agreement.OneShotAgrees` | src/http/parser.cpp:90-123 | for every message the incremental parser completes, the one-shot parser accepts it if and only if it does not begin with two empty lines, then with the same method, path, version and headers, the same body unless chunked, and a Content-Length body being the last bytes of the message |
| `Agreement.StoredBody` | src/http/parser.cpp:345-352 | the body stored for a Content-Length message is its data, or with two or more leading empty lines the bytes after the second |
| `Agreement.WorkerParsesTheSame` | src/core/gateway.cpp:46-52 | a worker parsing a delivered message again gets the same request exactly when at most one empty line preceded it |
| `ConnectionMachine.TryParseKeeps` | src/net/connection.cpp:78-109 | parsing hands over at most one message and keeps every byte accounted for |
| `ConnectionMachine.OnReadKeeps` | src/net/connection.cpp:39-74 | reading keeps the connection invariant for every sequence of socket results, and delivers only from the reading state |
| `ConnectionMachine.OnWriteKeeps` | src/net/connection.cpp:113-149 | writing and finishing a response keep the invariant; only a writing connection is changed |
| `ConnectionMachine.WriteHonoursKeepAlive` | src/net/connection.cpp:113-149 | for every sequence of write results: half-closed if and only if the socket took every byte and the client is not to be kept, reading again only if it took every byte and the client is to be kept |
| `ConnectionMachine.SendHonoursKeepAlive` | src/net/connection.cpp:133-176 | the same for a response handed in by a worker, with everything answered so far written in order |
| `ConnectionMachine.HandlerSpins` | src/net/connection.cpp:78-149 | a handler spins in the parser only while its connection reads, never when closed |
| `ConnectionMachine.SendKeeps` | src/net/connection.cpp:163-176 | a response queues behind all earlier ones; on a writing, closing or closed connection it changes nothing |
| `ConnectionMachine.OnEventKeeps` | src/core/gateway.cpp:352-362 | the socket callback keeps the invariant and never answers |
| `ConnectionMachine.CloseKeeps` | src/net/connection.cpp:188-205 | closing counts one close callback and keeps what was delivered and written |
| `ConnectionMachine.NothingStranded` | src/net/connection.cpp:133-141 | back in reading, the messages contained in the bytes received are exactly those delivered: none waits in a buffer |
| `ConnectionMachine.HeldAfterHeaders` | src/net/connection.cpp:66-69 | once the headers are over, a waiting connection holds no unused byte and its message is within the limit |
| `ConnectionMachine.EndlessLineGrows` | src/http/parser.cpp:147-153 | a line of the head that never ends makes an open connection hold any number of bytes, exactly when the limit is not zero |
| `Connections.Connection.CloseInternal` | src/net/connection.cpp:188-205 | the descriptor is given up once |
| `Connections.Connection.ParseLoop` | src/net/connection.cpp:80-108 | the loop reaches the end of the run over buffered and left-over bytes, or spins exactly on a stuck chunk |
| `Connections.Connection.TryParseMessage` | src/net/connection.cpp:78-109 | the object does what the machine does, message included |
| `Connections.Connection.FinishResponse` | src/net/connection.cpp:133-149 | back to reading with pipelined bytes parsed at once, or half-closed |
| `Connections.Connection.OnWrite` | src/net/connection.cpp:113-131 | refines the machine for every sequence of write results, spinning calls included |
| `Connections.Connection.OnEvent` | src/core/gateway.cpp:352-362 | the socket callback refines the machine's, from every state the invariant allows |
| `Connections.Connection.SendInternal` | src/net/connection.cpp:163-176 | refines the machine in every state |
| `Connections.Connection.OnRead` | src/net/connection.cpp:39-74 | refines the machine for every way in which the socket hands out its bytes, blocks, ends or fails |
| `EdgeTriggered.ReadOutcome` | src/net/connection.cpp:52-74 | reading in any pieces: closed when more than the limit gets buffered, at the end or an error of the socket; otherwise all that was read is parsed at once |
| `EdgeTriggered.StepKeeps` | src/net/connection.cpp:39-176 | arrivals, the client's end, epoll reports, callbacks, responses and closes in any order keep this: unread bytes of a reading or half-closed connection, or room for one that writes, are on the ready list or reported and about to be handled |
| `EdgeTriggered.OnlyTheClientIsMissing` | src/net/connection.cpp:36-74 | in every state of every run with nothing on the ready list and nothing reported: a reading connection has read every byte that arrived, handed on every message in them and written every response; a writing one has no room; a half-closed one has nothing to drain |
| `EdgeTriggered.OneCallbackEmpties` | src/net/connection.cpp:52-74 | one callback of a reading connection empties the socket, or closes it |
| `EdgeTriggered.EdgeDropped` | src/net/connection.cpp:47 | bytes that arrive while a request is processed are announced, and the callback drops the announcement |
| `EdgeTriggered.AskedAgain` | src/net/connection.cpp:133-176 | the response puts the socket on the ready list again, however much of it is taken |
| `Connections.AlwaysReady` | src/net/connection.cpp:39-176 | in every open state that the invariant allows and in which the parser does not spin, the handlers may be called |
| `EventLoop.StepKeepsInv` | src/net/event_loop.cpp:98-146 | each step keeps push order, single execution, and a wakeup for whatever is queued |
| `EventLoop.EveryRunInOrder` | src/net/event_loop.cpp:98-146 | in every run, what was executed followed by what is queued is what was pushed, and no wakeup is lost |
| `EventLoop.QuietMeansDone` | src/net/event_loop.cpp:103-106 | when nothing is set to wake the loop and nobody is halfway, everything pushed has run |
| `EventLoop.RoundRunsExactly` | src/net/event_loop.cpp:111-146 | in every run, a round executes exactly min(limit, queued) of the tasks queued when it took the queue, in order (all of them without a limit, below 2^31 tasks), keeps the rest for the next and wakes the loop for it |
| `EventLoop.RunsWithinRounds` | src/net/event_loop.cpp:126-145 | from any state, a task with k others before it has run after k / limit + 1 further rounds (one without a limit), and one more if a round is under way, whatever else is pushed |
| `EventLoop.DeferredDuringRoundWaits` | src/net/event_loop.cpp:129-141 | the extra round is needed: a run from the start in which a task deferred during a round waits through its end |
| `EventLoop.EventLoop.Defer` | src/net/event_loop.cpp:98-106 | two protocol steps: queue under the lock, write the eventfd |
| `EventLoop.EventLoop.OnWakeup` | src/net/event_loop.cpp:24-28 | one round: the first min(limit, queued) tasks of left-overs and queue run in order, the rest waits, and unless more is deferred meanwhile the loop is woken exactly if something waits |
| `EventLoop.EventLoop.RunDeferredTasks` | src/net/event_loop.cpp:111-146 | the batch loops carry out exactly the steps of a protocol round |
| `EventLoop.EventLoop.HistoryInOrder` | src/net/event_loop.cpp:98-146 | at any time the object's history is a run of the protocol: pushed is executed followed by queued |
| `Gateway.SettleKeeps` | src/core/gateway.cpp:341-350 | handing a message to the pool or closing keeps the invariant of the whole system |
| `Gateway.StepKeepsInv` | src/core/gateway.cpp:330-367 | every step of loop thread, workers, kernel and cleanup keeps the invariant of the whole system |
| `Gateway.StepKeepsCalm` | src/net/connection.cpp:78-109 | unless the loop thread hangs, no connection leaves its parser stuck |
| `Gateway.EveryRunInv` | src/core/gateway.cpp:306-368 | so both hold in every state of every run |
| `Gateway.RequestsInOrder` | src/net/connection.cpp:93-176 | in every reachable state at most one request per connection is outstanding (one iff processing, none in the other open states), the bytes written are a prefix of the replies in request order, no received byte is lost, in reading all messages received have been delivered, and unless the loop hangs bytes wait only for the end of a line of the head |
| `Gateway.DescriptorsOwned` | src/core/gateway.cpp:217-229 | under any reuse of descriptors, every entry of the map and of the callbacks belongs to the one open connection holding the descriptor, the close callback runs at most once, and the counter is the number of open connections and within a positive limit |
| `Gateway.LateSendChangesNothing` | src/net/connection.cpp:163-167 | a response that arrives when its connection no longer waits finds it closed and changes nothing |
| `Gateway.StepOnlyAdds` | src/net/connection.cpp:155-176 | no reply is ever replaced, and what was delivered or written stays |
| `Gateway.AcceptIff` | src/core/gateway.cpp:325-368 | a client is taken in, registered everywhere, if and only if the limit is not positive or fewer connections are open; otherwise nothing changes |
| `Gateway.BrokenDefersClose` | src/core/gateway.cpp:359-361 | an error or hang-up defers one close, unless the handlers have closed the connection |
| `Gateway.CloseTaskCloses` | src/net/connection.cpp:180-205 | when a deferred close runs, the connection is closed, and its descriptor and its place in the count are given up once |
| `Gateway.JobsTakenInOrder` | src/core/gateway.cpp:341-345 | over any stretch of any run, jobs join the worker queue at its end and leave it at its front |
| `GatewayServer.CleanupDefersEachClose` | src/core/gateway.cpp:217-229 | however the map is walked, idle entries leave it, each gets one deferred close, and until then keeps its callback and its place in the count |
| `GatewayServer.ConnectionTable.Add` | src/core/gateway.cpp:337-339 | a new connection object shares nothing with the others and is in the system's initial state |
| `GatewayServer.ConnectionTable.Handle` | src/core/gateway.cpp:352-362 | the handlers of one connection object do what the system's do, spinning included, and no other object notices |
| `GatewayServer.ConnectionTable.Send` | src/net/connection.cpp:163-176 | the same for a response, in every state of the connection |
| `GatewayServer.GatewayServer.OnAccept` | src/core/gateway.cpp:325-368 | the object takes the system's accept step, refusal at the limit included |
| `GatewayServer.GatewayServer.OnEvent` | src/core/gateway.cpp:346-362 | the socket callback on the connection object, with the close callback, is the system's event step; when it spins, the system is in the step's state but for the bytes still in the read buffer |
| `GatewayServer.GatewayServer.RunTask` | src/net/connection.cpp:155-186 | a deferred response or close, run on the connection objects, is the system's step for that task, spinning included |
| `GatewayServer.GatewayServer.CloseInternal` | src/net/connection.cpp:188-205 | closing with the gateway's callback is the system's close step, and nothing for a closed connection |
| `GatewayServer.GatewayServer.ForceClose` | src/net/connection.cpp:180-186 | defers one close unless already closed |
| `GatewayServer.GatewayServer.CleanupIdle` | src/core/gateway.cpp:217-229 | the pass removes exactly the entries idle for too long, as a sequence of the system's cleanup steps |
| `RequestPath.RequestHandler.GetCircuitBreaker` | src/core/gateway.cpp:189-211 | one breaker per backend, made on first use; the others are untouched |
| `RequestPath.RequestHandler.Choose` | src/core/gateway.cpp:78-86 | the target is a backend of a longest matching route, and there is none exactly when no route matches |
| `RequestPath.RequestHandler.Forward` | src/core/gateway.cpp:88-120 | an admitted request is reported to its breaker exactly once with its outcome, a refused one not at all, and no other breaker changes |
| `RequestPath.RequestHandler.SendAnswer` | src/core/gateway.cpp:122-186 | the response is rewritten and the fate of the client connection decided as the rules say |
| `RequestPath.RequestHandler.Serve` | src/core/gateway.cpp:65-187 | a request not answered by the gateway itself: exactly one send, and who is refused by limiter, routing and breaker |
| `RequestPath.RequestHandler.ProcessRequest` | src/core/gateway.cpp:43-187 | on every path exactly one reply is appended to what was sent: 400 for a malformed or limited request, 404 without route, 503 when the breaker refuses, the page of an internal path, else the rewritten answer; who is refused by parser, limiter, routing and breaker is exactly characterised; the breaker hears of a forwarded request as a failure exactly for an empty or 5xx answer |
| `Responses.RewriteResponse` | src/core/gateway.cpp:122-177 | the in-place insertions compute the rewriting rule |
| `Responses.BodyKeptIff` | src/core/gateway.cpp:127-176 | the client sees the backend's body if and only if the response had a Connection header or the filters add nothing |
| `Responses.FilterHeadersArrive` | src/core/gateway.cpp:156-176 | a header added by a filter and not in the response stands in the head that is sent, with its value, when the response had a Connection header |
| `Responses.RequestKeepAlive` | src/http/request.cpp:20-31 | keep-alive is asked for by the word, or by HTTP/1.1 |
| `Responses.KeptIff` | src/core/gateway.cpp:122-186 | for every request, response and filter headers: the client connection is kept if and only if the request is HTTP/1.1 or mentions keep-alive, no close line stands anywhere in the response or among the lines the filters add, and the response has a Connection header of its own or no header end |
| `Responses.CloseNotHeard` | src/http/request.cpp:20-31 | a response given by its lines: kept if and only if keep-alive is asked for and the lines have a Connection line and no close line |
| `Responses.CloseNotHeardInput` | src/http/request.cpp:20-31 | the failing family: any request that mentions close, on HTTP/1.1 or with keep-alive beside it, answered with keep-alive |
| `Responses.NotKeptWithoutConnection` | src/core/gateway.cpp:127-184 | a response with a header end and no Connection header closes the client connection |
| `Buffers.PrependFitsReserve` | src/net/buffer.cpp:130-146 | prepending makes the queue longer by its bytes exactly when they fit the reserve |
| `Buffers.ShrinkFitsIff` | src/net/buffer.cpp:160-169 | compaction stays inside the array exactly when the reserve and the readable bytes fit it, which holds when nothing was put into the reserve and whenever `ensure_writable` compacts |
| `Buffers.Buffer.Shrink` | src/net/buffer.cpp:160-169 | compaction keeps the contents, whenever it stays inside the array |
| `Buffers.Buffer.EnsureWritable` | src/net/buffer.cpp:149-158 | afterwards n bytes can be written and the contents are the same; compaction only when it fits |
| `Buffers.Buffer.Append` | src/net/buffer.cpp:116-123 | the bytes join the end of the queue, through growth or compaction |
| `Buffers.Buffer.Consume` | src/net/buffer.cpp:78-88 | the first n bytes leave the queue, or all of it |
| `Buffers.Buffer.Prepend` | src/net/buffer.cpp:144-145 | inside the reserve the bytes join the front of the queue |
| `Buffers.Buffer.ReadFromFd` | src/net/buffer.cpp:26-63 | a read split between the tail and the stack buffer appends its bytes in order |
| `Buffers.Buffer.WriteToFd` | src/net/buffer.cpp:66-75 | what the socket took leaves the front |
| `Timers.PushHeap` | src/timer/timer.cpp:13-14 | the heap order is restored with the same entries |
| `Timers.PopHeap` | src/timer/timer.cpp:59-66 | the earliest entry comes off and the rest is a heap |
| `Timers.Timer.Schedule` | src/timer/timer.cpp:5-33 | one new entry with an unused id |
| `Timers.Timer.Cancel` | src/timer/timer.cpp:35-45 | exactly the entry of this id is flagged, in place |
| `Timers.Timer.Tick` | src/timer/timer.cpp:47-86 | ends, fires each live due entry once in order of deadline and no cancelled one, re-arms periodic entries after now, keeps ids distinct and the heap ordered, leaves nothing due |
| `Timers.Timer.NextTimeoutMs` | src/timer/timer.cpp:88-103 | the time left of the first live entry in array order, -1 exactly when none is live |
| `Timers.NeverUndershoots` | src/timer/timer.cpp:88-103 | the answer is never earlier than the earliest live deadline |
| `Timers.ExactIffFirstLiveAbove` | src/timer/timer.cpp:94-100 | for a pattern of cancelled entries the answer is exact on all heaps if and only if the first live entry is an ancestor of every live one |
| `Timers.LiveRootIsExact` | src/timer/timer.cpp:94-100 | in particular it is exact when the root is live |
| `Timers.RemainingMs` | src/timer/timer.cpp:97-99 | the whole milliseconds left, zero when the deadline has passed |
| `Timers.NotBeforeDeadline` | src/timer/timer.cpp:47-86 | over any series of ticks, schedulings and cancellations an entry does not fire before its deadline |
| `Timers.FiresWhenDue` | src/timer/timer.cpp:47-86 | and a live one fires at the first tick not before it, with its callback, and no other under its id |
| `Timers.PeriodicFiresAgain` | src/timer/timer.cpp:68-79 | a periodic entry that fired does not fire again within one interval, and does at the first tick after, with the same callback and interval, whatever else is scheduled or cancelled |
| `Timers.OneShotIsGone` | src/timer/timer.cpp:68-79 | one that is not periodic never fires again |
| `Timers.CancelledNeverFires` | src/timer/timer.cpp:35-56 | a cancelled entry never fires |
| `Timers.EveryFiveSeconds` | src/timer/timer.cpp:68-79 | a task every 5000 ms that fired at five seconds is due at ten |
| `RateLimit.RateLimitFilter.OnRequest` | src/filter/rate_limit_filter.cpp:16-52 | the update in place admits and pays as the bucket rule says |
| `RateLimit.RateLimitFilter.CleanupExpiredBuckets` | src/filter/rate_limit_filter.cpp:54-68 | the erase loop removes exactly the expired buckets |
| `RateLimit.RateBound` | src/filter/rate_limit_filter.cpp:16-68 | for every key, run and window, admitted requests are at most burst plus rate times the length of the window, without cleanups under any settings, with them when a bucket is full again before it is dropped |
| `RateLimit.ConformingNeverRefused` | src/filter/rate_limit_filter.cpp:16-68 | a client whose requests, between any two of them, are at most burst plus rate times the time is never refused |
| `RateLimit.UnlimitedAdmitted` | src/filter/rate_limit_filter.cpp:17-21 | in any run a request without key, and every request under a rate of zero or less, is admitted |
| `RateLimit.RateBoundIff` | src/filter/rate_limit_filter.cpp:54-68 | with cleanups the bound holds on all runs if and only if a bucket is full again by the time it can be dropped |
| `RateLimit.CleanupUnobservableIff` | src/filter/rate_limit_filter.cpp:54-68 | the same condition decides whether cleanups can never be told from the decisions |
| `RateLimit.TelltaleTells` | src/filter/rate_limit_filter.cpp:54-68 | a concrete run that tells, whenever the condition fails |
| `RateLimit.GatewaySettingsSafe` | src/core/gateway.cpp:379-382 | the idle time the gateway uses is safe for the limits it is started with |
| `Routing.Router.SortRoutes` | src/core/router.cpp:25-37 | the same routes, those with more slashes first and among equals the longer ones |
| `Routing.MatchesIff` | src/core/router.cpp:14-19 | a route matches exactly the paths that are its prefix, or its prefix, a slash and anything |
| `Routing.SegmentsAreWhole` | src/core/router.cpp:14-19 | a path that goes on with any other character does not match: `/api/users` is not under `/api/user` |
| `Routing.Router.Match` | src/core/router.cpp:13-23 | the backends of the first match |
| `Routing.FirstIsLongest` | src/core/router.cpp:13-37 | first match in the sorted table is a longest prefix that the path equals or continues with a slash, and nothing is found only if there is none |
| `Routing.SlashesGrow` | src/core/router.cpp:25-37 | the number of slashes grows with the prefix |
| `Routing.ArrangementIrrelevant` | src/core/router.cpp:25-37 | with distinct prefixes the match does not depend on how the sort arranges equals |
| `Breakers.CircuitBreaker.AllowRequest` | src/proxy/circuit_breaker.cpp:15-41 | admits and moves as the breaker's step says |
| `Breakers.CircuitBreaker.OnSuccess` | src/proxy/circuit_breaker.cpp:45-71 | the success step |
| `Breakers.CircuitBreaker.OnFailure` | src/proxy/circuit_breaker.cpp:73-97 | the failure step |
| `Breakers.CircuitBreaker.ResetBreaker` | src/proxy/circuit_breaker.cpp:130-137 | the reset step |
| `Breakers.CountersTellHistory` | src/proxy/circuit_breaker.cpp:15-137 | after every sequence of events the counters are what the history says: failures in a row, below the threshold while closed, the latest failure while open, admissions and successes of the half-open episode |
| `Breakers.TripsOnThreshold` | src/proxy/circuit_breaker.cpp:73-97 | closed turns to open exactly on the threshold-th failure in a row |
| `Breakers.OnlyFailuresTrip` | src/proxy/circuit_breaker.cpp:15-71 | nothing else opens it, and closed it admits every request |
| `Breakers.OpenAdmitsAfterTimeout` | src/proxy/circuit_breaker.cpp:22-29 | open admits exactly from the reset timeout after the latest failure on |
| `Breakers.OpenOtherwise` | src/proxy/circuit_breaker.cpp:67-97 | success and failure reports leave it open, a failure restarts the timeout, a reset closes it |
| `Breakers.HalfOpenAdmits` | src/proxy/circuit_breaker.cpp:31-37 | half open, it admits exactly while no more than the maximum were admitted in the episode |
| `Breakers.HalfOpenMoves` | src/proxy/circuit_breaker.cpp:45-97 | from every history that ends half open: a failure opens it, a reset closes it, a success closes it exactly at admissions minus one, nothing else moves it |
| `Breakers.HalfOpenFailureShuts` | src/proxy/circuit_breaker.cpp:87-105 | after that failure nothing passes until the reset timeout has run from it |
| `Breakers.ResetStartsOver` | src/proxy/circuit_breaker.cpp:130-137 | a reset closes the breaker from every state and takes the whole threshold of failures to trip again |
| `Breakers.EpisodeBound` | src/proxy/circuit_breaker.cpp:31-37 | a half-open episode admits at most one more than its maximum |
| `Breakers.EpisodeBoundReached` | src/proxy/circuit_breaker.cpp:26-27 | and that many can happen |
| `Breakers.ClosesOneEarly` | src/proxy/circuit_breaker.cpp:56-65 | a success closes the breaker exactly when the successes reach the admissions minus one |
| `Breakers.ClosesAfterAllIff` | src/proxy/circuit_breaker.cpp:56-65 | when it closes, all admitted requests have succeeded if and only if there was just one |
| `Breakers.EarlyCloseHappens` | src/proxy/circuit_breaker.cpp:56-65 | a run that does it: threshold failures, two admitted requests, one success, closed |
| `BackendPools.MakeKeyInjective` | src/proxy/backend_pool.cpp:7-16 | two backends share a key only if they are the same, even if hosts hold colons |
| `BackendPools.ReleasedComesBack` | src/proxy/backend_pool.cpp:70-89 | a connection given back alive waits behind the idle ones and is handed out in its turn, unless the queue is full; release undoes acquire in the count |
| `BackendPools.DropDeadSplits` | src/proxy/backend_pool.cpp:36-46 | what is thrown away in front are dead connections, and the first one left is alive |
| `BackendPools.FreshKeeps` | src/proxy/backend_pool.cpp:112-133 | a cleaned queue has exactly the connections that have not expired, in their order |
| `BackendPools.BackendPool.AcquireIdle` | src/proxy/backend_pool.cpp:31-51 | the first live idle connection is taken, the dead ones before it are dropped, one more is active |
| `BackendPools.BackendPool.GiveUp` | src/proxy/backend_pool.cpp:57-64 | one less is active |
| `BackendPools.BackendPool.Release` | src/proxy/backend_pool.cpp:70-89 | a live connection goes to the end of the idle queue while there is room |
| `BackendPools.BackendPool.CleanupIdle` | src/proxy/backend_pool.cpp:112-133 | rotating each queue once equals an order-preserving filter |
| `BackendPools.StepKeepsInv` | src/proxy/proxy.cpp:142-165 | every phase of every caller, in any interleaving, keeps the accounting |
| `BackendPools.GuardsNeverBite` | src/proxy/backend_pool.cpp:93-108 | the saturating decrements never see zero |
| `BackendPools.EveryRunAccounted` | src/proxy/backend_pool.cpp:31-133 | in every run the active count of a key is the number of threads connecting or holding, no connection is in two places, no queue is over its cap |
| `Logging.NothingLost` | src/logger/async_logger.cpp:57-85 | at every step of every run written, unflushed and current lines make up what was appended, the buffer swapped in is empty, and everything appended before stop is written at the end |
| `LogFiles.LogFile.RollFile` | src/logger/async_logger.cpp:104-130 | close twice, rename over any file of the name, open again; a failing rename or open does not stop it |
| `LogFiles.LogFile.FlushBuf` | src/logger/async_logger.cpp:87-100 | the loop rolls and writes line by line as the rule says |
| `LogFiles.LinesKeptIff` | src/logger/async_logger.cpp:87-130 | all lines can be read back in order if and only if no roll takes a name under which lines lie, decided from names, sizes and what the rolls meet |
| `LogFiles.DistinctStampsKeep` | src/logger/async_logger.cpp:121-127 | in particular when every roll has a second of its own |
| `LogFiles.TwoRollsOneStamp` | src/logger/async_logger.cpp:121-127 | the failing input: two rolls in one second |
| `LogFiles.NeverAheadKept` | src/logger/async_logger.cpp:87-130 | the byte counter may miss what was in the file before, and never counts more than the file holds |
| `LogFiles.AlwaysBoundedIff` | src/logger/async_logger.cpp:91-130 | from any such state and for all lines, no file ever gets more than the roll size plus one byte if and only if none had more to begin with, every line that does not roll finds room behind all that is in the file, and every roll that opens the file again has renamed it, for a line that fits |
| `LogFiles.CountedStaysIff` | src/logger/async_logger.cpp:91-130 | when the counter misses nothing, as on an empty file, what the rolls meet decides alone |
| `LogFiles.RestartOverflows` | src/logger/async_logger.cpp:104-114 | the failing family: a start on a file whose bytes and the first line together pass the roll size |
| `LogFiles.RestartInput` | src/logger/async_logger.cpp:104-114 | a concrete input of that family |
| `LogFiles.FailedRenameOverflows` | src/logger/async_logger.cpp:127-129 | the other failing family: a failed rename with a successful open |
| `LogFiles.ClosedOnceIff` | src/logger/async_logger.cpp:91-130 | a flush rolls, and closes a stream twice, if and only if the buffer does not fit into the current file |
| `Logging.AsyncLogger.Append` | src/logger/async_logger.cpp:23-31 | the append step, with an early wakeup from 1024 lines on |
| `Logging.AsyncLogger.OnePass` | src/logger/async_logger.cpp:58-72 | one pass of the background loop as protocol steps, with lines appended and stop called while it waits or while it writes, and what the protocol calls written flushed to the files |
| `Logging.AsyncLogger.BackendLoop` | src/logger/async_logger.cpp:57-85 | whenever stop comes, before the first pass included: when the thread has ended at least all lines appended before stop have been flushed in order; all flushed lines can be read back if and only if no roll took a used name; the files kept to the roll size if and only if the lines found room and the renames held |
| `Balancing.LoadBalancer.Select` | src/proxy/load_balancer.cpp:28-34 | the position the counter points at; lists of one leave the counter alone, an empty list gives an empty backend |
| `Balancing.HitsAreQuotients` | src/proxy/load_balancer.cpp:57-60 | how often a position is taken, in closed form |
| `Balancing.RoundRobinFair` | src/proxy/load_balancer.cpp:57-60 | over any k selections each position is taken floor(k/n) or ceil(k/n) times, while the counter does not wrap |
| `Balancing.FairForeverIff` | src/proxy/load_balancer.cpp:57-60 | fairness over all runs holds if and only if the length divides 2^64 |

## Left out

- Sockets, epoll, poll, files and clocks are inputs: what a read returns, how much a write takes, whether a file opens, what time it is.
- Bytes are characters of a `string`; `std::string` storage, capacity and allocation failure are not modelled.
- `std::sort`, `std::push_heap` and `std::pop_heap` are written out as one possible implementation; the theorems use only what the library promises.
- Parser.HttpParser.ProcessBody: the branches for a non-positive length and for a body already complete on entry cannot be reached after `finalize_headers` and are not in the model.
- Connections.Connection.OnRead: draining a half-closed socket before it is closed is not modelled, its bytes are thrown away.
- Gateway.StepKeepsInv: a worker's computation is one step with an arbitrary reply; that each request gets exactly one is `RequestPath.RequestHandler.ProcessRequest`.
- RequestPath.RequestHandler.ProcessRequest: the texts of error and internal pages, how the client address is found, the filters that never refuse, and the statistics; one request is processed at a time.
- RequestPath.RequestHandler.GetCircuitBreaker: the unlocked lookup and creation by several threads at once are not modelled.
- Buffers.Buffer.Prepend: contents after the growing branch, and appending a buffer to itself.
- Buffers.Buffer.Shrink: what a compaction that overruns the array does is undefined; `Buffers.ShrinkFitsIff` says when that is.
- EdgeTriggered.StepKeeps: a failing `epoll_ctl` is left out; room for sending is taken to be announced as soon as there is any; responses come only to connections that process a request, as `Gateway.RequestsInOrder` shows.
- Buffers.Buffer.ReadFromFd: failing and empty reads change nothing and are modelled in the connection.
- Timers.Timer.Schedule: ids are unbounded numbers instead of 64-bit ones.
- RateLimit.RateLimitFilter.OnRequest: exact arithmetic in billionths of a token instead of `double`; how the client key is taken from the headers is left out.
- Breakers.CountersTellHistory: counters are unbounded; the lock makes each call one step.
- BackendPools.EveryRunAccounted: `warm_up` is left out, it releases without acquiring.
- LogFiles.ClosedOnceIff: what a second close of a stream does is undefined; the model counts it and goes on as if it did nothing.
- PipelineCuts.EveryCutReturnsIffNoChunks: behind a hidden Content-Length the body may be any bytes, so whether all cuts return there is only given by `StallPoints.StreamCutSpins`.
- Balancing.LoadBalancer.Select: only round robin, which the gateway uses; least connections and random choice are left out.
- Configuration files (`src/core/config_loader.cpp`), health checks, statistics, logging and request-id filters, response formatting, and the demo programs: they would only add easy members, or follow no general law.
