# Fearless: a verified model

Fearless is a web framework whose hot path is native. This project models three parts of it and proves what
they promise:

- **the io_uring worker**: many connections on one loop, pipelined requests served in batches out of fixed
  buffer regions, async handlers that finish on other threads;
- **the AOT compiler**: TypeScript handlers turned into Rust functions that write bytes;
- **the two routers**: the TypeScript and the Rust server, whose tries and caches must choose the same route.

## How the files fit together

| part | files |
|---|---|
| requests and responses on the wire | `Bytes`, `Pipeline` (framing requests), `Decimal`, `Wire` (a client that splits responses), `Replies` (pre-rendered responses) |
| one connection | `Session` (as a value), `Ledger` (its history and invariant), `Resources` and `Connection` (the object, its buffers and collaborators, changed in place) |
| the worker | `Worker` (every step of loop, kernel and tasks), `Counting`, `RingInvariant`, `AsyncInvariant`, `PoolInvariant`, `WorkerInvariant` (kept by every step), `WorkerTheorems` (what follows), `Admissions` and `Departures` (how connections come and why they go), `Answering` (what each request is answered), `Passes` (how far a pass goes), `FirstRequest` (a run that serves one), `Registry` and `EventLoop` (the loop body over the connection objects, in place) |
| the compiler | `Handlers` (expressions and requests), `Escaping` and `Literals` (text inside generated code), `Guards` and `Flatten` (control flow), `JsonText`, `JsonLowering` (bodies), `JsValues` and `Stringify` (against JSON.stringify), `Emission`, `Chains` (responses), `Reading` (what a client sees of a response), `Runtime` (what TypeScript answers), `Compiler` (all of it together), `Coverage` (which handlers compile), `Builders` (every builder by its name, on both sides) |
| the routers | `Paths`, `Trie`, `ParamNames` (which name a capture gets), `Routers`, `Agreement` (both servers over all requests), `Requests` (which route answers a request, from the paths as written), `RouteTables` (the TypeScript objects), `Blueprints` (precomputed responses), `Rendering` (what becomes of templates, and what a client reads) |

Main results, with the member that states each:

- Over every run, the bytes sent on a connection plus the unsent ones are the replies to a prefix of the
  requests its input frames into, one each, in order, whatever way input, sends, batches and async results
  are cut and interleaved (`WorkerTheorems.RepliesInOrder`, `AllAnswered`); a client reads exactly those
  replies back, live or closed (`ClientView`, `ClientHasAll`).
- An accepted connection is opened exactly when a slot is free, and then reads with the whole of its region; with
  none free its descriptor is closed (`Admissions.OpensExactly`, `Opens`, `Refuses`).
- Each request has the reply it asked for, on every connection that is or was: from the request's bytes to the
  status, type and body a client reads (`Answering.RunsAnswer`); a pass leaves requests behind only where it has to
  (`Passes.StepGoesOn`). From start-up, every plaintext request can be served (`FirstRequest.ServesOne`).
- No branch that the code takes only defensively is ever taken, no slot is reused under a pending result, no
  result is lost or delivered to another connection, no submission is refused (`NoFaults`). The comment in
  rust-core/src/uring/accept.rs:87 calls a slot reused before delivery a known race: it cannot happen,
  because a parked connection has no operation in flight and so cannot be removed.
- Every wake-up arrives, and nothing finished is ever stuck, however many other handlers are still running
  (`NoLostWakeUp`, `NothingStuck`). A connection is closed exactly when its operation failed, its closing reply
  has drained, or a request or reply has outgrown its region (`Departures.ClosesExactly`).
- The loop body over the connection objects themselves, sharing one buffer pool, one queue and one bridge,
  takes exactly those steps, so all of this holds of the objects (`EventLoop.WorkerLoop.HandleCqe`).
- What a client sees of a compiled handler's bytes, the generated literals read back by Rust's rules, is the
  reply TypeScript gives, exactly when the source does not return from inside a statement the compiler skips
  and the return it runs to keeps its status, headers and body (`Compiler.CompiledReplyExact`), whatever the
  expressions evaluate to that the compiler does not look at. Each of these has its own exact condition:
  `Flatten.FlattenExact`, `Chains.StatusExact`, `Runtime.HeadersExact`, `Stringify.StringifyExact`, together
  `Runtime.ReplyExact`.
- Each builder and chain call means, compiled and in TypeScript, what its name says, down to the status, header and
  body a client reads (`Builders`); a handler is compiled exactly when it emits something and every emitted return has
  a shape (`Coverage.CompilesWhen`).
- The generated function compiles exactly when its conditions compare what Rust can compare and no text in
  them, and no key, holds a lone carriage return (`Compiler.HandlerCompilesExactly`); if it compiles it writes
  exactly one response (`Compiler.CompiledReplyIsFramed`), which is what the worker asks of its handlers.
- The trie refines the plain list of patterns (`Trie.MatchRefinesList`, `MatchCaptures`, `FailureRestores`);
  every path binds its route's own names exactly for the tables stated (`ParamNames.OwnNamesExactly`,
  `MatchBindsOwnNames`); an app and the Rust server it starts answer every request alike exactly
  when first and last route of every shape are the same (`Agreement.ServersAgree`); the fast paths agree with the
  slow one exactly where stated (`Routers.StaticBytesAgree`, `Blueprints.PrecomputedExact`).
- From the paths as written, with any query: both servers answer a request by the last exact route of its segments,
  else by the route that takes them with the earliest fixed segment, under its own names (`Requests.AppAnswers`,
  `ServerAnswers`).
- A template is rendered by replacing exactly its tokens, at every place of a value
  (`Rendering.RendersCuts`, `RenderedAt`), and a client reads what the blueprint says (`BlueprintSeen`).

## What the model assumes

- The kernel: a Recv returns 1 to `len` bytes or a result of at most 0, a Send takes a non-empty prefix or
  fails, every operation completes once, the multishot accept stays armed while MORE is set and does not
  report MORE with an error, an accepted descriptor is not open already; received bytes are where the Recv asked
  for them when its completion is handled. A read of the eventfd may complete
  with any result, since the loop ignores it. The model allows more orders than the real queues: any queued
  operation may start next and any posted completion may be handled next.
- Handlers are parameters: a function from request bytes to "no match", to bytes, or to "async", and a
  relation saying which bytes an async handler may resolve to. They are never empty (`HandlersReply`); for
  `ClientView` each writes one response (`HandlersFrame`), which compiled ones do. The date of a response
  snapshot is a parameter of each pass.
- Text is UTF-8, split and escaped at ASCII characters only, and `toLowerCase` is taken on ASCII. Reads mean
  what the generated runtime makes of them: a missing key is the empty string, a header is found under any case
  of its name, a query key has one value.
- A statement's return is a number that names it; statements the compiler does not look into, and conditions
  and operands it cannot render, are arbitrary functions of the request.
- Rust reads a string literal as the reference says: CRLF is LF, a lone carriage return is an error, `\\` and
  `\"` are escapes. A condition compares two strings or two numbers of one kind, integers within `i32`.
- A client reads status, header fields by name without regard to case, several lines of one name joined with a
  comma, and the body; `content-length` and `connection` frame the message and are set apart. TypeScript's reply
  is its `Response` seen the same way: pending headers are a record whose keys differ by spelling, the builder's
  own header takes the place of the equally spelled one, a status of 204 or 304 has no body. As in section 5.5
  of the Fetch standard, no response is made with a status outside 200 to 599 or with a body for a 205.
- What the compiler does not look at in a return it accepts is a parameter (`Chains.Env`), an arbitrary function
  of the request: a status argument that is no plain number, `null` or `undefined`, and the parts of `setHeaders`
  without a constant key and text. `text(data)` is the builder of src/types.ts:65.
- A number is the text TypeScript's parser gives its literal, which is the one JavaScript prints for it. JSON.stringify
  writes `0` for minus zero and `null` for the infinities; an object enumerates array indices first, in ascending
  order, then the other keys as first written, each once with its last value, and `__proto__` sets none.

## Where code and comments part

- rust-core/src/uring/connection.rs:501-503 says an async response always closes the connection; the code
  honours the close decision taken when it parked, and so does the model.
- packages/aot-transpiler/src/index.ts:211-212 says an unrenderable condition fails the compilation; the code
  skips the statement. A bare `{ }` block in a statement list is skipped as well, while the same block under
  an `if` is not. `Flatten.SkippedIsLost` shows both, `FlattenExact` says when it matters.
- packages/aot-transpiler/src/emit/extract.ts:438 does not escape template text inside JSON:
  `JsonLowering.QuoteBreaksBody` shows a body no reader gets its value from.
- packages/aot-transpiler/src/index.ts:241-243 and 287-289 escape backslash and quote only, and so does
  emit/rust.ts:101-103. A lone carriage return in an operand or a key stops the generated function from compiling
  (`Flatten.CarriageReturnBreaks`, `Emission.CarriageReturnKeyBreaks`); a CRLF is read as LF
  (`Guards.CrlfReadsLf`); and the re-indentation at index.ts:303 also moves lines inside a key
  (`Emission.IndentedKeyIsLost`). `Literals.KeyKeptExactly` says which keys survive.
- emit/extract.ts:151-154 answers `{}` for `ctx.json()`, TypeScript nothing (`Chains.NothingAsJson`); `-0`, a literal
  too large for a number, and an array index behind another key of an object are written as they stand, which
  JSON.stringify does not (`Stringify.StringifyDiffers`; `StringifyExact` says when bodies agree).
- Of two `.status` calls the compiler keeps the inner one, TypeScript the outer one; a status argument of
  `json` or `html` is ignored, and a redirect takes its status from the chain (`Chains.StatusesLost`); a status
  that depends on the request is lost with all three (`DynamicStatusIsLost`). `StatusExact` says when statuses agree.
- Headers other than the content type are dropped; a content type set for a builder wins in the compiled code
  and loses in TypeScript, or is listed beside the builder's when spelled otherwise; one that starts with
  `redirect:` turns a static response into a redirect; `noContent` has a content type in the compiled
  code only (`Runtime.HeadersLost`; `HeadersExact` says when headers agree).
- The default 500 of a compiled handler says `Connection: close` (`Emission.DefaultSaysClose`), but the worker
  never closes after a handler's reply (`Session.HandlersStayOpen`).
- src/app.ts keeps the first of two param routes with the same shape, rust-core/src/lib.rs the last;
  param names come from the route that created the node, so two routes can share a key
  (`Trie.NamesCollide`), or a route that is kept can answer under the names of one that is not
  (`ParamNames.RenamedIsLost`).
- rust-core/src/lib.rs:631-643 leaves a stale entry in the raw-byte map when a dynamic route replaces a
  static one (`Routers.StaleEntry`), and the cached form of a 204 or 304 still carries its body
  (`Blueprints.NoContentDiffers`).

## Model

| member | source | states |
|---|---|---|
| Pipeline.FindDoubleCrlf | rust-core/src/benchmark/parser.rs:71-84 | The position of the first CRLFCRLF, none exactly when there is none: giving up at a CR too near the end misses nothing. |
| Pipeline.ParsePipeline | rust-core/src/benchmark/parser.rs:51-68 | Classifies the first requests the buffer frames into, as many as fit the output, and consumes exactly their bytes. |
| Pipeline.ClassifyRequest | rust-core/src/benchmark/parser.rs:30-40 | Computes the class that `Answering.Classified` ties to the request's bytes. |
| Pipeline.FramesPartition | rust-core/src/benchmark/parser.rs:51-68 | Frames and leftover put together are the buffer; every frame ends at its own first CRLFCRLF and the leftover holds none. |
| Pipeline.FramesUnique | rust-core/src/benchmark/parser.rs:51-84 | Any cutting of a stream into requests and an incomplete rest is the parser's cutting. |
| Pipeline.FramesResume | rust-core/src/benchmark/parser.rs:51-68 | Parsing a buffer and more input is parsing the buffer and resuming on its leftover. |
| Decimal.WriteDecimal | rust-core/src/aot/runtime.rs:93-110 | Appends the decimal digits of any 64-bit value without leaving its 20-byte buffer. |
| Decimal.DigitsRoundTrip | rust-core/src/aot/runtime.rs:93-110 | The digits read back to the number, and have no leading zero. |
| Decimal.DigitsBound | rust-core/src/aot/runtime.rs:98-99 | A number below a power of ten has at most that many digits. |
| Wire.ClientRecovers | packages/aot-transpiler/src/emit/rust.ts:38-69 | A client cutting a stream at header ends and Content-Length gets exactly the list of responses that was concatenated. |
| Wire.ClientSeesPrefix | rust-core/src/uring/connection.rs:125-134 | Cut short anywhere, the stream shows whole responses only, in order. |
| Wire.MessageIsFramed | packages/aot-transpiler/src/emit/rust.ts:38-46 | A message built from header lines, whose first Content-Length counts the body, is read back whole. |
| Replies.RenderedIsFramed | rust-core/src/benchmark/responses.rs:98-117 | A pre-rendered response is exactly one response, for any one-line status, type and date. |
| Replies.BakedIsFramed | rust-core/src/benchmark/responses.rs:87-96 | All six variants of a snapshot are exactly one response each. |
| Replies.UnavailableIsFramed | rust-core/src/uring/connection.rs:273 | So is the inline 503. |
| Replies.BakedIsSmall | rust-core/src/benchmark/responses.rs:87-96 | No variant comes near the size of a write region. |
| Replies.BakedSaysClose | rust-core/src/benchmark/responses.rs:98-117 | A pre-rendered response announces the close exactly when it is the closing variant. |
| Session.CloseIsAnnounced | rust-core/src/uring/connection.rs:340-347 | Replies the server writes itself announce the close exactly when they are the last on their connection. |
| Session.HandlersStayOpen | rust-core/src/benchmark/parser.rs:30-40 | A handler's reply, inline or async, never ends its connection. |
| Session.BatchServes | rust-core/src/uring/connection.rs:193-349 | A batch serves a prefix of its window, each request with a reply it is owed, never overfills the region, parks only on its first request, and closes exactly after a closing reply. |
| Session.BatchStops | rust-core/src/uring/connection.rs:203-349 | Without a closing reply, a batch leaves a request of its window only if it has to wait for its handler or none of the replies it could get now fits; what comes from the snapshot bears the pass's date. |
| Answering.Classified | rust-core/src/benchmark/parser.rs:30-40 | On the request's bytes: Plaintext exactly for a first line that starts with `GET /plaintext HTTP/1.` and two more bytes, Json likewise, closing exactly when the next byte is a zero, never both. |
| Answering.ReadRendered | rust-core/src/benchmark/responses.rs:98-117 | What a client reads in a pre-rendered response: its status, date, content type and body. |
| Answering.ReadUnavailable | rust-core/src/uring/connection.rs:273 | And in the inline 503. |
| Answering.AnswersAsAsked | rust-core/src/uring/connection.rs:203-338 | For every request: plaintext and json requests get their 200, type and body written out; others what the table says: its bytes, the handler's, the 404, or the 503 without a registry. Exactly the closing ones end the connection, and say so. |
| Answering.RunsAnswer | rust-core/src/uring/connection.rs:101-382 | In every reachable state, on live and closed connections: the k-th reply is the one the k-th request of the input asked for, and only the last may be closing. |
| Passes.PassGoesOn | rust-core/src/uring/connection.rs:167-382 | A pass that serves anything goes on until nothing complete is left, 64 are served, a closing reply is written, or the next has to wait or does not fit. |
| Passes.StepGoesOn | rust-core/src/uring/accept.rs:141-158 | In every reachable state: a completion adds to one history at most, its own connection's, with this pass's date, and stops only there. |
| Ledger.PassTakes | rust-core/src/uring/connection.rs:351-364 | Compaction leaves exactly the bytes behind the requests taken. |
| Ledger.PassSettles | rust-core/src/uring/connection.rs:167-382 | A pass gives up untouched, or leaves the connection settled with exactly the operation its state calls for; nothing is buffered when it parks. |
| Ledger.PassProgress | rust-core/src/uring/connection.rs:182-191 | A pass gives up exactly when a request outgrows the read region or its first reply the write region; otherwise it reads on unchanged with room left or has consumed at least one whole request. |
| Ledger.CompletionSettles | rust-core/src/uring/connection.rs:101-165 | Whatever the kernel answers to the outstanding operation, the history invariant is kept and exactly the next expected operation is submitted. |
| Ledger.DeliverySettles | rust-core/src/uring/connection.rs:504-533 | A delivered response is the one the parked request is owed and keeps the invariant. |
| Resources.FixedBuffers.Register | rust-core/src/uring/buffers.rs:29-42 | The pool starts with every slot free once, lowest index last. |
| Resources.FixedBuffers.Acquire | rust-core/src/uring/buffers.rs:44-52 | Hands out the slot at the end of the free list, inside the storage and no longer free; none exactly when the list is empty. |
| Resources.FixedBuffers.Release | rust-core/src/uring/buffers.rs:54-56 | Appends the slot and keeps the list free of duplicates. |
| Resources.SlotsApart | rust-core/src/uring/buffers.rs:5-8 | Read and write regions of different slots never overlap. |
| Resources.WorkerBridge.Spawn | rust-core/src/runtime/async_bridge.rs:90-97 | A future starts running for a slot; queue and eventfd stay as they are. |
| Resources.WorkerBridge.PushBack | rust-core/src/runtime/async_bridge.rs:98 | A resolved future's bytes go to the back of the queue, its eventfd write still to come. |
| Resources.WorkerBridge.WriteEventfd | rust-core/src/runtime/async_bridge.rs:99-105 | The write raises the counter by one and ends the task. |
| Resources.WorkerBridge.Drain | rust-core/src/runtime/async_bridge.rs:111-114 | Takes everything queued, in order, and leaves nothing. |
| Connections.Connection.constructor | rust-core/src/uring/connection.rs:48-62 | A new connection reads, with both regions empty. |
| Connections.Connection.SubmitRead | rust-core/src/uring/connection.rs:68-81 | Asks for as many bytes as there is room for, refused exactly when the queue is full; the debug assertion is its precondition. |
| Connections.Connection.SubmitWrite | rust-core/src/uring/connection.rs:83-99 | Sends exactly the unsent bytes of the write region, refused exactly when the queue is full. |
| Connections.Connection.Compact | rust-core/src/uring/connection.rs:351-364 | The overlapping move leaves the rest of the read region at its front, and nothing else changed. |
| Connections.Connection.Dispatch | rust-core/src/uring/connection.rs:210-338 | Writes behind the filled part the reply the request is owed, when it has one now and it fits, and touches no other slot. |
| Connections.Connection.TakeAsync | rust-core/src/uring/connection.rs:257-306 | The first request of a batch, being async, parks the connection and spawns one task, or is refused with a closing 503. |
| Connections.Connection.ServeBatch | rust-core/src/uring/connection.rs:203-349 | The loop leaves in the write region the concatenated replies of the specified batch, and counts exactly the bytes of the requests taken. |
| Connections.Connection.ParkForAsync | rust-core/src/uring/connection.rs:491-494 | Parks and remembers the close decision. |
| Connections.Connection.FinishBatch | rust-core/src/uring/connection.rs:351-381 | Drops the consumed bytes, sends what was written, submits nothing when parked. |
| Connections.Connection.ProcessBuffered | rust-core/src/uring/connection.rs:167-382 | New state, submission, task and closed descriptor are those of the specified pass; other slots stay untouched and the state between completions holds. |
| Connections.Connection.HandleCompletion | rust-core/src/uring/connection.rs:101-165 | The same for any completion, with the bytes the kernel moved. |
| Connections.Connection.DeliverAsyncResponse | rust-core/src/uring/connection.rs:504-533 | The same for a delivery, which only a parked connection accepts. |
| RingInvariant.PackUnpack | rust-core/src/uring/accept.rs:28-38 | Unpacking a packed token gives generation and index back. |
| RingInvariant.NeverReserved | rust-core/src/uring/accept.rs:10-16 | No connection token is a reserved one, also after the generation wraps. |
| RingInvariant.DistinctIndices | rust-core/src/uring/accept.rs:28-38 | Equal tokens mean equal index and generation, also after the generation wraps. |
| RingInvariant.OpsBounded | rust-core/src/uring/accept.rs:164-186 | Queued and running operations are at most one per connection and two more. |
| EventLoop.WorkerLoop.Accepted | rust-core/src/uring/accept.rs:108-139 | Registry, pool, generation and queue change exactly as in the accept step, which `Admissions.Opens` and `Refuses` describe: a connection object over a spare slot, or a closed descriptor. |
| EventLoop.WorkerLoop.React | rust-core/src/uring/accept.rs:151-154 | A connection object reacts inside the registry: it stands for its specified next state, and every other object keeps standing for its own, though all share one storage. |
| EventLoop.WorkerLoop.Settle | rust-core/src/uring/accept.rs:155-158 | Only the entry of a connection that is gone leaves the registry, its slot going back to the pool. |
| EventLoop.WorkerLoop.Completed | rust-core/src/uring/accept.rs:141-158 | A connection's completion, including the two stale cases, changes objects and registry exactly as the step system's connection step, unless the submission queue is full, which ends the loop. |
| EventLoop.WorkerLoop.Delivered | rust-core/src/uring/accept.rs:83-102 | So does one delivery; with a full queue the connection is dropped. |
| EventLoop.WorkerLoop.Drain | rust-core/src/uring/accept.rs:77-106 | From any reachable state, delivers everything queued in order, then arms the eventfd read again: a run of the worker. |
| EventLoop.WorkerLoop.HasLanded | rust-core/src/uring/accept.rs:141-154 | In a reachable state, any completion of a connection names its object and moved exactly the bytes its operation asked for. |
| EventLoop.WorkerLoop.HandleCqe | rust-core/src/uring/accept.rs:75-159 | In any reachable state, handling one completion changes the objects exactly as one step of the worker, or for the eventfd as the run that wakes, delivers all and re-arms; the loop never ends, and its invariant holds again. |
| EventLoop.DrainIsRun | rust-core/src/uring/accept.rs:77-106 | One delivery per drained result and the re-arming may happen in that order. |
| Registry.StandsStill | rust-core/src/uring/buffers.rs:5-8 | A connection object keeps its bytes while those of another slot change. |
| PoolInvariant.PoolCount | rust-core/src/uring/buffers.rs:28-57 | Live connections and free slots together are always 1024. |
| PoolInvariant.SlabStaysSmall | rust-core/src/uring/accept.rs:126-129 | Registry indices stay below 1024. |
| WorkerInvariant.StepKeeps | rust-core/src/uring/accept.rs:40-160 | Every step of loop, kernel and tasks keeps the whole invariant. |
| WorkerInvariant.RunKeeps | rust-core/src/uring/accept.rs:64-160 | So does every run. |
| WorkerTheorems.RepliesInOrder | rust-core/src/uring/connection.rs:101-382 | In every reachable state, for live and closed connections, bytes sent and unsent are the replies to the first requests of the input, in order, ending at the first closing one. |
| WorkerTheorems.AllAnswered | rust-core/src/uring/connection.rs:101-165 | A connection waiting for input has answered every request received so far, in full. |
| WorkerTheorems.ClientView | rust-core/src/uring/connection.rs:83-99 | For live and closed connections, and with the bytes of a send the loop has not heard of yet: what a client has read is a prefix of those replies, whole ones. |
| WorkerTheorems.ClientHasAll | rust-core/src/uring/connection.rs:101-165 | While its connection waits for input, a client has read one reply for each complete request it sent, all of them. |
| WorkerTheorems.NoFaults | rust-core/src/uring/accept.rs:82-149 | Stale completions, completions for parked connections, lost, late or misdelivered results, a full queue and a double close never happen. |
| WorkerTheorems.OneObligation | rust-core/src/uring/connection.rs:101-165 | Each live connection has exactly one outstanding operation or, parked, none and exactly one piece of async work. |
| WorkerTheorems.NothingStale | rust-core/src/uring/accept.rs:141-149 | Everything in flight names a live connection of the same generation and is what it expects; every result names the incarnation that asked. |
| WorkerTheorems.Capacity | rust-core/src/uring/accept.rs:164-186 | Queued and running operations stay within 1026, indices and generations within their widths. |
| WorkerTheorems.NothingShared | rust-core/src/uring/buffers.rs:28-57 | Slots are free or held once, regions of two connections are disjoint, every descriptor is open for one owner or closed once. |
| WorkerTheorems.NoLostWakeUp | rust-core/src/runtime/async_bridge.rs:90-114 | While a result is queued the eventfd is readable, its completion is pending or its write is still to come, and exactly one read is armed or pending. |
| WorkerTheorems.NothingStuck | rust-core/src/runtime/async_bridge.rs:90-114 | When nothing is left to do but input, new connections and handlers that may resolve any time, no result is queued and each parked connection's own handler is still running. |
| Admissions.OpensExactly | rust-core/src/uring/accept.rs:108-139 | In every reachable state, of all steps exactly the handling of an accept completion with a descriptor and a free slot adds a connection, under the slab's vacant index. |
| Admissions.Opens | rust-core/src/uring/accept.rs:114-139 | It has that descriptor, an empty history, a slot that left the pool and a generation of its own; a Recv of all 16384 bytes is queued under its token, the accept again if it is over, and nothing else changes. |
| Admissions.Refuses | rust-core/src/uring/accept.rs:108-139 | The descriptor is closed exactly when no slot is free; then all 1024 are taken and nothing else changes. |
| FirstRequest.ServesOne | rust-core/src/uring/accept.rs:108-158 | There is a run from start-up, for every descriptor, date and plaintext request that fits the region, that accepts the client, reads the request, sends the reply a client reads as `Hello, World!`, and waits for the next. |
| Departures.CompletionCloses | rust-core/src/uring/connection.rs:101-382 | A completion closes its connection exactly when the operation failed, the reply just drained was the closing one, or what is buffered has outgrown its region. |
| Departures.ClosesExactly | rust-core/src/uring/accept.rs:83-158 | In every reachable state, a step closes a connection exactly for one of these causes, or because a delivered response outgrows its write region. |
| Escaping.WriteJsonString | rust-core/src/aot/runtime.rs:46-71 | Appends the escaped string. |
| Escaping.JsonStringRoundTrip | rust-core/src/aot/runtime.rs:46-71 | A reader following section 7 of RFC 8259 gets every byte string back and stops at the closing quote. |
| Escaping.JsonEscapeIsClean | rust-core/src/aot/runtime.rs:46-71 | The output has no bare quote and no control byte. |
| Escaping.EscapeIsShortest | rust-core/src/aot/runtime.rs:46-71 | No text a reader takes for the byte is shorter than its escape, and none without capital digits is as short but different. |
| Escaping.WriteUrlEncoded | rust-core/src/aot/runtime.rs:75-89 | Appends the percent-encoded string. |
| Escaping.UrlRoundTrip | rust-core/src/aot/runtime.rs:75-89 | Percent-decoding undoes it. |
| Escaping.UrlEscapeIsPlain | rust-core/src/aot/runtime.rs:75-89 | Its output holds unreserved characters and percent signs only. |
| Escaping.UrlKeepsExactly | rust-core/src/aot/runtime.rs:75-89 | Exactly letters, digits and `-_.~` stay bare; every other byte is a percent sign and its two capital digits. |
| Escaping.EscapeRustByteString | packages/aot-transpiler/src/emit/escape.ts:7-29 | Builds the escaped literal. |
| Escaping.RustLiteralRoundTrip | packages/aot-transpiler/src/emit/escape.ts:7-29 | A byte-string lexer gets every byte array back. |
| Escaping.RustLiteralIsPrintable | packages/aot-transpiler/src/emit/escape.ts:7-29 | The literal is printable ASCII. |
| Escaping.QuotedReads | packages/aot-transpiler/src/index.ts:241-243 | What Rust reads of a quoted operand or key, whatever it holds: itself with CRLF as LF, or nothing when it holds a lone carriage return. |
| Escaping.QuotedStringRoundTrip | packages/aot-transpiler/src/emit/rust.ts:101-103 | It is read back unchanged exactly when it holds no carriage return. |
| Literals.ReindentEscaped | packages/aot-transpiler/src/index.ts:303 | Re-indenting an escaped text is escaping the re-indented one. |
| Literals.KeyReads | packages/aot-transpiler/src/index.ts:303-305 | A key, under a guard or not, is legal exactly without a lone carriage return, and then reads as itself but for line ends and indentation. |
| Literals.KeyKeptExactly | packages/aot-transpiler/src/index.ts:303-305 | It is looked up under its own name exactly when it holds no carriage return and, under a guard, no line that starts with four spaces. |
| Literals.ByteLiteralStays | packages/aot-transpiler/src/index.ts:303-305 | Re-indentation leaves byte-string literals alone. |
| Handlers.ReadIsAccess | packages/aot-transpiler/src/emit/extract.ts:371-415 | An access is recognised exactly when it reaches a string of the request, fields of `ctx` are taken by dot and keys are literals; it reads that string. |
| Handlers.FieldsByName | packages/aot-transpiler/src/emit/extract.ts:371-415 | `ctx.method`, `ctx.path`, `ctx.url` and `ctx.ip` are the request's own. |
| Handlers.KeysByName | packages/aot-transpiler/src/emit/extract.ts:371-415 | Keys of `ctx.params`, `ctx.query` and `ctx.headers` are looked up there, header names in any case. |
| Handlers.ElementOfCtx | packages/aot-transpiler/src/emit/extract.ts:371-415 | `ctx["path"]` reaches a string and is not recognised. |
| Guards.PrintReads | packages/aot-transpiler/src/index.ts:169-203 | The Rust grammar, literals included, reads every guard back as the expression it was made from, CRLF as LF, and reads nothing exactly when a text holds a lone carriage return: no parenthesis is missing. |
| Guards.RenderKeeps | packages/aot-transpiler/src/index.ts:214-239 | A rendered condition is printed as a guard, typed exactly when it compares two strings or two numbers of one kind, and true exactly when the source condition is. |
| Guards.ConditionKeepsMeaning | packages/aot-transpiler/src/index.ts:214-239 | Its text parses exactly when none of its texts holds a lone carriage return, and is then the condition with CRLF read as LF; the very condition where there is no carriage return. |
| Coverage.RenderedExactly | packages/aot-transpiler/src/index.ts:214-239 | A condition is rendered exactly when all it joins are comparisons of texts, numbers and reads of the request. |
| Guards.CrlfReadsLf | packages/aot-transpiler/src/index.ts:241-243 | A condition with a CRLF compiles and is false of a request it should hold of. |
| Flatten.WalkStatementsInto | packages/aot-transpiler/src/index.ts:156-181 | Pushes exactly the guarded blocks of a statement list, guards as text. |
| Flatten.WalkBranchInto | packages/aot-transpiler/src/index.ts:183-204 | The same for a branch. |
| Flatten.WalkIf | packages/aot-transpiler/src/index.ts:168-177 | The guard texts built for the two sides are the conjunction with the condition and with its negation. |
| Flatten.EmitFunctionBody | packages/aot-transpiler/src/index.ts:292-310 | Lines in block order, ended by the first unguarded block or the default 500. |
| Flatten.TranspileBody | packages/aot-transpiler/src/index.ts:70-99 | Compiles a body to those lines, or gives up exactly when no return is recognised. |
| Flatten.EmitKeeps | packages/aot-transpiler/src/index.ts:292-310 | The generated control flow compiles exactly when every emitted guard is typed and legible, and answers with the first block whose guard, as Rust reads it, holds, else with the default. |
| Flatten.CompilesExactly | packages/aot-transpiler/src/index.ts:156-310 | For every body, it compiles exactly when each rendered condition above an emitted return compares what Rust can compare and holds no lone carriage return. |
| Flatten.WalkKeeps | packages/aot-transpiler/src/index.ts:156-204 | First match over the blocks is the run of the statements the walk looks into, under the guard. |
| Flatten.FlattenExact | packages/aot-transpiler/src/index.ts:156-204 | For every body whose conditions Rust can compare and read unchanged, and every request, source and generated function answer with the same return exactly when the source does not return from inside a skipped statement. |
| Flatten.FlattenKeepsMeaning | packages/aot-transpiler/src/index.ts:156-204 | Where nothing is skipped they answer alike for every request, fall-through being the default 500. |
| Flatten.SkippedIsLost | packages/aot-transpiler/src/index.ts:168-180 | A skipped condition and a bare block each change a handler's answer. |
| Flatten.CarriageReturnBreaks | packages/aot-transpiler/src/index.ts:241-243 | A handler comparing with a carriage return is rendered, and does not compile. |
| JsonText.JsonRoundTrip | packages/aot-transpiler/src/emit/extract.ts:239-281 | A JSON reader recovers every value from its text. |
| JsonLowering.RenderJsonValue | packages/aot-transpiler/src/emit/extract.ts:306-364 | Pushes exactly the specified chunks, or reports an expression it does not take. |
| JsonLowering.RenderTemplateChunks | packages/aot-transpiler/src/emit/extract.ts:417-436 | The chunks of a template, none when a slot is no request read. |
| JsonLowering.ValueWritten | packages/aot-transpiler/src/emit/extract.ts:306-364 | Lowering takes exactly the expressions that have a value; what it writes is the text of the members and numbers as written, or shorter when an escape is missing. |
| JsonLowering.LoweringExact | packages/aot-transpiler/src/emit/extract.ts:306-440 | The body is that text exactly when no template needs an escape. |
| JsonLowering.ClientReadsValue | packages/aot-transpiler/src/emit/extract.ts:294-304 | A client parses such a body back to the value. |
| JsonLowering.LiteralIsStructural | packages/aot-transpiler/src/emit/extract.ts:239-281 | Where the literal path succeeds it gives the bytes the structural path writes. |
| JsonLowering.QuoteBreaksBody | packages/aot-transpiler/src/emit/extract.ts:438-440 | A template with a quote yields a body that does not read back as its value. |
| JsonLowering.TextTemplateWritten | packages/aot-transpiler/src/emit/extract.ts:166-186 | A text template writes its value, whatever it holds. |
| JsValues.BuiltInOrder | packages/aot-transpiler/src/emit/extract.ts:258-270 | An object never enumerates its keys out of order, and has no members but those written. |
| JsValues.BuiltExactly | packages/aot-transpiler/src/emit/extract.ts:258-270 | It has the members of its literal, in that order, exactly when their keys are distinct, indices come first and ascend, and none is `__proto__`. |
| Stringify.HalfMatches | packages/aot-transpiler/src/emit/extract.ts:417-440 | A string of which only some bytes are escaped parts from the string it should be at its first missing escape, whatever follows, and is that string otherwise. |
| Stringify.PropsMatch | packages/aot-transpiler/src/emit/extract.ts:337-350 | Members as written part from the members of the object at the first key that is out of order or the first value with a fault, and are those members otherwise. |
| Stringify.BodyMatches | packages/aot-transpiler/src/emit/extract.ts:306-364 | For every expression without two equal keys in one literal, folded into a literal or not: what is written is what JSON.stringify writes where there is no fault, and parts from it otherwise. |
| Stringify.StringifyExact | packages/aot-transpiler/src/emit/extract.ts:239-440 | The emitted body is what JSON.stringify writes exactly when no template needs an escape, no number is minus zero or infinite, and keys stand as an object enumerates them. |
| Stringify.StringifyDiffers | packages/aot-transpiler/src/emit/extract.ts:239-281 | Minus zero, an infinite number, and an index behind another key. |
| Emission.EmitStatic | packages/aot-transpiler/src/emit/rust.ts:16-46 | One byte-string literal of the whole response, redirect or not. |
| Emission.EmitDynamic | packages/aot-transpiler/src/emit/rust.ts:48-69 | Code that builds the body, then writes head, computed length and body. |
| Emission.EmitResponseBody | packages/aot-transpiler/src/emit/rust.ts:9-14 | The code of a shape, for every shape. |
| Emission.CodeLegalExactly | packages/aot-transpiler/src/emit/rust.ts:71-103 | That code, under a guard or not, is legal Rust exactly when no key holds a lone carriage return. |
| Emission.CodeWrites | packages/aot-transpiler/src/emit/rust.ts:9-69 | Running it, its literals lexed back, appends exactly the shape's response with its keys as Rust reads them, for every request and whatever was written before. |
| Emission.KeptIsReread | packages/aot-transpiler/src/emit/rust.ts:71-103 | Keys that survive leave the shape as it is. |
| Emission.IndentedKeyIsLost | packages/aot-transpiler/src/index.ts:303-305 | Under a guard, a key with an indented line in it is looked up under another name: the value is lost where the request has one, and nothing differs where it has none. |
| Emission.CarriageReturnKeyBreaks | packages/aot-transpiler/src/emit/rust.ts:101-103 | Code that reads a key with a carriage return is not legal. |
| Emission.ResponseIsFramed | packages/aot-transpiler/src/emit/rust.ts:16-69 | That response is one response for a client, for header text free of CR and LF. |
| Emission.ClientTakesApart | packages/aot-transpiler/src/emit/rust.ts:9-69 | A client recovers the exact list of responses that compiled handlers wrote one after the other. |
| Emission.ResponseStaysOpen | packages/aot-transpiler/src/emit/rust.ts:16-69 | No compiled response announces a close. |
| Emission.DefaultIsFramed | packages/aot-transpiler/src/index.ts:308 | So is the default 500. |
| Emission.DefaultSaysClose | packages/aot-transpiler/src/index.ts:308 | The default 500 announces a close. |
| Chains.UnwrapCtxChain | packages/aot-transpiler/src/emit/extract.ts:57-136 | The cursor loop keeps the innermost status and content type, and takes exactly the chains rooted at `ctx`. |
| Chains.ExtractResponseShape | packages/aot-transpiler/src/emit/extract.ts:12-45 | Computes the shape that `Builders` ties, name by name, to what a client reads. |
| Chains.StatusExact | packages/aot-transpiler/src/emit/extract.ts:22-232 | For every builder, chain, argument list and request, and whatever the argument evaluates to, the compiled status is the one TypeScript answers with exactly when a response can be made with it, a given argument is what the chain kept (json, html) or a plain number or the fallback (redirect), and without one the ends of the chain agree and a redirect takes none from it. |
| Chains.StatusesLost | src/ctx.ts:210-290 | A status argument of json, a status call before a redirect, and two status calls each lose a status. |
| Chains.DynamicStatusIsLost | src/ctx.ts:228-262 | A status that depends on the request is lost with json and with redirect. |
| Chains.BodyExact | packages/aot-transpiler/src/emit/extract.ts:138-232 | The emitted body is the one TypeScript hands over exactly when a json builder has data without a fault. |
| Chains.NothingAsJson | packages/aot-transpiler/src/emit/extract.ts:146-155 | `ctx.json()` answers an empty object where TypeScript answers nothing. |
| Chains.ReturnExact | packages/aot-transpiler/src/emit/extract.ts:12-232 | Status and body of a whole return expression, each kept exactly under its condition. |
| Builders.TextSeen | packages/aot-transpiler/src/emit/extract.ts:166-186 | `ctx.text(t)` is compiled exactly with a text or nothing, and read as status 200, `text/plain; charset=utf-8` and that text. |
| Builders.HtmlSeen | packages/aot-transpiler/src/emit/extract.ts:188-197 | `ctx.html(t)` likewise, as `text/html; charset=utf-8`. |
| Builders.NotFoundSeen | packages/aot-transpiler/src/emit/extract.ts:199-209 | `ctx.notFound(t)` likewise, with status 404 and `Not Found` for want of a text. |
| Builders.NoContentSeen | packages/aot-transpiler/src/emit/extract.ts:31-32 | `ctx.noContent()` is read as 204 with `text/plain` and no body. |
| Builders.RedirectSeen | packages/aot-transpiler/src/emit/extract.ts:211-237 | `ctx.redirect(url, n)` is compiled exactly with a plain url, and read as n or 302 with that location. |
| Builders.JsonOfNothingSeen | packages/aot-transpiler/src/emit/extract.ts:150-154 | `ctx.json()` is read as 200, `application/json` and `{}`. |
| Builders.JsonSeen | packages/aot-transpiler/src/emit/extract.ts:142-164 | `ctx.json(data)` is compiled exactly with data of a value, and read as the value's text exactly where no template needs an escape. |
| Builders.OnlyThese | packages/aot-transpiler/src/emit/extract.ts:24-44 | No other name is compiled. |
| Builders.TextReplied | src/types.ts:65 | TypeScript's own `text`: status 200, `text/plain; charset=utf-8` and the text. |
| Builders.HtmlReplied | src/ctx.ts:237-242 | Its `html`. |
| Builders.NotFoundReplied | src/ctx.ts:259-264 | Its `notFound`. |
| Builders.NoContentReplied | src/ctx.ts:266-271 | Its `noContent`, without a content type. |
| Builders.RedirectReplied | src/ctx.ts:252-257 | Its `redirect`. |
| Builders.JsonReplied | src/ctx.ts:229-235 | Its `json`, and that of nothing. |
| Builders.StatusSet | src/ctx.ts:210-213 | `ctx.status(n)` in front of a text gives both sides the status n, the digits its number starts with; TypeScript has no reply outside 200 to 599 or for 205, and no body for 204 and 304. |
| Builders.FirstStatusWins | packages/aot-transpiler/src/emit/extract.ts:76-131 | Of two status calls the compiled response takes the first written, TypeScript the second. |
| Builders.FirstTypeWins | packages/aot-transpiler/src/emit/extract.ts:76-131 | Of two content types, however spelled, the compiled response takes the first written. |
| Builders.OnlyOnCtx | packages/aot-transpiler/src/emit/extract.ts:124-127 | Every chain the compiler takes starts at `ctx`. |
| Builders.HeaderSet | src/ctx.ts:215-225 | `ctx.header(k, v)` and `ctx.setHeaders({ k: v })`: compiled, a content type replaces the builder's and anything else is dropped; TypeScript sends both, its own in place of an equally spelled one. |
| Reading.HeadReads | packages/aot-transpiler/src/emit/rust.ts:38-46 | A client reads the lines of a written head back, and the body behind them. |
| Runtime.ResponseSeen | packages/aot-transpiler/src/emit/rust.ts:9-69 | What a client reads in an emitted response: its shape's status, one header, and body. |
| Runtime.DefaultSeen | packages/aot-transpiler/src/index.ts:308 | And in the default response. |
| Runtime.HeadersExact | src/ctx.ts:210-290 | For every builder, chain and request, the compiled headers are TypeScript's exactly when nothing is pending but what the builder's own header replaces, or the value the compiler kept lists all pending ones already. |
| Runtime.KeptWasReplaced | src/ctx.ts:210-284 | The second case needs a value that a later call of the same spelling has replaced. |
| Runtime.HeadersLost | src/ctx.ts:210-290 | A content type set for json, any other header, and noContent by itself each change the headers. |
| Runtime.EmptyAlike | packages/aot-transpiler/src/emit/extract.ts:138-232 | The emitted body is empty exactly when the intended one is and a json builder has data. |
| Runtime.ReplyExact | packages/aot-transpiler/src/emit/extract.ts:12-232 | For every return expression the compiler takes, every request and whatever it does not look at, a client sees the reply TypeScript gives exactly when status, headers and body are each kept. |
| Compiler.TranspileHandler | packages/aot-transpiler/src/index.ts:33-108 | Flattens, extracts and emits: the lines of the generated function with their code, or nothing when an emitted return has no shape. |
| Coverage.GeneratedHas | packages/aot-transpiler/src/index.ts:156-310 | The generated function holds exactly the returns outside skipped statements and before the first that always runs. |
| Coverage.CompilesWhen | packages/aot-transpiler/src/index.ts:70-99 | A handler is compiled exactly when something is emitted and every emitted return has a shape. |
| Compiler.HandlerCompilesExactly | packages/aot-transpiler/src/index.ts:33-108 | The generated function compiles exactly when its conditions fit and no emitted key holds a lone carriage return. |
| Compiler.FnWrites | packages/aot-transpiler/src/index.ts:292-310 | Running it writes the response of the return its control flow stops at. |
| Compiler.CompiledReplyIsFramed | packages/aot-transpiler/src/index.ts:33-108 | If it compiles, a run of the emitted code writes exactly one non-empty response for every request. |
| Compiler.HandlerSeen | packages/aot-transpiler/src/index.ts:33-108 | For every handler that compiles, a client reads status, header and body of the return its control flow stops at, conditions and keys as Rust reads them. |
| Compiler.CompiledReplyExact | packages/aot-transpiler/src/index.ts:33-108 | Where conditions and keys are read unchanged, what a client reads in the bytes the emitted code writes is what TypeScript answers, from the handler's own statements and return expressions, exactly when nothing skipped returns and the return it runs to is kept; the replies of skipped returns are assumed to differ from compiled ones. |
| Paths.NormalizePath | src/path.ts:1-31 | Computes the normal form that `Paths.NormalKeepsText` and `QueryMakesNoDifference` fix. |
| Paths.NormalizePathRust | rust-core/src/lib.rs:1535-1565 | The same normal form, computed in another order. |
| Paths.NormalIsFixed | src/path.ts:1-31 | Exactly the paths in normal form are left alone, so normalizing is idempotent. |
| Paths.QueryMakesNoDifference | src/path.ts:6-7 | For a path without a question mark, appending one and anything leaves the normal form as it is. |
| Paths.NormalKeepsText | src/path.ts:1-31 | A path without a query is its normal form but for one slash put in front and slashes taken off the end. |
| Paths.NormalKeepsSegments | rust-core/src/lib.rs:1512-1565 | It has the segments of its normal form; where slashes stand alone both servers see exactly them. |
| Paths.SegmentsTell | src/path.ts:1-31 | Two such paths are one to the servers exactly when their segments are the same. |
| Paths.SplitsAgree | rust-core/src/lib.rs:1512-1526 | Both servers cut a path into the same segments exactly when none is empty. |
| Paths.CompilePath | src/app.ts:129-150 | The normalized path, its parts, and whether one is a hole. |
| Paths.ParamsSeenAlike | rust-core/src/lib.rs:1529-1532 | Looking for a colon anywhere finds the same param routes, where colons stand at segment starts. |
| Paths.PathOfSegments | src/path.ts:1-31 | Whole segments joined are a normal path that is cut into them again. |
| Trie.InsertAt | rust-core/src/lib.rs:808-831 | Inserting changes what is stored under the pattern's shape, by the policy, and under no other shape. |
| Trie.BuildHolds | src/app.ts:446-484 | A trie holds for every shape exactly the first, or last, registered route of that shape. |
| Trie.ChosenIsFirst | src/app.ts:579-620 | No stored shape that fits comes before the chosen one, static before param. |
| Trie.MatchRefinesList | src/app.ts:579-620 | Matching succeeds exactly when some registered pattern fits, and returns the lexicographically first one's route. |
| Trie.FailureCleansUp | src/app.ts:618-619 | A failed match removes exactly the keys it has been through. |
| Trie.FailureRestores | src/app.ts:618-619 | It leaves the map as it was exactly when none of those keys was in it. |
| Trie.MatchCaptures | src/app.ts:600-617 | With keys distinct along each path, a match binds one value per hole of the chosen shape under the trie's key, a failed one nothing. |
| Trie.NamesCollide | src/app.ts:469-476 | Two routes with distinct names each can share a key and lose a capture. |
| ParamNames.InsertKey | src/app.ts:469-479 | Inserting names a param child once, after the first route through it, and never renames it. |
| ParamNames.KeyIsFirstName | src/app.ts:469-479 | The key of a param child is the name the first route through it gave, whichever route of a shape is kept. |
| ParamNames.DistinctIsApart | src/app.ts:579-620 | Keys distinct along the trie's paths are distinct along every path a match explores. |
| ParamNames.OwnNamesExactly | src/app.ts:446-620 | For every table, whatever path and decoder, each chosen route sees one value per hole under its own name exactly when every route that can be chosen has distinct names and the first route through each of its holes gave it that name. |
| ParamNames.MatchBindsOwnNames | src/app.ts:579-620 | For every such table, a match returns the first fitting route with exactly its own names bound to the path's segments, and nothing otherwise. |
| ParamNames.RenamedIsLost | rust-core/src/lib.rs:808-831 | Keeping the last route and the first route's names, `/:a` then `/:b` answers under `a`. |
| ParamNames.PoliciesMatchAlike | src/app.ts:579-620 | Where first and last route of every shape are the same, both policies match every path alike, captures included. |
| Trie.PoliciesAgreeExactly | rust-core/src/lib.rs:808-812 | First-wins and last-wins give every path the same route exactly when the first and last route of every shape are the same. |
| Trie.SameShapeDiffers | rust-core/src/lib.rs:808-812 | Two routes of one shape are chosen differently. |
| Routers.BuildFromManifest | rust-core/src/lib.rs:613-646 | The loop over the manifest fills the three maps as specified. |
| Routers.TablesHold | src/app.ts:486-496 | Both servers have the same exact routes, and tries over the same registrations. |
| Agreement.RoutersAgree | src/app.ts:525-558 | Over one list of routes both servers choose the same route, captures and body suppression for every method and path, exactly when of the routes of one method and shape the first and the last are the same. |
| Agreement.ProbeTells | rust-core/src/lib.rs:707-753 | For each shape there is a request that both servers answer from its own routes, by which they are told apart. |
| Agreement.ApartIsAlike | rust-core/src/lib.rs:808-812 | Distinct shapes are enough. |
| Routers.CreateRustManifest | src/app.ts:1034-1061 | The manifest lists the template routes in order, under their normal paths. |
| Agreement.ServersAgree | src/app.ts:525-558 | An app and the Rust server started from its manifest answer every request alike exactly under that condition on the app's routes, for clean patterns and paths. |
| Routers.ManifestHolds | src/app.ts:1034-1061 | The manifest is exactly the template routes, in their order, each under its normal path. |
| Requests.ExactHolds | src/app.ts:486-496 | The exact routes of a method are the last ones registered for their segments. |
| Requests.ParamAnswers | src/app.ts:579-620 | A method's trie answers with the route that takes the segments and has a fixed one where others first have a hole, the first or last of equal ones; its captures are the segments under the texts behind its colons, where it owns its names. |
| Requests.AppAnswers | src/app.ts:525-558 | For every list of routes without doubled slashes, any request path and any query: exact before param, HEAD by GET's routes where it has none and without a body, else nothing. |
| Requests.ServerAnswers | rust-core/src/lib.rs:707-753 | The Rust server likewise, with the last of equal routes, and preflights where CORS is on. |
| Requests.StaticAnswers | rust-core/src/lib.rs:755-767 | A static lookup hits exactly for a GET in normal form whose last exact route is static. |
| Requests.SegmentsOfPath | src/path.ts:1-31 | Segments are what stands between slashes. |
| Routers.ManifestIsCoherent | rust-core/src/lib.rs:631-643 | Every raw-byte entry is a static route with an exact route at its path; every static exact route has its entry. |
| Routers.StaticLookupAgrees | rust-core/src/lib.rs:755-767 | A hit is what the slow path finds. |
| Routers.StaticBytesAgree | rust-core/src/lib.rs:769-784 | A hit is what the slow path finds exactly when the path's current route is static itself. |
| Routers.StaleEntry | rust-core/src/lib.rs:631-643 | A static route replaced by a dynamic one still answers. |
| Routers.StaticBytesComplete | rust-core/src/lib.rs:769-784 | No normal path of a static route misses. |
| RouteTables.InsertRoute | src/app.ts:446-484 | Walking and extending the linked tables inserts the route into the trie they stand for, and into no other. |
| RouteTables.MatchRouteTable | src/app.ts:579-620 | Route and final params map are those of matching the trie. |
| RouteTables.App.AddRoute | src/app.ts:486-496 | The tables become those of the specification. |
| RouteTables.App.FindRoute | src/app.ts:525-558 | The route found is that of the specification, HEAD falling back to GET. |
| Blueprints.RenderTemplateString | rust-core/src/lib.rs:1734-1758 | The loop renders every complete token from left to right. |
| Blueprints.TextFixedExactly | rust-core/src/lib.rs:1734-1758 | No request changes a text exactly when it holds no complete token. |
| Blueprints.NoTemplateIsFixed | rust-core/src/lib.rs:1141-1148 | Rendering is the identity on a value without template openings, for every request; `Rendering.ValueFixedExactly` has the exact condition. |
| Rendering.RendersCuts | rust-core/src/lib.rs:1734-1758 | A text written as pieces, tokens in braces and a tail without a complete token renders to the pieces, the tokens' values and the tail. |
| Rendering.CutsOf | rust-core/src/lib.rs:1734-1758 | Every text can be written so. |
| Rendering.RenderedAt | rust-core/src/lib.rs:1712-1732 | At every place of a rendered value: a string is what rendering gives for the one there; kinds, lengths, keys and everything else are kept. |
| Rendering.ValueFixedExactly | rust-core/src/lib.rs:1712-1758 | No request changes a value exactly when no string in it holds a complete token. |
| Rendering.PrecomputedWhen | rust-core/src/lib.rs:1127-1148 | A response is computed ahead exactly when no string of its body and no header value holds an opening. |
| Blueprints.PrecomputedExact | rust-core/src/lib.rs:894-958 | The cached bytes are the rendered ones, for every request, exactly when the status allows a body or there is none. |
| Blueprints.NoContentDiffers | rust-core/src/lib.rs:894-958 | A cached 204 with a body differs from the rendered one. |
| Blueprints.BlueprintIsFramed | rust-core/src/lib.rs:1021-1063 | A rendered response is one response for a client. |
| Rendering.ResponseRead | rust-core/src/lib.rs:1021-1063 | A client reads the status, the server's own headers, the configured ones and the content type, and the body. |
| Rendering.BlueprintSeen | rust-core/src/lib.rs:1065-1098 | For every blueprint whose headers fit: status, type of its kind and rendered body, a JSON one parsed back to the value; none for 204, 304 or HEAD; a close announced exactly when asked for. |
| Rendering.PhrasesAgree | rust-core/src/lib.rs:992-1010 | Blueprints and compiled handlers write the same reason phrase exactly for the statuses stated. |

## Left out

- Requests.AppAnswers: paths with doubled slashes, which the two servers cut differently (`Paths.SplitsAgree`), are left to `Agreement` and `RouteTables`; where a route does not own its names, see `ParamNames`.
- Rendering.BlueprintSeen: configured headers with a line break or a colon in the name, or that set the length themselves, are not read back.
- EventLoop.WorkerLoop.HandleCqe: one completion at a time; the outer loop that waits for the next batch, and the slab's choice of a vacant index, are the caller's.
- Connections.Connection.Dispatch: table lookup, header and query parsing inside the AOT dispatch are one function of the request bytes, and the scratch buffer is not modelled.
- Guards.RenderKeeps: Rust's lints on literals (bidirectional control characters) and JavaScript's loose equality between a string and a number, which never compiles, are not modelled.
- Stringify.StringifyExact: two equal keys in one object literal, which TypeScript's checker refuses (error 1117), are judged only where no template needs an escape and all numbers are finite.
- Runtime.ReplyExact: what the `Headers` class refuses or trims, a header named `__proto__`, and how the app answers when the response constructor throws are not compared.
- Compiler.CompiledReplyExact: handlers with a carriage return in a condition or a changed key are described by `Compiler.HandlerSeen` only, since a changed key need not show in the reply.
- Handlers.ReadIsAccess: in src/ctx.ts a missing key and a header key not in lower case read as `undefined`, and a repeated query key as an array.
- Trie.MatchCaptures: the params map is a plain map; in JavaScript a param named `__proto__` on `{}` loses its capture.
- Agreement.RoutersAgree: raw segments are compared under one decoding function; the two servers' percent-decoders differ.
- Trie.InsertAt: the Rust trie is a value, since its boxes are owned and never shared; only the TypeScript tables are modelled as linked objects.
- Blueprints.RenderTemplateString: trimming a token and looking it up are one function of the token's text.
- Sockets, io_uring system calls, CPU pinning, TLS, start-up and shutdown: foreign calls.
- Async handler emission, SQL collection, the Postgres pool and the tokio scheduler: an async handler is whatever bytes it may resolve to.
- Request bodies: requests end at the blank line, as in the code.
- CORS and security headers, hooks, request contexts, benchmark manifests and the blocking connection loops: straight-line code that would add easy members.
- `escapeJsonString` in packages/aot-transpiler/src/emit/escape.ts: the emitters modelled here do not call it.
- Refresh of dates: the snapshot of each pass is a parameter.
