# cmdsrv core in Dafny

cmdsrv is a command-message router. Transports deliver `(sid, Request)`
pairs. For each message the router builds a `Context` whose `Response`
starts as "unsupported" (`Code -1`, `Msg "unsupport cmd"`, empty-struct
`Data`). It then drives the chain `middleware ++ routes[cmd]`, or
`middleware ++ [RouteNotFound]` for an unknown command. Each handler may
call `Next`, `Abort`, write the response or panic. The response is pushed
back unless the command is one of the three lifecycle commands. Around this
engine the model covers:

- the group registration API;
- the `Recover` and `internalPanicHandler` middleware;
- per-session state in a TTL cache;
- the heartbeat sweep;
- the TCP transport's length-prefix framer;
- the server-sent-events frame builder;
- the JavaScript SDK's event emitter.

Modules, following the source files:

| module | file | models |
|---|---|---|
| `Types` | `types.dfy` | records and constants of `types.go` |
| `Chain` | `chain.dfy` | the cursor semantics of `Next`, the handlers and the response mutators, as functions; a panic is an explicit `Outcome` threaded back through `Next` |
| `Contexts` | `context.dfy` | the `Context` class, each method proved against `Chain` |
| `ChainProps` | `chain_props.dfy` | the onion order, every handler run once and in order, the "unsupported" default, and `Recover`/`internalPanicHandler` |
| `Router` | `srv.dfy` | `Srv` and `SrvGroup`: registration, chain assembly, the per-message dispatch, the read loop |
| `RouterProps` | `srv_props.dfy` | the router's answers and the effect of registration order |
| `SessionState` | `state.dfy` | `State` over a map-modelled cache with an explicit clock |
| `Heartbeats` | `heartbeat.dfy` | the recording middleware and one sweep |
| `Framing` | `framing.dfy` | `Packer` and `Parser` with its per-session carry-over buffer |
| `Sse` | `sse.dfy` | `SSEConn.Send`, and a reader of the event-stream format of section 9.2 of the WHATWG HTML Living Standard |
| `Emitters` | `emitter.dfy` | `Emiter.on`, `off` and `emit` |

How the source's behaviour is represented:

- A handler is either a script of statements (`Mark` for `c.Seqno += s`, `CallNext`, `DoAbort`, `Raise`, `Ok`, `SetResp`, `SetErr`) or one of the built-in handlers.
- `Context.Next` is a recursive method. Its measure is the number of handlers after the cursor.
- Every stateful method is proved against a specification function of the old state.

Where the specification and the code disagree, the model follows the code:

- `combineHandlers` includes only the immediate parent's middleware, not that of every ancestor (`RouterProps.GrandparentDropped`).
- The xtcp parser wraps its frame-end arithmetic at 2^32 (see Findings).

## Model

| member | source | states |
|---|---|---|
| Chain.WithOk | context.go:131-139 | `OK()` answers Code 0 and "ok" with the empty struct as Data; `OK(x)` puts x in Data; the request, Cmd and Seqno are kept |
| Chain.WithResp | context.go:142-148 | `Resp` sets Code and Msg and changes Data only when a data argument is given |
| Chain.WithErr | context.go:120-125 | a nil error changes nothing; otherwise Code and Msg come from the call and Data is kept |
| Chain.Recovered | recover.go:12-25 | the panic-value-to-response mapping: error or string gives Code -2 and that text; a `*Response` gives its Code and Msg, and its Data only if non-nil; any other value gives Code -2 with Msg and Data untouched |
| Chain.NextSpec | context.go:29-39 | the index never decreases and stays in -1..len-1; once aborted nothing happens; otherwise the call either moves past the current handler or sets the abort flag |
| Chain.InvokeSpec | context.go:33-35 | running the entered handler keeps the index in range and keeps an abort once set |
| Chain.StepsSpec | context.go:29-39 | a handler body keeps the cursor in range; a panic skips its remaining statements |
| Chain.Apply | context.go:43-45 | statements other than `Next` and `panic` leave the index alone, and only `Abort` sets the flag |
| Chain.Drive | srv.go:112-114 | the driver loop leaves with the abort flag set unless a panic escapes; the request and Cmd are never changed |
| Contexts.Context.constructor | srv.go:75-87 | a context holds its response, session id and router, with an empty chain |
| Contexts.Context.Next | context.go:29-39 | `Next` changes the fields exactly as `NextSpec` of the old cursor says, and keeps the chain |
| Contexts.Context.Abort | context.go:43-45 | sets the abort flag and changes nothing else |
| Contexts.Context.Err | context.go:120-125 | the response becomes `WithErr` of the old one; the cursor is unchanged |
| Contexts.Context.OK | context.go:131-139 | the response becomes `WithOk` of the old one; the cursor is unchanged |
| Contexts.Context.Resp | context.go:142-148 | the response becomes `WithResp` of the old one; the cursor is unchanged |
| Contexts.Context.Clone | context.go:216-236 | a fresh context with the same request, Cmd, Seqno, Code and Msg, empty-struct Data, no handlers, index -1 and no abort |
| Contexts.Context.Invoke | context.go:33-35 | entering a handler matches `InvokeSpec` |
| Contexts.Context.RunSteps | context.go:29-39 | a handler body matches `StepsSpec` |
| Contexts.RouteNotFound | context.go:239-241 | answers Code -1 and "unsupport cmd", keeps Data and the cursor |
| Contexts.Recover | recover.go:9-30 | the `Recover()` middleware matches `InvokeSpec` for the recovery handler |
| Contexts.InternalPanicHandler | middleware.go:14-23 | `internalPanicHandler` matches `InvokeSpec` for the exit guard |
| Contexts.FillPushResp | middleware.go:3-6 | always returns nil and leaves the response as `fill` makes it |
| ChainProps.Range | srv.go:112-114 | the indices lo..hi-1 in order |
| ChainProps.NextEntersIncreasing | context.go:33-35 | one `Next` enters strictly increasing indices, all after the start, so no handler is entered twice |
| ChainProps.InvokeEntersIncreasing | context.go:33-35 | the same for a handler's body |
| ChainProps.StepsEnterIncreasing | context.go:33-35 | the same for the rest of a handler's statements |
| ChainProps.DriveEntersIncreasing | srv.go:112-114 | the same for the whole driver loop |
| ChainProps.WrapBody | srv_test.go:73-90 | a handler "append b, Next, append a" is `Next` with b appended before and a after |
| ChainProps.WrapStep | context.go:33-35 | entering such a handler from `Next` nests the inner run between its two markers |
| ChainProps.WrappersNest | srv_test.go:73-116 | a run of such handlers appends their before-markers in registration order and their after-markers in reverse |
| ChainProps.NestedGroupsOrder | srv_test.go:73-116 | the route on a child group of the test yields "aceghfdb" and enters every handler once |
| ChainProps.PanicSkipsAfterCode | srv_test.go:73-126 | the panicking route under `Recover()` skips every after-marker ("acei"); the answer is Code -2 with the panic text |
| ChainProps.NextEntersInOrder | context.go:29-39 | with no abort or panic in the chain, one `Next` enters exactly the indices from the next one up to where it stops, in order |
| ChainProps.InvokeEntersInOrder | context.go:33-35 | the same for a handler's body |
| ChainProps.StepsEnterInOrder | context.go:29-39 | the same for the rest of a handler's statements |
| ChainProps.DriveEntersInOrder | srv.go:112-114 | the driver loop enters every remaining index exactly once, in order |
| ChainProps.DispatchRunsEveryHandler | srv.go:109-114 | from index -1 the loop runs handlers 0..len-1 once each, in order, even after a middleware that never calls `Next`, and ends aborted |
| ChainProps.NextKeepsUnsupported | context.go:29-39 | handlers that write nothing keep an "unsupported" answer and its Data |
| ChainProps.InvokeKeepsUnsupported | context.go:239-241 | the same for one such handler, `RouteNotFound` included |
| ChainProps.StepsKeepUnsupported | context.go:29-39 | the same for the statements of such a handler |
| ChainProps.DriveKeepsUnsupported | srv.go:112-114 | the same for the whole driver loop |
| ChainProps.RecoverAbsorbs | recover.go:9-30 | `Recover` never lets a panic out; without one it is exactly `Next`; with one the response is rewritten by `Recovered` |
| ChainProps.ExitGuardAbsorbsOnlyInternal | middleware.go:14-23 | `internalPanicHandler` returns normally exactly when the inner run was normal or panicked with an `internalPanic`; any other panic comes out unchanged |
| ChainProps.ExitKeepsEarlierWrites | middleware.go:8-23 | an early exit keeps the writes made before it and skips the code after it |
| Router.Registered | srv.go:38-51 | `Handle` with no handlers changes nothing; otherwise it appends to the command's entry or creates it, and no other entry changes |
| Router.RegisteredKeepsNonEmpty | srv.go:38-51 | every stored route stays non-empty; a command is registered afterwards exactly when it was before or handlers were given |
| Router.ChainFor | srv.go:98-108 | the chain is the middleware followed by the route's handlers, or by `RouteNotFound` for an unknown command |
| Router.InitialResponse | srv.go:75-87 | the default answer copies Cmd and Seqno and is Code -1, "unsupport cmd", empty-struct Data |
| Router.DispatchSpec | srv.go:74-114 | a dispatch that does not panic ends aborted, and keeps the request and its Cmd |
| Router.FirstStop | srv.go:64-71 | the number of reads that delivered a message before the first failure |
| Router.Srv.New | srv.go:17-22 | a router starts with no middleware and no routes |
| Router.Srv.Use | srv.go:24-27 | appends to the middleware in order, returns the same router, leaves the routes |
| Router.Srv.Handle | srv.go:38-51 | the routes become `Registered` of the old ones |
| Router.Srv.Group | srv.go:29-36 | a fresh group with no parent, this router and the given middleware |
| Router.Srv.Dispatch | srv.go:74-114 | the answer is that of `DispatchSpec`, a crash exactly when a panic escapes the chain, and exactly one push unless the command is a lifecycle command |
| Router.Srv.Receive | srv.go:63-117 | every delivered message is handed on in read order; a failed read or a nil request stops the loop with that error |
| Router.SrvGroup.constructor | srv_group.go:3-7 | a group holds its parent, root router and middleware |
| Router.SrvGroup.Use | srv_group.go:9-12 | appends to this group's own middleware only |
| Router.SrvGroup.Group | srv_group.go:13-19 | a fresh child whose parent is this group, with the same router |
| Router.SrvGroup.CombineHandlers | srv_group.go:25-37 | the parent's middleware (if any), then the group's own, then the handlers, with the lengths adding up |
| Router.SrvGroup.Handle | srv_group.go:20-23 | registers the combined list under the command on the root router |
| RouterProps.UnregisteredAnswersUnsupported | srv.go:98-108 | an unknown command under middleware that writes nothing is answered "unsupport cmd" with the empty struct |
| RouterProps.DispatchRunsWholeChain | srv.go:98-114 | with no abort or panic, every handler of the assembled chain runs once, in order |
| RouterProps.RouteWriteIsAnswered | srv_test.go:204-246 | a route's single `OK`, `Resp` or `Err` is exactly what is answered |
| RouterProps.ErrAnswer | srv_test.go:219-222 | `Err(errors.New("err1"), 11)` answers 11, "err1" and the empty struct |
| RouterProps.RespAnswer | srv_test.go:223-226 | `Resp(12, "msg2", "data2")` answers exactly that |
| RouterProps.UseAfterHandle | srv.go:98-108 | middleware added after `Handle` still runs before the route |
| RouterProps.GrandparentDropped | srv_group.go:25-37 | a route on a grandchild group gets its parent's and its own middleware, not its grandparent's |
| RouterProps.GroupRouteIsSnapshot | srv_group.go:20-37 | a group with middleware registers a route even with no handlers, and a later `Use` on the group does not change it |
| SessionState.CacheKeyOf | state.go:45-47 | the key is the sid, one ':' and the key |
| SessionState.Lookup | state.go:17-21 | the stored value before its expiry, nil when absent or expired |
| SessionState.Purged | state.go:27-40 | the cache without the non-string keys and the keys starting with sid + ":", every other entry kept |
| SessionState.State.constructor | state.go:10-13 | an empty cache |
| SessionState.State.Get | state.go:17-21 | answers `Lookup` of the composite key |
| SessionState.State.Set | state.go:15-25 | writes only the composite key, expiring 24 hours later |
| SessionState.State.DestroySid | state.go:27-40 | removes exactly the keys `Purged` drops; nothing changes when listing keys fails |
| SessionState.KeysCollide | state.go:45-47 | ("a:b", "c") and ("a", "b:c") share one cache key |
| SessionState.CacheKeyInjective | state.go:45-47 | without ':' in the session ids, the cache key determines the pair |
| SessionState.GetAfterSet | state.go:17-25 | before expiry `Get` returns what `Set` stored, and every other key keeps its answer |
| SessionState.GetAfterDestroyIsNil | state.go:17-40 | after `destroySid(sid)` every key of that session reads nil |
| SessionState.DestroyIdempotent | state.go:27-40 | a second `destroySid` removes nothing more |
| SessionState.OtherSessionSurvives | state.go:32-37 | "10:x" survives `destroySid("1")` |
| Heartbeats.Swept | heartbeat.go:19-25 | exactly the entries that are an integer not older than now - timeout remain, unchanged |
| Heartbeats.Monitor.constructor | heartbeat.go:9-10 | an empty map and no router |
| Heartbeats.Monitor.Record | heartbeat.go:29-36 | the first router seen is kept; the session's stamp becomes now; then one `Next` |
| Heartbeats.Monitor.Sweep | heartbeat.go:15-26 | nothing before a router is captured; otherwise every expired session is closed once and deleted, and the rest are kept |
| Heartbeats.SweepKeepsFresh | heartbeat.go:20 | a session stamped at or after now - timeout survives; an older one does not |
| Heartbeats.SweepIdempotent | heartbeat.go:19-25 | a second sweep at the same time removes nothing more |
| Heartbeats.RecordedSurvives | heartbeat.go:29-36 | a session just recorded survives a sweep at the same time |
| Framing.BE32 | xtcp/pkg.go:19-21 | a 32-bit value is four header bytes |
| Framing.Decode32 | xtcp/pkg.go:50 | four header bytes are a value below 2^32 |
| Framing.DecodeEncode | xtcp/pkg.go:19-21 | reading back a written header gives the value |
| Framing.EncodeDecode | xtcp/pkg.go:49-50 | writing back a read header gives the bytes |
| Framing.Packer | xtcp/pkg.go:18-25 | the packet is 4 + len bytes: the header holds the length truncated to 32 bits, then the payload |
| Framing.PackerOfHeader | xtcp/pkg.go:49-54 | a complete frame at the head of the buffer is the packet of its payload |
| Framing.OversizedHeaderPanics | xtcp/pkg.go:50-54 | a header declaring 2^32-1 bytes makes the parser as written panic; the splitter without wrap-around keeps the four bytes |
| Framing.PkgProto.constructor | xtcp/pkg.go:29-31 | no session has kept bytes |
| Framing.PkgProto.Parser | xtcp/pkg.go:28-63 | returns the frames of the kept bytes followed by the input, keeps the rest for that session only, and never errors; the wrapped case panics |
| Framing.PkgProto.ParserChecked | xtcp/pkg.go:28-63 | the parser with the frame end compared without wrap-around: the frames and kept bytes of `SplitFrames` |
| Framing.AsWrittenNext | xtcp/pkg.go:45-57 | one turn of the loop takes one frame off the front |
| Framing.SplitFramesShape | xtcp/pkg.go:46-53 | what is kept is an incomplete frame, and every payload fits the header |
| Framing.SplitLossless | xtcp/pkg.go:42-60 | the frames repacked, followed by the kept bytes, are the buffer |
| Framing.SplitJoined | xtcp/pkg.go:45-57 | packets followed by an incomplete remainder split back into those payloads and that remainder |
| Framing.RoundTrip | xtcp/pkg.go:18-63 | splitting `Packer(d)` gives [d] and keeps nothing |
| Framing.Coalesced | xtcp/pkg.go:45-57 | two coalesced packets give both payloads in order |
| Framing.SplitChunked | xtcp/pkg.go:33-60 | splitting a chunk and then the kept bytes followed by the next chunk gives what splitting both at once gives |
| Framing.ChunkedStep | xtcp/pkg.go:45-57 | the chunking property passes over one complete frame |
| Framing.SplitAt | xtcp/pkg.go:54-56 | a frame completed in the first chunk is taken off before the second |
| Framing.SplitHead | xtcp/pkg.go:54-56 | a packet at the head is split off as its payload |
| Framing.SplitFramesStep | xtcp/pkg.go:49-56 | one complete frame at the head is taken off |
| Framing.AsWrittenAgrees | xtcp/pkg.go:45-57 | below 2^32 bytes the parser as written agrees with the splitter whenever it does not panic |
| Framing.WrappedEndPanics | xtcp/pkg.go:50-54 | a declared length whose end reaches 2^32 makes the parser panic |
| Framing.ShortAgrees | xtcp/pkg.go:51-52 | an incomplete frame is kept by both splitters |
| Framing.AsWrittenUnfold | xtcp/pkg.go:49-56 | without wrap-around, the loop as written takes off the same frame as the splitter |
| Framing.ParserRoundTrip | xtcp/pkg.go:18-63 | packets whose lengths fit round-trip through the parser as written |
| Framing.ParserLossless | xtcp/pkg.go:42-60 | when the parser as written does not panic, its frames repacked followed by the kept bytes are the buffer |
| Framing.NoPanicBelowLimit | xtcp/pkg.go:50-54 | a buffer of whole packets whose payloads are shorter than 2^32-4 bytes never panics |
| Framing.PackedHead | xtcp/pkg.go:18-25 | the header of a packet declares exactly its payload |
| Sse.Frame | xhttp/sse.go:111-113 | a message type other than event or message fails with "unsupport sse message type" |
| Sse.FrameEndsBlank | xhttp/sse.go:114 | every frame ends with the blank line that ends an event |
| Sse.SendFrom | xhttp/sse.go:84-122 | frames are written one per response; the loop finishes without error exactly when every response was written; a destroy comes only with the write error |
| Sse.SendFromStep | xhttp/sse.go:84-120 | an encoding error stops before writing; a failed write destroys and stops; otherwise the frame is written and the loop goes on |
| Sse.SendFromFrames | xhttp/sse.go:84-122 | the k-th frame written is the frame of the k-th response, in argument order |
| Sse.SendNothing | xhttp/sse.go:84-122 | no responses: nothing written, nil returned |
| Sse.UnsupportedTypeWritesNothing | xhttp/sse.go:111-113 | an unsupported type writes nothing and returns its error |
| Sse.SseConn.constructor | xhttp/sse.go:29-35 | a new connection has its writer, its type and is not closed |
| Sse.SseConn.Destroy | xhttp/sse.go:125-128 | the error is notified and the connection marked closed |
| Sse.SseConn.BuildFrame | xhttp/sse.go:85-114 | the text built statement by statement is `Frame` |
| Sse.SseConn.Send | xhttp/sse.go:78-123 | with no writer: "connection is already closed", nothing written, destroyed; otherwise the frames, error and destroy of `SendFrom` |
| Sse.LinesCons | xhttp/sse.go:85-114 | a reader splits a frame at each line feed |
| Sse.FieldNamed | xhttp/sse.go:88-96 | a line "name: value" is read as that field and value |
| Sse.InterpretField | xhttp/sse.go:88-96 | a field line updates the reader and nothing is dispatched |
| Sse.EventFrameDelivered | xhttp/sse.go:86-97 | an event frame with data is read as one event named by Cmd, carrying the JSON of Data, with Seqno as last event id when non-empty |
| Sse.EventWithoutDataIsDropped | xhttp/sse.go:86-91 | an event frame of a response with nil Data dispatches nothing |
| Sse.MessageFrameDelivered | xhttp/sse.go:98-110 | a message frame is read as one "message" event carrying the JSON envelope |
| Emitters.IndexOf | jssdk/src/emiter.js:21 | the first position of the listener, or the length when absent |
| Emitters.OnSpec | jssdk/src/emiter.js:5-14 | a falsy type or listener changes nothing; otherwise the listener is appended to its type's list, created if missing, and no other type changes |
| Emitters.OffSpec | jssdk/src/emiter.js:15-23 | removes one occurrence of the listener from its type's list; nothing changes for a falsy argument, an unknown type or an absent listener; the type stays in the map |
| Emitters.CallAll | jssdk/src/emiter.js:25-26 | calls every listener of the copy, in order |
| Emitters.Emitter.constructor | jssdk/src/emiter.js:2-4 | no listeners |
| Emitters.Emitter.On | jssdk/src/emiter.js:5-14 | the listeners become `OnSpec` of the old ones |
| Emitters.Emitter.Off | jssdk/src/emiter.js:15-23 | the listeners become `OffSpec` of the old ones |
| Emitters.Emitter.Run | jssdk/src/emiter.js:5-23 | a listener's registrations and removals, applied in order |
| Emitters.Emitter.CallEach | jssdk/src/emiter.js:25-26 | one loop over a copied list |
| Emitters.Emitter.Emit | jssdk/src/emiter.js:24-27 | the type's listeners, then the '*' listeners, each over its copy |
| Emitters.IndexOfIsFirst | jssdk/src/emiter.js:21 | `indexOf` is characterised by being the first match |
| Emitters.OffUndoesOn | jssdk/src/emiter.js:5-23 | `off` undoes `on` of a new listener, except that the emptied list stays |
| Emitters.OnThenOff | jssdk/src/emiter.js:5-23 | `on` then `off` of a new listener leaves the type's earlier list |
| Emitters.OffLast | jssdk/src/emiter.js:15-23 | removing the last-added, single copy of a listener restores the list before it |
| Emitters.OffRemovesFirst | jssdk/src/emiter.js:21 | `off` removes the first occurrence and keeps the others in order |
| Emitters.EmitCallsSnapshot | jssdk/src/emiter.js:25 | the type's own listeners are called first, in order, without the type |
| Emitters.EmitQuiet | jssdk/src/emiter.js:24-27 | with listeners that register nothing, emit changes nothing and makes one call per listener of the type and of '*' |
| Emitters.CallAllQuiet | jssdk/src/emiter.js:25-26 | a loop over listeners that register nothing leaves the map unchanged |
| Emitters.RegisteredDuringEmit | jssdk/src/emiter.js:25-26 | a listener of the type added during emit is not called, but a '*' listener added then is |

## Left out

- Transport adapters (TCP, WebSocket, HTTP and gnet connections, accept and read loops, mutex-guarded session maps): socket and HTTP I/O. `receive` is modelled over a finite script of read results.
- The goroutine per message (srv.go:74): `Router.Srv.Dispatch` runs one message to completion, and concurrent messages are not modelled.
- `Router.Srv.Dispatch`: the deferred push is returned as a list of responses, not sent; `Push`, `PushSID`, `Close` and `Broadcast` of context.go and srv.go delegate to members not shown and to adapter I/O, and are not part of this model, nor is `Run`.
- `Parse` (context.go): reflection and JSON libraries that are not part of this model.
- Handlers are scripts of statements; arbitrary Go code inside a handler is not modelled.
- `panic(nil)` is not modelled: in the code it is not seen by `recover() != nil`.
- The `Server` adapter field of `Context` (context.go:20-21, copied by `clone` at context.go:232) is not modelled; `Contexts.Context.Clone` therefore does not state that it is carried over. The `Srv` field is kept as an opaque `object`.
- `Contexts.FillPushResp`: `Response.fill` is not shown, so it is a parameter.
- gcache internals and `SetAdapter`: the cache is a map with expiry times and the clock is a parameter.
- The heartbeat background loop and `time.Sleep`: one sweep is modelled, with `now` and `timeout` as integers; `srv.Close` is recorded as the list of closed sessions.
- `bytesCombine` is sequence concatenation; the pool's mutex is not modelled.
- SSE: the initial header and flush writes, the heartbeat goroutine and the blocking `notifyErr` channel (it becomes the `notified` list); a write failure is a parameter naming the failing frame; partial writes are not modelled.
- `json.Marshal` is a parameter of the SSE model.
- The SSE reader handles line feeds only, not carriage returns; the reader is used only to state what the frames mean.
- The emitter's listeners are numbers, and what a listener does is given as the registrations and removals it makes on the same emitter; the event argument and exceptions thrown by listeners are not modelled.
- `debug.PrintStack`, the logger and the random-string utilities: output and randomness only.

## Findings

| source | as written | input that shows it | evidently intended | confidence | as-written member | corrected member |
|---|---|---|---|---|---|---|
| xtcp/pkg.go:50-54 | `4 + bodyLen` is computed in uint32, so a declared length of 2^32-4 or more wraps the frame end below 4; the check `uint32(len(buf)) < 4+bodyLen` lets it through, and `buf[4 : 4+bodyLen]` panics with an out-of-range slice | a buffer holding the header bytes 255, 255, 255, 255 | compare without wrap-around and keep the bytes as an incomplete frame | not executed | Framing.OversizedHeaderPanics | Framing.PkgProto.ParserChecked |
