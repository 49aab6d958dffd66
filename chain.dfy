/** The handler-chain engine as a specification: what one call of `Next`
    does to the context's cursor (handler index, abort flag) and response,
    with handler panics threaded back as an explicit outcome instead of
    stack unwinding. The imperative `Context` class is proved against these
    functions. */
module Chain {
  import opened Types

  /** A value passed to Go's `panic`. `PInternal` is the distinct byte type
      `internalPanic`; a plain integer panic is `PInt`, so no plain value
      can be mistaken for the internal exit signal. */
  datatype PanicValue =
    | PErr(text: string)                          // a value of type error
    | PStr(s: string)                             // a string
    | PResp(code: int, msg: string, data: Value)  // a *Response
    | PInternal(b: byte)                          // internalPanic
    | PInt(n: int)                                // any other value

  /** `internalExitPanic`, the value 1 of type `internalPanic`. */
  const InternalExitPanic: PanicValue := PInternal(1)

  /** How a handler (or `Next`) returned: normally, or by panicking. */
  datatype Outcome = Normal | Panicked(value: PanicValue)

  /** One statement of a user handler. */
  datatype Step =
    | Mark(s: string)                                   // c.Seqno += s
    | CallNext                                          // c.Next()
    | DoAbort                                           // c.Abort()
    | Raise(v: PanicValue)                              // panic(v)
    | Ok(data: Option<Value>)                           // c.OK() / c.OK(x)
    | SetResp(code: int, msg: string, data: Option<Value>)  // c.Resp(code, msg) / c.Resp(code, msg, x)
    | SetErr(err: Option<string>, code: int)            // c.Err(err, code), None for a nil error

  /** A handler of the chain: a user function given by its statements, or one
      of the built-in handlers. */
  datatype Handler =
    | Script(steps: seq<Step>)
    | NotFound      // the function RouteNotFound
    | Recovery      // the function returned by Recover()
    | ExitGuard     // the function internalPanicHandler

  /** The mutable part of a Context: the response, `handlerIndex` and `handlerAbort`. */
  datatype Cursor = Cursor(resp: Response, index: int, aborted: bool)

  /** The end of a call: the cursor afterwards, how it returned, and the
      handler indices entered during the call, in order. */
  datatype Run = Run(cur: Cursor, out: Outcome, entered: seq<int>)

  // ---------------------------------------------------------------------
  // Response mutators (context.go)

  /** `c.OK()` and `c.OK(x)`. */
  function WithOk(r: Response, data: Option<Value>): (r': Response)
    ensures r'.code == 0 && r'.msg == MsgOk
    ensures data.None? ==> r'.data == EmptyStruct
    ensures data.Some? ==> r'.data == data.value
    ensures r'.req == r.req && r'.cmd == r.cmd && r'.seqno == r.seqno
  {
    r.(code := 0, msg := MsgOk, data := if data.None? then EmptyStruct else data.value)
  }

  /** `c.Resp(code, msg)` and `c.Resp(code, msg, x)`. */
  function WithResp(r: Response, code: int, msg: string, data: Option<Value>): (r': Response)
    ensures r'.code == code && r'.msg == msg
    ensures data.None? ==> r'.data == r.data
    ensures data.Some? ==> r'.data == data.value
    ensures r'.req == r.req && r'.cmd == r.cmd && r'.seqno == r.seqno
  {
    if data.None? then r.(code := code, msg := msg) else r.(code := code, msg := msg, data := data.value)
  }

  /** `c.Err(err, code)`: a nil error changes nothing. */
  function WithErr(r: Response, err: Option<string>, code: int): (r': Response)
    ensures err.None? ==> r' == r
    ensures err.Some? ==> r'.code == code && r'.msg == err.value
    ensures r'.data == r.data && r'.req == r.req && r'.cmd == r.cmd && r'.seqno == r.seqno
  {
    if err.None? then r else r.(code := code, msg := err.value)
  }

  /** What `Recover`'s deferred function writes for a recovered panic value:
      Code -2 first, then the branches error, string, *Response in that order. */
  function Recovered(r: Response, v: PanicValue): (r': Response)
    ensures r'.req == r.req && r'.cmd == r.cmd && r'.seqno == r.seqno
    ensures !v.PResp? ==> r'.code == -2
    ensures v.PErr? ==> r'.msg == v.text && r'.data == r.data
    ensures v.PStr? ==> r'.msg == v.s && r'.data == r.data
    ensures v.PResp? ==> r'.code == v.code && r'.msg == v.msg
    ensures v.PResp? ==> r'.data == if v.data.Nil? then r.data else v.data
    ensures (v.PInternal? || v.PInt?) ==> r'.msg == r.msg && r'.data == r.data
  {
    var failed := r.(code := -2);
    match v
    case PErr(text) => failed.(msg := text)
    case PStr(s) => failed.(msg := s)
    case PResp(code, msg, data) =>
      if data != Nil then failed.(code := code, msg := msg, data := data)
      else failed.(code := code, msg := msg)
    case PInternal(_) => failed
    case PInt(_) => failed
  }

  // ---------------------------------------------------------------------
  // The chain, one call at a time

  /** `c.Next()` from cursor `c` over the chain `hs`. */
  function NextSpec(hs: seq<Handler>, c: Cursor): (r: Run)
    requires -1 <= c.index < |hs|
    ensures c.index <= r.cur.index < |hs|
    ensures c.aborted ==> r == Run(c, Normal, [])
    ensures !c.aborted ==> r.cur.aborted || r.cur.index > c.index
    ensures r.cur.resp.req == c.resp.req && r.cur.resp.cmd == c.resp.cmd
    decreases |hs| - c.index, 0, 0
  {
    if c.aborted then Run(c, Normal, [])
    else if c.index < |hs| - 1 then
      var r := InvokeSpec(hs, hs[c.index + 1], c.(index := c.index + 1));
      r.(entered := [c.index + 1] + r.entered)
    else Run(c.(aborted := true), Normal, [])
  }

  /** Running handler `h` once the cursor has been moved onto it. */
  function InvokeSpec(hs: seq<Handler>, h: Handler, c: Cursor): (r: Run)
    requires 0 <= c.index < |hs|
    ensures c.index <= r.cur.index < |hs|
    ensures c.aborted ==> r.cur.aborted
    ensures r.cur.resp.req == c.resp.req && r.cur.resp.cmd == c.resp.cmd
    decreases |hs| - c.index, 3, 0
  {
    match h
    case Script(steps) => StepsSpec(hs, steps, c)
    case NotFound => Run(c.(resp := WithResp(c.resp, -1, MsgUnsupportCmd, None)), Normal, [])
    case Recovery =>
      var r := NextSpec(hs, c);
      if r.out.Panicked? then Run(r.cur.(resp := Recovered(r.cur.resp, r.out.value)), Normal, r.entered)
      else r
    case ExitGuard =>
      var r := NextSpec(hs, c);
      if r.out.Panicked? && r.out.value.PInternal? then r.(out := Normal) else r
  }

  /** The effect of a statement that neither calls `Next` nor panics. */
  function Apply(s: Step, c: Cursor): (c': Cursor)
    requires !s.CallNext? && !s.Raise?
    ensures c'.index == c.index && c'.aborted == (c.aborted || s.DoAbort?)
    ensures c'.resp.req == c.resp.req && c'.resp.cmd == c.resp.cmd
  {
    match s
    case Mark(x) => c.(resp := c.resp.(seqno := c.resp.seqno + x))
    case DoAbort => c.(aborted := true)
    case Ok(data) => c.(resp := WithOk(c.resp, data))
    case SetResp(code, msg, data) => c.(resp := WithResp(c.resp, code, msg, data))
    case SetErr(err, code) => c.(resp := WithErr(c.resp, err, code))
  }

  /** Running the remaining statements `steps` of a user handler. A panic,
      raised here or coming back from `Next`, skips the rest. */
  function StepsSpec(hs: seq<Handler>, steps: seq<Step>, c: Cursor): (r: Run)
    requires -1 <= c.index < |hs|
    ensures c.index <= r.cur.index < |hs|
    ensures c.aborted ==> r.cur.aborted
    ensures r.cur.resp.req == c.resp.req && r.cur.resp.cmd == c.resp.cmd
    decreases |hs| - c.index, 1, |steps|
  {
    if steps == [] then Run(c, Normal, [])
    else if steps[0].CallNext? then
      var r := NextSpec(hs, c);
      if r.out.Panicked? then r
      else
        var r2 := StepsSpec(hs, steps[1..], r.cur);
        Run(r2.cur, r2.out, r.entered + r2.entered)
    else if steps[0].Raise? then Run(c, Panicked(steps[0].v), [])
    else StepsSpec(hs, steps[1..], Apply(steps[0], c))
  }

  /** The dispatch loop `for !handlerAbort && handlerIndex < len(handlers) { Next() }`;
      a panic leaves the loop. */
  function Drive(hs: seq<Handler>, c: Cursor): (r: Run)
    requires -1 <= c.index < |hs|
    ensures c.index <= r.cur.index < |hs|
    ensures r.out.Normal? ==> r.cur.aborted
    ensures r.cur.resp.req == c.resp.req && r.cur.resp.cmd == c.resp.cmd
    decreases |hs| - c.index + (if c.aborted then 0 else 1)
  {
    if c.aborted then Run(c, Normal, [])
    else
      var r := NextSpec(hs, c);
      if r.out.Panicked? then r
      else
        var r2 := Drive(hs, r.cur);
        Run(r2.cur, r2.out, r.entered + r2.entered)
  }
}
