/** The per-message execution context: its response, its handler chain and
    the chain cursor (`handlerIndex`, `handlerAbort`), with `Next`/`Abort`,
    the response mutators, `clone`, and the built-in handlers `RouteNotFound`,
    `Recover` and `internalPanicHandler`. Every method is proved against the
    specification functions of module Chain. */
module Contexts {
  import opened Types
  import opened Chain

  class Context {
    var resp: Response
    var sid: string
    var srv: object          // the router that created the context
    var handlers: seq<Handler>
    var handlerIndex: int
    var handlerAbort: bool

    /** The composite literal `&Context{Response: resp, SID: sid, Srv: srv}`:
        unset fields take Go's zero values. */
    constructor (resp: Response, sid: string, srv: object)
      ensures this.resp == resp && this.sid == sid && this.srv == srv
      ensures handlers == [] && handlerIndex == 0 && !handlerAbort
    {
      this.resp := resp;
      this.sid := sid;
      this.srv := srv;
      handlers := [];
      handlerIndex := 0;
      handlerAbort := false;
    }

    /** The cursor: response, index and abort flag. */
    function Cur(): Cursor
      reads this
    {
      Cursor(resp, handlerIndex, handlerAbort)
    }

    /** The index stays within -1 .. len(handlers)-1. */
    ghost predicate Valid()
      reads this
    {
      -1 <= handlerIndex < |handlers|
    }

    /** `Next` advances to the next handler and runs it, or marks the chain
        aborted when the cursor is already on the last handler. */
    method Next() returns (out: Outcome, ghost entered: seq<int>)
      requires Valid()
      modifies this
      ensures Valid()
      ensures handlers == old(handlers) && sid == old(sid) && srv == old(srv)
      ensures Run(Cur(), out, entered) == NextSpec(handlers, old(Cur()))
      decreases |handlers| - handlerIndex, 0, 0
    {
      if handlerAbort {
        out, entered := Normal, [];
        return;
      }
      if handlerIndex < |handlers| - 1 {
        handlerIndex := handlerIndex + 1;
        out, entered := Invoke(handlers[handlerIndex]);
        entered := [old(handlerIndex) + 1] + entered;
      } else {
        Abort();
        out, entered := Normal, [];
      }
    }

    /** `Abort` stops the inner handlers from being called. */
    method Abort()
      modifies this
      ensures handlerAbort
      ensures resp == old(resp) && handlerIndex == old(handlerIndex)
      ensures handlers == old(handlers) && sid == old(sid) && srv == old(srv)
    {
      handlerAbort := true;
    }

    /** `Err(err, code)`: a nil error is ignored. */
    method Err(err: Option<string>, code: int)
      modifies this
      ensures resp == WithErr(old(resp), err, code)
      ensures handlerIndex == old(handlerIndex) && handlerAbort == old(handlerAbort)
      ensures handlers == old(handlers) && sid == old(sid) && srv == old(srv)
    {
      if err.Some? {
        resp := resp.(code := code);
        resp := resp.(msg := err.value);
      }
    }

    /** `OK(data...)`: success, with the empty struct when no data is given. */
    method OK(data: Option<Value>)
      modifies this
      ensures resp == WithOk(old(resp), data)
      ensures handlerIndex == old(handlerIndex) && handlerAbort == old(handlerAbort)
      ensures handlers == old(handlers) && sid == old(sid) && srv == old(srv)
    {
      resp := resp.(code := 0);
      resp := resp.(msg := MsgOk);
      if data.None? {
        resp := resp.(data := EmptyStruct);
      } else {
        resp := resp.(data := data.value);
      }
    }

    /** `Resp(code, msg, data...)`: Data changes only when a data argument is given. */
    method Resp(code: int, msg: string, data: Option<Value>)
      modifies this
      ensures resp == WithResp(old(resp), code, msg, data)
      ensures handlerIndex == old(handlerIndex) && handlerAbort == old(handlerAbort)
      ensures handlers == old(handlers) && sid == old(sid) && srv == old(srv)
    {
      resp := resp.(code := code);
      resp := resp.(msg := msg);
      if data.Some? {
        resp := resp.(data := data.value);
      }
    }

    /** `clone`: a fresh context with a copy of the request and of
        Cmd/Seqno/Code/Msg, empty Data and no handler-chain state. */
    method Clone() returns (d: Context)
      ensures fresh(d)
      ensures d.resp == Response(resp.req, resp.cmd, resp.seqno, resp.code, resp.msg, EmptyStruct)
      ensures d.sid == sid && d.srv == srv
      ensures d.handlers == [] && d.handlerIndex == -1 && !d.handlerAbort
    {
      var req := Request(resp.req.cmd, resp.req.seqno, resp.req.rawData);
      d := new Context(Response(req, resp.cmd, resp.seqno, resp.code, resp.msg, EmptyStruct), sid, srv);
      d.handlers := [];
      d.handlerIndex := -1;
    }

    /** Calls handler `h`, the one the cursor has just moved onto. */
    method Invoke(h: Handler) returns (out: Outcome, ghost entered: seq<int>)
      requires 0 <= handlerIndex < |handlers|
      modifies this
      ensures Valid()
      ensures handlers == old(handlers) && sid == old(sid) && srv == old(srv)
      ensures Run(Cur(), out, entered) == InvokeSpec(handlers, h, old(Cur()))
      decreases |handlers| - handlerIndex, 3, 0
    {
      match h
      case Script(steps) =>
        out, entered := RunSteps(steps);
      case NotFound =>
        RouteNotFound(this);
        out, entered := Normal, [];
      case Recovery =>
        out, entered := Recover(this);
      case ExitGuard =>
        out, entered := InternalPanicHandler(this);
    }

    /** Runs the remaining statements of a user handler. */
    method RunSteps(steps: seq<Step>) returns (out: Outcome, ghost entered: seq<int>)
      requires Valid()
      modifies this
      ensures Valid()
      ensures handlers == old(handlers) && sid == old(sid) && srv == old(srv)
      ensures Run(Cur(), out, entered) == StepsSpec(handlers, steps, old(Cur()))
      decreases |handlers| - handlerIndex, 1, |steps|
    {
      if steps == [] {
        out, entered := Normal, [];
        return;
      }
      match steps[0]
      case CallNext =>
        ghost var first, rest;
        out, first := Next();
        if out.Panicked? {
          entered := first;
          return;
        }
        out, rest := RunSteps(steps[1..]);
        entered := first + rest;
      case Raise(v) =>
        out, entered := Panicked(v), [];
      case Mark(s) =>
        resp := resp.(seqno := resp.seqno + s);
        out, entered := RunSteps(steps[1..]);
      case DoAbort =>
        Abort();
        out, entered := RunSteps(steps[1..]);
      case Ok(data) =>
        OK(data);
        out, entered := RunSteps(steps[1..]);
      case SetResp(code, msg, data) =>
        Resp(code, msg, data);
        out, entered := RunSteps(steps[1..]);
      case SetErr(err, code) =>
        Err(err, code);
        out, entered := RunSteps(steps[1..]);
    }
  }

  /** `RouteNotFound`, the default handler of an unregistered command. */
  method RouteNotFound(c: Context)
    modifies c
    ensures c.resp == WithResp(old(c.resp), -1, MsgUnsupportCmd, None)
    ensures c.handlerIndex == old(c.handlerIndex) && c.handlerAbort == old(c.handlerAbort)
    ensures c.handlers == old(c.handlers) && c.sid == old(c.sid) && c.srv == old(c.srv)
  {
    c.Resp(-1, MsgUnsupportCmd, None);
  }

  /** The middleware returned by `Recover()`: calls `Next` and turns a panic
      coming back from it into the response. */
  method Recover(c: Context) returns (out: Outcome, ghost entered: seq<int>)
    requires 0 <= c.handlerIndex < |c.handlers|
    modifies c
    ensures c.Valid()
    ensures c.handlers == old(c.handlers) && c.sid == old(c.sid) && c.srv == old(c.srv)
    ensures Run(c.Cur(), out, entered) == InvokeSpec(c.handlers, Recovery, old(c.Cur()))
    decreases |c.handlers| - c.handlerIndex, 2, 0
  {
    out, entered := c.Next();
    if out.Panicked? {
      var data := out.value;
      c.resp := c.resp.(code := -2);
      match data {
        case PErr(text) =>
          c.resp := c.resp.(msg := text);
        case PStr(s) =>
          c.resp := c.resp.(msg := s);
        case PResp(code, msg, d) =>
          c.resp := c.resp.(code := code);
          c.resp := c.resp.(msg := msg);
          if d != Nil {
            c.resp := c.resp.(data := d);
          }
        case PInternal(_) =>
        case PInt(_) =>
      }
      out := Normal;
    }
  }

  /** `internalPanicHandler`: absorbs a panic of type `internalPanic`,
      re-raises any other. */
  method InternalPanicHandler(c: Context) returns (out: Outcome, ghost entered: seq<int>)
    requires 0 <= c.handlerIndex < |c.handlers|
    modifies c
    ensures c.Valid()
    ensures c.handlers == old(c.handlers) && c.sid == old(c.sid) && c.srv == old(c.srv)
    ensures Run(c.Cur(), out, entered) == InvokeSpec(c.handlers, ExitGuard, old(c.Cur()))
    decreases |c.handlers| - c.handlerIndex, 2, 0
  {
    out, entered := c.Next();
    if out.Panicked? && out.value.PInternal? {
      out := Normal;
    }
  }

  /** `fillPushResp`: delegates to `Response.fill`, which is not part of this
      model and is passed in, and never fails. */
  method FillPushResp(c: Context, fill: Response -> Response) returns (err: Option<string>)
    modifies c
    ensures err == None
    ensures c.resp == fill(old(c.resp))
    ensures c.handlers == old(c.handlers) && c.handlerIndex == old(c.handlerIndex)
    ensures c.handlerAbort == old(c.handlerAbort) && c.sid == old(c.sid) && c.srv == old(c.srv)
  {
    c.resp := fill(c.resp);
    err := None;
  }
}
