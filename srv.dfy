/** The router: global middleware, the route table, handler groups, the
    per-message dispatch (default response, chain assembly, driver loop,
    lifecycle skip) and the read loop that hands messages to it. */
module Router {
  import opened Types
  import opened Chain
  import opened Contexts
  import opened ChainProps

  /** `msgUnsupportCmd` is the default message; this one is `receive`'s
      error for a transport that yields a nil request. */
  const ErrUnexpectedRequest: string := "unexpected request data"

  /** The route table after registering `hs` under `cmd`: nothing for an
      empty list, else appended to the existing entry or a new entry. */
  function Registered(routes: map<string, seq<Handler>>, cmd: string, hs: seq<Handler>): (r: map<string, seq<Handler>>)
    ensures hs == [] ==> r == routes
    ensures hs != [] ==> r.Keys == routes.Keys + {cmd}
    ensures hs != [] && cmd in routes ==> r[cmd] == routes[cmd] + hs
    ensures hs != [] && cmd !in routes ==> r[cmd] == hs
    ensures forall k :: k in routes && k != cmd ==> r[k] == routes[k]
  {
    if hs == [] then routes
    else if cmd in routes then routes[cmd := routes[cmd] + hs]
    else routes[cmd := hs]
  }

  /** Every stored entry holds at least one handler. */
  ghost predicate NonEmptyRoutes(routes: map<string, seq<Handler>>)
  {
    forall k :: k in routes ==> routes[k] != []
  }

  /** Registration keeps every entry non-empty, and a registered command is
      then found with the new handlers at the end of its entry. */
  lemma RegisteredKeepsNonEmpty(routes: map<string, seq<Handler>>, cmd: string, hs: seq<Handler>)
    requires NonEmptyRoutes(routes)
    ensures NonEmptyRoutes(Registered(routes, cmd, hs))
    ensures (cmd in Registered(routes, cmd, hs)) <==> (cmd in routes || hs != [])
  {
  }

  /** The chain for `cmd`: the middleware current at dispatch time, then the
      route's handlers, or `RouteNotFound` for an unregistered command. */
  function ChainFor(middleware: seq<Handler>, routes: map<string, seq<Handler>>, cmd: string): (hs: seq<Handler>)
    ensures |middleware| <= |hs| && hs[..|middleware|] == middleware
    ensures cmd in routes ==> hs[|middleware|..] == routes[cmd]
    ensures cmd !in routes ==> hs[|middleware|..] == [NotFound]
    ensures cmd !in routes || routes[cmd] != [] ==> |hs| > |middleware|
  {
    if cmd in routes then middleware + routes[cmd] else middleware + [NotFound]
  }

  /** The response every message starts with: "unsupported", no data. */
  function InitialResponse(req: Request): (r: Response)
    ensures r.req == req && r.cmd == req.cmd && r.seqno == req.seqno
    ensures r.code == -1 && r.msg == MsgUnsupportCmd && r.data == EmptyStruct
  {
    Response(req, req.cmd, req.seqno, -1, MsgUnsupportCmd, EmptyStruct)
  }

  /** What the dispatch of one message ends with: the final response, and
      the panic that escaped the chain if any. */
  function DispatchSpec(middleware: seq<Handler>, routes: map<string, seq<Handler>>, req: Request): (r: Run)
    ensures r.out.Normal? ==> r.cur.aborted
    ensures r.cur.resp.req == req && r.cur.resp.cmd == req.cmd
  {
    var hs := ChainFor(middleware, routes, req.cmd);
    Drive(hs, Cursor(InitialResponse(req), -1, false))
  }

  /** One result of the transport's `Read`. */
  datatype ReadResult =
    | ReadFailed(err: string)
    | ReadNothing                            // a nil request without error
    | Delivered(sid: string, req: Request)

  /** The position of the first read that ends `receive`, or the length of
      the script when every read delivers a message. */
  function FirstStop(script: seq<ReadResult>): (n: nat)
    ensures n <= |script|
    ensures forall i :: 0 <= i < n ==> script[i].Delivered?
    ensures n < |script| ==> !script[n].Delivered?
  {
    if script == [] || !script[0].Delivered? then 0 else 1 + FirstStop(script[1..])
  }

  /** The error `receive` returns for a read that does not deliver. */
  function ReadError(r: ReadResult): string
  {
    if r.ReadFailed? then r.err else ErrUnexpectedRequest
  }

  class Srv {
    var middleware: seq<Handler>
    var routes: map<string, seq<Handler>>

    ghost predicate Valid()
      reads this
    {
      NonEmptyRoutes(routes)
    }

    /** `New`: no middleware, an empty route table. The transport adapter is
        not part of this model. */
    constructor New()
      ensures middleware == [] && routes == map[]
      ensures Valid()
    {
      middleware := [];
      routes := map[];
    }

    /** `Use` appends to the global middleware, in argument order. */
    method Use(hs: seq<Handler>) returns (s: Srv)
      modifies this
      ensures s == this
      ensures middleware == old(middleware) + hs && routes == old(routes)
    {
      middleware := middleware + hs;
      s := this;
    }

    /** `Handle` registers `hs` under `cmd`; with no handlers it does nothing. */
    method Handle(cmd: string, hs: seq<Handler>) returns (s: Srv)
      requires Valid()
      modifies this
      ensures s == this && Valid()
      ensures routes == Registered(old(routes), cmd, hs) && middleware == old(middleware)
    {
      s := this;
      if |hs| == 0 {
        return;
      }
      var entry := hs;
      if cmd in routes {
        entry := routes[cmd] + hs;
      }
      routes := routes[cmd := entry];
      RegisteredKeepsNonEmpty(old(routes), cmd, hs);
    }

    /** `Group`: a group with no parent, on this router. */
    method Group(hs: seq<Handler>) returns (g: SrvGroup)
      ensures fresh(g)
      ensures g.parent == null && g.srv == this && g.middleware == hs
    {
      g := new SrvGroup(null, this, hs);
    }

    /** The goroutine body of `receive` for one message, run to completion:
        builds the context, assembles the chain, drives it until the abort
        flag is set, and pushes the response unless the command is a
        lifecycle command. The push is deferred, so it happens even when a
        panic escapes the chain (`crash`), which then ends the process. */
    method Dispatch(sid: string, req: Request) returns (resp: Response, pushed: seq<Response>, crash: Option<PanicValue>)
      ensures var r := DispatchSpec(middleware, routes, req);
              resp == r.cur.resp
              && (crash.Some? <==> r.out.Panicked?)
              && (crash.Some? ==> r.out == Panicked(crash.value))
      ensures pushed == if IsLifecycle(req.cmd) then [] else [resp]
    {
      var ctx := new Context(InitialResponse(req), sid, this);
      ghost var hs := ChainFor(middleware, routes, req.cmd);
      ctx.handlers := ChainFor(middleware, routes, req.cmd);
      ctx.handlerIndex := -1;
      ghost var goal := Drive(hs, ctx.Cur());
      crash := None;
      while !ctx.handlerAbort && ctx.handlerIndex < |ctx.handlers|
        invariant ctx.handlers == hs && ctx.Valid()
        invariant Drive(hs, ctx.Cur()).cur == goal.cur && Drive(hs, ctx.Cur()).out == goal.out
        decreases |hs| - ctx.handlerIndex + (if ctx.handlerAbort then 0 else 1)
      {
        var out, _ := ctx.Next();
        if out.Panicked? {
          crash := Some(out.value);
          break;
        }
      }
      resp := ctx.resp;
      pushed := if IsLifecycle(req.cmd) then [] else [resp];
    }

    /** `receive` over a finite script of reads: every delivered message is
        handed to its own `Dispatch` (`spawned`, in read order); the first
        failed read, or a nil request, ends the loop with an error. A script
        that runs out without either models a loop still waiting to read. */
    method Receive(script: seq<ReadResult>) returns (err: Option<string>, spawned: seq<(string, Request)>)
      ensures var n := FirstStop(script);
              && |spawned| == n
              && (forall i :: 0 <= i < n ==> spawned[i] == (script[i].sid, script[i].req))
              && (err.Some? <==> n < |script|)
              && (n < |script| ==> err == Some(ReadError(script[n])))
    {
      spawned := [];
      var i := 0;
      while i < |script|
        invariant 0 <= i <= |script| && i <= FirstStop(script)
        invariant |spawned| == i
        invariant forall j :: 0 <= j < i ==> spawned[j] == (script[j].sid, script[j].req)
        invariant FirstStop(script) == i + FirstStop(script[i..])
      {
        match script[i]
        case ReadFailed(e) =>
          err := Some(e);
          return;
        case ReadNothing =>
          err := Some(ErrUnexpectedRequest);
          return;
        case Delivered(sid, req) =>
          spawned := spawned + [(sid, req)];
        assert script[i..][1..] == script[i + 1..];
        i := i + 1;
      }
      err := None;
    }
  }

  /** A handler group: its own middleware, prepended (after its parent's) to
      the handlers it registers on the root router. */
  class SrvGroup {
    var parent: SrvGroup?
    var srv: Srv
    var middleware: seq<Handler>

    constructor (parent: SrvGroup?, srv: Srv, middleware: seq<Handler>)
      ensures this.parent == parent && this.srv == srv && this.middleware == middleware
    {
      this.parent := parent;
      this.srv := srv;
      this.middleware := middleware;
    }

    /** `Use` appends to this group's own middleware only. */
    method Use(hs: seq<Handler>) returns (g: SrvGroup)
      modifies this
      ensures g == this
      ensures middleware == old(middleware) + hs
      ensures parent == old(parent) && srv == old(srv)
    {
      middleware := middleware + hs;
      g := this;
    }

    /** `Group`: a child group of this one, on the same router. */
    method Group(hs: seq<Handler>) returns (g: SrvGroup)
      ensures fresh(g)
      ensures g.parent == this && g.srv == srv && g.middleware == hs
    {
      g := new SrvGroup(this, srv, hs);
    }

    /** `combineHandlers`: the parent's middleware (if there is a parent),
        this group's middleware, then `hs`. A grandparent's middleware is
        not included. */
    function CombineHandlers(hs: seq<Handler>): (r: seq<Handler>)
      reads this, parent
      ensures var pm := if parent != null then parent.middleware else [];
              && |r| == |pm| + |middleware| + |hs|
              && r[..|pm|] == pm
              && r[|pm|..|pm| + |middleware|] == middleware
              && r[|pm| + |middleware|..] == hs
    {
      var pm := if parent != null then parent.middleware else [];
      var r := pm + middleware + hs;
      assert r[|pm|..|pm| + |middleware|] == middleware;
      r
    }

    /** `Handle` registers the combined list under `cmd` on the root router. */
    method Handle(cmd: string, hs: seq<Handler>) returns (g: SrvGroup)
      requires srv.Valid()
      modifies srv
      ensures g == this && srv.Valid()
      ensures srv.routes == Registered(old(srv.routes), cmd, old(CombineHandlers(hs)))
      ensures srv.middleware == old(srv.middleware)
    {
      var combined := CombineHandlers(hs);
      var _ := srv.Handle(cmd, combined);
      g := this;
    }
  }
}
