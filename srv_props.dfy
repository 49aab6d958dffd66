/** Properties of the router: what a message is answered with, and how
    registration through the router and its groups shapes the chains. */
module RouterProps {
  import opened Types
  import opened Chain
  import opened ChainProps
  import opened Router

  /** An unregistered command, under middleware that writes nothing, is
      answered "unsupported" with no data, and pushed back unless it is a
      lifecycle command. */
  lemma UnregisteredAnswersUnsupported(middleware: seq<Handler>, routes: map<string, seq<Handler>>, req: Request)
    requires req.cmd !in routes
    requires forall j :: 0 <= j < |middleware| ==> Quiet(middleware[j])
    ensures var r := DispatchSpec(middleware, routes, req);
            && r.out == Normal
            && r.cur.resp.code == -1 && r.cur.resp.msg == MsgUnsupportCmd
            && r.cur.resp.data == EmptyStruct
  {
    var hs := ChainFor(middleware, routes, req.cmd);
    assert hs == middleware + [NotFound];
    assert forall j :: 0 <= j < |hs| ==> Quiet(hs[j]) by {
      forall j | 0 <= j < |hs| ensures Quiet(hs[j]) {
        if j < |middleware| { assert hs[j] == middleware[j]; }
      }
    }
    DriveKeepsUnsupported(hs, Cursor(InitialResponse(req), -1, false));
  }

  /** A chain in which no handler aborts or panics runs every handler of
      `middleware ++ routes[cmd]` (or of `middleware ++ [RouteNotFound]`)
      exactly once, in order. */
  lemma DispatchRunsWholeChain(middleware: seq<Handler>, routes: map<string, seq<Handler>>, req: Request)
    requires forall h :: h in middleware ==> Plain(h)
    requires req.cmd in routes ==> forall h :: h in routes[req.cmd] ==> Plain(h)
    ensures var hs := ChainFor(middleware, routes, req.cmd);
            var r := DispatchSpec(middleware, routes, req);
            r.out == Normal && r.cur.aborted && r.entered == Range(0, |hs|)
  {
    var hs := ChainFor(middleware, routes, req.cmd);
    forall h | h in hs ensures Plain(h) {
      var j :| 0 <= j < |hs| && hs[j] == h;
      if j < |middleware| {
        assert hs[j] == middleware[j] && middleware[j] in middleware;
      } else if req.cmd in routes {
        var route := routes[req.cmd];
        assert hs[j] == route[j - |middleware|] && route[j - |middleware|] in route;
      }
    }
    DispatchRunsEveryHandler(hs, InitialResponse(req));
  }

  /** The shape of TestSrv_Response: a middleware that only calls `Next`
      and a route whose handler makes one write (`OK`, `Resp` or `Err`).
      The pushed response carries exactly that write on top of the default
      one. */
  lemma RouteWriteIsAnswered(req: Request, s: Step)
    requires s.Ok? || s.SetResp? || s.SetErr?
    ensures var r := DispatchSpec([Script([CallNext])], map[req.cmd := [Script([s])]], req);
            r.out == Normal && r.cur.resp == Apply(s, Cursor(InitialResponse(req), 1, false)).resp
  {
    var hs := [Script([CallNext]), Script([s])];
    var routes := map[req.cmd := [Script([s])]];
    assert ChainFor([Script([CallNext])], routes, req.cmd) == hs;
    var c := Cursor(InitialResponse(req), -1, false);
    var c1 := Apply(s, c.(index := 1));
    assert [s][1..] == [];
    assert StepsSpec(hs, [s], c.(index := 1)) == Run(c1, Normal, []);
    assert NextSpec(hs, c.(index := 0)) == Run(c1, Normal, [1]);
    assert [CallNext][1..] == [];
    assert StepsSpec(hs, [], c1) == Run(c1, Normal, []);
    assert [1] + [] == [1];
    assert StepsSpec(hs, [CallNext], c.(index := 0)) == Run(c1, Normal, [1]);
    assert InvokeSpec(hs, hs[0], c.(index := 0)) == Run(c1, Normal, [1]);
    assert [0] + [1] == [0, 1];
    var r := NextSpec(hs, c);
    assert r == Run(c1, Normal, [0, 1]);
    var r2 := NextSpec(hs, r.cur);
    assert r2 == Run(c1.(aborted := true), Normal, []);
    assert Drive(hs, r2.cur) == Run(r2.cur, Normal, []);
    assert Drive(hs, r.cur).cur == r2.cur && Drive(hs, r.cur).out == Normal;
    assert Drive(hs, c).cur == r2.cur && Drive(hs, c).out == Normal;
    assert DispatchSpec([Script([CallNext])], routes, req) == Drive(hs, c);
  }

  /** Case "d" of TestSrv_Response: `c.Err(errors.New("err1"), 11)` answers
      Code 11, Msg "err1" and keeps the default empty Data. */
  lemma ErrAnswer(req: Request)
    ensures var r := DispatchSpec([Script([CallNext])], map[req.cmd := [Script([SetErr(Some("err1"), 11)])]], req);
            r.cur.resp.code == 11 && r.cur.resp.msg == "err1" && r.cur.resp.data == EmptyStruct
  {
    RouteWriteIsAnswered(req, SetErr(Some("err1"), 11));
  }

  /** Case "e" of TestSrv_Response: `c.Resp(12, "msg2", "data2")`. */
  lemma RespAnswer(req: Request)
    ensures var r := DispatchSpec([Script([CallNext])], map[req.cmd := [Script([SetResp(12, "msg2", Some(Str("data2")))])]], req);
            r.cur.resp.code == 12 && r.cur.resp.msg == "msg2" && r.cur.resp.data == Str("data2")
  {
    RouteWriteIsAnswered(req, SetResp(12, "msg2", Some(Str("data2"))));
  }

  /** Middleware is read when a message is dispatched, so `Use` after
      `Handle` still runs before the route's handlers. */
  method UseAfterHandle(m: Handler, h: Handler, cmd: string) returns (hs: seq<Handler>)
    ensures hs == [m, h]
  {
    var srv := new Srv.New();
    var _ := srv.Handle(cmd, [h]);
    var _ := srv.Use([m]);
    hs := ChainFor(srv.middleware, srv.routes, cmd);
  }

  /** Three nested groups: the route registered on the innermost one gets
      its parent's middleware and its own, but not its grandparent's. */
  method GrandparentDropped(a: Handler, b: Handler, c: Handler, h: Handler, cmd: string) returns (hs: seq<Handler>)
    ensures hs == [b, c, h]
  {
    var srv := new Srv.New();
    var g1 := srv.Group([a]);
    var g2 := g1.Group([b]);
    var g3 := g2.Group([c]);
    var _ := g3.Handle(cmd, [h]);
    hs := srv.routes[cmd];
  }

  /** The combined list is a fresh value: a `Use` on the group after
      `Handle` does not change the registered route. A group with
      middleware registers a route even with no handlers. */
  method GroupRouteIsSnapshot(a: Handler, b: Handler, cmd: string) returns (hs: seq<Handler>)
    ensures hs == [a]
  {
    var srv := new Srv.New();
    var g := srv.Group([a]);
    var _ := g.Handle(cmd, []);
    var _ := g.Use([b]);
    hs := srv.routes[cmd];
  }
}
