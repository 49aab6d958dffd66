/** Properties of the handler chain: the onion ordering of nested
    middleware, every handler entered exactly once and in order when nobody
    aborts, the default "unsupported" answer of a chain that writes nothing,
    and the behaviour of `Recover` and `internalPanicHandler`. */
module ChainProps {
  import opened Types
  import opened Chain

  /** lo, lo+1, ..., hi-1. */
  function Range(lo: int, hi: int): (r: seq<int>)
    ensures |r| == if lo < hi then hi - lo else 0
    ensures forall k :: 0 <= k < |r| ==> r[k] == lo + k
    decreases hi - lo
  {
    if lo >= hi then [] else [lo] + Range(lo + 1, hi)
  }

  /** `s` is lo, lo+1, ..., hi-1. */
  ghost predicate Consecutive(s: seq<int>, lo: int, hi: int)
  {
    lo <= hi && |s| == hi - lo && forall k :: 0 <= k < |s| ==> s[k] == lo + k
  }

  lemma ConsecutiveConcat(a: seq<int>, b: seq<int>, lo: int, mid: int, hi: int)
    requires Consecutive(a, lo, mid) && Consecutive(b, mid, hi)
    ensures Consecutive(a + b, lo, hi)
  {
    forall k | 0 <= k < |a + b|
      ensures (a + b)[k] == lo + k
    {
      if k >= |a| {
        assert (a + b)[k] == b[k - |a|];
      }
    }
  }

  lemma ConsecutiveIsRange(s: seq<int>, lo: int, hi: int)
    requires Consecutive(s, lo, hi)
    ensures s == Range(lo, hi)
  {
  }

  // ---------------------------------------------------------------------
  // The cursor only moves forward: each handler is entered at most once

  /** `s` is strictly increasing and every element lies in (lo, hi]. */
  ghost predicate Within(s: seq<int>, lo: int, hi: int)
  {
    && (forall k :: 0 <= k < |s| ==> lo < s[k] <= hi)
    && (forall j, k :: 0 <= j < k < |s| ==> s[j] < s[k])
  }

  /** Two such runs, one after the other, make one. */
  lemma WithinConcat(a: seq<int>, b: seq<int>, lo: int, mid: int, hi: int)
    requires Within(a, lo, mid) && Within(b, mid, hi) && lo <= mid <= hi
    ensures Within(a + b, lo, hi)
  {
    forall j, k | 0 <= j < k < |a + b|
      ensures (a + b)[j] < (a + b)[k]
    {
      if k < |a| {
      } else if j < |a| {
        assert (a + b)[j] <= mid < (a + b)[k];
      } else {
        assert (a + b)[j] == b[j - |a|] && (a + b)[k] == b[k - |a|];
      }
    }
  }

  lemma {:induction false} NextEntersIncreasing(hs: seq<Handler>, c: Cursor)
    requires -1 <= c.index < |hs|
    ensures var r := NextSpec(hs, c); Within(r.entered, c.index, r.cur.index)
    decreases |hs| - c.index, 0, 0
  {
    if !c.aborted && c.index < |hs| - 1 {
      var c1 := c.(index := c.index + 1);
      InvokeEntersIncreasing(hs, hs[c.index + 1], c1);
      var r := InvokeSpec(hs, hs[c.index + 1], c1);
      WithinConcat([c.index + 1], r.entered, c.index, c.index + 1, r.cur.index);
    }
  }

  lemma {:induction false} InvokeEntersIncreasing(hs: seq<Handler>, h: Handler, c: Cursor)
    requires 0 <= c.index < |hs|
    ensures var r := InvokeSpec(hs, h, c); Within(r.entered, c.index, r.cur.index)
    decreases |hs| - c.index, 3, 0
  {
    match h
    case Script(steps) => StepsEnterIncreasing(hs, steps, c);
    case NotFound =>
    case Recovery => NextEntersIncreasing(hs, c);
    case ExitGuard => NextEntersIncreasing(hs, c);
  }

  lemma {:induction false} StepsEnterIncreasing(hs: seq<Handler>, steps: seq<Step>, c: Cursor)
    requires -1 <= c.index < |hs|
    ensures var r := StepsSpec(hs, steps, c); Within(r.entered, c.index, r.cur.index)
    decreases |hs| - c.index, 1, |steps|
  {
    if steps != [] {
      if steps[0].CallNext? {
        NextEntersIncreasing(hs, c);
        var r := NextSpec(hs, c);
        if r.out.Normal? {
          StepsEnterIncreasing(hs, steps[1..], r.cur);
          var r2 := StepsSpec(hs, steps[1..], r.cur);
          WithinConcat(r.entered, r2.entered, c.index, r.cur.index, r2.cur.index);
        }
      } else if !steps[0].Raise? {
        StepsEnterIncreasing(hs, steps[1..], Apply(steps[0], c));
      }
    }
  }

  /** Over a whole dispatch, the handler indices entered are strictly
      increasing and lie within the chain: no handler runs twice. */
  lemma {:induction false} DriveEntersIncreasing(hs: seq<Handler>, c: Cursor)
    requires -1 <= c.index < |hs|
    ensures var r := Drive(hs, c); Within(r.entered, c.index, r.cur.index)
    decreases |hs| - c.index + (if c.aborted then 0 else 1)
  {
    if !c.aborted {
      NextEntersIncreasing(hs, c);
      var r := NextSpec(hs, c);
      if r.out.Normal? {
        DriveEntersIncreasing(hs, r.cur);
        var r2 := Drive(hs, r.cur);
        WithinConcat(r.entered, r2.entered, c.index, r.cur.index, r2.cur.index);
      }
    }
  }

  // ---------------------------------------------------------------------
  // The onion model

  /** A middleware `func(c) { c.Seqno += before; c.Next(); c.Seqno += after }`. */
  function Wrap(before: string, after: string): Handler
  {
    Script([Mark(before), CallNext, Mark(after)])
  }

  predicate IsWrap(h: Handler)
  {
    h.Script? && |h.steps| == 3 && h.steps[0].Mark? && h.steps[1] == CallNext && h.steps[2].Mark?
  }

  function Before(h: Handler): string
  {
    if IsWrap(h) then h.steps[0].s else ""
  }

  function After(h: Handler): string
  {
    if IsWrap(h) then h.steps[2].s else ""
  }

  /** The before-markers of hs[lo..hi], outermost first. */
  function Befores(hs: seq<Handler>, lo: int, hi: int): string
    requires 0 <= lo && hi <= |hs|
    decreases hi - lo
  {
    if lo >= hi then "" else Before(hs[lo]) + Befores(hs, lo + 1, hi)
  }

  /** The after-markers of hs[lo..hi], innermost first. */
  function Afters(hs: seq<Handler>, lo: int, hi: int): string
    requires 0 <= lo && hi <= |hs|
    decreases hi - lo
  {
    if lo >= hi then "" else Afters(hs, lo + 1, hi) + After(hs[lo])
  }

  /** The run `inner`, followed by appending the after-markers `tail` unless
      it panicked, with the indices `prefix` entered before it. */
  function Unwound(inner: Run, tail: string, prefix: seq<int>): Run
  {
    Run(if inner.out.Normal? then inner.cur.(resp := inner.cur.resp.(seqno := inner.cur.resp.seqno + tail)) else inner.cur,
        inner.out,
        prefix + inner.entered)
  }

  function WithSeqno(c: Cursor, s: string): Cursor
  {
    c.(resp := c.resp.(seqno := s))
  }

  /** The body of a wrapping middleware, once entered. */
  lemma WrapBody(hs: seq<Handler>, b: string, a: string, c: Cursor)
    requires -1 <= c.index < |hs|
    ensures StepsSpec(hs, [Mark(b), CallNext, Mark(a)], c) == Unwound(NextSpec(hs, WithSeqno(c, c.resp.seqno + b)), a, [])
  {
    var c1 := WithSeqno(c, c.resp.seqno + b);
    assert Apply(Mark(b), c) == c1;
    assert [Mark(b), CallNext, Mark(a)][1..] == [CallNext, Mark(a)];
    assert [CallNext, Mark(a)][1..] == [Mark(a)];
    var r1 := NextSpec(hs, c1);
    if r1.out.Normal? {
      assert StepsSpec(hs, [Mark(a)], r1.cur) == Run(WithSeqno(r1.cur, r1.cur.resp.seqno + a), Normal, []);
      assert r1.entered + [] == r1.entered;
    }
  }

  /** Entering one wrapping middleware at index lo. */
  lemma WrapStep(hs: seq<Handler>, lo: int, c: Cursor)
    requires 0 <= lo < |hs| && IsWrap(hs[lo])
    requires c.index == lo - 1 && !c.aborted
    ensures NextSpec(hs, c) == Unwound(NextSpec(hs, WithSeqno(c.(index := lo), c.resp.seqno + Before(hs[lo]))), After(hs[lo]), [lo])
  {
    var h := hs[lo];
    assert h == Script([Mark(Before(h)), CallNext, Mark(After(h))]);
    WrapBody(hs, Before(h), After(h), c.(index := lo));
  }

  lemma StringAssoc(a: string, b: string, c: string)
    ensures (a + b) + c == a + (b + c)
  {
  }

  /** Peeling the outermost middleware off hs[lo..hi]. */
  lemma NestStep(hs: seq<Handler>, lo: int, hi: int)
    requires 0 <= lo < hi <= |hs|
    ensures Befores(hs, lo, hi) == Before(hs[lo]) + Befores(hs, lo + 1, hi)
    ensures Afters(hs, lo, hi) == Afters(hs, lo + 1, hi) + After(hs[lo])
    ensures Range(lo, hi) == [lo] + Range(lo + 1, hi)
  {
  }

  lemma UnwoundTwice(inner: Run, t1: string, p1: seq<int>, t2: string, p2: seq<int>)
    ensures Unwound(Unwound(inner, t1, p1), t2, p2) == Unwound(inner, t1 + t2, p2 + p1)
  {
    assert inner.cur.resp.seqno + t1 + t2 == inner.cur.resp.seqno + (t1 + t2);
    assert p2 + (p1 + inner.entered) == (p2 + p1) + inner.entered;
  }

  /** Entering a run of wrapping middleware hs[lo..hi]: their before-code runs
      in registration order, then the inner call from index hi-1, then (unless
      it panicked) their after-code in reverse order. */
  lemma {:induction false} WrappersNest(hs: seq<Handler>, lo: int, hi: int, c: Cursor)
    requires 0 <= lo <= hi <= |hs|
    requires forall j :: lo <= j < hi ==> IsWrap(hs[j])
    requires c.index == lo - 1 && !c.aborted
    ensures NextSpec(hs, c) ==
              Unwound(NextSpec(hs, WithSeqno(c, c.resp.seqno + Befores(hs, lo, hi)).(index := hi - 1)),
                      Afters(hs, lo, hi), Range(lo, hi))
    decreases hi - lo
  {
    if lo == hi {
      assert WithSeqno(c, c.resp.seqno + Befores(hs, lo, hi)).(index := hi - 1) == c;
      var r := NextSpec(hs, c);
      assert r.cur.(resp := r.cur.resp.(seqno := r.cur.resp.seqno + "")) == r.cur;
      assert [] + r.entered == r.entered;
    } else {
      var c1 := WithSeqno(c.(index := lo), c.resp.seqno + Before(hs[lo]));
      WrapStep(hs, lo, c);
      WrappersNest(hs, lo + 1, hi, c1);
      NestStep(hs, lo, hi);
      StringAssoc(c.resp.seqno, Before(hs[lo]), Befores(hs, lo + 1, hi));
      var target := WithSeqno(c, c.resp.seqno + Befores(hs, lo, hi)).(index := hi - 1);
      UnwoundTwice(NextSpec(hs, target), Afters(hs, lo + 1, hi), Range(lo + 1, hi), After(hs[lo]), [lo]);
    }
  }

  /** The chain of srv_test.go:73-116 for command "c": two global middleware,
      the group middleware of srvG1 and of its child srvG2, and a route
      handler that does not call Next. Before-code runs outward-in and
      after-code inward-out. The test also registers `AccessLogger` twice,
      `Heartbeat` and `Recover()` first; each of them only calls Next and
      appends no marker, so they are left out here and the indices count
      from the first marking middleware. */
  lemma NestedGroupsOrder(req: Request)
    ensures var hs := [Wrap("a", "b"), Wrap("c", "d"), Wrap("e", "f"), Wrap("g", "h"), Script([])];
            var r := Drive(hs, Cursor(Response(req, req.cmd, "", -1, MsgUnsupportCmd, EmptyStruct), -1, false));
            r.cur.resp.seqno == "aceghfdb" && r.out == Normal && r.entered == [0, 1, 2, 3, 4]
  {
    var hs := [Wrap("a", "b"), Wrap("c", "d"), Wrap("e", "f"), Wrap("g", "h"), Script([])];
    var c := Cursor(Response(req, req.cmd, "", -1, MsgUnsupportCmd, EmptyStruct), -1, false);
    WrappersNest(hs, 0, 4, c);
    assert Befores(hs, 0, 4) == "aceg";
    assert Afters(hs, 0, 4) == "hfdb";
    assert c.resp.seqno + Befores(hs, 0, 4) == "aceg";
    var target := WithSeqno(c, "aceg").(index := 3);
    assert NextSpec(hs, c) == Unwound(NextSpec(hs, target), "hfdb", Range(0, 4));
    var inner := NextSpec(hs, target);
    assert InvokeSpec(hs, Script([]), target.(index := 4)) == Run(target.(index := 4), Normal, []);
    assert inner == Run(target.(index := 4), Normal, [4]);
    assert Range(0, 4) == [0, 1, 2, 3];
    assert Unwound(inner, "hfdb", [0, 1, 2, 3]) == Run(WithSeqno(target.(index := 4), "aceghfdb"), Normal, [0, 1, 2, 3, 4]);
    var r := NextSpec(hs, c);
    assert r == Run(WithSeqno(target.(index := 4), "aceghfdb"), Normal, [0, 1, 2, 3, 4]);
    var r2 := NextSpec(hs, r.cur);
    assert r2 == Run(r.cur.(aborted := true), Normal, []);
    assert Drive(hs, r2.cur) == Run(r2.cur, Normal, []);
    assert Drive(hs, r.cur) == Run(r2.cur, Normal, []);
  }

  /** The chain of srv_test.go for command "d": `Recover()` registered before
      the onion middleware, and a route handler that panics with a string.
      The panic unwinds every after-marker, so the assertion of
      srv_test.go:85 (which expects "aceijfdb") is never reached; the
      recovered response carries Code -2 and the panic text. */
  lemma PanicSkipsAfterCode(req: Request)
    ensures var hs := [Recovery, Wrap("a", "b"), Wrap("c", "d"), Wrap("e", "f"), Wrap("i", "j"),
                       Script([Raise(PStr("test panic recover"))])];
            var r := Drive(hs, Cursor(Response(req, req.cmd, "", -1, MsgUnsupportCmd, EmptyStruct), -1, false));
            && r.out == Normal && r.cur.aborted
            && r.cur.resp.seqno == "acei"
            && r.cur.resp.code == -2 && r.cur.resp.msg == "test panic recover"
  {
    var hs := [Recovery, Wrap("a", "b"), Wrap("c", "d"), Wrap("e", "f"), Wrap("i", "j"),
               Script([Raise(PStr("test panic recover"))])];
    var c := Cursor(Response(req, req.cmd, "", -1, MsgUnsupportCmd, EmptyStruct), -1, false);
    var c0 := c.(index := 0);
    WrappersNest(hs, 1, 5, c0);
    assert Befores(hs, 1, 5) == "acei";
    assert c0.resp.seqno + Befores(hs, 1, 5) == "acei";
    var target := WithSeqno(c0, "acei").(index := 4);
    assert NextSpec(hs, c0) == Unwound(NextSpec(hs, target), Afters(hs, 1, 5), Range(1, 5));
    var last := Script([Raise(PStr("test panic recover"))]);
    assert InvokeSpec(hs, last, target.(index := 5)) == Run(target.(index := 5), Panicked(PStr("test panic recover")), []);
    var inner := NextSpec(hs, target);
    assert inner == Run(target.(index := 5), Panicked(PStr("test panic recover")), [5]);
    assert Unwound(inner, Afters(hs, 1, 5), Range(1, 5)).cur == inner.cur;
    var rin := NextSpec(hs, c0);
    assert rin.out == Panicked(PStr("test panic recover")) && rin.cur == target.(index := 5);
    var rec := InvokeSpec(hs, Recovery, c0);
    assert rec.cur.index == 5 && !rec.cur.aborted && rec.out == Normal;
    assert rec.cur.resp == Recovered(target.resp, PStr("test panic recover"));
    var r := NextSpec(hs, c);
    assert r.cur == rec.cur && r.out == Normal;
    var r2 := NextSpec(hs, r.cur);
    assert r2 == Run(r.cur.(aborted := true), Normal, []);
    assert Drive(hs, r2.cur) == Run(r2.cur, Normal, []);
    assert Drive(hs, r.cur) == Run(r2.cur, Normal, []);
  }

  // ---------------------------------------------------------------------
  // Every handler runs exactly once, in order, when nobody aborts

  /** A statement that neither calls Abort nor panics. */
  predicate Calm(s: Step)
  {
    !s.DoAbort? && !s.Raise?
  }

  /** No statement of the handler calls Abort or panics. */
  predicate Plain(h: Handler)
  {
    h.Script? ==> forall s :: s in h.steps ==> Calm(s)
  }

  /** The statements after the first of a quiet script are quiet. */
  lemma CalmTail(steps: seq<Step>)
    requires steps != []
    requires forall s :: s in steps ==> Calm(s)
    ensures Calm(steps[0]) && forall s :: s in steps[1..] ==> Calm(s)
  {
    assert steps[0] in steps;
    forall s | s in steps[1..]
      ensures Calm(s)
    {
      var k :| 0 <= k < |steps[1..]| && steps[1..][k] == s;
      assert steps[k + 1] in steps;
    }
  }

  /** One statement of a script, when it is not a panic. */
  lemma StepsUnfold(hs: seq<Handler>, steps: seq<Step>, c: Cursor)
    requires -1 <= c.index < |hs| && steps != [] && !steps[0].Raise?
    ensures !steps[0].CallNext? ==> StepsSpec(hs, steps, c) == StepsSpec(hs, steps[1..], Apply(steps[0], c))
    ensures steps[0].CallNext? && NextSpec(hs, c).out.Normal? ==>
              var r := NextSpec(hs, c);
              var r2 := StepsSpec(hs, steps[1..], r.cur);
              StepsSpec(hs, steps, c) == Run(r2.cur, r2.out, r.entered + r2.entered)
  {
  }

  /** One round of the dispatch loop, when the handler entered returns. */
  lemma DriveUnfold(hs: seq<Handler>, c: Cursor)
    requires -1 <= c.index < |hs| && !c.aborted && NextSpec(hs, c).out.Normal?
    ensures var r := NextSpec(hs, c);
            var r2 := Drive(hs, r.cur);
            Drive(hs, c) == Run(r2.cur, r2.out, r.entered + r2.entered)
  {
  }

  lemma {:induction false} NextEntersInOrder(hs: seq<Handler>, c: Cursor)
    requires -1 <= c.index < |hs|
    requires forall h :: h in hs ==> Plain(h)
    requires c.aborted ==> c.index == |hs| - 1
    ensures var r := NextSpec(hs, c);
            && r.out == Normal
            && Consecutive(r.entered, c.index + 1, r.cur.index + 1)
            && (r.cur.aborted ==> r.cur.index == |hs| - 1)
    decreases |hs| - c.index, 0, 0
  {
    if !c.aborted && c.index < |hs| - 1 {
      assert hs[c.index + 1] in hs;
      InvokeEntersInOrder(hs, hs[c.index + 1], c.(index := c.index + 1));
      var r := InvokeSpec(hs, hs[c.index + 1], c.(index := c.index + 1));
      ConsecutiveConcat([c.index + 1], r.entered, c.index + 1, c.index + 2, r.cur.index + 1);
    }
  }

  lemma {:induction false} InvokeEntersInOrder(hs: seq<Handler>, h: Handler, c: Cursor)
    requires 0 <= c.index < |hs|
    requires forall h :: h in hs ==> Plain(h)
    requires Plain(h)
    requires c.aborted ==> c.index == |hs| - 1
    ensures var r := InvokeSpec(hs, h, c);
            && r.out == Normal
            && Consecutive(r.entered, c.index + 1, r.cur.index + 1)
            && (r.cur.aborted ==> r.cur.index == |hs| - 1)
    decreases |hs| - c.index, 3, 0
  {
    match h
    case Script(steps) => StepsEnterInOrder(hs, steps, c);
    case NotFound =>
    case Recovery => NextEntersInOrder(hs, c);
    case ExitGuard => NextEntersInOrder(hs, c);
  }

  lemma {:induction false} StepsEnterInOrder(hs: seq<Handler>, steps: seq<Step>, c: Cursor)
    requires -1 <= c.index < |hs|
    requires forall h :: h in hs ==> Plain(h)
    requires forall s :: s in steps ==> Calm(s)
    requires c.aborted ==> c.index == |hs| - 1
    ensures var r := StepsSpec(hs, steps, c);
            && r.out == Normal
            && Consecutive(r.entered, c.index + 1, r.cur.index + 1)
            && (r.cur.aborted ==> r.cur.index == |hs| - 1)
    decreases |hs| - c.index, 1, |steps|
  {
    if steps != [] {
      CalmTail(steps);
      StepsUnfold(hs, steps, c);
      if steps[0].CallNext? {
        NextEntersInOrder(hs, c);
        var r := NextSpec(hs, c);
        StepsEnterInOrder(hs, steps[1..], r.cur);
        var r2 := StepsSpec(hs, steps[1..], r.cur);
        ConsecutiveConcat(r.entered, r2.entered, c.index + 1, r.cur.index + 1, r2.cur.index + 1);
      } else {
        StepsEnterInOrder(hs, steps[1..], Apply(steps[0], c));
      }
    }
  }

  lemma {:induction false} DriveEntersInOrder(hs: seq<Handler>, c: Cursor)
    requires -1 <= c.index < |hs|
    requires forall h :: h in hs ==> Plain(h)
    requires c.aborted ==> c.index == |hs| - 1
    ensures var r := Drive(hs, c);
            r.out == Normal && r.cur.aborted && Consecutive(r.entered, c.index + 1, |hs|)
    decreases |hs| - c.index + (if c.aborted then 0 else 1)
  {
    if !c.aborted {
      NextEntersInOrder(hs, c);
      var r := NextSpec(hs, c);
      DriveEntersInOrder(hs, r.cur);
      DriveUnfold(hs, c);
      ConsecutiveConcat(r.entered, Drive(hs, r.cur).entered, c.index + 1, r.cur.index + 1, |hs|);
    }
  }

  /** The dispatch loop over a chain in which no handler aborts or panics
      runs every handler exactly once, in list order, even those that follow
      a middleware that never calls Next; it ends with the abort flag set. */
  lemma DispatchRunsEveryHandler(hs: seq<Handler>, resp: Response)
    requires forall h :: h in hs ==> Plain(h)
    ensures var r := Drive(hs, Cursor(resp, -1, false));
            r.out == Normal && r.cur.aborted && r.entered == Range(0, |hs|)
  {
    DriveEntersInOrder(hs, Cursor(resp, -1, false));
    ConsecutiveIsRange(Drive(hs, Cursor(resp, -1, false)).entered, 0, |hs|);
  }

  // ---------------------------------------------------------------------
  // A chain that writes nothing answers "unsupported"

  predicate Unsupported(r: Response)
  {
    r.code == -1 && r.msg == MsgUnsupportCmd
  }

  /** Writes no Code/Msg/Data and never panics (RouteNotFound writes the
      "unsupported" answer itself). */
  predicate Quiet(h: Handler)
  {
    h.Script? ==> forall k :: 0 <= k < |h.steps| ==> h.steps[k].Mark? || h.steps[k].CallNext? || h.steps[k].DoAbort?
  }

  lemma {:induction false} NextKeepsUnsupported(hs: seq<Handler>, c: Cursor)
    requires -1 <= c.index < |hs|
    requires forall j :: 0 <= j < |hs| ==> Quiet(hs[j])
    requires Unsupported(c.resp)
    ensures var r := NextSpec(hs, c);
            r.out == Normal && Unsupported(r.cur.resp) && r.cur.resp.data == c.resp.data
    decreases |hs| - c.index, 0, 0
  {
    if !c.aborted && c.index < |hs| - 1 {
      InvokeKeepsUnsupported(hs, hs[c.index + 1], c.(index := c.index + 1));
    }
  }

  lemma {:induction false} InvokeKeepsUnsupported(hs: seq<Handler>, h: Handler, c: Cursor)
    requires 0 <= c.index < |hs|
    requires forall j :: 0 <= j < |hs| ==> Quiet(hs[j])
    requires Quiet(h)
    requires Unsupported(c.resp)
    ensures var r := InvokeSpec(hs, h, c);
            r.out == Normal && Unsupported(r.cur.resp) && r.cur.resp.data == c.resp.data
    decreases |hs| - c.index, 3, 0
  {
    match h
    case Script(steps) => StepsKeepUnsupported(hs, steps, c);
    case NotFound =>
    case Recovery => NextKeepsUnsupported(hs, c);
    case ExitGuard => NextKeepsUnsupported(hs, c);
  }

  lemma {:induction false} StepsKeepUnsupported(hs: seq<Handler>, steps: seq<Step>, c: Cursor)
    requires -1 <= c.index < |hs|
    requires forall j :: 0 <= j < |hs| ==> Quiet(hs[j])
    requires forall k :: 0 <= k < |steps| ==> steps[k].Mark? || steps[k].CallNext? || steps[k].DoAbort?
    requires Unsupported(c.resp)
    ensures var r := StepsSpec(hs, steps, c);
            r.out == Normal && Unsupported(r.cur.resp) && r.cur.resp.data == c.resp.data
    decreases |hs| - c.index, 1, |steps|
  {
    if steps != [] {
      assert steps[0].Mark? || steps[0].CallNext? || steps[0].DoAbort?;
      if steps[0].CallNext? {
        NextKeepsUnsupported(hs, c);
        StepsKeepUnsupported(hs, steps[1..], NextSpec(hs, c).cur);
      } else {
        StepsKeepUnsupported(hs, steps[1..], Apply(steps[0], c));
      }
    }
  }

  /** Running a quiet chain to the end leaves an "unsupported" response
      "unsupported", with its Data untouched. */
  lemma {:induction false} DriveKeepsUnsupported(hs: seq<Handler>, c: Cursor)
    requires -1 <= c.index < |hs|
    requires forall j :: 0 <= j < |hs| ==> Quiet(hs[j])
    requires Unsupported(c.resp)
    ensures var r := Drive(hs, c);
            r.out == Normal && Unsupported(r.cur.resp) && r.cur.resp.data == c.resp.data
    decreases |hs| - c.index + (if c.aborted then 0 else 1)
  {
    if !c.aborted {
      NextKeepsUnsupported(hs, c);
      DriveKeepsUnsupported(hs, NextSpec(hs, c).cur);
    }
  }

  // ---------------------------------------------------------------------
  // Recover and internalPanicHandler

  /** `Recover` never lets a panic through: without a panic it is exactly
      `Next`; with one, the cursor is the one `Next` left and the response is
      rewritten from the panic value. */
  lemma RecoverAbsorbs(hs: seq<Handler>, c: Cursor)
    requires 0 <= c.index < |hs|
    ensures var inner := NextSpec(hs, c);
            var r := InvokeSpec(hs, Recovery, c);
            && r.out == Normal
            && r.entered == inner.entered
            && r.cur.index == inner.cur.index && r.cur.aborted == inner.cur.aborted
            && (inner.out.Normal? ==> r == inner)
            && (inner.out.Panicked? ==> r.cur.resp == Recovered(inner.cur.resp, inner.out.value))
  {
  }

  /** `internalPanicHandler` absorbs exactly the panics of type `internalPanic`
      and re-raises every other value unchanged; without a panic it is `Next`. */
  lemma ExitGuardAbsorbsOnlyInternal(hs: seq<Handler>, c: Cursor)
    requires 0 <= c.index < |hs|
    ensures var inner := NextSpec(hs, c);
            var r := InvokeSpec(hs, ExitGuard, c);
            && r.cur == inner.cur && r.entered == inner.entered
            && (r.out.Normal? <==> (inner.out.Normal? || inner.out.value.PInternal?))
            && (r.out.Panicked? ==> r.out == inner.out)
  {
  }

  /** An early exit (a panic with `internalExitPanic`) under
      `internalPanicHandler`: the writes made before it are kept, the code
      after it never runs, and the chain ends normally. */
  lemma ExitKeepsEarlierWrites(req: Request)
    ensures var hs := [ExitGuard, Script([Ok(Some(Int(7))), Raise(InternalExitPanic), SetResp(1, "late", None)])];
            var r := Drive(hs, Cursor(Response(req, req.cmd, req.seqno, -1, MsgUnsupportCmd, EmptyStruct), -1, false));
            && r.out == Normal
            && r.cur.resp.code == 0 && r.cur.resp.msg == MsgOk && r.cur.resp.data == Int(7)
  {
    var steps := [Ok(Some(Int(7))), Raise(InternalExitPanic), SetResp(1, "late", None)];
    var hs := [ExitGuard, Script(steps)];
    var c := Cursor(Response(req, req.cmd, req.seqno, -1, MsgUnsupportCmd, EmptyStruct), -1, false);
    var c1 := c.(index := 1);
    var c1' := Apply(steps[0], c1);
    assert steps[1..][0] == Raise(InternalExitPanic);
    assert StepsSpec(hs, steps[1..], c1') == Run(c1', Panicked(InternalExitPanic), []);
    assert StepsSpec(hs, steps, c1) == Run(c1', Panicked(InternalExitPanic), []);
    assert NextSpec(hs, c.(index := 0)) == Run(c1', Panicked(InternalExitPanic), [1]);
    assert InvokeSpec(hs, ExitGuard, c.(index := 0)) == Run(c1', Normal, [1]);
    var r := NextSpec(hs, c);
    assert r == Run(c1', Normal, [0, 1]);
    var r2 := NextSpec(hs, r.cur);
    assert r2 == Run(c1'.(aborted := true), Normal, []);
    assert Drive(hs, r2.cur) == Run(r2.cur, Normal, []);
  }
}
