/** The JavaScript SDK's event emitter: a map from event type to the list
    of listeners, with `on`, `off` and `emit`. Listeners are identified by
    number; what a listener does when called is given as the registrations
    and removals it makes on the same emitter. */
module Emitters {
  import opened Types

  /** A listener function. */
  type Fn = nat

  /** A call a listener makes on the emitter while it runs. */
  datatype Op = On(t: string, h: Fn) | Off(t: string, h: Fn)

  /** One listener call made by `emit`: with `(evt)` for the type's own
      listeners, with `(type, evt)` for the '*' listeners. */
  datatype Call = Call(h: Fn, withType: bool)

  const Star: string := "*"

  /** The listeners of `t`, none for an unknown type (`get(type) || []`). */
  function Get(m: map<string, seq<Fn>>, t: string): seq<Fn>
  {
    if t in m then m[t] else []
  }

  /** The position of the first `h` in `l`, or |l| when absent: the
      `indexOf(h) >>> 0` of `Emiter.off`, where -1 becomes 2^32-1, which is
      past the end of any list. */
  function IndexOf(l: seq<Fn>, h: Fn): (i: nat)
    ensures i <= |l|
    ensures i < |l| ==> l[i] == h
    ensures forall k :: 0 <= k < i ==> l[k] != h
  {
    if l == [] then 0 else if l[0] == h then 0 else 1 + IndexOf(l[1..], h)
  }

  /** `on(type, handler)`; a falsy type is "" and a falsy handler None. */
  function OnSpec(m: map<string, seq<Fn>>, t: string, h: Option<Fn>): (m': map<string, seq<Fn>>)
    ensures t == "" || h.None? ==> m' == m
    ensures t != "" && h.Some? ==> t in m' && m'[t] == Get(m, t) + [h.value]
    ensures forall u :: u != t ==> (u in m' <==> u in m) && (u in m ==> m'[u] == m[u])
    ensures t in m ==> t in m'
  {
    if t == "" || h.None? then m
    else m[t := Get(m, t) + [h.value]]
  }

  /** `off(type, handler)`: removes the first occurrence, if any; an
      emptied list stays in the map. */
  function OffSpec(m: map<string, seq<Fn>>, t: string, h: Option<Fn>): (m': map<string, seq<Fn>>)
    ensures m'.Keys == m.Keys
    ensures t == "" || h.None? || t !in m ==> m' == m
    ensures t != "" && h.Some? && t in m ==> multiset(m'[t]) == multiset(m[t]) - multiset{h.value}
    ensures t != "" && h.Some? && t in m && h.value !in m[t] ==> m' == m
    ensures forall u :: u in m && u != t ==> m'[u] == m[u]
  {
    if t == "" || h.None? || t !in m then m
    else
      var l := m[t];
      var i := IndexOf(l, h.value);
      if i < |l| then
        assert l == l[..i] + [l[i]] + l[i + 1..];
        m[t := l[..i] + l[i + 1..]]
      else
        assert h.value !in multiset(l);
        m
  }

  /** The emitter after the calls a listener makes. */
  function ApplyOps(m: map<string, seq<Fn>>, ops: seq<Op>): map<string, seq<Fn>>
    decreases |ops|
  {
    if ops == [] then m
    else
      var m1 := match ops[0]
        case On(t, h) => OnSpec(m, t, Some(h))
        case Off(t, h) => OffSpec(m, t, Some(h));
      ApplyOps(m1, ops[1..])
  }

  /** Calling every listener of the snapshot `fns` in order. */
  function CallAll(fns: seq<Fn>, m: map<string, seq<Fn>>, react: Fn -> seq<Op>, withType: bool): (r: (map<string, seq<Fn>>, seq<Call>))
    ensures |r.1| == |fns|
    ensures forall k :: 0 <= k < |fns| ==> r.1[k] == Call(fns[k], withType)
    decreases |fns|
  {
    if fns == [] then (m, [])
    else
      var tail := CallAll(fns[1..], ApplyOps(m, react(fns[0])), react, withType);
      (tail.0, [Call(fns[0], withType)] + tail.1)
  }

  /** `emit(type, evt)`: the type's listeners, copied before the first is
      called; then the '*' listeners, copied after the first loop. */
  function EmitSpec(m: map<string, seq<Fn>>, t: string, react: Fn -> seq<Op>): (r: (map<string, seq<Fn>>, seq<Call>))
  {
    var first := CallAll(Get(m, t), m, react, false);
    var second := CallAll(Get(first.0, Star), first.0, react, true);
    (second.0, first.1 + second.1)
  }

  class Emitter {
    var listeners: map<string, seq<Fn>>

    constructor ()
      ensures listeners == map[]
    {
      listeners := map[];
    }

    method On(t: string, h: Option<Fn>)
      modifies this
      ensures listeners == OnSpec(old(listeners), t, h)
    {
      if t == "" || h.None? {
        return;
      }
      if t in listeners {
        listeners := listeners[t := listeners[t] + [h.value]];
      } else {
        assert Get(listeners, t) + [h.value] == [h.value];
        listeners := listeners[t := [h.value]];
      }
    }

    method Off(t: string, h: Option<Fn>)
      modifies this
      ensures listeners == OffSpec(old(listeners), t, h)
    {
      if t == "" || h.None? {
        return;
      }
      if t in listeners {
        var hs := listeners[t];
        var i := 0;
        while i < |hs| && hs[i] != h.value
          invariant 0 <= i <= |hs|
          invariant forall k :: 0 <= k < i ==> hs[k] != h.value
        {
          i := i + 1;
        }
        IndexOfIsFirst(hs, h.value, i);
        if i < |hs| {
          listeners := listeners[t := hs[..i] + hs[i + 1..]];
        }
      }
    }

    /** Runs one listener: its calls on the emitter, in order. */
    method Run(ops: seq<Op>)
      modifies this
      ensures listeners == ApplyOps(old(listeners), ops)
    {
      var j := 0;
      while j < |ops|
        invariant 0 <= j <= |ops|
        invariant ApplyOps(old(listeners), ops) == ApplyOps(listeners, ops[j..])
      {
        assert ops[j..][1..] == ops[j + 1..];
        match ops[j] {
          case On(t, h) => On(t, Some(h));
          case Off(t, h) => Off(t, Some(h));
        }
        j := j + 1;
      }
    }

    /** Calls every listener of a snapshot, in order. */
    method CallEach(fns: seq<Fn>, react: Fn -> seq<Op>, withType: bool) returns (calls: seq<Call>)
      modifies this
      ensures (listeners, calls) == CallAll(fns, old(listeners), react, withType)
    {
      calls := [];
      var i := 0;
      assert fns[0..] == fns;
      assert calls + CallAll(fns, listeners, react, withType).1 == CallAll(fns, listeners, react, withType).1;
      while i < |fns|
        invariant 0 <= i <= |fns|
        invariant CallAll(fns, old(listeners), react, withType)
                  == (CallAll(fns[i..], listeners, react, withType).0, calls + CallAll(fns[i..], listeners, react, withType).1)
      {
        assert fns[i..][1..] == fns[i + 1..];
        ghost var next := CallAll(fns[i + 1..], ApplyOps(listeners, react(fns[i])), react, withType);
        assert CallAll(fns[i..], listeners, react, withType) == (next.0, [Call(fns[i], withType)] + next.1);
        assert calls + ([Call(fns[i], withType)] + next.1) == (calls + [Call(fns[i], withType)]) + next.1;
        calls := calls + [Call(fns[i], withType)];
        Run(react(fns[i]));
        i := i + 1;
      }
      assert fns[i..] == [];
      assert calls + [] == calls;
    }

    method Emit(t: string, react: Fn -> seq<Op>) returns (calls: seq<Call>)
      modifies this
      ensures (listeners, calls) == EmitSpec(old(listeners), t, react)
    {
      var own := Get(listeners, t);
      var c1 := CallEach(own, react, false);
      var stars := Get(listeners, Star);
      var c2 := CallEach(stars, react, true);
      calls := c1 + c2;
    }
  }

  lemma IndexOfIsFirst(l: seq<Fn>, h: Fn, i: nat)
    requires i <= |l| && (i < |l| ==> l[i] == h)
    requires forall k :: 0 <= k < i ==> l[k] != h
    ensures IndexOf(l, h) == i
  {
  }

  /** `off` undoes `on` for a listener that was not yet registered, except
      that a list created by `on` stays behind, empty. */
  lemma OffUndoesOn(m: map<string, seq<Fn>>, t: string, h: Fn)
    requires t != "" && h !in Get(m, t)
    ensures OffSpec(OnSpec(m, t, Some(h)), t, Some(h)) == if t in m then m else m[t := []]
  {
    var l := Get(m, t);
    OnThenOff(m, t, l, h);
    if t in m {
      assert m[t := l] == m;
    }
  }

  lemma OnThenOff(m: map<string, seq<Fn>>, t: string, l: seq<Fn>, h: Fn)
    requires t != "" && l == Get(m, t) && h !in l
    ensures OffSpec(OnSpec(m, t, Some(h)), t, Some(h)) == m[t := l]
  {
    var m1 := OnSpec(m, t, Some(h));
    assert m1 == m[t := l + [h]];
    OffLast(m1, t, l, h);
    assert m1[t := l] == m[t := l];
  }

  /** `off` of a handler found only at the end of the list drops that end. */
  lemma OffLast(m: map<string, seq<Fn>>, t: string, l: seq<Fn>, h: Fn)
    requires t != "" && t in m && m[t] == l + [h] && h !in l
    ensures OffSpec(m, t, Some(h)) == m[t := l]
  {
    IndexOfIsFirst(l + [h], h, |l|);
    assert (l + [h])[..|l|] + (l + [h])[|l| + 1..] == l;
  }

  /** `off` removes exactly the first occurrence: the part before it and
      the part after it are kept in order. */
  lemma OffRemovesFirst(m: map<string, seq<Fn>>, t: string, h: Fn, i: nat)
    requires t != "" && t in m && i < |m[t]| && m[t][i] == h
    requires forall k :: 0 <= k < i ==> m[t][k] != h
    ensures OffSpec(m, t, Some(h))[t] == m[t][..i] + m[t][i + 1..]
  {
    IndexOfIsFirst(m[t], h, i);
  }

  /** The listeners called for the type itself are exactly those registered
      when `emit` starts, in registration order, whatever they do to the
      emitter while they run. */
  lemma EmitCallsSnapshot(m: map<string, seq<Fn>>, t: string, react: Fn -> seq<Op>)
    ensures var calls := EmitSpec(m, t, react).1;
            var own := Get(m, t);
            && |calls| >= |own|
            && forall k :: 0 <= k < |own| ==> calls[k] == Call(own[k], false)
  {
  }

  /** Listeners that make no calls on the emitter leave it unchanged, and
      `emit` calls the type's listeners, then the '*' listeners. */
  lemma EmitQuiet(m: map<string, seq<Fn>>, t: string, react: Fn -> seq<Op>)
    requires forall h :: react(h) == []
    ensures EmitSpec(m, t, react).0 == m
    ensures |EmitSpec(m, t, react).1| == |Get(m, t)| + |Get(m, Star)|
  {
    CallAllQuiet(Get(m, t), m, react, false);
    CallAllQuiet(Get(m, Star), m, react, true);
  }

  lemma {:induction false} CallAllQuiet(fns: seq<Fn>, m: map<string, seq<Fn>>, react: Fn -> seq<Op>, withType: bool)
    requires forall h :: react(h) == []
    ensures CallAll(fns, m, react, withType).0 == m
    decreases |fns|
  {
    if fns != [] {
      assert ApplyOps(m, react(fns[0])) == m;
      CallAllQuiet(fns[1..], m, react, withType);
    }
  }

  /** A listener of "a" that registers a second listener of "a" and a '*'
      listener: the second "a" listener is not called by this emit (the
      snapshot was taken before), the '*' listener is (its list is read only
      after the first loop). */
  lemma RegisteredDuringEmit()
    ensures var react := (f: Fn) => if f == 1 then [On("a", 3), On(Star, 2)] else [];
            EmitSpec(map["a" := [1]], "a", react).1 == [Call(1, false), Call(2, true)]
  {
    var react := (f: Fn) => if f == 1 then [On("a", 3), On(Star, 2)] else [];
    var m := map["a" := [1]];
    var ops := [On("a", 3), On(Star, 2)];
    assert react(1) == ops;
    var ma := OnSpec(m, "a", Some(3));
    assert Get(m, "a") + [3] == [1, 3];
    assert ma == m["a" := [1, 3]];
    assert Star != "a" && Star != "" by { assert Star[0] != "a"[0]; }
    assert ops[1..] == [On(Star, 2)];
    assert ApplyOps(m, ops) == ApplyOps(ma, [On(Star, 2)]);
    var m1 := OnSpec(ma, Star, Some(2));
    assert Get(ma, Star) + [2] == [2];
    assert m1 == ma[Star := [2]];
    assert [On(Star, 2)][1..] == [];
    assert ApplyOps(ma, [On(Star, 2)]) == ApplyOps(m1, []) == m1;
    assert [1][1..] == [] && [2][1..] == [];
    assert CallAll([], m1, react, false) == (m1, []);
    assert CallAll([1], m, react, false) == (CallAll([], ApplyOps(m, react(1)), react, false).0, [Call(1, false)] + []);
    assert Get(m, "a") == [1];
    assert Get(m1, Star) == [2];
    assert react(2) == [];
    assert ApplyOps(m1, react(2)) == m1;
    assert CallAll([], m1, react, true) == (m1, []);
    assert CallAll([2], m1, react, true) == (CallAll([], m1, react, true).0, [Call(2, true)] + []);
  }
}
