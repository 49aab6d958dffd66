/** The heartbeat middleware: it records, per session, the second of its
    latest message, and a periodic sweep closes the sessions whose record
    is older than the timeout. The clock is a parameter; the background
    loop and its sleep are not modelled, only one sweep. */
module Heartbeats {
  import opened Types
  import opened Chain
  import opened Contexts

  /** A value held in the sid -> time map: a unix second, or a value of
      another type (the map is untyped). */
  datatype Stamp = Unix(sec: int) | NotInt64

  /** The sweep's verdict on one entry. */
  predicate Expired(st: Stamp, now: int, timeout: int)
  {
    !st.Unix? || st.sec < now - timeout
  }

  /** The map after a sweep: the entries that have not expired. */
  function Swept(times: map<string, Stamp>, now: int, timeout: int): (r: map<string, Stamp>)
    ensures forall sid :: sid in r <==> sid in times && !Expired(times[sid], now, timeout)
    ensures forall sid :: sid in r ==> r[sid] == times[sid]
  {
    map sid | sid in times && !Expired(times[sid], now, timeout) :: times[sid]
  }

  /** The state shared by the middleware and its sweep: the map of last
      message times and the router captured from the first context. */
  class Monitor {
    var times: map<string, Stamp>
    var srv: object?

    constructor ()
      ensures times == map[] && srv == null
    {
      times := map[];
      srv := null;
    }

    /** The middleware: captures the router once, stores `now` under the
        context's session, then calls `Next` once. */
    method Record(c: Context, now: int) returns (out: Outcome, ghost entered: seq<int>)
      requires c.Valid()
      modifies this, c
      ensures srv == if old(srv) == null then old(c.srv) else old(srv)
      ensures times == old(times)[old(c.sid) := Unix(now)]
      ensures c.handlers == old(c.handlers) && c.sid == old(c.sid) && c.srv == old(c.srv)
      ensures Run(c.Cur(), out, entered) == NextSpec(c.handlers, old(c.Cur()))
    {
      if srv == null {
        srv := c.srv;
      }
      times := times[c.sid := Unix(now)];
      out, entered := c.Next();
    }

    /** One sweep at time `now`: with no router captured it does nothing;
        otherwise every entry that is not an int64 or is older than
        `now - timeout` is closed (`closed`, in visiting order) and deleted. */
    method Sweep(now: int, timeout: int) returns (closed: seq<string>)
      modifies this
      ensures srv == old(srv)
      ensures old(srv) == null ==> closed == [] && times == old(times)
      ensures old(srv) != null ==> times == Swept(old(times), now, timeout)
      ensures old(srv) != null ==> forall sid :: sid in closed <==> sid in old(times) && Expired(old(times)[sid], now, timeout)
      ensures forall i, j :: 0 <= i < j < |closed| ==> closed[i] != closed[j]
    {
      closed := [];
      if srv == null {
        return;
      }
      var to := now - timeout;
      var rest := times.Keys;
      ghost var start := times;
      while rest != {}
        invariant rest <= start.Keys && srv == old(srv)
        invariant forall sid :: sid in times <==> sid in start && (sid in rest || !Expired(start[sid], now, timeout))
        invariant forall sid :: sid in times ==> times[sid] == start[sid]
        invariant forall sid :: sid in closed <==> sid in start && sid !in rest && Expired(start[sid], now, timeout)
        invariant forall i, j :: 0 <= i < j < |closed| ==> closed[i] != closed[j]
        decreases rest
      {
        var sid :| sid in rest;
        var st := times[sid];
        if !st.Unix? || st.sec < to {
          closed := closed + [sid];
          times := times - {sid};
        }
        rest := rest - {sid};
      }
    }
  }

  /** A session stamped at or after `now - timeout` survives the sweep with
      its stamp; one stamped before it, or holding a non-integer, is gone. */
  lemma SweepKeepsFresh(times: map<string, Stamp>, now: int, timeout: int, sid: string, sec: int)
    requires sid in times && times[sid] == Unix(sec)
    ensures sec >= now - timeout ==> sid in Swept(times, now, timeout) && Swept(times, now, timeout)[sid] == Unix(sec)
    ensures sec < now - timeout ==> sid !in Swept(times, now, timeout)
  {
  }

  /** Sweeping twice at the same time removes nothing more. */
  lemma SweepIdempotent(times: map<string, Stamp>, now: int, timeout: int)
    ensures Swept(Swept(times, now, timeout), now, timeout) == Swept(times, now, timeout)
  {
  }

  /** A session that has just been recorded survives a sweep at the same
      time for any non-negative timeout. */
  lemma RecordedSurvives(times: map<string, Stamp>, sid: string, now: int, timeout: int)
    requires timeout >= 0
    ensures sid in Swept(times[sid := Unix(now)], now, timeout)
  {
  }
}
