/** Per-session state: values kept in a cache under the composite key
    `sid + ":" + key`, with a fixed expiry, and the removal of a session's
    keys. The cache library is modelled as a map from keys to entries with
    an absolute expiry time; the clock is a parameter. */
module SessionState {
  import opened Types

  /** A key of the cache: the router writes only string keys, but the cache
      may hold keys of other types. */
  datatype CacheKey = StrKey(s: string) | OtherKey(id: nat)

  /** A stored value and the second at which it expires. */
  datatype Entry = Entry(value: Value, expiresAt: int)

  /** `keyExpireTimeout`, 24 hours, in seconds. */
  const KeyExpireTimeout: int := 24 * 60 * 60

  /** `getCacheKey`. */
  function CacheKeyOf(sid: string, key: string): (k: string)
    ensures |k| == |sid| + 1 + |key|
    ensures k[..|sid|] == sid && k[|sid|] == ':' && k[|sid| + 1..] == key
  {
    sid + ":" + key
  }

  /** What the cache answers for `ck` at time `now`: the value while it has
      not expired, nil otherwise. */
  function Lookup(cache: map<CacheKey, Entry>, ck: string, now: int): (v: Value)
    ensures StrKey(ck) !in cache ==> v == Nil
    ensures StrKey(ck) in cache && now < cache[StrKey(ck)].expiresAt ==> v == cache[StrKey(ck)].value
    ensures StrKey(ck) in cache && now >= cache[StrKey(ck)].expiresAt ==> v == Nil
  {
    if StrKey(ck) in cache && now < cache[StrKey(ck)].expiresAt then cache[StrKey(ck)].value else Nil
  }

  /** The keys `destroySid(sid)` removes: every non-string key, and every
      string key that starts with `sid + ":"`. */
  predicate Doomed(k: CacheKey, sid: string)
  {
    !k.StrKey? || sid + ":" <= k.s
  }

  /** The cache once the keys of `sid` are removed. */
  function Purged(cache: map<CacheKey, Entry>, sid: string): (r: map<CacheKey, Entry>)
    ensures forall k :: k in r <==> k in cache && !Doomed(k, sid)
    ensures forall k :: k in r ==> r[k] == cache[k]
  {
    map k | k in cache && !Doomed(k, sid) :: cache[k]
  }

  class State {
    var cache: map<CacheKey, Entry>

    constructor ()
      ensures cache == map[]
    {
      cache := map[];
    }

    /** `Get`: the value stored under (sid, key) at time `now`, or nil. */
    method Get(sid: string, key: string, now: int) returns (v: Value)
      ensures v == Lookup(cache, CacheKeyOf(sid, key), now)
    {
      var ck := StrKey(CacheKeyOf(sid, key));
      if ck in cache && now < cache[ck].expiresAt {
        v := cache[ck].value;
      } else {
        v := Nil;
      }
    }

    /** `Set`: stores `val` under (sid, key) for `keyExpireTimeout` from `now`. */
    method Set(sid: string, key: string, val: Value, now: int)
      modifies this
      ensures cache == old(cache)[StrKey(CacheKeyOf(sid, key)) := Entry(val, now + KeyExpireTimeout)]
    {
      var ck := CacheKeyOf(sid, key);
      cache := cache[StrKey(ck) := Entry(val, now + KeyExpireTimeout)];
    }

    /** `destroySid`: collects the doomed keys, then removes them all. When
        listing the keys fails (`keysFail`), nothing changes. */
    method DestroySid(sid: string, keysFail: bool)
      modifies this
      ensures keysFail ==> cache == old(cache)
      ensures !keysFail ==> cache == Purged(old(cache), sid)
    {
      if keysFail {
        return;
      }
      var prefix := sid + ":";
      var ks: set<CacheKey> := {};
      var rest := cache.Keys;
      while rest != {}
        invariant rest <= cache.Keys
        invariant forall k :: k in ks <==> k in cache && k !in rest && Doomed(k, sid)
        decreases rest
      {
        var ck :| ck in rest;
        if !ck.StrKey? || prefix <= ck.s {
          ks := ks + {ck};
        }
        rest := rest - {ck};
      }
      cache := cache - ks;
    }
  }

  /** Distinct (sid, key) pairs can share one cache key when the sid or the
      key contains ':'. */
  lemma KeysCollide()
    ensures ("a:b", "c") != ("a", "b:c")
    ensures CacheKeyOf("a:b", "c") == CacheKeyOf("a", "b:c")
  {
  }

  /** When neither sid contains ':', the cache key determines the pair. */
  lemma CacheKeyInjective(sid1: string, key1: string, sid2: string, key2: string)
    requires ':' !in sid1 && ':' !in sid2
    requires CacheKeyOf(sid1, key1) == CacheKeyOf(sid2, key2)
    ensures sid1 == sid2 && key1 == key2
  {
  }

  /** Before it expires, `Get` returns what `Set` stored for the same pair;
      every other cache key keeps its answer. */
  lemma GetAfterSet(cache: map<CacheKey, Entry>, sid: string, key: string, val: Value, now: int, later: int, ck: string)
    requires now <= later < now + KeyExpireTimeout
    ensures var c := cache[StrKey(CacheKeyOf(sid, key)) := Entry(val, now + KeyExpireTimeout)];
            && Lookup(c, CacheKeyOf(sid, key), later) == val
            && (ck != CacheKeyOf(sid, key) ==> Lookup(c, ck, later) == Lookup(cache, ck, later))
  {
  }

  /** After `destroySid(sid)`, every key of that session reads nil, even if
      the session's key itself contains ':'. */
  lemma GetAfterDestroyIsNil(cache: map<CacheKey, Entry>, sid: string, key: string, now: int)
    ensures Lookup(Purged(cache, sid), CacheKeyOf(sid, key), now) == Nil
  {
    var ck := CacheKeyOf(sid, key);
    assert sid + ":" <= ck by {
      assert (sid + ":") == ck[..|sid| + 1];
    }
  }

  /** A second `destroySid` of the same session removes nothing more. */
  lemma DestroyIdempotent(cache: map<CacheKey, Entry>, sid: string)
    ensures Purged(Purged(cache, sid), sid) == Purged(cache, sid)
  {
  }

  /** The prefix includes the ':', so the keys of session "10" survive
      `destroySid("1")`. */
  lemma OtherSessionSurvives(cache: map<CacheKey, Entry>)
    requires StrKey("10:x") in cache
    ensures StrKey("10:x") in Purged(cache, "1")
  {
    assert "10:x"[1] != "1:"[1];
  }
}
