/**
 * The browser's cache of GET responses: short TTLs, one request for many callers, and wiping by
 * prefix after a mutation.
 */
module GetCache {
  import opened Text
  import opened TtlCache

  const MAX_ENTRIES: nat := 400

  /** What a call does first: answer from the cache, share a request that is registered, or send its own. */
  datatype Choice<V> = Cached(value: Option<V>) | Shared(request: nat) | Sent(request: nat)

  function ChoiceOf<V>(store: seq<Entry<string, V>>, inflight: map<string, nat>, key: string, ttl: int, dedupe: bool,
                       now: int, next: nat): Choice<V> {
    var k := Find(store, key);
    if ttl > 0 && k.Some? && store[k.value].expiresAt > now then Cached(store[k.value].value)
    else if dedupe && key in inflight then Shared(inflight[key])
    else Sent(next)
  }

  /** The oldest entries go, but not past an empty key, at which the loop stops. */
  function DropOldest<V>(store: seq<Entry<string, V>>, max: nat): (r: seq<Entry<string, V>>)
    ensures exists k :: 0 <= k <= |store| && r == store[k..]
    ensures |store| <= max ==> r == store
  {
    if |store| <= max || store[0].key == "" then
      assert store == store[0..];
      store
    else
      var r := DropOldest(store[1..], max);
      assert exists k :: 0 <= k <= |store| && r == store[k..] by {
        var k :| 0 <= k <= |store[1..]| && r == store[1..][k..];
        assert store[1..][k..] == store[k + 1..];
      }
      r
  }

  function AfterResponse<V>(store: seq<Entry<string, V>>, key: string, value: Option<V>, ttl: int,
                            begunAt: int): seq<Entry<string, V>> {
    if ttl <= 0 then store else DropOldest(Fresh(Put(store, Entry(key, value, begunAt + ttl)), begunAt), MAX_ENTRIES)
  }

  function Unmatched<V>(store: seq<Entry<string, V>>, prefix: string): seq<Entry<string, V>> {
    if store == [] then []
    else
      var last := store[|store| - 1];
      Unmatched(store[..|store| - 1], prefix) + (if prefix <= last.key then [] else [last])
  }

  function Unregistered(inflight: map<string, nat>, prefix: string): map<string, nat> {
    map k | k in inflight && !(prefix <= k) :: inflight[k]
  }

  class Cache<V> {
    var store: seq<Entry<string, V>>
    var inflight: map<string, nat>
    var requests: nat

    constructor ()
      ensures store == [] && inflight == map[] && requests == 0
    {
      store, inflight, requests := [], map[], 0;
    }

    /** The part of getCached up to the request. */
    method BeginGet(key: string, ttl: int, dedupe: bool, now: int) returns (choice: Choice<V>)
      modifies this`inflight, this`requests
      ensures choice == ChoiceOf(store, old(inflight), key, ttl, dedupe, now, old(requests))
      ensures inflight == if choice.Sent? && dedupe then old(inflight)[key := old(requests)] else old(inflight)
      ensures requests == if choice.Sent? then old(requests) + 1 else old(requests)
    {
      if ttl > 0 {
        var k := Find(store, key);
        if k.Some? && store[k.value].expiresAt > now {
          return Cached(store[k.value].value);
        }
      }
      if dedupe && key in inflight {
        return Shared(inflight[key]);
      }
      choice := Sent(requests);
      if dedupe {
        inflight := inflight[key := requests];
      }
      requests := requests + 1;
    }

    /** A response has come: it is kept, as of the time its call began, and the cache is pruned. */
    method Respond(key: string, value: Option<V>, ttl: int, begunAt: int)
      modifies this`store
      ensures store == AfterResponse(old(store), key, value, ttl, begunAt)
    {
      hide Put, Fresh;
      if ttl > 0 {
        store := Put(store, Entry(key, value, begunAt + ttl));
        store := WithoutExpired(store, begunAt);
        ghost var live := store;
        while |store| > MAX_ENTRIES
          invariant DropOldest(store, MAX_ENTRIES) == DropOldest(live, MAX_ENTRIES)
        {
          if store[0].key == "" {
            break;
          }
          store := store[1..];
        }
      }
    }

    /** Everything whose key starts with the prefix: what is cached, and what is registered. */
    method Invalidate(prefix: string)
      modifies this`store, this`inflight
      ensures store == Unmatched(old(store), prefix)
      ensures inflight == Unregistered(old(inflight), prefix)
    {
      DropCached(prefix);
      DropRegistered(prefix);
    }

    method DropCached(prefix: string)
      modifies this`store
      ensures store == Unmatched(old(store), prefix)
    {
      var all := store;
      store := [];
      for i := 0 to |all|
        invariant store == Unmatched(all[..i], prefix)
      {
        assert all[..i + 1][..i] == all[..i];
        if !(prefix <= all[i].key) {
          store := store + [all[i]];
        }
      }
      assert all[..|all|] == all;
    }

    method DropRegistered(prefix: string)
      modifies this`inflight
      ensures inflight == Unregistered(old(inflight), prefix)
    {
      var keys := inflight.Keys;
      while keys != {}
        invariant keys <= old(inflight).Keys
        invariant inflight == map k | k in old(inflight) && (k in keys || !(prefix <= k)) :: old(inflight)[k]
        decreases keys
      {
        var key :| key in keys;
        if prefix <= key {
          inflight := inflight - {key};
        }
        keys := keys - {key};
      }
    }
  }
}
