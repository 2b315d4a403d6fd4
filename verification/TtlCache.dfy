/**
 * The TTL cache: its store, and the methods that work on it.
 *
 * The store is a JavaScript Map, which iterates in the order in which its keys were first set:
 * writing a key again leaves it in its place. So it is a sequence of entries with distinct keys.
 */
module TtlCache {
  import opened Text

  /** `value` is None for a cached `undefined`, which `get` cannot tell from a miss. */
  datatype Entry<K, V> = Entry(key: K, value: Option<V>, expiresAt: int)

  // ---------------------------------------------------------------- the Map

  function Find<K(==), V>(store: seq<Entry<K, V>>, key: K): (k: Option<nat>)
    ensures k.Some? ==> k.value < |store| && store[k.value].key == key
    ensures k.None? ==> forall i :: 0 <= i < |store| ==> store[i].key != key
  {
    if store == [] then None
    else if store[0].key == key then Some(0)
    else
      var rest := Find(store[1..], key);
      if rest.None? then None else Some(rest.value + 1)
  }

  function Delete<K(==), V>(store: seq<Entry<K, V>>, key: K): seq<Entry<K, V>> {
    var k := Find(store, key);
    if k.None? then store else store[..k.value] + store[k.value + 1..]
  }

  function Put<K(==), V>(store: seq<Entry<K, V>>, e: Entry<K, V>): seq<Entry<K, V>> {
    var k := Find(store, e.key);
    if k.None? then store + [e] else store[k.value := e]
  }

  // ---------------------------------------------------------------- the operations

  function Hit<K(==), V>(store: seq<Entry<K, V>>, key: K, now: int): Option<V> {
    var k := Find(store, key);
    if k.Some? && store[k.value].expiresAt > now then store[k.value].value else None
  }

  function AfterGet<K(==), V>(store: seq<Entry<K, V>>, key: K, now: int): seq<Entry<K, V>> {
    var k := Find(store, key);
    if k.Some? && store[k.value].expiresAt <= now then Delete(store, key) else store
  }

  function Fresh<K, V>(store: seq<Entry<K, V>>, now: int): (r: seq<Entry<K, V>>)
    ensures |r| <= |store|
  {
    if store == [] then []
    else
      var last := store[|store| - 1];
      Fresh(store[..|store| - 1], now) + (if last.expiresAt > now then [last] else [])
  }

  /** How many entries are too many. */
  function Excess(n: nat, max: int): (k: nat)
    ensures k <= n
  {
    if n <= max then 0 else if max < 0 then n else n - max
  }

  function AfterPrune<K, V>(store: seq<Entry<K, V>>, now: int, max: int): seq<Entry<K, V>> {
    var live := Fresh(store, now);
    live[Excess(|live|, max)..]
  }

  function AfterSet<K(==), V>(store: seq<Entry<K, V>>, key: K, value: Option<V>, ttl: int, now: int,
                      max: int): seq<Entry<K, V>> {
    if ttl <= 0 then store else AfterPrune(Put(store, Entry(key, value, now + ttl)), now, max)
  }

  /** What getOrSet does first: a hit, a call that is not cached, a call to join, or a new one. */
  datatype Route<V> = Served(value: V) | Uncached | Joined(task: nat) | Begun(task: nat)

  function RouteOf<K(==), V>(store: seq<Entry<K, V>>, inflight: map<K, nat>, key: K, ttl: int, now: int,
                     next: nat): Route<V> {
    if Hit(store, key, now).Some? then Served(Hit(store, key, now).value)
    else if ttl <= 0 then Uncached
    else if key in inflight then Joined(inflight[key])
    else Begun(next)
  }

  /** The first loop of a prune: it deletes the expired entries of a Map while it walks over it. */
  method WithoutExpired<K, V>(store: seq<Entry<K, V>>, now: int) returns (kept: seq<Entry<K, V>>)
    ensures kept == Fresh(store, now)
  {
    hide Fresh;
    kept := store;
    ghost var seen := 0;
    var i := 0;
    FreshOfNone<K, V>(now);
    assert store[..0] == [] && store[0..] == store;
    while i < |kept|
      invariant seen <= |store|
      invariant i == |Fresh(store[..seen], now)| && kept == Fresh(store[..seen], now) + store[seen..]
      decreases |kept| - i
    {
      FreshGrows(store, seen, now);
      WalkOn(Fresh(store[..seen], now), store, seen);
      if kept[i].expiresAt <= now {
        kept := kept[..i] + kept[i + 1..];
      } else {
        i := i + 1;
      }
      seen := seen + 1;
    }
    assert store[..seen] == store && store[seen..] == [];
  }

  lemma WalkOn<T>(kept: seq<T>, rest: seq<T>, seen: nat)
    requires seen <= |rest|
    ensures var all := kept + rest[seen..];
            |kept| < |all| ==>
              && seen < |rest| && all[|kept|] == rest[seen]
              && all[..|kept|] + all[|kept| + 1..] == kept + rest[seen + 1..]
              && all == (kept + [rest[seen]]) + rest[seen + 1..]
  {
  }

  // ---------------------------------------------------------------- the class

  class Cache<K(==), V> {
    const maxEntries: int
    var store: seq<Entry<K, V>>
    var inflight: map<K, nat>
    var tasks: nat

    constructor (maxEntries: int)
      ensures this.maxEntries == maxEntries && store == [] && inflight == map[] && tasks == 0
    {
      this.maxEntries, this.store, this.inflight, this.tasks := maxEntries, [], map[], 0;
    }

    method Get(key: K, now: int) returns (value: Option<V>)
      modifies this`store
      ensures value == Hit(old(store), key, now)
      ensures store == AfterGet(old(store), key, now)
    {
      hide Delete;
      var k := Find(store, key);
      if k.None? {
        return None;
      }
      var entry := store[k.value];
      if entry.expiresAt <= now {
        store := Delete(store, key);
        return None;
      }
      return entry.value;
    }

    method Set(key: K, value: Option<V>, ttl: int, now: int)
      modifies this`store
      ensures store == AfterSet(old(store), key, value, ttl, now, maxEntries)
    {
      hide AfterPrune, Put;
      if ttl <= 0 {
        return;
      }
      store := Put(store, Entry(key, value, now + ttl));
      Prune(now);
    }

    /** Expired entries first, then the oldest until the size fits. */
    method Prune(now: int)
      modifies this`store
      ensures store == AfterPrune(old(store), now, maxEntries)
    {
      hide AfterPrune, Excess, Fresh;
      store := WithoutExpired(store, now);
      DropOldest();
      PruneIs(old(store), now, maxEntries);
    }

    method DropOldest()
      modifies this`store
      ensures store == old(store)[Excess(|old(store)|, maxEntries)..]
    {
      ghost var before := store;
      ghost var gone := 0;
      while |store| > maxEntries
        invariant gone <= Excess(|before|, maxEntries)
        invariant store == before[gone..]
      {
        if |store| == 0 {
          break;
        }
        store := store[1..];
        gone := gone + 1;
      }
    }

    /** The part of getOrSet up to its first await. */
    method BeginGetOrSet(key: K, ttl: int, now: int) returns (route: Route<V>)
      modifies this
      ensures route == RouteOf(old(store), old(inflight), key, ttl, now, old(tasks))
      ensures store == AfterGet(old(store), key, now)
      ensures inflight == if route.Begun? then old(inflight)[key := old(tasks)] else old(inflight)
      ensures tasks == if route.Begun? then old(tasks) + 1 else old(tasks)
    {
      hide AfterGet, Hit;
      var cached := Get(key, now);
      if cached.Some? {
        return Served(cached.value);
      }
      if ttl <= 0 {
        return Uncached;
      }
      if key in inflight {
        return Joined(inflight[key]);
      }
      route := Begun(tasks);
      inflight := inflight[key := tasks];
      tasks := tasks + 1;
    }

    /** The factory has produced a value: it is stored as of the time the call began. */
    method FactoryDone(key: K, value: Option<V>, ttl: int, begunAt: int)
      modifies this`store
      ensures store == AfterSet(old(store), key, value, ttl, begunAt, maxEntries)
    {
      hide AfterSet;
      Set(key, value, ttl, begunAt);
    }

    /** The `finally` callback, after success and after failure. */
    method Forget(key: K)
      modifies this`inflight
      ensures inflight == old(inflight) - {key}
    {
      inflight := inflight - {key};
    }
  }

  lemma PruneIs<K, V>(store: seq<Entry<K, V>>, now: int, max: int)
    ensures AfterPrune(store, now, max) == Fresh(store, now)[Excess(|Fresh(store, now)|, max)..]
  {
  }

  lemma FreshOfNone<K, V>(now: int)
    ensures Fresh<K, V>([], now) == []
  {
  }

  lemma FreshGrows<K, V>(store: seq<Entry<K, V>>, i: nat, now: int)
    requires i < |store|
    ensures store[i].expiresAt > now ==> Fresh(store[..i + 1], now) == Fresh(store[..i], now) + [store[i]]
    ensures store[i].expiresAt <= now ==> Fresh(store[..i + 1], now) == Fresh(store[..i], now)
  {
    assert store[..i + 1][..i] == store[..i];
  }
}
