/**
 * What callers of the GET cache may see after mutations, in every interleaving.
 *
 * A cached value stands for the request that brought it. `wipes` are the prefixes invalidated so
 * far: a request is outdated when its key was invalidated after the request was sent. `ended` are
 * the keys of the requests that are over, in the order of their ends.
 */
module GetCacheRuns {
  import opened Text
  import opened TtlCache
  import opened GetCache

  datatype Phase = UnderWay | Answered | Over

  /**
   * `share` says whether the call allowed others to share its request; `sent` and `answered` are
   * how many invalidations had been made by then, `ends` how many requests were over when it was sent.
   */
  datatype Request = Request(key: string, ttl: int, share: bool, begunAt: int, phase: Phase, sent: nat, answered: nat, ends: nat)

  datatype State = State(
    store: seq<Entry<string, nat>>,
    inflight: map<string, nat>,
    requests: seq<Request>,
    wipes: seq<string>,
    ended: seq<string>)

  datatype Event =
    | Get(key: string, ttl: int, dedupe: bool, now: int)
    | Response(request: nat, ok: bool)
    | Cleanup(request: nat)
    | Wipe(prefix: string)

  function WithPhase(s: State, r: nat, phase: Phase): State
    requires r < |s.requests|
  {
    s.(requests := s.requests[r := s.requests[r].(
      phase := phase, answered := if phase.Answered? then |s.wipes| else s.requests[r].answered)])
  }

  function Step(s: State, e: Event): State {
    match e
    case Get(key, ttl, dedupe, now) =>
      var choice := ChoiceOf(s.store, s.inflight, key, ttl, dedupe, now, |s.requests|);
      if choice.Sent? then
        s.(inflight := if dedupe then s.inflight[key := |s.requests|] else s.inflight,
           requests := s.requests + [Request(key, ttl, dedupe, now, UnderWay, |s.wipes|, 0, |s.ended|)])
      else s
    case Response(r, ok) =>
      if r < |s.requests| && s.requests[r].phase.UnderWay? then
        var q := s.requests[r];
        WithPhase(s, r, Answered).(store := if ok then AfterResponse(s.store, q.key, Some(r), q.ttl, q.begunAt) else s.store)
      else s
    case Cleanup(r) =>
      if r < |s.requests| && s.requests[r].phase.Answered? then
        WithPhase(s, r, Over).(inflight := s.inflight - {s.requests[r].key}, ended := s.ended + [s.requests[r].key])
      else s
    case Wipe(prefix) =>
      s.(store := Unmatched(s.store, prefix), inflight := Unregistered(s.inflight, prefix), wipes := s.wipes + [prefix])
  }

  const START := State([], map[], [], [], [])

  function Run(s: State, events: seq<Event>): State
    decreases |events|
  {
    if events == [] then s else Run(Step(s, events[0]), events[1..])
  }

  // ---------------------------------------------------------------- the invariant

  /** Some invalidation from number `a` up to number `b` covers the key. */
  predicate WipedBetween(wipes: seq<string>, key: string, a: nat, b: nat) {
    exists i :: a <= i < b && i < |wipes| && wipes[i] <= key
  }

  predicate Outdated(s: State, r: nat)
    requires r < |s.requests|
  {
    WipedBetween(s.wipes, s.requests[r].key, s.requests[r].sent, |s.wipes|)
  }

  predicate RequestOk(s: State, r: nat)
    requires r < |s.requests|
  {
    var q := s.requests[r];
    q.sent <= |s.wipes| && (!q.phase.UnderWay? ==> q.sent <= q.answered <= |s.wipes|)
  }

  /** A cached value was brought by a request for its key, and no invalidation has covered the key since. */
  predicate EntryOk(s: State, e: Entry<string, nat>) {
    && e.value.Some? && e.value.value < |s.requests|
    && var q := s.requests[e.value.value];
    && q.key == e.key && q.ttl > 0 && e.expiresAt == q.begunAt + q.ttl && !q.phase.UnderWay?
    && !WipedBetween(s.wipes, q.key, q.answered, |s.wipes|)
  }

  predicate RegisteredOk(s: State, key: string)
    requires key in s.inflight
  {
    var r := s.inflight[key];
    r < |s.requests| && s.requests[r].key == key && !s.requests[r].phase.Over? && !Outdated(s, r)
  }

  predicate Inv(s: State) {
    && (forall r :: 0 <= r < |s.requests| ==> RequestOk(s, r))
    && (forall i :: 0 <= i < |s.store| ==> EntryOk(s, s.store[i]))
    && (forall k :: k in s.inflight ==> RegisteredOk(s, k))
  }

  // ---------------------------------------------------------------- the store

  lemma {:induction false} FreshIsFrom<V>(store: seq<Entry<string, V>>, now: int, i: nat) returns (j: nat)
    requires i < |Fresh(store, now)|
    ensures j < |store| && Fresh(store, now)[i] == store[j]
  {
    var n := |store| - 1;
    if i < |Fresh(store[..n], now)| {
      j := FreshIsFrom(store[..n], now, i);
    } else {
      j := n;
    }
  }

  lemma {:induction false} UnmatchedIsFrom<V>(store: seq<Entry<string, V>>, prefix: string, i: nat) returns (j: nat)
    requires i < |Unmatched(store, prefix)|
    ensures j < |store| && Unmatched(store, prefix)[i] == store[j] && !(prefix <= store[j].key)
  {
    var n := |store| - 1;
    if i < |Unmatched(store[..n], prefix)| {
      j := UnmatchedIsFrom(store[..n], prefix, i);
    } else {
      j := n;
    }
  }

  lemma PutIsFrom<V>(store: seq<Entry<string, V>>, e: Entry<string, V>, i: nat)
    requires i < |Put(store, e)|
    ensures Put(store, e)[i] == e || (i < |store| && Put(store, e)[i] == store[i])
  {
    hide Find;
  }

  lemma DropIsSuffix<V>(store: seq<Entry<string, V>>, max: nat) returns (k: nat)
    ensures k <= |store| && DropOldest(store, max) == store[k..]
  {
    hide DropOldest;
    k :| 0 <= k <= |store| && DropOldest(store, max) == store[k..];
  }

  lemma ResponseIs<V>(store: seq<Entry<string, V>>, key: string, value: Option<V>, ttl: int, begunAt: int)
    requires ttl > 0
    ensures AfterResponse(store, key, value, ttl, begunAt) ==
            DropOldest(Fresh(Put(store, Entry(key, value, begunAt + ttl)), begunAt), MAX_ENTRIES)
  {
    hide Put, Fresh, DropOldest;
  }

  /** An entry after a response is the new one, or was there before. */
  lemma ResponseIsFrom<V>(store: seq<Entry<string, V>>, key: string, value: Option<V>, ttl: int, begunAt: int,
                          i: nat) returns (j: nat)
    requires ttl > 0 && i < |AfterResponse(store, key, value, ttl, begunAt)|
    ensures var e := AfterResponse(store, key, value, ttl, begunAt)[i];
            e == Entry(key, value, begunAt + ttl) || (j < |store| && store[j] == e)
  {
    hide *;
    var put := Put(store, Entry(key, value, begunAt + ttl));
    var live := Fresh(put, begunAt);
    ResponseIs(store, key, value, ttl, begunAt);
    var k := DropIsSuffix(live, MAX_ENTRIES);
    j := FreshIsFrom(put, begunAt, k + i);
    PutIsFrom(store, Entry(key, value, begunAt + ttl), j);
  }

  // ---------------------------------------------------------------- the steps

  lemma GetKeepsInv(s: State, e: Event)
    requires Inv(s) && e.Get?
    ensures Inv(Step(s, e))
  {
    hide ChoiceOf, WipedBetween;
    var s' := Step(s, e);
    forall r | 0 <= r < |s'.requests| ensures RequestOk(s', r) {
      if r < |s.requests| { assert RequestOk(s, r); }
    }
    forall i | 0 <= i < |s'.store| ensures EntryOk(s', s'.store[i]) {
      assert EntryOk(s, s.store[i]);
    }
    NothingBetween(s.wipes, e.key, |s.wipes|);
    forall k | k in s'.inflight ensures RegisteredOk(s', k) {
      if k in s.inflight { assert RegisteredOk(s, k); }
    }
  }

  lemma NotKept<V>(store: seq<Entry<string, V>>, key: string, value: Option<V>, ttl: int, begunAt: int)
    ensures ttl <= 0 ==> AfterResponse(store, key, value, ttl, begunAt) == store
  {
    hide Put, Fresh, DropOldest;
  }

  lemma NothingBetween(wipes: seq<string>, key: string, a: nat)
    ensures !WipedBetween(wipes, key, a, a)
  {
  }

  lemma ResponseKeepsInv(s: State, e: Event)
    requires Inv(s) && e.Response? && e.request < |s.requests| && s.requests[e.request].phase.UnderWay?
    ensures Inv(Step(s, e))
  {
    hide AfterResponse, WipedBetween;
    var s' := Step(s, e);
    var q := s.requests[e.request];
    forall r | 0 <= r < |s'.requests| ensures RequestOk(s', r) {
      assert RequestOk(s, r);
    }
    NothingBetween(s.wipes, q.key, |s.wipes|);
    forall i | 0 <= i < |s'.store| ensures EntryOk(s', s'.store[i]) {
      if e.ok && q.ttl > 0 {
        var j := ResponseIsFrom(s.store, q.key, Some(e.request), q.ttl, q.begunAt, i);
      } else {
        NotKept(s.store, q.key, Some(e.request), q.ttl, q.begunAt);
      }
      assert forall j :: 0 <= j < |s.store| ==> EntryOk(s, s.store[j]);
    }
    forall k | k in s'.inflight ensures RegisteredOk(s', k) {
      assert RegisteredOk(s, k);
    }
  }

  lemma CleanupKeepsInv(s: State, e: Event)
    requires Inv(s) && e.Cleanup? && e.request < |s.requests| && s.requests[e.request].phase.Answered?
    ensures Inv(Step(s, e))
  {
    hide WipedBetween;
    var s' := Step(s, e);
    forall r | 0 <= r < |s'.requests| ensures RequestOk(s', r) {
      assert RequestOk(s, r);
    }
    forall i | 0 <= i < |s'.store| ensures EntryOk(s', s'.store[i]) {
      assert EntryOk(s, s.store[i]);
    }
    forall k | k in s'.inflight ensures RegisteredOk(s', k) {
      assert RegisteredOk(s, k);
    }
  }

  /** One more invalidation covers only keys that start with its prefix. */
  lemma OneMoreWipe(wipes: seq<string>, prefix: string, key: string, a: nat)
    requires a <= |wipes|
    ensures WipedBetween(wipes + [prefix], key, a, |wipes| + 1) <==> WipedBetween(wipes, key, a, |wipes|) || prefix <= key
  {
    var after := wipes + [prefix];
    if prefix <= key { assert after[|wipes|] == prefix; }
    if WipedBetween(wipes, key, a, |wipes|) {
      var i :| a <= i < |wipes| && wipes[i] <= key;
      assert after[i] == wipes[i];
    }
  }

  lemma WipeKeepsInv(s: State, e: Event)
    requires Inv(s) && e.Wipe?
    ensures Inv(Step(s, e))
  {
    hide WipedBetween, Unmatched;
    var s' := Step(s, e);
    forall r | 0 <= r < |s'.requests| ensures RequestOk(s', r) {
      assert RequestOk(s, r);
    }
    forall i | 0 <= i < |s'.store| ensures EntryOk(s', s'.store[i]) {
      var j := UnmatchedIsFrom(s.store, e.prefix, i);
      assert EntryOk(s, s.store[j]);
      var q := s.requests[s.store[j].value.value];
      assert RequestOk(s, s.store[j].value.value);
      OneMoreWipe(s.wipes, e.prefix, q.key, q.answered);
    }
    forall k | k in s'.inflight ensures RegisteredOk(s', k) {
      assert RegisteredOk(s, k);
      var q := s.requests[s.inflight[k]];
      assert RequestOk(s, s.inflight[k]);
      OneMoreWipe(s.wipes, e.prefix, q.key, q.sent);
    }
  }

  lemma StepKeepsInv(s: State, e: Event)
    requires Inv(s)
    ensures Inv(Step(s, e))
  {
    hide Inv;
    match e
    case Get(_, _, _, _) => GetKeepsInv(s, e);
    case Response(r, _) => if r < |s.requests| && s.requests[r].phase.UnderWay? { ResponseKeepsInv(s, e); }
    case Cleanup(r) => if r < |s.requests| && s.requests[r].phase.Answered? { CleanupKeepsInv(s, e); }
    case Wipe(_) => WipeKeepsInv(s, e);
  }

  lemma {:induction false} RunKeepsInv(s: State, events: seq<Event>)
    requires Inv(s)
    ensures Inv(Run(s, events))
    decreases |events|
  {
    hide Inv, Step;
    if events != [] {
      StepKeepsInv(s, events[0]);
      RunKeepsInv(Step(s, events[0]), events[1..]);
    }
  }

  // ---------------------------------------------------------------- what a caller sees

  lemma WipedSplits(wipes: seq<string>, key: string, a: nat, b: nat)
    requires a <= b <= |wipes|
    ensures WipedBetween(wipes, key, a, |wipes|) <==> WipedBetween(wipes, key, a, b) || WipedBetween(wipes, key, b, |wipes|)
  {
  }

  /**
   * A value from the cache is within its TTL, and its response arrived after every invalidation of
   * its key. It is outdated exactly when an invalidation came while its request was under way.
   */
  lemma CachedExactly(events: seq<Event>, key: string, ttl: int, dedupe: bool, now: int, r: nat)
    requires var s := Run(START, events);
             ChoiceOf(s.store, s.inflight, key, ttl, dedupe, now, |s.requests|) == Cached(Some(r))
    ensures var s := Run(START, events);
            && r < |s.requests| && s.requests[r].key == key
            && now < s.requests[r].begunAt + s.requests[r].ttl
            && !WipedBetween(s.wipes, key, s.requests[r].answered, |s.wipes|)
            && (Outdated(s, r) <==> WipedBetween(s.wipes, key, s.requests[r].sent, s.requests[r].answered))
  {
    hide Run, Find, WipedBetween;
    RunKeepsInv(START, events);
    var s := Run(START, events);
    var k := Find(s.store, key);
    assert EntryOk(s, s.store[k.value]) && RequestOk(s, r);
    WipedSplits(s.wipes, key, s.requests[r].sent, s.requests[r].answered);
  }

  /** A request that a caller shares is for its key, not over, and not outdated. */
  lemma SharedIsCurrent(events: seq<Event>, key: string, ttl: int, dedupe: bool, now: int, r: nat)
    requires var s := Run(START, events);
             ChoiceOf(s.store, s.inflight, key, ttl, dedupe, now, |s.requests|) == Shared(r)
    ensures var s := Run(START, events);
            r < |s.requests| && s.requests[r].key == key && !s.requests[r].phase.Over? && !Outdated(s, r)
  {
    hide Run, Find, Outdated;
    RunKeepsInv(START, events);
    var s := Run(START, events);
    assert RegisteredOk(s, key);
  }

  // ---------------------------------------------------------------- an invalidation while a request is under way

  lemma {:induction false} UnmatchedHasNone<V>(store: seq<Entry<string, V>>, prefix: string, key: string)
    requires prefix <= key
    ensures Find(Unmatched(store, prefix), key).None?
  {
    hide Find;
    var k := Find(Unmatched(store, prefix), key);
    if k.Some? { var j := UnmatchedIsFrom(store, prefix, k.value); }
  }

  lemma {:induction false} KeepsLast<V>(store: seq<Entry<string, V>>, max: nat, e: Entry<string, V>)
    requires max >= 1 && store != [] && store[|store| - 1] == e
    ensures var r := DropOldest(store, max); r != [] && r[|r| - 1] == e
    decreases |store|
  {
    if |store| > max && store[0].key != "" {
      KeepsLast(store[1..], max, e);
    }
  }

  lemma {:induction false} FindLast<V>(store: seq<Entry<string, V>>, key: string)
    requires store != [] && store[|store| - 1].key == key
    requires forall i :: 0 <= i < |store| - 1 ==> store[i].key != key
    ensures Find(store, key) == Some(|store| - 1)
  {
    hide Find;
    var k := Find(store, key);
    assert k.Some?;
  }

  lemma PutNew<V>(store: seq<Entry<string, V>>, e: Entry<string, V>)
    requires Find(store, e.key).None?
    ensures Put(store, e) == store + [e]
    ensures forall i :: 0 <= i < |store| ==> store[i].key != e.key
  {
    hide Find;
  }

  lemma FreshHasNone<V>(store: seq<Entry<string, V>>, key: string, now: int)
    requires forall i :: 0 <= i < |store| ==> store[i].key != key
    ensures forall i :: 0 <= i < |Fresh(store, now)| ==> Fresh(store, now)[i].key != key
  {
    hide Fresh;
    forall i | 0 <= i < |Fresh(store, now)| ensures Fresh(store, now)[i].key != key {
      var j := FreshIsFrom(store, now, i);
    }
  }

  lemma SuffixFindsLast<V>(store: seq<Entry<string, V>>, e: Entry<string, V>, k: nat)
    requires k <= |store| && forall i :: 0 <= i < |store| ==> store[i].key != e.key
    ensures Find((store + [e])[k..], e.key) == Some(|store| - k) && (store + [e])[k..][|store| - k] == e
  {
    hide Find;
    FindLast((store + [e])[k..], e.key);
  }

  /** A response for a key that is not cached is found afterwards. */
  lemma ResponseIsFound<V>(store: seq<Entry<string, V>>, key: string, value: Option<V>, ttl: int, begunAt: int)
    requires Find(store, key).None? && ttl > 0
    ensures var after := AfterResponse(store, key, value, ttl, begunAt);
            var k := Find(after, key);
            k.Some? && after[k.value] == Entry(key, value, begunAt + ttl)
  {
    hide *;
    var e := Entry(key, value, begunAt + ttl);
    ResponseIs(store, key, value, ttl, begunAt);
    PutNew(store, e);
    LastIsFresh(store, e, begunAt);
    FreshHasNone(store, key, begunAt);
    var young := Fresh(store, begunAt);
    SomeRoom();
    KeepsLast(young + [e], MAX_ENTRIES, e);
    var k := DropIsSuffix(young + [e], MAX_ENTRIES);
    SuffixFindsLast(young, e, k);
  }

  lemma SomeRoom()
    ensures MAX_ENTRIES >= 1
  {
  }

  lemma LastIsFresh<V>(store: seq<Entry<string, V>>, e: Entry<string, V>, now: int)
    requires e.expiresAt > now
    ensures Fresh(store + [e], now) == Fresh(store, now) + [e]
  {
    assert (store + [e])[..|store|] == store;
  }

  /**
   * Whatever is cached: when an invalidation covers a request that is under way and will be cached,
   * its response is served afterwards, although it is outdated.
   */
  lemma OldResponseComesBack(s: State, r: nat, prefix: string, now: int, dedupe: bool)
    requires r < |s.requests| && s.requests[r].phase.UnderWay? && s.requests[r].ttl > 0 && RequestOk(s, r)
    requires prefix <= s.requests[r].key && now < s.requests[r].begunAt + s.requests[r].ttl
    ensures var q := s.requests[r];
            var after := Step(Step(s, Wipe(prefix)), Response(r, true));
            && ChoiceOf(after.store, after.inflight, q.key, q.ttl, dedupe, now, |after.requests|) == Cached(Some(r))
            && Outdated(after, r)
  {
    hide Find, Unmatched, AfterResponse, WipedBetween;
    var q := s.requests[r];
    UnmatchedHasNone(s.store, prefix, q.key);
    ResponseIsFound(Unmatched(s.store, prefix), q.key, Some(r), q.ttl, q.begunAt);
    OneMoreWipe(s.wipes, prefix, q.key, q.sent);
  }

  // ---------------------------------------------------------------- one request for many callers

  /** Some request for the key has ended between number `a` and number `b`. */
  predicate EndedBetween(ended: seq<string>, key: string, a: nat, b: nat) {
    exists i :: a <= i < b && i < |ended| && ended[i] == key
  }

  /** Sent by a call that shares; not invalidated since, and no request for its key has ended since, its own or another. */
  predicate Shareable(s: State, r: nat)
    requires r < |s.requests|
  {
    var q := s.requests[r];
    q.share && !Outdated(s, r) && !EndedBetween(s.ended, q.key, q.ends, |s.ended|)
  }

  predicate Registered(s: State, r: nat)
    requires r < |s.requests|
  {
    s.requests[r].key in s.inflight && s.inflight[s.requests[r].key] == r
  }

  /** What had become of request q when r was sent. */
  predicate GoneBefore(s: State, q: nat, r: nat)
    requires q < |s.requests| && r < |s.requests|
  {
    var a, b := s.requests[q], s.requests[r];
    !a.share || WipedBetween(s.wipes, a.key, a.sent, b.sent) || EndedBetween(s.ended, a.key, a.ends, b.ends)
  }

  predicate TimesOk(s: State) {
    forall r :: 0 <= r < |s.requests| ==> s.requests[r].sent <= |s.wipes| && s.requests[r].ends <= |s.ended|
  }

  predicate SharesOk(s: State) {
    && TimesOk(s)
    && (forall r :: 0 <= r < |s.requests| ==> (Registered(s, r) <==> Shareable(s, r)))
    && (forall q, r :: 0 <= q < r < |s.requests| && s.requests[q].key == s.requests[r].key && s.requests[r].share ==>
          GoneBefore(s, q, r))
  }

  lemma OneMoreEnd(ended: seq<string>, last: string, key: string, a: nat)
    requires a <= |ended|
    ensures EndedBetween(ended + [last], key, a, |ended| + 1) <==> EndedBetween(ended, key, a, |ended|) || last == key
  {
    var after := ended + [last];
    if last == key { assert after[|ended|] == key; }
    if EndedBetween(ended, key, a, |ended|) {
      var i :| a <= i < |ended| && ended[i] == key;
      assert after[i] == key;
    }
  }

  /** What happened between two moments stays as it was. */
  lemma BetweenStays(s: State, s': State, key: string, a: nat, b: nat)
    ensures b <= |s.wipes| <= |s'.wipes| && s'.wipes[..|s.wipes|] == s.wipes ==>
              (WipedBetween(s'.wipes, key, a, b) <==> WipedBetween(s.wipes, key, a, b))
    ensures b <= |s.ended| <= |s'.ended| && s'.ended[..|s.ended|] == s.ended ==>
              (EndedBetween(s'.ended, key, a, b) <==> EndedBetween(s.ended, key, a, b))
  {
    if b <= |s.wipes| <= |s'.wipes| && s'.wipes[..|s.wipes|] == s.wipes {
      assert forall i :: 0 <= i < b ==> s'.wipes[i] == s'.wipes[..|s.wipes|][i];
    }
    if b <= |s.ended| <= |s'.ended| && s'.ended[..|s.ended|] == s.ended {
      assert forall i :: 0 <= i < b ==> s'.ended[i] == s'.ended[..|s.ended|][i];
    }
  }

  /** A step that sends nothing keeps the requests, apart from their phases. */
  predicate SameRequests(s: State, s': State) {
    && |s'.requests| == |s.requests|
    && (forall r :: 0 <= r < |s.requests| ==>
          && s'.requests[r].key == s.requests[r].key && s'.requests[r].share == s.requests[r].share
          && s'.requests[r].sent == s.requests[r].sent && s'.requests[r].ends == s.requests[r].ends)
    && |s.wipes| <= |s'.wipes| && s'.wipes[..|s.wipes|] == s.wipes
    && |s.ended| <= |s'.ended| && s'.ended[..|s.ended|] == s.ended
  }

  lemma SameKeepsGone(s: State, s': State, q: nat, r: nat)
    requires TimesOk(s) && SameRequests(s, s') && q < |s.requests| && r < |s.requests| && GoneBefore(s, q, r)
    ensures GoneBefore(s', q, r)
  {
    hide WipedBetween, EndedBetween;
    BetweenStays(s, s', s.requests[q].key, s.requests[q].sent, s.requests[r].sent);
    BetweenStays(s, s', s.requests[q].key, s.requests[q].ends, s.requests[r].ends);
  }

  lemma SameKeepsShares(s: State, s': State)
    requires SharesOk(s) && SameRequests(s, s')
    requires forall r :: 0 <= r < |s'.requests| ==> (Registered(s', r) <==> Shareable(s', r))
    ensures SharesOk(s')
  {
    hide Registered, Shareable, GoneBefore;
    forall q, r | 0 <= q < r < |s'.requests| && s'.requests[q].key == s'.requests[r].key && s'.requests[r].share
      ensures GoneBefore(s', q, r)
    {
      SameKeepsGone(s, s', q, r);
    }
  }

  lemma CleanupKeepsShares(s: State, e: Event)
    requires SharesOk(s) && e.Cleanup? && e.request < |s.requests| && s.requests[e.request].phase.Answered?
    ensures SharesOk(Step(s, e))
  {
    hide WipedBetween, EndedBetween, GoneBefore;
    var s' := Step(s, e);
    var key := s.requests[e.request].key;
    forall r | 0 <= r < |s'.requests| ensures Registered(s', r) <==> Shareable(s', r) {
      OneMoreEnd(s.ended, key, s.requests[r].key, s.requests[r].ends);
      assert Registered(s, r) <==> Shareable(s, r);
    }
    SameKeepsShares(s, s');
  }

  lemma WipeKeepsShares(s: State, e: Event)
    requires SharesOk(s) && e.Wipe?
    ensures SharesOk(Step(s, e))
  {
    hide WipedBetween, EndedBetween, GoneBefore, Unmatched;
    var s' := Step(s, e);
    forall r | 0 <= r < |s'.requests| ensures Registered(s', r) <==> Shareable(s', r) {
      OneMoreWipe(s.wipes, e.prefix, s.requests[r].key, s.requests[r].sent);
      assert Registered(s, r) <==> Shareable(s, r);
    }
    SameKeepsShares(s, s');
  }

  lemma ResponseKeepsShares(s: State, e: Event)
    requires SharesOk(s) && e.Response? && e.request < |s.requests| && s.requests[e.request].phase.UnderWay?
    ensures SharesOk(Step(s, e))
  {
    hide WipedBetween, EndedBetween, GoneBefore, AfterResponse;
    var s' := Step(s, e);
    forall r | 0 <= r < |s'.requests| ensures Registered(s', r) <==> Shareable(s', r) {
      assert Registered(s, r) <==> Shareable(s, r);
    }
    SameKeepsShares(s, s');
  }

  lemma NothingSince(s: State, key: string)
    ensures !WipedBetween(s.wipes, key, |s.wipes|, |s.wipes|) && !EndedBetween(s.ended, key, |s.ended|, |s.ended|)
  {
  }

  lemma SentKeepsShares(s: State, e: Event)
    requires Inv(s) && SharesOk(s) && e.Get?
    requires ChoiceOf(s.store, s.inflight, e.key, e.ttl, e.dedupe, e.now, |s.requests|).Sent?
    ensures SharesOk(Step(s, e))
  {
    hide WipedBetween, EndedBetween, Find, RequestOk, EntryOk;
    var s' := Step(s, e);
    var n := |s.requests|;
    NothingSince(s, e.key);
    forall r | 0 <= r < |s'.requests| ensures Registered(s', r) <==> Shareable(s', r) {
      if r < n {
        assert Registered(s, r) <==> Shareable(s, r);
      } else if e.key in s.inflight {
        assert RegisteredOk(s, e.key);
      }
    }
    forall q, r | 0 <= q < r < |s'.requests| && s'.requests[q].key == s'.requests[r].key && s'.requests[r].share
      ensures GoneBefore(s', q, r)
    {
      if r < n {
        assert GoneBefore(s, q, r);
      } else {
        assert !Registered(s, q);
      }
    }
  }

  lemma StepKeepsShares(s: State, e: Event)
    requires Inv(s) && SharesOk(s)
    ensures SharesOk(Step(s, e))
  {
    hide Inv, SharesOk, ChoiceOf;
    match e
    case Get(key, ttl, dedupe, now) =>
      if ChoiceOf(s.store, s.inflight, key, ttl, dedupe, now, |s.requests|).Sent? { SentKeepsShares(s, e); }
    case Response(r, _) => if r < |s.requests| && s.requests[r].phase.UnderWay? { ResponseKeepsShares(s, e); }
    case Cleanup(r) => if r < |s.requests| && s.requests[r].phase.Answered? { CleanupKeepsShares(s, e); }
    case Wipe(_) => WipeKeepsShares(s, e);
  }

  lemma {:induction false} RunKeepsShares(s: State, events: seq<Event>)
    requires Inv(s) && SharesOk(s)
    ensures Inv(Run(s, events)) && SharesOk(Run(s, events))
    decreases |events|
  {
    hide Inv, SharesOk, Step;
    if events != [] {
      StepKeepsInv(s, events[0]);
      StepKeepsShares(s, events[0]);
      RunKeepsShares(Step(s, events[0]), events[1..]);
    }
  }

  /**
   * A request can be shared exactly while three things hold: the call that sent it shares, no
   * invalidation has covered its key since, and no request for its key has ended since.
   */
  lemma RegisteredExactly(events: seq<Event>, r: nat)
    requires r < |Run(START, events).requests|
    ensures var s := Run(START, events); Registered(s, r) <==> Shareable(s, r)
  {
    hide Run, Registered, Shareable;
    RunKeepsShares(START, events);
  }

  /**
   * What a call does that finds nothing in the cache: it shares a request exactly when it may and
   * the request can be shared, and sends its own, beside whatever is under way, exactly when it may
   * not share or no request for its key can be shared.
   */
  lemma SentExactly(events: seq<Event>, key: string, ttl: int, dedupe: bool, now: int)
    requires var s := Run(START, events);
             !ChoiceOf(s.store, s.inflight, key, ttl, dedupe, now, |s.requests|).Cached?
    ensures var s := Run(START, events);
            var choice := ChoiceOf(s.store, s.inflight, key, ttl, dedupe, now, |s.requests|);
            && (forall r :: 0 <= r < |s.requests| && s.requests[r].key == key ==>
                  (choice == Shared(r) <==> dedupe && Shareable(s, r)))
            && (choice.Sent? <==> !dedupe || forall q :: 0 <= q < |s.requests| && s.requests[q].key == key ==> !Shareable(s, q))
  {
    hide Run, Find, Shareable, EntryOk, RequestOk, GoneBefore;
    RunKeepsShares(START, events);
    var s := Run(START, events);
    if key in s.inflight {
      assert RegisteredOk(s, key) && Registered(s, s.inflight[key]);
    }
  }

  /**
   * Why two requests for a key were sent, the later by a call that shares: when it was sent the
   * earlier could not be shared, because its own call did not share, or an invalidation or the end
   * of some request for the key had come in between.
   */
  lemma SecondHasCause(events: seq<Event>, q: nat, r: nat)
    requires var s := Run(START, events);
             q < r < |s.requests| && s.requests[q].key == s.requests[r].key && s.requests[r].share
    ensures GoneBefore(Run(START, events), q, r)
  {
    hide Run, GoneBefore, Registered, Shareable;
    RunKeepsShares(START, events);
  }

  /**
   * From any state: the end of one request takes the registration of every other for its key with
   * it, and a call that shares and misses then sends one more, beside one that is still under way.
   */
  lemma EndTakesRegistration(s: State, q: nat, r: nat, ttl: int, now: int)
    requires q < |s.requests| && s.requests[q].phase.Answered?
    requires q != r && r < |s.requests| && s.requests[r].phase.UnderWay? && s.requests[r].key == s.requests[q].key
    requires !ChoiceOf(s.store, s.inflight, s.requests[q].key, ttl, true, now, |s.requests|).Cached?
    ensures var key := s.requests[q].key;
            var after := Step(Step(s, Cleanup(q)), Get(key, ttl, true, now));
            && |after.requests| == |s.requests| + 1
            && after.requests[|s.requests|].phase.UnderWay? && after.requests[|s.requests|].key == key
            && after.requests[r].phase.UnderWay?
  {
    hide Find;
  }

  /** Every call for the key shares, and no invalidation covers it. */
  predicate Orderly(e: Event, key: string) {
    (e.Get? && e.key == key ==> e.dedupe) && (e.Wipe? ==> !(e.prefix <= key))
  }

  predicate AllOrderly(events: seq<Event>, key: string) {
    forall i :: 0 <= i < |events| ==> Orderly(events[i], key)
  }

  predicate AllRegistered(s: State, key: string) {
    forall r :: 0 <= r < |s.requests| && s.requests[r].key == key && !s.requests[r].phase.Over? ==> Registered(s, r)
  }

  lemma StepKeepsRegistered(s: State, e: Event, key: string)
    requires AllRegistered(s, key) && Orderly(e, key)
    ensures AllRegistered(Step(s, e), key)
  {
    hide Find, Unmatched, AfterResponse;
  }

  lemma {:induction false} RunKeepsRegistered(s: State, events: seq<Event>, key: string)
    requires AllRegistered(s, key) && AllOrderly(events, key)
    ensures AllRegistered(Run(s, events), key)
    decreases |events|
  {
    hide AllRegistered, Orderly, Step;
    if events != [] {
      StepKeepsRegistered(s, events[0], key);
      RunKeepsRegistered(Step(s, events[0]), events[1..], key);
    }
  }

  /** Then at most one request for the key is under way. */
  lemma OneRequestAKey(events: seq<Event>, key: string, q: nat, r: nat)
    requires AllOrderly(events, key)
    requires var s := Run(START, events);
             && q < |s.requests| && s.requests[q].key == key && !s.requests[q].phase.Over?
             && r < |s.requests| && s.requests[r].key == key && !s.requests[r].phase.Over?
    ensures q == r
  {
    hide Run;
    RunKeepsRegistered(START, events, key);
  }

  predicate TwoUnderWay(s: State, q: nat, r: nat) {
    && q < r < |s.requests| && s.requests[q].key == s.requests[r].key
    && s.requests[q].share && s.requests[q].phase.UnderWay? && s.requests[r].share && s.requests[r].phase.UnderWay?
  }

  /** Both causes occur: two calls that share, for the same key, each with a request of its own under way. */
  lemma TwoCauses(key: string, now: int)
    ensures var get := Get(key, 0, true, now);
            var wiped := Step(Step(Step(START, get), Wipe(key)), get);
            var start := Step(Step(START, Get(key, 0, false, now)), get);
            var ended := Step(Step(Step(start, Response(0, true)), Cleanup(0)), get);
            && TwoUnderWay(wiped, 0, 1)
            && TwoUnderWay(ended, 1, 2) && ended.wipes == []
  {
  }
}
