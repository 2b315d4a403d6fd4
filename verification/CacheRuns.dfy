/**
 * The TTL cache against a plain map, in every interleaving.
 *
 * Each stretch of JavaScript between two awaits is a step. Beside the real fields the state keeps
 * what a plain map would hold: the last effective write of each key, and which of these have been
 * pushed out since.
 */
module CacheRuns {
  import opened Text
  import opened TtlCache

  datatype Outcome<V> = Value(value: Option<V>) | Failure

  /** A getOrSet of its own: its factory is scheduled, runs, has been stored, and is over. */
  datatype Phase<V> = Scheduled | Running | Stored(outcome: Outcome<V>) | Over(outcome: Outcome<V>)

  datatype Task<K, V> = Task(key: K, ttl: int, begunAt: int, phase: Phase<V>)

  datatype Origin = BySet | ByTask(task: nat)

  datatype Write<K, V> = Write(entry: Entry<K, V>, origin: Origin)

  /** A call of getOrSet, the write that stood for its key at that time, and what it was answered. */
  datatype Call<K, V> = Call(key: K, now: int, route: Route<V>, write: Option<Write<K, V>>, answer: Option<Outcome<V>>)

  datatype State<K, V> = State(
    store: seq<Entry<K, V>>,
    inflight: map<K, nat>,
    tasks: seq<Task<K, V>>,
    clock: int,
    last: map<K, Write<K, V>>,
    evicted: set<K>,
    calls: seq<Call<K, V>>)

  datatype Event<K, V> =
    | GetAt(key: K, now: int)
    | SetAt(key: K, value: Option<V>, ttl: int, now: int)
    | CallAt(key: K, ttl: int, now: int)
    | FactoryStarts(t: nat)
    | FactoryEnds(t: nat, outcome: Outcome<V>)
    | Cleanup(t: nat)
    | Reply(call: nat)

  ghost function Keys<K, V>(entries: seq<Entry<K, V>>): set<K> {
    set e | e in entries :: e.key
  }

  /** A write at time `now`, with the pruning that follows it. */
  ghost function Written<K, V>(s: State<K, V>, w: Write<K, V>, now: int, max: int): State<K, V> {
    var live := Fresh(Put(s.store, w.entry), now);
    var k := Excess(|live|, max);
    s.(store := live[k..],
       last := s.last[w.entry.key := w],
       evicted := (s.evicted - {w.entry.key}) + Keys(live[..k]))
  }

  function WithPhase<K, V>(s: State<K, V>, t: nat, phase: Phase<V>): State<K, V>
    requires t < |s.tasks|
  {
    s.(tasks := s.tasks[t := s.tasks[t].(phase := phase)])
  }

  ghost function Called<K, V>(s: State<K, V>, key: K, ttl: int, now: int): State<K, V> {
    var route := RouteOf(s.store, s.inflight, key, ttl, now, |s.tasks|);
    var call := Call(key, now, route, if key in s.last then Some(s.last[key]) else None,
                     if route.Served? then Some(Value(Some(route.value))) else None);
    var read := s.(store := AfterGet(s.store, key, now), clock := now, calls := s.calls + [call]);
    if route.Begun? then
      read.(inflight := s.inflight[key := |s.tasks|], tasks := s.tasks + [Task(key, ttl, now, Scheduled)])
    else read
  }

  ghost function Step<K, V>(s: State<K, V>, e: Event<K, V>, max: int): State<K, V> {
    match e
    case GetAt(key, now) => s.(store := AfterGet(s.store, key, now), clock := now)
    case SetAt(key, value, ttl, now) =>
      if ttl <= 0 then s.(clock := now) else Written(s.(clock := now), Write(Entry(key, value, now + ttl), BySet), now, max)
    case CallAt(key, ttl, now) => Called(s, key, ttl, now)
    case FactoryStarts(t) =>
      if t < |s.tasks| && s.tasks[t].phase.Scheduled? then WithPhase(s, t, Running) else s
    case FactoryEnds(t, outcome) =>
      if t < |s.tasks| && s.tasks[t].phase.Running? then
        var task := s.tasks[t];
        var stored := WithPhase(s, t, Stored(outcome));
        if outcome.Failure? then stored
        else Written(stored, Write(Entry(task.key, outcome.value, task.begunAt + task.ttl), ByTask(t)), task.begunAt, max)
      else s
    case Cleanup(t) =>
      if t < |s.tasks| && s.tasks[t].phase.Stored? then
        WithPhase(s, t, Over(s.tasks[t].phase.outcome)).(inflight := s.inflight - {s.tasks[t].key})
      else s
    case Reply(i) =>
      if i < |s.calls| && Waits(s.tasks, s.calls[i]) then
        s.(calls := s.calls[i := s.calls[i].(answer := Some(s.tasks[s.calls[i].route.task].phase.outcome))])
      else s
  }

  /** A caller that began or joined a task is answered after the task is over. */
  predicate Waits<K, V>(tasks: seq<Task<K, V>>, c: Call<K, V>) {
    c.answer.None? && (c.route.Begun? || c.route.Joined?) && c.route.task < |tasks| && tasks[c.route.task].phase.Over?
  }

  /** The clock never goes back. */
  predicate Timely<K, V>(s: State<K, V>, e: Event<K, V>) {
    e.GetAt? || e.SetAt? || e.CallAt? ==> e.now >= s.clock
  }

  ghost predicate TimelyRun<K, V>(s: State<K, V>, events: seq<Event<K, V>>, max: int)
    decreases |events|
  {
    events == [] || (Timely(s, events[0]) && TimelyRun(Step(s, events[0], max), events[1..], max))
  }

  ghost function Run<K, V>(s: State<K, V>, events: seq<Event<K, V>>, max: int): State<K, V>
    decreases |events|
  {
    if events == [] then s else Run(Step(s, events[0], max), events[1..], max)
  }

  // ---------------------------------------------------------------- the invariant

  predicate Distinct<K(==), V>(store: seq<Entry<K, V>>) {
    forall i, j :: 0 <= i < j < |store| ==> store[i].key != store[j].key
  }

  /** Every entry is its key's last write; a last write that is gone has expired or was pushed out. */
  ghost predicate StoreOk<K, V>(s: State<K, V>) {
    && Distinct(s.store)
    && (forall e :: e in s.store ==> e.key in s.last && s.last[e.key].entry == e && e.key !in s.evicted)
    && (forall k :: k in s.last && k !in s.evicted && k !in Keys(s.store) ==> s.last[k].entry.expiresAt <= s.clock)
  }

  predicate SizeOk<K, V>(s: State<K, V>, max: int) {
    |s.store| <= if max < 0 then 0 else max
  }

  ghost predicate TasksOk<K, V>(s: State<K, V>) {
    && (forall t :: 0 <= t < |s.tasks| ==> s.tasks[t].ttl > 0 && s.tasks[t].begunAt <= s.clock)
    && (forall t :: 0 <= t < |s.tasks| && !s.tasks[t].phase.Over? ==> s.tasks[t].key in s.inflight && s.inflight[s.tasks[t].key] == t)
    && (forall k :: k in s.inflight ==>
          s.inflight[k] < |s.tasks| && s.tasks[s.inflight[k]].key == k && !s.tasks[s.inflight[k]].phase.Over?)
  }

  /** A write by a task is that task's value, and expires a TTL after the task began. */
  ghost predicate WriteOk<K, V>(tasks: seq<Task<K, V>>, w: Write<K, V>) {
    w.origin.ByTask? ==>
      && w.origin.task < |tasks|
      && var task := tasks[w.origin.task];
      && task.key == w.entry.key
      && (task.phase.Stored? || task.phase.Over?) && task.phase.outcome == Value(w.entry.value)
      && w.entry.expiresAt == task.begunAt + task.ttl
  }

  ghost predicate AnswerOk<K, V>(task: Task<K, V>, c: Call<K, V>) {
    c.answer.Some? ==> task.phase == Over(c.answer.value)
  }

  ghost predicate CallOk<K, V>(tasks: seq<Task<K, V>>, c: Call<K, V>) {
    match c.route
    case Served(v) =>
      && c.write.Some? && c.write.value.entry.key == c.key && c.write.value.entry.value == Some(v)
      && c.write.value.entry.expiresAt > c.now && WriteOk(tasks, c.write.value)
      && c.answer == Some(Value(Some(v)))
    case Joined(t) => t < |tasks| && tasks[t].key == c.key && tasks[t].begunAt <= c.now && AnswerOk(tasks[t], c)
    case Begun(t) => t < |tasks| && tasks[t].key == c.key && tasks[t].begunAt == c.now && AnswerOk(tasks[t], c)
    case Uncached => true
  }

  ghost predicate HistoryOk<K, V>(s: State<K, V>) {
    && (forall k :: k in s.last ==> s.last[k].entry.key == k && WriteOk(s.tasks, s.last[k]))
    && (forall i :: 0 <= i < |s.calls| ==> CallOk(s.tasks, s.calls[i]))
  }

  ghost predicate Inv<K, V>(s: State<K, V>, max: int) {
    StoreOk(s) && SizeOk(s, max) && TasksOk(s) && HistoryOk(s)
  }

  // ---------------------------------------------------------------- the Map's operations

  lemma DeleteRemoves<K, V>(store: seq<Entry<K, V>>, key: K)
    requires Distinct(store)
    ensures Distinct(Delete(store, key)) && |Delete(store, key)| <= |store|
    ensures forall e :: e in Delete(store, key) <==> e in store && e.key != key
  {
    hide Find;
    var k := Find(store, key);
    if k.Some? {
      assert store == store[..k.value] + [store[k.value]] + store[k.value + 1..];
    }
  }

  lemma DeleteHas<K, V>(store: seq<Entry<K, V>>, key: K, e: Entry<K, V>)
    requires Distinct(store)
    ensures e in Delete(store, key) <==> e in store && e.key != key
  {
    DeleteRemoves(store, key);
  }

  lemma PutWrites<K, V>(store: seq<Entry<K, V>>, e: Entry<K, V>)
    requires Distinct(store)
    ensures Distinct(Put(store, e))
    ensures forall x :: x in Put(store, e) <==> x == e || (x in store && x.key != e.key)
  {
    hide Find;
    var k := Find(store, e.key);
    var after := Put(store, e);
    if k.Some? {
      assert after[k.value] == e;
      forall x | x in store && x.key != e.key ensures x in after {
        var i :| 0 <= i < |store| && store[i] == x;
        assert after[i] == x;
      }
    } else {
      assert after[|store|] == e;
      forall x | x in store ensures x in after && x.key != e.key {
        var i :| 0 <= i < |store| && store[i] == x;
        assert after[i] == x;
      }
    }
  }

  lemma {:induction false} FreshFilters<K, V>(store: seq<Entry<K, V>>, now: int)
    ensures forall e :: e in Fresh(store, now) <==> e in store && e.expiresAt > now
  {
    if store != [] {
      var n := |store| - 1;
      FreshFilters(store[..n], now);
      assert store == store[..n] + [store[n]];
    }
  }

  lemma FreshHas<K, V>(store: seq<Entry<K, V>>, now: int, e: Entry<K, V>)
    ensures e in Fresh(store, now) <==> e in store && e.expiresAt > now
  {
    FreshFilters(store, now);
  }

  lemma {:induction false} FreshIsDistinct<K, V>(store: seq<Entry<K, V>>, now: int)
    requires Distinct(store)
    ensures Distinct(Fresh(store, now))
  {
    if store != [] {
      var n := |store| - 1;
      FreshFilters(store[..n], now);
      FreshIsDistinct(store[..n], now);
      var kept := Fresh(store[..n], now);
      forall x | x in kept ensures x.key != store[n].key {
        FreshHas(store[..n], now, x);
      }
      DistinctAppend(kept, store[n]);
    }
  }

  lemma DistinctAppend<K, V>(s: seq<Entry<K, V>>, e: Entry<K, V>)
    requires Distinct(s) && forall x :: x in s ==> x.key != e.key
    ensures Distinct(s + [e])
  {
  }

  lemma SplitHolds<K, V>(s: seq<Entry<K, V>>, k: nat)
    requires Distinct(s) && k <= |s|
    ensures Distinct(s[k..])
    ensures forall e :: e in s <==> e in s[..k] || e in s[k..]
    ensures forall e :: e in s[k..] ==> e.key !in Keys(s[..k])
  {
    assert s == s[..k] + s[k..];
  }

  // ---------------------------------------------------------------- the store

  lemma FindIsKey<K, V>(store: seq<Entry<K, V>>, key: K)
    ensures Find(store, key).Some? <==> key in Keys(store)
  {
    hide Find;
    var k := Find(store, key);
    if k.Some? {
      assert store[k.value] in store;
    }
  }

  /** A read takes away at most its own key, and only when expired. */
  lemma ReadKeepsStore<K, V>(s: State<K, V>, key: K, now: int, max: int)
    requires StoreOk(s) && SizeOk(s, max) && now >= s.clock
    ensures var s' := s.(store := AfterGet(s.store, key, now), clock := now); StoreOk(s') && SizeOk(s', max)
  {
    hide Find, Delete;
    var k := Find(s.store, key);
    var s' := s.(store := AfterGet(s.store, key, now), clock := now);
    if k.Some? && s.store[k.value].expiresAt <= now {
      var dead := s.store[k.value];
      assert dead in s.store;
      DeleteRemoves(s.store, key);
      var rest := Delete(s.store, key);
      assert s'.store == rest;
      forall e | e in rest ensures e.key in s.last && s.last[e.key].entry == e && e.key !in s.evicted {
        DeleteHas(s.store, key, e);
      }
      forall e | e in s.store && e.key != key ensures e.key in Keys(rest) {
        DeleteHas(s.store, key, e);
      }
      forall x | x in s.last && x !in s.evicted && x !in Keys(rest) ensures s.last[x].entry.expiresAt <= now {
        if x == key {
          assert s.last[key].entry == dead;
        }
      }
    }
  }

  lemma LiveAfterPut<K, V>(store: seq<Entry<K, V>>, w: Entry<K, V>, now: int, e: Entry<K, V>)
    requires Distinct(store)
    ensures e in Fresh(Put(store, w), now) <==> (e == w || (e in store && e.key != w.key)) && e.expiresAt > now
    ensures Distinct(Fresh(Put(store, w), now))
  {
    hide Put, Fresh, Distinct;
    PutWrites(store, w);
    FreshHas(Put(store, w), now, e);
    FreshIsDistinct(Put(store, w), now);
  }

  lemma WrittenEntry<K, V>(s: State<K, V>, w: Write<K, V>, now: int, max: int, e: Entry<K, V>)
    requires StoreOk(s) && e in Written(s, w, now, max).store
    ensures var s' := Written(s, w, now, max);
            e.key in s'.last && s'.last[e.key].entry == e && e.key !in s'.evicted
  {
    hide Put, Fresh, Excess, Keys;
    var live := Fresh(Put(s.store, w.entry), now);
    var k := Excess(|live|, max);
    LiveAfterPut(s.store, w.entry, now, e);
    SplitHolds(live, k);
  }

  lemma WrittenGone<K, V>(s: State<K, V>, w: Write<K, V>, now: int, max: int, x: K)
    requires StoreOk(s) && w.entry.expiresAt > now && now <= s.clock
    requires var s' := Written(s, w, now, max); x in s'.last && x !in s'.evicted && x !in Keys(s'.store)
    ensures Written(s, w, now, max).last[x].entry.expiresAt <= s.clock
  {
    hide Put, Fresh, Excess;
    var live := Fresh(Put(s.store, w.entry), now);
    var k := Excess(|live|, max);
    LiveAfterPut(s.store, w.entry, now, w.entry);
    SplitHolds(live, k);
    if x != w.entry.key && x in Keys(s.store) {
      var e :| e in s.store && e.key == x;
      LiveAfterPut(s.store, w.entry, now, e);
      assert e !in live;
    }
  }

  /** A write, with its pruning, keeps the store in step with the last writes, and within its size. */
  lemma WrittenKeepsStore<K, V>(s: State<K, V>, w: Write<K, V>, now: int, max: int)
    requires StoreOk(s) && w.entry.expiresAt > now && now <= s.clock
    ensures StoreOk(Written(s, w, now, max)) && SizeOk(Written(s, w, now, max), max)
  {
    hide Put, Fresh;
    var s' := Written(s, w, now, max);
    var live := Fresh(Put(s.store, w.entry), now);
    LiveAfterPut(s.store, w.entry, now, w.entry);
    SplitHolds(live, Excess(|live|, max));
    forall e | e in s'.store ensures e.key in s'.last && s'.last[e.key].entry == e && e.key !in s'.evicted {
      WrittenEntry(s, w, now, max, e);
    }
    forall x | x in s'.last && x !in s'.evicted && x !in Keys(s'.store) ensures s'.last[x].entry.expiresAt <= s'.clock {
      WrittenGone(s, w, now, max, x);
    }
  }

  /**
   * A read is a read of the plain map: a hit exactly when the key's last write has not expired and
   * has not been pushed out, and then with that write's value.
   */
  lemma ReadIsLastWrite<K, V>(s: State<K, V>, key: K, now: int)
    requires StoreOk(s) && now >= s.clock
    ensures var live := key in s.last && key !in s.evicted && s.last[key].entry.expiresAt > now;
            && (live ==> Hit(s.store, key, now) == s.last[key].entry.value)
            && (!live ==> Hit(s.store, key, now) == None)
  {
    hide Find;
    FindIsKey(s.store, key);
    var k := Find(s.store, key);
    if k.Some? {
      assert s.store[k.value] in s.store;
    }
  }

  /** Only a full cache pushes entries out, and those in the oldest places: the rest is a suffix. */
  lemma PruneIsOldestFirst<K, V>(store: seq<Entry<K, V>>, now: int, max: int)
    ensures var live := Fresh(store, now);
            var kept := AfterPrune(store, now, max);
            && |kept| <= |live| && kept == live[|live| - |kept|..]
            && (|kept| < |live| ==> |kept| == if max < 0 then 0 else max)
  {
    hide Fresh;
  }

  // ---------------------------------------------------------------- the tasks

  /** A task's phase moves on, and what it has produced stays. */
  predicate Later<V(==)>(a: Phase<V>, b: Phase<V>) {
    && (a.Stored? ==> (b.Stored? || b.Over?) && b.outcome == a.outcome)
    && (a.Over? ==> b == a)
  }

  ghost predicate TasksGrow<K, V>(a: seq<Task<K, V>>, b: seq<Task<K, V>>) {
    |a| <= |b| && forall t :: 0 <= t < |a| ==>
      b[t].key == a[t].key && b[t].ttl == a[t].ttl && b[t].begunAt == a[t].begunAt && Later(a[t].phase, b[t].phase)
  }

  lemma HistoryGrows<K, V>(s: State<K, V>, s': State<K, V>)
    requires HistoryOk(s) && TasksGrow(s.tasks, s'.tasks)
    requires forall k :: k in s'.last ==> s'.last[k].entry.key == k && ((k in s.last && s'.last[k] == s.last[k]) || WriteOk(s'.tasks, s'.last[k]))
    requires |s.calls| <= |s'.calls| <= |s.calls| + 1 && s'.calls[..|s.calls|] == s.calls
    requires |s'.calls| > |s.calls| ==> CallOk(s'.tasks, s'.calls[|s.calls|])
    ensures HistoryOk(s')
  {
    forall i | 0 <= i < |s'.calls| ensures CallOk(s'.tasks, s'.calls[i]) {
      if i < |s.calls| {
        assert s'.calls[..|s.calls|][i] == s.calls[i];
        assert CallOk(s.tasks, s.calls[i]);
      }
    }
  }

  // ---------------------------------------------------------------- the steps

  lemma CallIsOk<K, V>(s: State<K, V>, key: K, ttl: int, now: int, max: int)
    requires Inv(s, max) && now >= s.clock
    ensures var s' := Called(s, key, ttl, now); CallOk(s'.tasks, s'.calls[|s.calls|])
  {
    hide Hit, AfterGet, StoreOk;
    ReadIsLastWrite(s, key, now);
  }

  lemma CallKeepsTasks<K, V>(s: State<K, V>, key: K, ttl: int, now: int)
    requires TasksOk(s) && now >= s.clock
    ensures TasksOk(Called(s, key, ttl, now)) && TasksGrow(s.tasks, Called(s, key, ttl, now).tasks)
  {
    hide Hit, AfterGet;
  }

  lemma CallKeepsInv<K, V>(s: State<K, V>, key: K, ttl: int, now: int, max: int)
    requires Inv(s, max) && now >= s.clock
    ensures Inv(Called(s, key, ttl, now), max)
  {
    hide Hit, AfterGet, CallOk, WriteOk, TasksOk, TasksGrow, StoreOk;
    var s' := Called(s, key, ttl, now);
    ReadKeepsStore(s, key, now, max);
    StoreIgnoresTasks(s.(store := AfterGet(s.store, key, now), clock := now), s');
    CallKeepsTasks(s, key, ttl, now);
    CallIsOk(s, key, ttl, now, max);
    assert forall k :: k in s'.last ==> s'.last[k] == s.last[k];
    HistoryGrows(s, s');
  }

  lemma SetKeepsInv<K, V>(s: State<K, V>, key: K, value: Option<V>, ttl: int, now: int, max: int)
    requires Inv(s, max) && now >= s.clock && ttl > 0
    ensures Inv(Written(s.(clock := now), Write(Entry(key, value, now + ttl), BySet), now, max), max)
  {
    hide Put, Fresh, Keys, CallOk, Distinct;
    var s0 := s.(clock := now);
    var s' := Written(s0, Write(Entry(key, value, now + ttl), BySet), now, max);
    WrittenKeepsStore(s0, Write(Entry(key, value, now + ttl), BySet), now, max);
    HistoryGrows(s, s');
  }

  lemma FactoryKeepsInv<K, V>(s: State<K, V>, t: nat, outcome: Outcome<V>, max: int)
    requires Inv(s, max) && t < |s.tasks| && s.tasks[t].phase.Running?
    ensures Inv(Step(s, FactoryEnds(t, outcome), max), max)
  {
    hide Put, Fresh, Keys, CallOk, Distinct;
    var s' := Step(s, FactoryEnds(t, outcome), max);
    var task := s.tasks[t];
    if outcome.Value? {
      var w := Write(Entry(task.key, outcome.value, task.begunAt + task.ttl), ByTask(t));
      WrittenKeepsStore(WithPhase(s, t, Stored(outcome)), w, task.begunAt, max);
      assert WriteOk(s'.tasks, w);
    }
    HistoryGrows(s, s');
  }

  lemma StartsKeepsInv<K, V>(s: State<K, V>, t: nat, max: int)
    requires Inv(s, max) && t < |s.tasks| && s.tasks[t].phase.Scheduled?
    ensures Inv(WithPhase(s, t, Running), max)
  {
    hide CallOk, Distinct, Keys, WriteOk, StoreOk;
    StoreIgnoresTasks(s, WithPhase(s, t, Running));
    HistoryGrows(s, WithPhase(s, t, Running));
  }

  lemma CleanupKeepsInv<K, V>(s: State<K, V>, t: nat, max: int)
    requires Inv(s, max) && t < |s.tasks| && s.tasks[t].phase.Stored?
    ensures Inv(Step(s, Cleanup(t), max), max)
  {
    hide CallOk, Distinct, Keys, WriteOk, StoreOk;
    StoreIgnoresTasks(s, Step(s, Cleanup(t), max));
    HistoryGrows(s, Step(s, Cleanup(t), max));
  }

  lemma ReplyKeepsInv<K, V>(s: State<K, V>, i: nat, max: int)
    requires Inv(s, max) && i < |s.calls| && Waits(s.tasks, s.calls[i])
    ensures Inv(Step(s, Reply(i), max), max)
  {
    hide Distinct, Keys, WriteOk, StoreOk, TasksOk;
    var s' := Step(s, Reply(i), max);
    StoreIgnoresTasks(s, s');
    TasksIgnoreCalls(s, s');
    forall j | 0 <= j < |s'.calls| ensures CallOk(s'.tasks, s'.calls[j]) {
      assert CallOk(s.tasks, s.calls[j]);
    }
  }

  lemma TasksIgnoreCalls<K, V>(s: State<K, V>, s': State<K, V>)
    requires TasksOk(s) && s'.tasks == s.tasks && s'.inflight == s.inflight && s'.clock == s.clock
    ensures TasksOk(s')
  {
  }

  lemma StoreIgnoresTasks<K, V>(s: State<K, V>, s': State<K, V>)
    requires StoreOk(s) && s'.store == s.store && s'.clock == s.clock && s'.last == s.last && s'.evicted == s.evicted
    ensures StoreOk(s')
  {
    hide Distinct, Keys;
  }

  lemma StepKeepsInv<K, V>(s: State<K, V>, e: Event<K, V>, max: int)
    requires Inv(s, max) && Timely(s, e)
    ensures Inv(Step(s, e, max), max)
  {
    hide Written, Called, AfterGet, Distinct, Keys, WriteOk, CallOk;
    match e
    case GetAt(key, now) => ReadKeepsStore(s, key, now, max);
    case SetAt(key, value, ttl, now) => if ttl > 0 { SetKeepsInv(s, key, value, ttl, now, max); }
    case CallAt(key, ttl, now) => CallKeepsInv(s, key, ttl, now, max);
    case FactoryStarts(t) => if t < |s.tasks| && s.tasks[t].phase.Scheduled? { StartsKeepsInv(s, t, max); }
    case FactoryEnds(t, outcome) =>
      if t < |s.tasks| && s.tasks[t].phase.Running? { FactoryKeepsInv(s, t, outcome, max); }
    case Cleanup(t) => if t < |s.tasks| && s.tasks[t].phase.Stored? { CleanupKeepsInv(s, t, max); }
    case Reply(i) => if i < |s.calls| && Waits(s.tasks, s.calls[i]) { ReplyKeepsInv(s, i, max); }
  }

  ghost function Start<K, V>(now: int): State<K, V> {
    State([], map[], [], now, map[], {}, [])
  }

  lemma StartIsInv<K, V>(now: int, max: int)
    ensures Inv(Start<K, V>(now), max)
  {
  }

  lemma {:induction false} RunKeepsInv<K, V>(s: State<K, V>, events: seq<Event<K, V>>, max: int)
    requires Inv(s, max) && TimelyRun(s, events, max)
    ensures Inv(Run(s, events, max), max)
    decreases |events|
  {
    hide Inv, Step;
    if events != [] {
      StepKeepsInv(s, events[0], max);
      RunKeepsInv(Step(s, events[0], max), events[1..], max);
    }
  }

  // ---------------------------------------------------------------- read off after any run

  /** At most one factory of a key is under way. */
  lemma OneFactoryAKey<K, V>(events: seq<Event<K, V>>, start: int, max: int, t: nat, u: nat)
    requires TimelyRun(Start(start), events, max)
    requires var s := Run(Start(start), events, max);
             t < |s.tasks| && u < |s.tasks| && !s.tasks[t].phase.Over? && !s.tasks[u].phase.Over? && s.tasks[t].key == s.tasks[u].key
    ensures t == u
  {
    hide Run, TimelyRun;
    StartIsInv<K, V>(start, max);
    RunKeepsInv(Start(start), events, max);
  }

  predicate UnderWay<K(==), V>(tasks: seq<Task<K, V>>, key: K, t: nat) {
    t < |tasks| && tasks[t].key == key && !tasks[t].phase.Over?
  }

  /** A miss with a TTL joins a task exactly when one of its key is under way, and then that one. */
  lemma JoinsWhatIsUnderWay<K, V>(events: seq<Event<K, V>>, start: int, max: int, key: K, ttl: int, now: int, t: nat)
    requires TimelyRun(Start(start), events, max) && ttl > 0
    requires Hit(Run(Start(start), events, max).store, key, now) == None
    ensures var s := Run(Start(start), events, max);
            RouteOf(s.store, s.inflight, key, ttl, now, |s.tasks|) == Joined(t) <==> UnderWay(s.tasks, key, t)
  {
    hide Run, TimelyRun, Hit, StoreOk, HistoryOk;
    StartIsInv<K, V>(start, max);
    RunKeepsInv(Start(start), events, max);
  }

  /** Whoever began a task and whoever joined it get the same answer, the factory's own, value or failure alike. */
  lemma SharersGetOneAnswer<K, V>(events: seq<Event<K, V>>, start: int, max: int, i: nat, j: nat)
    requires TimelyRun(Start(start), events, max)
    requires var calls := Run(Start(start), events, max).calls;
             && i < |calls| && (calls[i].route.Begun? || calls[i].route.Joined?) && calls[i].answer.Some?
             && j < |calls| && (calls[j].route.Begun? || calls[j].route.Joined?) && calls[j].answer.Some?
             && calls[i].route.task == calls[j].route.task
    ensures var s := Run(Start(start), events, max);
            var t := s.calls[i].route.task;
            && t < |s.tasks| && s.calls[i].key == s.calls[j].key == s.tasks[t].key
            && s.tasks[t].phase == Over(s.calls[i].answer.value) && s.calls[i].answer == s.calls[j].answer
  {
    hide Run, TimelyRun, StoreOk, TasksOk;
    StartIsInv<K, V>(start, max);
    RunKeepsInv(Start(start), events, max);
    var s := Run(Start(start), events, max);
    assert CallOk(s.tasks, s.calls[i]) && CallOk(s.tasks, s.calls[j]);
  }

  /** A served value that a task produced is younger than its TTL, counted from the call that began the task. */
  lemma ServedIsYoung<K, V>(events: seq<Event<K, V>>, start: int, max: int, i: nat)
    requires TimelyRun(Start(start), events, max)
    requires var s := Run(Start(start), events, max);
             i < |s.calls| && s.calls[i].route.Served? && s.calls[i].write.Some? && s.calls[i].write.value.origin.ByTask?
    ensures var s := Run(Start(start), events, max);
            var t := s.calls[i].write.value.origin.task;
            && t < |s.tasks| && s.tasks[t].key == s.calls[i].key
            && s.calls[i].now < s.tasks[t].begunAt + s.tasks[t].ttl
            && (s.tasks[t].phase.Stored? || s.tasks[t].phase.Over?)
            && s.tasks[t].phase.outcome == Value(Some(s.calls[i].route.value))
  {
    hide Run, TimelyRun;
    StartIsInv<K, V>(start, max);
    RunKeepsInv(Start(start), events, max);
    var s := Run(Start(start), events, max);
    assert CallOk(s.tasks, s.calls[i]);
  }

  /** A failed factory leaves nothing: no entry of the cache comes from one. */
  lemma FailuresAreNotCached<K, V>(events: seq<Event<K, V>>, start: int, max: int, e: Entry<K, V>)
    requires TimelyRun(Start(start), events, max)
    requires e in Run(Start(start), events, max).store
    ensures var s := Run(Start(start), events, max);
            && e.key in s.last && s.last[e.key].entry == e
            && (s.last[e.key].origin.ByTask? ==>
                  && s.last[e.key].origin.task < |s.tasks|
                  && var phase := s.tasks[s.last[e.key].origin.task].phase;
                  (phase.Stored? || phase.Over?) && phase.outcome == Value(e.value))
  {
    hide Run, TimelyRun;
    StartIsInv<K, V>(start, max);
    RunKeepsInv(Start(start), events, max);
  }

  /** Every read after any run: the plain map's answer; and the cache within its size. */
  lemma CacheIsPlainMap<K, V>(events: seq<Event<K, V>>, start: int, max: int, key: K, now: int)
    requires TimelyRun(Start(start), events, max) && now >= Run(Start(start), events, max).clock
    ensures var s := Run(Start(start), events, max);
            var live := key in s.last && key !in s.evicted && s.last[key].entry.expiresAt > now;
            && (live ==> Hit(s.store, key, now) == s.last[key].entry.value)
            && (!live ==> Hit(s.store, key, now) == None)
            && |s.store| <= if max < 0 then 0 else max
  {
    hide Run, TimelyRun, Hit, StoreOk;
    StartIsInv<K, V>(start, max);
    RunKeepsInv(Start(start), events, max);
    ReadIsLastWrite(Run(Start(start), events, max), key, now);
  }

  // ---------------------------------------------------------------- the steps are the class's methods

  /** A write without a positive TTL does nothing; any other puts its entry in place and prunes. */
  lemma SetIs<K, V>(store: seq<Entry<K, V>>, key: K, value: Option<V>, ttl: int, now: int, max: int)
    ensures ttl <= 0 ==> AfterSet(store, key, value, ttl, now, max) == store
    ensures ttl > 0 ==> AfterSet(store, key, value, ttl, now, max) == AfterPrune(Put(store, Entry(key, value, now + ttl)), now, max)
  {
  }

  /** Each step changes the store as the method does that it stands for. */
  lemma StepIsMethod<K, V>(s: State<K, V>, e: Event<K, V>, max: int)
    requires TasksOk(s)
    ensures var s' := Step(s, e, max);
            match e
            case GetAt(key, now) => s'.store == AfterGet(s.store, key, now)
            case SetAt(key, value, ttl, now) => s'.store == AfterSet(s.store, key, value, ttl, now, max)
            case CallAt(key, ttl, now) =>
              && s'.store == AfterGet(s.store, key, now)
              && s'.inflight == (if Hit(s.store, key, now) == None && ttl > 0 && key !in s.inflight
                                 then s.inflight[key := |s.tasks|] else s.inflight)
            case FactoryEnds(t, outcome) =>
              t < |s.tasks| && s.tasks[t].phase.Running? ==>
                s'.store == (if outcome.Failure? then s.store
                             else AfterSet(s.store, s.tasks[t].key, outcome.value, s.tasks[t].ttl, s.tasks[t].begunAt, max))
            case Cleanup(t) =>
              t < |s.tasks| && s.tasks[t].phase.Stored? ==> s'.store == s.store && s'.inflight == s.inflight - {s.tasks[t].key}
            case _ => s'.store == s.store && s'.inflight == s.inflight
  {
    hide AfterGet, Hit, Put, Fresh, Excess;
  }
}
