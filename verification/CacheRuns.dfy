/**
  Every run of the cache: calls, lookup ends, panics, and the clock, in any order
  (crates/server/src/application/cache.rs). Lookups run outside the lock, so a lookup may end
  after its entry expired, was evicted, or was filled again by a later lookup.
*/
module CacheRuns {
  import opened Collections
  import opened Cache

  datatype Config<!V> = Config(capacity: nat, clockEnd: int, ttl: V -> nat)

  /** The history of one lookup task. `step` orders the events of a run. */
  datatype Task<K, V> =
    | Running(key: K)
    | Done(key: K, outcome: V, at: int, step: nat)
    | Broken(key: K, step: nat)

  /** A caller that waits for, or reads, the outcome of lookup `id`. */
  datatype Join<K> = Join(key: K, id: nat, at: int, step: nat)

  datatype World<K, V> = World(cache: State<K>, now: int, steps: nat, tasks: map<nat, Task<K, V>>,
                               joins: seq<Join<K>>, evicted: set<nat>)

  datatype Event<K, V> = Call(key: K) | End(id: nat, outcome: V) | Panic(id: nat) | Tick(time: nat)

  ghost predicate Init<K, V>(w: World<K, V>) {
    w == World(State(map[], map[], 0), w.now, 0, map[], [], {})
  }

  /** One locked section, or a step of the clock. */
  ghost predicate Next<K(!new), V(!new)>(cfg: Config<V>, w: World<K, V>, e: Event<K, V>, w': World<K, V>) {
    match e
    case Call(key) =>
      var (looked, joined) := FreshEntry(w.cache, key, w.now);
      if joined.Some? then
        w' == w.(cache := looked, steps := w.steps + 1,
                 joins := w.joins + [Join(key, joined.value, w.now, w.steps)])
      else
        Evicted(Pending(looked, key), cfg.capacity, w'.cache) && Starts(w, key, Pending(looked, key), w')
    case End(id, outcome) =>
      && id in w.tasks && w.tasks[id].Running?
      && w' == w.(cache := Complete(w.cache, w.tasks[id].key, id, cfg.ttl(outcome), w.now, cfg.clockEnd),
                  steps := w.steps + 1,
                  tasks := w.tasks[id := Done(w.tasks[id].key, outcome, w.now, w.steps)])
    case Panic(id) =>
      && id in w.tasks && w.tasks[id].Running?
      && w' == w.(cache := RemoveLookup(w.cache, w.tasks[id].key, id), steps := w.steps + 1,
                  tasks := w.tasks[id := Broken(w.tasks[id].key, w.steps)])
    case Tick(time) =>
      w' == w.(now := w.now + time, steps := w.steps + 1)
  }

  /** The new lookup runs, the caller waits for it, and the eviction may drop older entries. */
  ghost predicate Starts<K(!new), V(!new)>(w: World<K, V>, key: K, pending: State<K>, w': World<K, V>) {
    var id := pending.next;
    && w'.now == w.now && w'.steps == w.steps + 1
    && w'.tasks == w.tasks[id := Running(key)]
    && w'.joins == w.joins + [Join(key, id, w.now, w.steps)]
    && w'.evicted == w.evicted + Dropped(pending, w'.cache)
  }

  /** The lookups whose entries the eviction took away. */
  ghost function Dropped<K(!new)>(before: State<K>, after: State<K>): set<nat> {
    set k | k in before.entries && k !in after.entries :: before.entries[k].id
  }

  /** The worlds of a run that starts with an empty cache. */
  ghost predicate IsRun<K(!new), V(!new)>(cfg: Config<V>, events: seq<Event<K, V>>, worlds: seq<World<K, V>>) {
    && |worlds| == |events| + 1
    && Init(worlds[0])
    && forall i :: 0 <= i < |events| ==> Next(cfg, worlds[i], events[i], worlds[i + 1])
  }

  // ----- The invariant of every run -----

  /** Each entry belongs to a lookup for its own key, and has the expiry of that lookup. */
  ghost predicate EntryOfTask<K(!new), V(!new)>(cfg: Config<V>, w: World<K, V>, k: K)
    requires k in w.cache.entries
  {
    var e := w.cache.entries[k];
    && e.id in w.tasks && w.tasks[e.id].key == k
    && match w.tasks[e.id]
       case Running(_) => e.expiresAt == None
       case Done(_, outcome, at, _) =>
         cfg.ttl(outcome) > 0 && e.expiresAt == ExpiryOf(at, cfg.ttl(outcome), cfg.clockEnd)
       case Broken(_, _) => false
  }

  /** A caller's lookup is for its key, and its outcome was running or still fresh at the call. */
  ghost predicate JoinOfTask<K(!new), V(!new)>(cfg: Config<V>, w: World<K, V>, j: Join<K>) {
    && j.step < w.steps && j.at <= w.now
    && j.id in w.tasks && w.tasks[j.id].key == j.key
    && match w.tasks[j.id]
       case Running(_) => true
       case Done(_, outcome, at, step) =>
         j.step < step
         || (cfg.ttl(outcome) > 0 && (at + cfg.ttl(outcome) > cfg.clockEnd || j.at < at + cfg.ttl(outcome)))
       case Broken(_, step) => j.step < step
  }

  ghost predicate Held<K(!new), V(!new)>(w: World<K, V>, id: nat)
    requires id in w.tasks
  {
    var k := w.tasks[id].key;
    k in w.cache.entries && w.cache.entries[k].id == id
  }

  ghost predicate Inv<K(!new), V(!new)>(cfg: Config<V>, w: World<K, V>) {
    && Agree(w.cache)
    && |w.cache.entries| <= cfg.capacity
    && (forall id :: id in w.tasks ==> 1 <= id <= w.cache.next)
    && (forall k :: k in w.cache.entries ==> EntryOfTask(cfg, w, k))
    && (forall i :: 0 <= i < |w.joins| ==> JoinOfTask(cfg, w, w.joins[i]))
    && (forall id :: id in w.tasks && w.tasks[id].Running? ==> Held(w, id) || id in w.evicted)
  }

  // ----- Every event keeps the invariant -----

  ghost predicate SubEntries<K(!new)>(t: State<K>, s: State<K>) {
    forall k :: k in t.entries ==> k in s.entries && t.entries[k] == s.entries[k]
  }

  lemma {:induction false} EvictedAgrees<K(!new)>(s: State<K>, capacity: nat, t: State<K>)
    requires Agree(s) && Evicted(s, capacity, t)
    ensures Agree(t) && t.next == s.next && SubEntries(t, s) && |t.entries| <= capacity
    decreases |s.recency|
  {
    if |s.entries| > capacity {
      SomeKey(s.entries);
      if s.recency != map[] {
        var n: nat :| IsLeast(s.recency, n) && Evicted(PopAt(s, n), capacity, t);
        PopAgrees(s, n);
        EvictedAgrees(PopAt(s, n), capacity, t);
      }
    }
  }

  /** What the maps hold between the start of a lookup and the eviction, and after it. */
  ghost predicate StartedCache<K(!new)>(s: State<K>, key: K, pending: State<K>, t: State<K>) {
    var id := s.next + 1;
    && (key in s.entries ==> s.entries[key].expiresAt.Some?)
    && pending.entries == s.entries[key := Entry(id, id, None)] && pending.next == id
    && SubEntries(t, pending) && t.next == id
  }

  lemma StartedState<K(!new)>(s: State<K>, key: K, now: int, capacity: nat, t: State<K>)
    requires Agree(s) && FreshEntry(s, key, now).1.None?
    requires Evicted(Pending(FreshEntry(s, key, now).0, key), capacity, t)
    ensures Agree(t) && |t.entries| <= capacity
    ensures StartedCache(s, key, Pending(FreshEntry(s, key, now).0, key), t)
  {
    PendingAfterMiss(s, key, now);
    MissingEntry(s, key, now);
    EvictedAgrees(Pending(FreshEntry(s, key, now).0, key), capacity, t);
  }

  lemma StartKeepsEntries<K(!new), V(!new)>(cfg: Config<V>, w: World<K, V>, key: K, pending: State<K>,
                                            w': World<K, V>, k: K)
    requires Inv(cfg, w) && StartedCache(w.cache, key, pending, w'.cache) && Starts(w, key, pending, w')
    requires k in w'.cache.entries
    ensures EntryOfTask(cfg, w', k)
  {
    if k != key {
      assert EntryOfTask(cfg, w, k);
    }
  }

  lemma StartKeepsJoins<K(!new), V(!new)>(cfg: Config<V>, w: World<K, V>, key: K, pending: State<K>, w': World<K, V>,
                                          i: nat)
    requires Inv(cfg, w) && StartedCache(w.cache, key, pending, w'.cache) && Starts(w, key, pending, w')
    requires i < |w'.joins|
    ensures JoinOfTask(cfg, w', w'.joins[i])
  {
    if i < |w.joins| {
      assert JoinOfTask(cfg, w, w.joins[i]);
    }
  }

  lemma StartKeepsHeld<K(!new), V(!new)>(cfg: Config<V>, w: World<K, V>, key: K, pending: State<K>, w': World<K, V>,
                                         id: nat)
    requires Inv(cfg, w) && StartedCache(w.cache, key, pending, w'.cache) && Starts(w, key, pending, w')
    requires id in w'.tasks && w'.tasks[id].Running?
    ensures Held(w', id) || id in w'.evicted
  {
    var k := w'.tasks[id].key;
    if id in w.tasks && id !in w.evicted {
      assert Held(w, id) && EntryOfTask(cfg, w, k);
    }
    if id !in w.evicted {
      assert k in pending.entries && pending.entries[k].id == id;
    }
  }

  lemma StartKeepsInv<K(!new), V(!new)>(cfg: Config<V>, w: World<K, V>, key: K, pending: State<K>, w': World<K, V>)
    requires Inv(cfg, w) && StartedCache(w.cache, key, pending, w'.cache) && Starts(w, key, pending, w')
    requires Agree(w'.cache) && |w'.cache.entries| <= cfg.capacity
    ensures Inv(cfg, w')
  {
    forall k | k in w'.cache.entries
      ensures EntryOfTask(cfg, w', k)
    {
      StartKeepsEntries(cfg, w, key, pending, w', k);
    }
    forall i | 0 <= i < |w'.joins|
      ensures JoinOfTask(cfg, w', w'.joins[i])
    {
      StartKeepsJoins(cfg, w, key, pending, w', i);
    }
    forall id | id in w'.tasks && w'.tasks[id].Running?
      ensures Held(w', id) || id in w'.evicted
    {
      StartKeepsHeld(cfg, w, key, pending, w', id);
    }
  }

  lemma JoinKeepsInv<K(!new), V(!new)>(cfg: Config<V>, w: World<K, V>, key: K, w': World<K, V>)
    requires Inv(cfg, w) && Next(cfg, w, Call(key), w') && FreshEntry(w.cache, key, w.now).1.Some?
    ensures Inv(cfg, w')
  {
    FreshEntryAgrees(w.cache, key, w.now);
    FreshEntrySize(w.cache, key, w.now);
    assert EntryOfTask(cfg, w, key);
    forall k | k in w'.cache.entries
      ensures EntryOfTask(cfg, w', k)
    {
      assert EntryOfTask(cfg, w, k);
    }
    forall i | 0 <= i < |w'.joins|
      ensures JoinOfTask(cfg, w', w'.joins[i])
    {
      if i < |w.joins| {
        assert JoinOfTask(cfg, w, w.joins[i]);
      }
    }
    forall id | id in w'.tasks && w'.tasks[id].Running?
      ensures Held(w', id) || id in w'.evicted
    {
      assert Held(w, id) || id in w.evicted;
    }
  }

  lemma CallKeepsInv<K(!new), V(!new)>(cfg: Config<V>, w: World<K, V>, key: K, w': World<K, V>)
    requires Inv(cfg, w) && Next(cfg, w, Call(key), w')
    ensures Inv(cfg, w')
  {
    if FreshEntry(w.cache, key, w.now).1.Some? {
      JoinKeepsInv(cfg, w, key, w');
    } else {
      StartedState(w.cache, key, w.now, cfg.capacity, w'.cache);
      StartKeepsInv(cfg, w, key, Pending(FreshEntry(w.cache, key, w.now).0, key), w');
    }
  }

  /** What the end of lookup `id` does: it drops its own entry, gives it an expiry, or finds it gone. */
  ghost predicate Ends<K(!new), V(!new)>(cfg: Config<V>, w: World<K, V>, id: nat, w': World<K, V>) {
    && id in w.tasks && w.tasks[id].Running? && id in w'.tasks && !w'.tasks[id].Running?
    && w'.tasks == w.tasks[id := w'.tasks[id]]
    && w'.now == w.now && w'.steps == w.steps + 1 && w'.joins == w.joins && w'.evicted == w.evicted
    && var key, t := w.tasks[id].key, w'.tasks[id];
       var c, c' := w.cache, w'.cache;
       && c'.next == c.next && t.key == key && t.step == w.steps && (t.Done? ==> t.at == w.now)
       && if !(key in c.entries && c.entries[key].id == id) then c' == c
          else if t.Done? && cfg.ttl(t.outcome) > 0 then
            var expiry := ExpiryOf(w.now, cfg.ttl(t.outcome), cfg.clockEnd);
            c'.entries == c.entries[key := c.entries[key].(expiresAt := expiry)]
          else c'.entries == c.entries - {key}
  }

  lemma EndsAre<K(!new), V(!new)>(cfg: Config<V>, w: World<K, V>, e: Event<K, V>, w': World<K, V>)
    requires Agree(w.cache) && Next(cfg, w, e, w') && (e.End? || e.Panic?)
    ensures Agree(w'.cache) && |w'.cache.entries| <= |w.cache.entries|
    ensures Ends(cfg, w, e.id, w')
  {
    var key := w.tasks[e.id].key;
    RemoveLookupAgrees(w.cache, key, e.id);
    if e.End? {
      CompleteAgrees(w.cache, key, e.id, cfg.ttl(e.outcome), w.now, cfg.clockEnd);
    }
    assert w'.cache.entries.Keys == w.cache.entries.Keys || w'.cache.entries.Keys == w.cache.entries.Keys - {key};
    assert |w'.cache.entries| == |w'.cache.entries.Keys| && |w.cache.entries| == |w.cache.entries.Keys|;
  }

  lemma EndKeepsEntries<K(!new), V(!new)>(cfg: Config<V>, w: World<K, V>, id: nat, w': World<K, V>, k: K)
    requires Inv(cfg, w) && Ends(cfg, w, id, w') && k in w'.cache.entries
    ensures EntryOfTask(cfg, w', k)
  {
    assert EntryOfTask(cfg, w, k);
  }

  lemma EndKeepsJoins<K(!new), V(!new)>(cfg: Config<V>, w: World<K, V>, id: nat, w': World<K, V>, i: nat)
    requires Inv(cfg, w) && Ends(cfg, w, id, w') && i < |w'.joins|
    ensures JoinOfTask(cfg, w', w'.joins[i])
  {
    assert JoinOfTask(cfg, w, w.joins[i]);
  }

  lemma EndKeepsHeld<K(!new), V(!new)>(cfg: Config<V>, w: World<K, V>, id: nat, w': World<K, V>, other: nat)
    requires Inv(cfg, w) && Ends(cfg, w, id, w') && other in w'.tasks && w'.tasks[other].Running?
    ensures Held(w', other) || other in w'.evicted
  {
    assert Held(w, other) || other in w.evicted;
  }

  lemma EndKeepsInv<K(!new), V(!new)>(cfg: Config<V>, w: World<K, V>, id: nat, w': World<K, V>)
    requires Inv(cfg, w) && Ends(cfg, w, id, w') && Agree(w'.cache) && |w'.cache.entries| <= |w.cache.entries|
    ensures Inv(cfg, w')
  {
    forall k | k in w'.cache.entries
      ensures EntryOfTask(cfg, w', k)
    {
      EndKeepsEntries(cfg, w, id, w', k);
    }
    forall i | 0 <= i < |w'.joins|
      ensures JoinOfTask(cfg, w', w'.joins[i])
    {
      EndKeepsJoins(cfg, w, id, w', i);
    }
    forall other | other in w'.tasks && w'.tasks[other].Running?
      ensures Held(w', other) || other in w'.evicted
    {
      EndKeepsHeld(cfg, w, id, w', other);
    }
  }

  lemma TickKeepsInv<K(!new), V(!new)>(cfg: Config<V>, w: World<K, V>, time: nat, w': World<K, V>)
    requires Inv(cfg, w) && Next(cfg, w, Tick(time), w')
    ensures Inv(cfg, w')
  {
    forall k | k in w'.cache.entries
      ensures EntryOfTask(cfg, w', k)
    {
      assert EntryOfTask(cfg, w, k);
    }
    forall i | 0 <= i < |w'.joins|
      ensures JoinOfTask(cfg, w', w'.joins[i])
    {
      assert JoinOfTask(cfg, w, w.joins[i]);
    }
    forall id | id in w'.tasks && w'.tasks[id].Running?
      ensures Held(w', id) || id in w'.evicted
    {
      assert Held(w, id) || id in w.evicted;
    }
  }

  lemma NextKeepsInv<K(!new), V(!new)>(cfg: Config<V>, w: World<K, V>, e: Event<K, V>, w': World<K, V>)
    requires Inv(cfg, w) && Next(cfg, w, e, w')
    ensures Inv(cfg, w')
  {
    match e
    case Call(key) => CallKeepsInv(cfg, w, key, w');
    case End(id, _) =>
      EndsAre(cfg, w, e, w');
      EndKeepsInv(cfg, w, id, w');
    case Panic(id) =>
      EndsAre(cfg, w, e, w');
      EndKeepsInv(cfg, w, id, w');
    case Tick(time) => TickKeepsInv(cfg, w, time, w');
  }

  /** Every world of every run keeps the invariant. */
  lemma {:induction false} RunsKeepInv<K(!new), V(!new)>(cfg: Config<V>, events: seq<Event<K, V>>,
                                                          worlds: seq<World<K, V>>, i: nat)
    requires IsRun(cfg, events, worlds) && i < |worlds|
    ensures Inv(cfg, worlds[i])
  {
    if i > 0 {
      RunsKeepInv(cfg, events, worlds, i - 1);
      NextKeepsInv(cfg, worlds[i - 1], events[i - 1], worlds[i]);
    }
  }

  // ----- Main results -----

  /**
    In every run the two maps are inverse to each other, no number is above the counter, and
    the size stays within the capacity.
  */
  lemma MapsAgreeInEveryRun<K(!new), V(!new)>(cfg: Config<V>, events: seq<Event<K, V>>,
                                               worlds: seq<World<K, V>>, i: nat)
    requires IsRun(cfg, events, worlds) && i < |worlds|
    ensures var s := worlds[i].cache;
            && (forall k, n :: k in s.entries && s.entries[k].used == n ==> n in s.recency && s.recency[n] == k)
            && (forall k, n :: n in s.recency && s.recency[n] == k ==> k in s.entries && s.entries[k].used == n)
            && (forall n :: n in s.recency ==> n <= s.next)
            && |s.entries| <= cfg.capacity
  {
    RunsKeepInv(cfg, events, worlds, i);
  }

  /** A lookup that ends or panics late leaves each entry of another lookup as it is, with its place in the order. */
  lemma LateEndsLeaveOtherEntries<K(!new), V(!new)>(cfg: Config<V>, w: World<K, V>, e: Event<K, V>, w': World<K, V>,
                                                    k: K)
    requires (e.End? || e.Panic?) && Next(cfg, w, e, w')
    requires k in w.cache.entries && w.cache.entries[k].id != e.id
    ensures k in w'.cache.entries && w'.cache.entries[k] == w.cache.entries[k]
  {
  }

  /**
    Every outcome that a caller gets came from a lookup for the caller's own key. A call that
    came after the lookup ended found it strictly inside its time to live, never a lookup
    that panicked or whose outcome has no time to live.
  */
  lemma CallersGetFreshOutcomesOfTheirKey<K(!new), V(!new)>(cfg: Config<V>, events: seq<Event<K, V>>,
                                                             worlds: seq<World<K, V>>, i: nat, j: nat)
    requires IsRun(cfg, events, worlds) && i < |worlds| && j < |worlds[i].joins|
    ensures var w := worlds[i]; var call := w.joins[j];
            && call.id in w.tasks && w.tasks[call.id].key == call.key
            && (w.tasks[call.id].Broken? ==> call.step < w.tasks[call.id].step)
            && (w.tasks[call.id].Done? && w.tasks[call.id].step <= call.step ==>
                  var task := w.tasks[call.id];
                  var ttl := cfg.ttl(task.outcome);
                  ttl > 0 && (call.at < task.at + ttl || task.at + ttl > cfg.clockEnd))
  {
    RunsKeepInv(cfg, events, worlds, i);
    assert JoinOfTask(cfg, worlds[i], worlds[i].joins[j]);
  }

  /** Two lookups for one key run together only after the eviction dropped the entry of the older one. */
  lemma TwoLookupsMeanEviction<K(!new), V(!new)>(cfg: Config<V>, events: seq<Event<K, V>>,
                                                  worlds: seq<World<K, V>>, i: nat, old_: nat, new_: nat)
    requires IsRun(cfg, events, worlds) && i < |worlds|
    requires var tasks := worlds[i].tasks;
             && old_ < new_ && old_ in tasks && new_ in tasks
             && tasks[old_] == tasks[new_] && tasks[old_].Running?
    ensures old_ in worlds[i].evicted
    decreases i
  {
    RunsKeepInv(cfg, events, worlds, i);
    var w := worlds[i];
    assert Held(w, old_) || old_ in w.evicted;
    if old_ !in w.evicted {
      OlderEntryIsGone(cfg, events, worlds, i, old_, new_);
    }
  }

  /** The entry of a key never goes back to an older lookup while a later one runs. */
  lemma {:induction false} OlderEntryIsGone<K(!new), V(!new)>(cfg: Config<V>, events: seq<Event<K, V>>,
                                                               worlds: seq<World<K, V>>, i: nat, old_: nat, new_: nat)
    requires IsRun(cfg, events, worlds) && i < |worlds|
    requires var tasks := worlds[i].tasks;
             && old_ < new_ && old_ in tasks && new_ in tasks && tasks[old_].key == tasks[new_].key
    ensures !Held(worlds[i], old_)
  {
    if i > 0 {
      var w, e, w' := worlds[i - 1], events[i - 1], worlds[i];
      assert Next(cfg, w, e, w');
      RunsKeepInv(cfg, events, worlds, i - 1);
      assert old_ in w.tasks && new_ in w.tasks ==> !Held(w, old_) by {
        if old_ in w.tasks && new_ in w.tasks {
          KeyStays(cfg, w, e, w', old_);
          KeyStays(cfg, w, e, w', new_);
          OlderEntryIsGone(cfg, events, worlds, i - 1, old_, new_);
        }
      }
      OlderStaysGone(cfg, w, e, w', old_, new_);
    }
  }

  lemma KeyStays<K(!new), V(!new)>(cfg: Config<V>, w: World<K, V>, e: Event<K, V>, w': World<K, V>, id: nat)
    requires Inv(cfg, w) && Next(cfg, w, e, w') && id in w.tasks
    ensures id in w'.tasks && w'.tasks[id].key == w.tasks[id].key
  {
  }

  lemma OlderStaysGone<K(!new), V(!new)>(cfg: Config<V>, w: World<K, V>, e: Event<K, V>, w': World<K, V>,
                                          old_: nat, new_: nat)
    requires Inv(cfg, w) && Next(cfg, w, e, w')
    requires old_ < new_ && old_ in w'.tasks && new_ in w'.tasks && w'.tasks[old_].key == w'.tasks[new_].key
    requires old_ in w.tasks && new_ in w.tasks ==> !Held(w, old_)
    ensures !Held(w', old_)
  {
    if e.Call? && FreshEntry(w.cache, e.key, w.now).1.None? {
      StartedState(w.cache, e.key, w.now, cfg.capacity, w'.cache);
    }
  }

  /** Without an entry over the capacity, nothing is evicted. */
  lemma EvictionOnlyOverCapacity<K(!new)>(pending: State<K>, capacity: nat, t: State<K>)
    requires Evicted(pending, capacity, t) && |pending.entries| <= capacity
    ensures t == pending && Dropped(pending, t) == {}
  {
  }

  lemma SizeWithin<K(!new)>(s: State<K>, keys: set<K>)
    requires s.entries.Keys <= keys
    ensures |s.entries| <= |keys|
  {
    var rest := keys - s.entries.Keys;
    assert keys == s.entries.Keys + rest;
    assert |keys| == |s.entries.Keys| + |rest|;
  }

  lemma FewKeysStep<K(!new), V(!new)>(cfg: Config<V>, w: World<K, V>, e: Event<K, V>, w': World<K, V>, keys: set<K>)
    requires Inv(cfg, w) && Next(cfg, w, e, w') && |keys| <= cfg.capacity && (e.Call? ==> e.key in keys)
    requires w.cache.entries.Keys <= keys && w.evicted == {}
    ensures w'.cache.entries.Keys <= keys && w'.evicted == {}
  {
    if e.Call? && FreshEntry(w.cache, e.key, w.now).1.None? {
      var pending := Pending(FreshEntry(w.cache, e.key, w.now).0, e.key);
      PendingAfterMiss(w.cache, e.key, w.now);
      SizeWithin(pending, keys);
      EvictionOnlyOverCapacity(pending, cfg.capacity, w'.cache);
    }
  }

  lemma {:induction false} NothingIsEvicted<K(!new), V(!new)>(cfg: Config<V>, events: seq<Event<K, V>>,
                                                               worlds: seq<World<K, V>>, i: nat, keys: set<K>)
    requires IsRun(cfg, events, worlds) && i < |worlds| && |keys| <= cfg.capacity
    requires forall k :: 0 <= k < i && events[k].Call? ==> events[k].key in keys
    ensures worlds[i].cache.entries.Keys <= keys && worlds[i].evicted == {}
  {
    if i > 0 {
      RunsKeepInv(cfg, events, worlds, i - 1);
      NothingIsEvicted(cfg, events, worlds, i - 1, keys);
      FewKeysStep(cfg, worlds[i - 1], events[i - 1], worlds[i], keys);
    }
  }

  /** While the callers ask for no more keys than the capacity, two lookups for one key never run together. */
  lemma OneLookupPerKeyWithinCapacity<K(!new), V(!new)>(cfg: Config<V>, events: seq<Event<K, V>>,
                                                        worlds: seq<World<K, V>>, i: nat, keys: set<K>, a: nat, b: nat)
    requires IsRun(cfg, events, worlds) && i < |worlds| && |keys| <= cfg.capacity
    requires forall k :: 0 <= k < i && events[k].Call? ==> events[k].key in keys
    requires var tasks := worlds[i].tasks;
             a in tasks && b in tasks && tasks[a].Running? && tasks[a] == tasks[b]
    ensures a == b
  {
    NothingIsEvicted(cfg, events, worlds, i, keys);
    if a < b {
      TwoLookupsMeanEviction(cfg, events, worlds, i, a, b);
    } else if b < a {
      TwoLookupsMeanEviction(cfg, events, worlds, i, b, a);
    }
  }
}
