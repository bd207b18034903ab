/**
  When a call of the cache joins a lookup, and when it starts one
  (crates/server/src/application/cache.rs), in terms of the lookups and their lives alone.
*/
module CacheLife {
  import opened Collections
  import opened Cache
  import opened CacheRuns

  /** No later lookup for its key has started. */
  ghost predicate IsLatest<K(!new), V(!new)>(w: World<K, V>, id: nat) {
    && id in w.tasks
    && forall other :: other in w.tasks && w.tasks[other].key == w.tasks[id].key ==> other <= id
  }

  /** The lookup runs, or it ended with an outcome whose life has not passed. A life beyond the clock never passes. */
  ghost predicate IsAlive<K(!new), V(!new)>(cfg: Config<V>, w: World<K, V>, id: nat)
    requires id in w.tasks
  {
    match w.tasks[id]
    case Running(_) => true
    case Done(_, outcome, at, _) =>
      cfg.ttl(outcome) > 0 && (w.now < at + cfg.ttl(outcome) || at + cfg.ttl(outcome) > cfg.clockEnd)
    case Broken(_, _) => false
  }

  /** The lookup keeps its entry until it expires: it runs, or its outcome has a life at all. */
  ghost predicate HasLife<K(!new), V(!new)>(cfg: Config<V>, task: Task<K, V>) {
    task.Running? || (task.Done? && cfg.ttl(task.outcome) > 0)
  }

  /** The latest lookup of a key has the entry unless it was evicted, and no other lookup has it. */
  ghost predicate LifeInv<K(!new), V(!new)>(cfg: Config<V>, w: World<K, V>) {
    && (forall id :: id in w.evicted ==> id in w.tasks)
    && (forall id :: IsLatest(w, id) && HasLife(cfg, w.tasks[id]) && id !in w.evicted ==> Held(w, id))
    && (forall id :: id in w.tasks && Held(w, id) ==> IsLatest(w, id) && id !in w.evicted)
  }

  lemma StartKeepsEvicted<K(!new), V(!new)>(cfg: Config<V>, w: World<K, V>, key: K, pending: State<K>, w': World<K, V>,
                                            id: nat)
    requires Inv(cfg, w) && LifeInv(cfg, w) && StartedCache(w.cache, key, pending, w'.cache)
    requires Starts(w, key, pending, w') && id in w'.evicted
    ensures id in w'.tasks
  {
    if id !in w.evicted {
      var k :| k in pending.entries && k !in w'.cache.entries && pending.entries[k].id == id;
      if k != key {
        assert EntryOfTask(cfg, w, k);
      }
    }
  }

  lemma StartKeepsLatest<K(!new), V(!new)>(cfg: Config<V>, w: World<K, V>, key: K, pending: State<K>, w': World<K, V>,
                                           id: nat)
    requires Inv(cfg, w) && LifeInv(cfg, w) && StartedCache(w.cache, key, pending, w'.cache)
    requires Starts(w, key, pending, w') && IsLatest(w', id) && HasLife(cfg, w'.tasks[id]) && id !in w'.evicted
    ensures Held(w', id)
  {
    var k := w'.tasks[id].key;
    assert pending.next in w'.tasks;
    if id != pending.next {
      assert k != key;
      assert IsLatest(w, id) by {
        forall other | other in w.tasks && w.tasks[other].key == k
          ensures other <= id
        {
          assert other in w'.tasks && w'.tasks[other] == w.tasks[other];
        }
      }
      assert Held(w, id);
    }
    assert k in pending.entries && pending.entries[k].id == id;
    assert k !in w'.cache.entries ==> id in Dropped(pending, w'.cache);
  }

  lemma StartKeepsHolders<K(!new), V(!new)>(cfg: Config<V>, w: World<K, V>, key: K, pending: State<K>, w': World<K, V>,
                                            id: nat)
    requires Inv(cfg, w) && LifeInv(cfg, w) && StartedCache(w.cache, key, pending, w'.cache)
    requires Starts(w, key, pending, w') && id in w'.tasks && Held(w', id)
    ensures IsLatest(w', id) && id !in w'.evicted
  {
    var k := w'.tasks[id].key;
    assert k in pending.entries && pending.entries[k].id == id;
    if k != key {
      assert EntryOfTask(cfg, w, k) && Held(w, id);
      assert IsLatest(w, id);
    }
    assert id !in w.evicted;
    forall other | other in pending.entries && other !in w'.cache.entries
      ensures pending.entries[other].id != id
    {
      if other != key {
        assert EntryOfTask(cfg, w, other);
      }
    }
  }

  lemma CallKeepsLife<K(!new), V(!new)>(cfg: Config<V>, w: World<K, V>, e: Event<K, V>, w': World<K, V>)
    requires Inv(cfg, w) && LifeInv(cfg, w) && Next(cfg, w, e, w') && e.Call?
    requires FreshEntry(w.cache, e.key, w.now).1.None?
    ensures LifeInv(cfg, w')
  {
    var pending := Pending(FreshEntry(w.cache, e.key, w.now).0, e.key);
    StartedState(w.cache, e.key, w.now, cfg.capacity, w'.cache);
    forall id | id in w'.evicted
      ensures id in w'.tasks
    {
      StartKeepsEvicted(cfg, w, e.key, pending, w', id);
    }
    forall id | IsLatest(w', id) && HasLife(cfg, w'.tasks[id]) && id !in w'.evicted
      ensures Held(w', id)
    {
      StartKeepsLatest(cfg, w, e.key, pending, w', id);
    }
    forall id | id in w'.tasks && Held(w', id)
      ensures IsLatest(w', id) && id !in w'.evicted
    {
      StartKeepsHolders(cfg, w, e.key, pending, w', id);
    }
  }

  lemma SameHolders<K(!new), V(!new)>(cfg: Config<V>, w: World<K, V>, w': World<K, V>)
    requires LifeInv(cfg, w) && w'.tasks == w.tasks && w'.evicted == w.evicted
    requires w'.cache.entries.Keys == w.cache.entries.Keys
    requires forall k :: k in w.cache.entries ==> w'.cache.entries[k].id == w.cache.entries[k].id
    ensures LifeInv(cfg, w')
  {
    forall id | id in w.tasks
      ensures (Held(w', id) <==> Held(w, id)) && (IsLatest(w', id) <==> IsLatest(w, id))
    {
    }
  }

  lemma JoinKeepsHolders<K(!new), V(!new)>(cfg: Config<V>, w: World<K, V>, e: Event<K, V>, w': World<K, V>)
    requires Inv(cfg, w) && LifeInv(cfg, w) && Next(cfg, w, e, w')
    requires e.Tick? || (e.Call? && FreshEntry(w.cache, e.key, w.now).1.Some?)
    ensures LifeInv(cfg, w')
  {
    SameHolders(cfg, w, w');
  }

  lemma SameLatest<K(!new), V(!new)>(cfg: Config<V>, w: World<K, V>, id: nat, w': World<K, V>, other: nat)
    requires Ends(cfg, w, id, w') && other in w.tasks
    ensures other in w'.tasks && w'.tasks[other].key == w.tasks[other].key
    ensures IsLatest(w', other) <==> IsLatest(w, other)
  {
    forall a | a in w.tasks
      ensures a in w'.tasks && w'.tasks[a].key == w.tasks[a].key
    {
    }
  }

  lemma EndKeepsLife<K(!new), V(!new)>(cfg: Config<V>, w: World<K, V>, id: nat, w': World<K, V>)
    requires Inv(cfg, w) && LifeInv(cfg, w) && Ends(cfg, w, id, w')
    ensures LifeInv(cfg, w')
  {
    forall other | IsLatest(w', other) && HasLife(cfg, w'.tasks[other]) && other !in w'.evicted
      ensures Held(w', other)
    {
      SameLatest(cfg, w, id, w', other);
      assert Held(w, other);
    }
    forall other | other in w'.tasks && Held(w', other)
      ensures IsLatest(w', other) && other !in w'.evicted
    {
      SameLatest(cfg, w, id, w', other);
      assert Held(w, other);
    }
  }

  lemma {:induction false} RunsKeepLife<K(!new), V(!new)>(cfg: Config<V>, events: seq<Event<K, V>>,
                                                           worlds: seq<World<K, V>>, i: nat)
    requires IsRun(cfg, events, worlds) && i < |worlds|
    ensures LifeInv(cfg, worlds[i])
  {
    if i > 0 {
      RunsKeepInv(cfg, events, worlds, i - 1);
      RunsKeepLife(cfg, events, worlds, i - 1);
      StepKeepsLife(cfg, worlds[i - 1], events[i - 1], worlds[i]);
    }
  }

  lemma StepKeepsLife<K(!new), V(!new)>(cfg: Config<V>, w: World<K, V>, e: Event<K, V>, w': World<K, V>)
    requires Inv(cfg, w) && LifeInv(cfg, w) && Next(cfg, w, e, w')
    ensures LifeInv(cfg, w')
  {
    if e.End? || e.Panic? {
      EndsAre(cfg, w, e, w');
      EndKeepsLife(cfg, w, e.id, w');
    } else if e.Tick? || FreshEntry(w.cache, e.key, w.now).1.Some? {
      JoinKeepsHolders(cfg, w, e, w');
    } else {
      CallKeepsLife(cfg, w, e, w');
    }
  }

  // ----- Main result -----

  /** The call joins lookup `id` and starts none. */
  ghost predicate JoinsLookup<K(!new), V(!new)>(w: World<K, V>, key: K, w': World<K, V>, id: nat) {
    w'.tasks == w.tasks && w'.joins == w.joins + [Join(key, id, w.now, w.steps)]
  }

  lemma EntryIsUsable<K(!new), V(!new)>(cfg: Config<V>, w: World<K, V>, id: nat)
    requires Inv(cfg, w) && id in w.tasks && Held(w, id)
    ensures FreshEntry(w.cache, w.tasks[id].key, w.now).1 == if IsAlive(cfg, w, id) then Some(id) else None
  {
    assert EntryOfTask(cfg, w, w.tasks[id].key);
  }

  /**
    In every run, a call joins a lookup exactly when it is the latest one for the key, was not
    evicted, and is alive: it runs, or its outcome is inside its time to live. So an outcome
    is served for its whole life, and not longer.
  */
  lemma CallJoinsExactly<K(!new), V(!new)>(cfg: Config<V>, events: seq<Event<K, V>>, worlds: seq<World<K, V>>,
                                           i: nat, id: nat)
    requires IsRun(cfg, events, worlds) && i < |events| && events[i].Call?
    ensures var w, key := worlds[i], events[i].key;
            JoinsLookup(w, key, worlds[i + 1], id)
            <==> IsLatest(w, id) && w.tasks[id].key == key && id !in w.evicted && IsAlive(cfg, w, id)
  {
    var w, key, w' := worlds[i], events[i].key, worlds[i + 1];
    RunsKeepInv(cfg, events, worlds, i);
    RunsKeepLife(cfg, events, worlds, i);
    assert Next(cfg, w, events[i], w');
    if IsLatest(w, id) && w.tasks[id].key == key && id !in w.evicted && IsAlive(cfg, w, id) {
      AliveHasLife(cfg, w, id);
      EntryIsUsable(cfg, w, id);
    }
    if JoinsLookup(w, key, w', id) {
      JoinedIsFresh(cfg, w, events[i], w', id);
      assert EntryOfTask(cfg, w, key) && Held(w, id);
      EntryIsUsable(cfg, w, id);
    }
  }

  lemma AliveHasLife<K(!new), V(!new)>(cfg: Config<V>, w: World<K, V>, id: nat)
    requires id in w.tasks && IsAlive(cfg, w, id)
    ensures HasLife(cfg, w.tasks[id])
  {
  }

  lemma MissStartsLookup<K(!new), V(!new)>(cfg: Config<V>, w: World<K, V>, e: Event<K, V>, w': World<K, V>)
    requires Inv(cfg, w) && Next(cfg, w, e, w') && e.Call? && FreshEntry(w.cache, e.key, w.now).1.None?
    ensures w'.tasks != w.tasks
  {
    PendingAfterMiss(w.cache, e.key, w.now);
    assert w.cache.next + 1 in w'.tasks;
  }

  lemma JoinedIsFresh<K(!new), V(!new)>(cfg: Config<V>, w: World<K, V>, e: Event<K, V>, w': World<K, V>, id: nat)
    requires Inv(cfg, w) && Next(cfg, w, e, w') && e.Call? && JoinsLookup(w, e.key, w', id)
    ensures FreshEntry(w.cache, e.key, w.now).1 == Some(id)
  {
    var joined := FreshEntry(w.cache, e.key, w.now).1;
    if joined.None? {
      MissStartsLookup(cfg, w, e, w');
    } else {
      assert w'.joins[|w.joins|].id == joined.value;
    }
  }
}
