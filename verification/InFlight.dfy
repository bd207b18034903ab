/**
  The table of running computations that callers of one key share
  (crates/server/src/application/in_flight.rs).

  `Runs` is the locked table. A run of the whole system is any order of calls and ends: a
  computation ends by returning or by panicking, also after every caller has left, and its
  guard then removes its entry.
*/
module InFlight {
  import opened Collections

  datatype Table<K> = Table(byKey: map<K, nat>, next: nat)

  /** Removes the entry only when run `id` made it. */
  function Removed<K>(t: Table<K>, key: K, id: nat): Table<K> {
    if key in t.byKey && t.byKey[key] == id then t.(byKey := t.byKey - {key}) else t
  }

  function Joined<K>(t: Table<K>, key: K): Table<K> {
    if key in t.byKey then t else Table(t.byKey[key := t.next + 1], t.next + 1)
  }

  class Runs<K(==)> {
    var byKey: map<K, nat>
    var next: nat

    ghost function Now(): Table<K>
      reads this
    {
      Table(byKey, next)
    }

    constructor ()
      ensures Now() == Table(map[], 0)
    {
      byKey := map[];
      next := 0;
    }

    /** The locked part of `run`: joins the running computation, or starts one. */
    method JoinOrStart(key: K) returns (id: nat, started: bool)
      modifies this
      ensures Now() == Joined(old(Now()), key)
      ensures started == (key !in old(byKey)) && key in byKey && id == byKey[key]
    {
      started := key !in byKey;
      if started {
        next := next + 1;
        byKey := byKey[key := next];
      }
      id := byKey[key];
    }

    /** `EntryGuard` drops when the computation returns or panics. */
    method DropGuard(key: K, id: nat)
      modifies `byKey
      ensures Now() == Removed(old(Now()), key, id)
    {
      if key in byKey && byKey[key] == id {
        byKey := byKey - {key};
      }
    }
  }

  // ----- Runs of the system -----

  /** A caller of `key` that waits for computation `id`. */
  datatype Waiter<K> = Waiter(key: K, id: nat)

  /** `running` holds the key of each computation that has not ended, `ended` the key of each that has. */
  datatype World<K> = World(table: Table<K>, running: map<nat, K>, ended: map<nat, K>, waiters: seq<Waiter<K>>)

  datatype Event<K> = Call(key: K) | End(id: nat)

  ghost predicate Init<K>(w: World<K>) {
    w == World(Table(map[], 0), map[], map[], [])
  }

  ghost predicate Next<K(!new)>(w: World<K>, e: Event<K>, w': World<K>) {
    match e
    case Call(key) =>
      var table := Joined(w.table, key);
      var id := table.byKey[key];
      w' == World(table, if key in w.table.byKey then w.running else w.running[id := key], w.ended,
                  w.waiters + [Waiter(key, id)])
    case End(id) =>
      && id in w.running
      && w' == World(Removed(w.table, w.running[id], id), w.running - {id}, w.ended[id := w.running[id]], w.waiters)
  }

  ghost predicate IsRun<K(!new)>(events: seq<Event<K>>, worlds: seq<World<K>>) {
    && |worlds| == |events| + 1
    && Init(worlds[0])
    && forall i :: 0 <= i < |events| ==> Next(worlds[i], events[i], worlds[i + 1])
  }

  /** The table and the running computations are inverse to each other. */
  ghost predicate Inv<K(!new)>(w: World<K>) {
    && (forall k :: k in w.table.byKey ==> w.table.byKey[k] in w.running && w.running[w.table.byKey[k]] == k)
    && (forall id :: id in w.running ==> w.running[id] in w.table.byKey && w.table.byKey[w.running[id]] == id)
    && (forall id :: id in w.running || id in w.ended ==> id <= w.table.next)
    && (forall id :: id in w.running ==> id !in w.ended)
    && (forall i :: 0 <= i < |w.waiters| ==> WaitsForOwnKey(w, w.waiters[i]))
  }

  ghost predicate WaitsForOwnKey<K(!new)>(w: World<K>, waiter: Waiter<K>) {
    || (waiter.id in w.running && w.running[waiter.id] == waiter.key)
    || (waiter.id in w.ended && w.ended[waiter.id] == waiter.key)
  }

  lemma CallKeepsInv<K(!new)>(w: World<K>, key: K, w': World<K>)
    requires Inv(w) && Next(w, Call(key), w')
    ensures Inv(w')
  {
    forall i | 0 <= i < |w'.waiters|
      ensures WaitsForOwnKey(w', w'.waiters[i])
    {
      if i < |w.waiters| {
        assert WaitsForOwnKey(w, w.waiters[i]);
      }
    }
  }

  lemma EndKeepsInv<K(!new)>(w: World<K>, id: nat, w': World<K>)
    requires Inv(w) && Next(w, End(id), w')
    ensures Inv(w')
  {
    forall i | 0 <= i < |w'.waiters|
      ensures WaitsForOwnKey(w', w'.waiters[i])
    {
      assert WaitsForOwnKey(w, w.waiters[i]);
    }
  }

  lemma {:induction false} RunsKeepInv<K(!new)>(events: seq<Event<K>>, worlds: seq<World<K>>, i: nat)
    requires IsRun(events, worlds) && i < |worlds|
    ensures Inv(worlds[i])
  {
    if i > 0 {
      var w, e, w' := worlds[i - 1], events[i - 1], worlds[i];
      assert Next(w, e, w');
      RunsKeepInv(events, worlds, i - 1);
      match e
      case Call(key) => CallKeepsInv(w, key, w');
      case End(id) => EndKeepsInv(w, id, w');
    }
  }

  /**
    In every run a key has an entry exactly while a computation for it runs, at most one
    computation for a key runs, and each caller waits for a computation of its own key.
  */
  lemma EntryExactlyWhileRunning<K(!new)>(events: seq<Event<K>>, worlds: seq<World<K>>, i: nat, key: K)
    requires IsRun(events, worlds) && i < |worlds|
    ensures var w := worlds[i];
            && (key in w.table.byKey <==> exists id :: id in w.running && w.running[id] == key)
            && (forall a, b :: a in w.running && b in w.running && w.running[a] == w.running[b] == key ==> a == b)
            && (forall j :: 0 <= j < |w.waiters| ==> WaitsForOwnKey(w, w.waiters[j]))
  {
    RunsKeepInv(events, worlds, i);
  }
}
