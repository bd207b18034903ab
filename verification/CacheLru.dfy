/**
  The cache refines a plain least-recently-used sequence: the numbered maps of
  crates/server/src/application/cache.rs behave as a list of keys in the order of use.
*/
module CacheLru {
  import opened Collections
  import opened Cache
  import opened CacheRuns

  datatype Slot = Slot(id: nat, expiresAt: Option<int>)

  /** The keys, least recently used first, and what each holds. */
  datatype Lru<K> = Lru(order: seq<K>, slots: map<K, Slot>)

  function Without<K(==)>(order: seq<K>, key: K): seq<K> {
    if order == [] then []
    else if order[0] == key then order[1..]
    else [order[0]] + Without(order[1..], key)
  }

  function Drop<K>(l: Lru<K>, key: K): Lru<K> {
    if key in l.slots then Lru(Without(l.order, key), l.slots - {key}) else l
  }

  function Touch<K>(l: Lru<K>, key: K): Lru<K> {
    l.(order := Without(l.order, key) + [key])
  }

  /** The `capacity` most recently used keys stay. */
  function KeepLast<K>(l: Lru<K>, capacity: nat): Lru<K> {
    if |l.order| <= capacity then l
    else
      var kept := l.order[|l.order| - capacity..];
      Lru(kept, SlotsOf(l.slots, kept))
  }

  function SlotsOf<K(==)>(slots: map<K, Slot>, keys: seq<K>): map<K, Slot> {
    map k | k in slots && k in keys :: slots[k]
  }

  /** A call: the usable slot moves to the end, or a new pending slot does. */
  function Get<K>(l: Lru<K>, key: K, now: int, newId: nat, capacity: nat): (Lru<K>, Option<nat>) {
    if key in l.slots && !(l.slots[key].expiresAt.Some? && now >= l.slots[key].expiresAt.value) then
      (Touch(l, key), Some(l.slots[key].id))
    else
      var d := Drop(l, key);
      (KeepLast(Lru(d.order + [key], d.slots[key := Slot(newId, None)]), capacity), None)
  }

  /** The end of a lookup: an outcome with a time to live stays in place, anything else drops. */
  function Finish<K>(l: Lru<K>, key: K, id: nat, expiry: Option<Option<int>>): Lru<K> {
    if key !in l.slots || l.slots[key].id != id then l
    else if expiry.None? then Drop(l, key)
    else l.(slots := l.slots[key := Slot(id, expiry.value)])
  }

  // ----- The relation -----

  ghost predicate Increasing<K(!new)>(order: seq<K>, entries: map<K, Entry>) {
    && (forall i :: 0 <= i < |order| ==> order[i] in entries)
    && (forall i, j :: 0 <= i < j < |order| ==> entries[order[i]].used < entries[order[j]].used)
  }

  ghost predicate SameSlots<K(!new)>(slots: map<K, Slot>, entries: map<K, Entry>) {
    && slots.Keys == entries.Keys
    && forall k :: k in entries ==> slots[k] == Slot(entries[k].id, entries[k].expiresAt)
  }

  ghost predicate Refines<K(!new)>(l: Lru<K>, s: State<K>) {
    && SameSlots(l.slots, s.entries)
    && Increasing(l.order, s.entries)
    && (forall k :: k in s.entries ==> k in l.order)
  }

  lemma HeadApart<K(!new)>(order: seq<K>, entries: map<K, Entry>)
    requires order != [] && Increasing(order, entries)
    ensures Increasing(order[1..], entries)
    ensures forall k :: k in order <==> k == order[0] || k in order[1..]
    ensures forall k :: k in order[1..] ==> entries[order[0]].used < entries[k].used
    ensures order[0] !in order[1..]
  {
    assert order == [order[0]] + order[1..];
    forall k | k in order[1..]
      ensures entries[order[0]].used < entries[k].used
    {
      var i :| 0 <= i < |order[1..]| && order[1..][i] == k;
      assert order[i + 1] == k;
    }
  }

  lemma IncreasingCons<K(!new)>(head: K, order: seq<K>, entries: map<K, Entry>)
    requires head in entries && Increasing(order, entries)
    requires forall k :: k in order ==> entries[head].used < entries[k].used
    ensures Increasing([head] + order, entries)
  {
    forall i | 0 <= i < |order|
      ensures entries[head].used < entries[order[i]].used
    {
      assert order[i] in order;
    }
  }

  lemma {:induction false} WithoutIs<K(!new)>(order: seq<K>, key: K, entries: map<K, Entry>)
    requires Increasing(order, entries)
    ensures Increasing(Without(order, key), entries)
    ensures forall k :: k in Without(order, key) <==> k in order && k != key
  {
    if order != [] {
      HeadApart(order, entries);
      if order[0] != key {
        WithoutIs(order[1..], key, entries);
        IncreasingCons(order[0], Without(order[1..], key), entries);
      }
    }
  }

  /** An order stays increasing in any map that gives its keys the same use numbers. */
  lemma IncreasingIn<K(!new)>(order: seq<K>, entries: map<K, Entry>, entries': map<K, Entry>)
    requires Increasing(order, entries)
    requires forall k :: k in order ==> k in entries' && entries'[k].used == entries[k].used
    ensures Increasing(order, entries')
  {
    forall i | 0 <= i < |order|
      ensures order[i] in entries' && entries'[order[i]].used == entries[order[i]].used
    {
      assert order[i] in order;
    }
  }

  /** A key with a number above all others goes last. */
  lemma IncreasingSnoc<K(!new)>(order: seq<K>, last: K, entries: map<K, Entry>)
    requires last in entries && Increasing(order, entries)
    requires forall k :: k in order ==> entries[k].used < entries[last].used
    ensures Increasing(order + [last], entries)
    ensures forall k :: k in order + [last] <==> k in order || k == last
  {
    forall i | 0 <= i < |order|
      ensures entries[order[i]].used < entries[last].used
    {
      assert order[i] in order;
    }
  }

  /** The order has one place for each entry. */
  lemma {:induction false} OrderSize<K(!new)>(order: seq<K>, entries: map<K, Entry>)
    requires Increasing(order, entries) && forall k :: k in entries ==> k in order
    ensures |order| == |entries|
  {
    if order == [] {
      assert entries.Keys == {};
    } else {
      HeadApart(order, entries);
      var rest := entries - {order[0]};
      IncreasingIn(order[1..], entries, rest);
      OrderSize(order[1..], rest);
      assert rest.Keys == entries.Keys - {order[0]};
    }
  }

  // ----- Each section refines its list operation -----

  lemma DropRefines<K(!new)>(l: Lru<K>, s: State<K>, key: K)
    requires Refines(l, s)
    ensures Refines(Drop(l, key), RemoveKey(s, key))
  {
    WithoutIs(l.order, key, s.entries);
    if key in s.entries {
      IncreasingIn(Without(l.order, key), s.entries, RemoveKey(s, key).entries);
    }
  }

  lemma TouchRefines<K(!new)>(l: Lru<K>, s: State<K>, key: K)
    requires Refines(l, s) && Agree(s) && key in s.entries
    ensures Refines(Touch(l, key), MarkUsed(s, key))
  {
    var rest, entries := Without(l.order, key), MarkUsed(s, key).entries;
    WithoutIs(l.order, key, s.entries);
    forall k | k in rest
      ensures k in entries && entries[k] == s.entries[k] && entries[k].used <= s.next
    {
      InOrderInEntries(l, s, k);
    }
    IncreasingIn(rest, s.entries, entries);
    IncreasingSnoc(rest, key, entries);
  }

  lemma InOrderInEntries<K(!new)>(l: Lru<K>, s: State<K>, k: K)
    requires Refines(l, s) && Agree(s) && k in l.order
    ensures k in s.entries && s.entries[k].used <= s.next
  {
  }

  /** A key that the entries do not hold goes to the end with a new number. */
  lemma AppendRefines<K(!new)>(l: Lru<K>, s: State<K>, key: K, n: nat, t: State<K>)
    requires Refines(l, s) && key !in s.entries && t.entries == s.entries[key := Entry(n, n, None)]
    requires forall k :: k in s.entries ==> s.entries[k].used < n
    ensures Refines(Lru(l.order + [key], l.slots[key := Slot(n, None)]), t)
  {
    SlotsOfAppend(l.slots, s.entries, key, n);
    OrderOfAppend(l.order, s.entries, key, n);
  }

  lemma SlotsOfAppend<K(!new)>(slots: map<K, Slot>, entries: map<K, Entry>, key: K, n: nat)
    requires SameSlots(slots, entries)
    ensures SameSlots(slots[key := Slot(n, None)], entries[key := Entry(n, n, None)])
  {
  }

  lemma OrderOfAppend<K(!new)>(order: seq<K>, entries: map<K, Entry>, key: K, n: nat)
    requires Increasing(order, entries) && key !in entries && forall k :: k in entries ==> entries[k].used < n
    requires forall k :: k in entries ==> k in order
    ensures var after := entries[key := Entry(n, n, None)];
            Increasing(order + [key], after) && forall k :: k in after ==> k in order + [key]
  {
    var after := entries[key := Entry(n, n, None)];
    forall k | k in order
      ensures k in entries
    {
      var i :| 0 <= i < |order| && order[i] == k;
    }
    IncreasingIn(order, entries, after);
    IncreasingSnoc(order, key, after);
  }

  lemma PopIsHead<K(!new)>(l: Lru<K>, s: State<K>, n: nat)
    requires Refines(l, s) && Agree(s) && IsLeast(s.recency, n)
    ensures l.order != [] && s.recency[n] == l.order[0]
  {
    var k := s.recency[n];
    assert k in l.order;
    HeadApart(l.order, s.entries);
    assert s.entries[l.order[0]].used <= n;
    assert s.recency[s.entries[l.order[0]].used] == l.order[0];
  }

  lemma PopRefines<K(!new)>(l: Lru<K>, s: State<K>, n: nat)
    requires Refines(l, s) && Agree(s) && IsLeast(s.recency, n)
    ensures l.order != []
    ensures Refines(Lru(l.order[1..], l.slots - {l.order[0]}), PopAt(s, n))
  {
    PopIsHead(l, s, n);
    HeadApart(l.order, s.entries);
    IncreasingIn(l.order[1..], s.entries, PopAt(s, n).entries);
  }

  lemma KeepLastStep<K(!new)>(l: Lru<K>, s: State<K>, capacity: nat)
    requires Refines(l, s) && |l.order| > capacity
    ensures KeepLast(l, capacity) == KeepLast(Lru(l.order[1..], l.slots - {l.order[0]}), capacity)
  {
    HeadApart(l.order, s.entries);
    KeepLastOfTail(l, capacity);
  }

  lemma KeepLastOfTail<K(!new)>(l: Lru<K>, capacity: nat)
    requires |l.order| > capacity && l.order[0] !in l.order[1..]
    requires forall k :: k in l.slots ==> k == l.order[0] || k in l.order[1..]
    ensures KeepLast(l, capacity) == KeepLast(Lru(l.order[1..], l.slots - {l.order[0]}), capacity)
  {
    var head, rest, slots := l.order[0], l.order[1..], l.slots - {l.order[0]};
    var drop := |l.order| - capacity;
    var kept := l.order[drop..];
    KeptInTail(l.order, drop);
    SlotsOfKept(l.slots, head, kept);
    assert KeepLast(l, capacity) == Lru(kept, SlotsOf(slots, kept));
    if drop == 1 {
      SlotsOfAll(slots, rest);
      assert KeepLast(Lru(rest, slots), capacity) == Lru(rest, slots);
    } else {
      DropTwice(l.order, drop);
      assert KeepLast(Lru(rest, slots), capacity) == Lru(kept, SlotsOf(slots, kept));
    }
  }

  lemma DropTwice<K>(order: seq<K>, drop: nat)
    requires 1 <= drop <= |order|
    ensures order[1..][drop - 1..] == order[drop..]
  {
  }

  lemma KeptInTail<K>(order: seq<K>, drop: nat)
    requires 1 <= drop <= |order|
    ensures forall k :: k in order[drop..] ==> k in order[1..]
  {
    forall k | k in order[drop..]
      ensures k in order[1..]
    {
      var i :| 0 <= i < |order[drop..]| && order[drop..][i] == k;
      assert order[1..][drop - 1 + i] == k;
    }
  }

  lemma SlotsOfKept<K(!new)>(slots: map<K, Slot>, head: K, kept: seq<K>)
    requires head !in kept
    ensures SlotsOf(slots, kept) == SlotsOf(slots - {head}, kept)
  {
  }

  lemma SlotsOfAll<K(!new)>(slots: map<K, Slot>, keys: seq<K>)
    requires forall k :: k in slots ==> k in keys
    ensures SlotsOf(slots, keys) == slots
  {
  }

  lemma {:induction false} EvictRefines<K(!new)>(l: Lru<K>, s: State<K>, capacity: nat, t: State<K>)
    requires Refines(l, s) && Agree(s) && Evicted(s, capacity, t)
    ensures Refines(KeepLast(l, capacity), t)
    decreases |s.recency|
  {
    OrderSize(l.order, s.entries);
    if |s.entries| > capacity {
      SomeKey(s.entries);
      if s.recency != map[] {
        var n: nat :| IsLeast(s.recency, n) && Evicted(PopAt(s, n), capacity, t);
        PopAgrees(s, n);
        PopRefines(l, s, n);
        KeepLastStep(l, s, capacity);
        EvictRefines(Lru(l.order[1..], l.slots - {l.order[0]}), PopAt(s, n), capacity, t);
      }
    }
  }

  lemma MissRefines<K(!new)>(l: Lru<K>, s: State<K>, key: K, now: int, capacity: nat, t: State<K>)
    requires Refines(l, s) && Agree(s) && FreshEntry(s, key, now).1.None?
    requires Evicted(Pending(FreshEntry(s, key, now).0, key), capacity, t)
    ensures var d := Drop(l, key);
            Refines(KeepLast(Lru(d.order + [key], d.slots[key := Slot(s.next + 1, None)]), capacity), t)
  {
    var looked, d := FreshEntry(s, key, now).0, Drop(l, key);
    var pending := Pending(looked, key);
    MissDrops(l, s, key, now);
    PendingAfterMiss(s, key, now);
    assert pending.entries == looked.entries[key := Entry(s.next + 1, s.next + 1, None)];
    AppendRefines(d, looked, key, s.next + 1, pending);
    EvictRefines(Lru(d.order + [key], d.slots[key := Slot(s.next + 1, None)]), pending, capacity, t);
  }

  lemma MissDrops<K(!new)>(l: Lru<K>, s: State<K>, key: K, now: int)
    requires Refines(l, s) && Agree(s) && FreshEntry(s, key, now).1.None?
    ensures var looked := FreshEntry(s, key, now).0;
            && Refines(Drop(l, key), looked) && looked.entries == s.entries - {key}
            && forall k :: k in looked.entries ==> looked.entries[k].used < s.next + 1
  {
    DropRefines(l, s, key);
    FreshEntryAgrees(s, key, now);
    MissingEntry(s, key, now);
  }

  /** A call of the cache is a call of the list, with the same answer. */
  lemma GetRefines<K(!new)>(l: Lru<K>, s: State<K>, key: K, now: int, capacity: nat, t: State<K>)
    requires Refines(l, s) && Agree(s)
    requires IsCall(s, key, now, capacity, t)
    ensures Get(l, key, now, s.next + 1, capacity).1 == FreshEntry(s, key, now).1
    ensures Refines(Get(l, key, now, s.next + 1, capacity).0, t)
  {
    if FreshEntry(s, key, now).1.Some? {
      TouchRefines(l, s, key);
    } else {
      MissRefines(l, s, key, now, capacity, t);
    }
  }

  function ExpiryFor(end: TaskEnd, now: int, clockEnd: int): Option<Option<int>> {
    if end.Panicked? || end.ttl == 0 then None else Some(ExpiryOf(now, end.ttl, clockEnd))
  }

  /** The end of a lookup task is the end of its slot in the list. */
  lemma EndRefines<K(!new)>(l: Lru<K>, s: State<K>, key: K, id: nat, end: TaskEnd, now: int, clockEnd: int)
    requires Refines(l, s)
    ensures Refines(Finish(l, key, id, ExpiryFor(end, now, clockEnd)), EndTask(s, key, id, end, now, clockEnd))
  {
    DropRefines(l, s, key);
    IncreasingIn(l.order, s.entries, s.entries);
  }

  // ----- Whole runs -----

  /** The list machine on the events of a run; time and task keys come from the run. */
  ghost function ListStep<K(!new), V(!new)>(cfg: Config<V>, l: Lru<K>, w: World<K, V>, e: Event<K, V>): Lru<K> {
    match e
    case Call(key) => Get(l, key, w.now, w.cache.next + 1, cfg.capacity).0
    case End(id, outcome) =>
      if id in w.tasks then
        Finish(l, w.tasks[id].key, id, ExpiryFor(Returned(cfg.ttl(outcome)), w.now, cfg.clockEnd))
      else l
    case Panic(id) => if id in w.tasks then Finish(l, w.tasks[id].key, id, None) else l
    case Tick(_) => l
  }

  /** The lists of a run: the list machine on the first `n` events. */
  ghost predicate IsListRun<K(!new), V(!new)>(cfg: Config<V>, events: seq<Event<K, V>>, worlds: seq<World<K, V>>,
                                               lists: seq<Lru<K>>)
    requires |worlds| == |events| + 1
  {
    && 1 <= |lists| <= |worlds|
    && lists[0] == Lru([], map[])
    && forall i :: 0 <= i < |lists| - 1 ==> lists[i + 1] == ListStep(cfg, lists[i], worlds[i], events[i])
  }

  lemma CallIsCall<K(!new), V(!new)>(cfg: Config<V>, w: World<K, V>, e: Event<K, V>, w': World<K, V>)
    requires Next(cfg, w, e, w') && e.Call?
    ensures IsCall(w.cache, e.key, w.now, cfg.capacity, w'.cache)
  {
  }

  lemma CallIsGet<K(!new), V(!new)>(cfg: Config<V>, l: Lru<K>, w: World<K, V>, e: Event<K, V>, l': Lru<K>)
    requires e.Call? && l' == ListStep(cfg, l, w, e)
    ensures l' == Get(l, e.key, w.now, w.cache.next + 1, cfg.capacity).0
  {
  }

  lemma TaskEndRefines<K(!new), V(!new)>(cfg: Config<V>, l: Lru<K>, w: World<K, V>, e: Event<K, V>, w': World<K, V>,
                                         l': Lru<K>)
    requires Refines(l, w.cache) && Next(cfg, w, e, w') && (e.End? || e.Panic?) && l' == ListStep(cfg, l, w, e)
    ensures Refines(l', w'.cache)
  {
    var end := if e.End? then Returned(cfg.ttl(e.outcome)) else Panicked;
    EndRefines(l, w.cache, w.tasks[e.id].key, e.id, end, w.now, cfg.clockEnd);
  }

  lemma StepRefines<K(!new), V(!new)>(cfg: Config<V>, l: Lru<K>, w: World<K, V>, e: Event<K, V>, w': World<K, V>,
                                      l': Lru<K>)
    requires Refines(l, w.cache) && Agree(w.cache) && Next(cfg, w, e, w') && l' == ListStep(cfg, l, w, e)
    ensures Refines(l', w'.cache)
  {
    if e.Tick? {
      TickIsNothing(cfg, l, w, e, w');
    } else if e.Call? {
      CallStepRefines(cfg, l, w, e, w', l');
    } else {
      TaskEndRefines(cfg, l, w, e, w', l');
    }
  }

  lemma CallStepRefines<K(!new), V(!new)>(cfg: Config<V>, l: Lru<K>, w: World<K, V>, e: Event<K, V>, w': World<K, V>,
                                          l': Lru<K>)
    requires Refines(l, w.cache) && Agree(w.cache) && Next(cfg, w, e, w') && l' == ListStep(cfg, l, w, e) && e.Call?
    ensures Refines(l', w'.cache)
  {
    CallIsCall(cfg, w, e, w');
    CallIsGet(cfg, l, w, e, l');
    ListCallRefines(cfg, l, w, e, w', l');
  }

  lemma ListCallRefines<K(!new), V(!new)>(cfg: Config<V>, l: Lru<K>, w: World<K, V>, e: Event<K, V>, w': World<K, V>,
                                           l': Lru<K>)
    requires e.Call? && Refines(l, w.cache) && Agree(w.cache) && IsCall(w.cache, e.key, w.now, cfg.capacity, w'.cache)
    requires l' == Get(l, e.key, w.now, w.cache.next + 1, cfg.capacity).0
    ensures Refines(l', w'.cache)
  {
    CallRefines(l, w.cache, e.key, w.now, cfg.capacity, w'.cache, l');
  }

  lemma TickIsNothing<K(!new), V(!new)>(cfg: Config<V>, l: Lru<K>, w: World<K, V>, e: Event<K, V>, w': World<K, V>)
    requires Next(cfg, w, e, w') && e.Tick?
    ensures w'.cache == w.cache && ListStep(cfg, l, w, e) == l
  {
  }

  lemma CallRefines<K(!new)>(l: Lru<K>, s: State<K>, key: K, now: int, capacity: nat, t: State<K>, l': Lru<K>)
    requires Refines(l, s) && Agree(s) && IsCall(s, key, now, capacity, t)
    requires l' == Get(l, key, now, s.next + 1, capacity).0
    ensures Refines(l', t)
  {
    GetRefines(l, s, key, now, capacity, t);
  }

  /** After every event of every run, the cache holds what the list holds, in the order of the list. */
  lemma {:induction false} RunsRefineTheList<K(!new), V(!new)>(cfg: Config<V>, events: seq<Event<K, V>>,
                                                                worlds: seq<World<K, V>>, lists: seq<Lru<K>>, i: nat)
    requires IsRun(cfg, events, worlds) && IsListRun(cfg, events, worlds, lists) && i < |lists|
    ensures Refines(lists[i], worlds[i].cache)
  {
    if i > 0 {
      RunsKeepInv(cfg, events, worlds, i - 1);
      RunsRefineTheList(cfg, events, worlds, lists, i - 1);
      StepRefines(cfg, lists[i - 1], worlds[i - 1], events[i - 1], worlds[i], lists[i]);
    }
  }

  /** Every run has its lists. */
  lemma {:induction false} ListRunExists<K(!new), V(!new)>(cfg: Config<V>, events: seq<Event<K, V>>,
                                                            worlds: seq<World<K, V>>, n: nat)
    returns (lists: seq<Lru<K>>)
    requires n < |worlds| == |events| + 1
    ensures |lists| == n + 1 && IsListRun(cfg, events, worlds, lists)
  {
    if n == 0 {
      lists := [Lru([], map[])];
    } else {
      var before := ListRunExists(cfg, events, worlds, n - 1);
      lists := before + [ListStep(cfg, before[n - 1], worlds[n - 1], events[n - 1])];
    }
  }
}
