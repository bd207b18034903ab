/**
  The bounded cache of lookup outcomes (crates/server/src/application/cache.rs): its state
  behind the lock, and each locked section as a method of `Store`.

  The functions on `State` specify the methods, and `Agree` is the invariant of the two maps.
  `CacheRuns` runs lookups, panics, expiry, and eviction against this state in every order, and
  `CacheLru` relates it to a plain least-recently-used sequence.
*/
module Cache {
  import opened Collections

  datatype Entry = Entry(id: nat, used: nat, expiresAt: Option<int>)

  datatype State<K> = State(entries: map<K, Entry>, recency: map<nat, K>, next: nat)

  ghost predicate IsLeast<K>(recency: map<nat, K>, n: nat) {
    n in recency && forall m :: m in recency ==> n <= m
  }

  // ----- The locked sections, on values -----

  function Bump<K>(s: State<K>): State<K> {
    s.(next := s.next + 1)
  }

  function RemoveKey<K>(s: State<K>, key: K): State<K> {
    if key in s.entries then
      s.(entries := s.entries - {key}, recency := s.recency - {s.entries[key].used})
    else
      s
  }

  /** An entry that another lookup filled stays. */
  function RemoveLookup<K>(s: State<K>, key: K, id: nat): State<K> {
    if key in s.entries && s.entries[key].id == id then RemoveKey(s, key) else s
  }

  predicate IsExpired(e: Entry, now: int) {
    e.expiresAt.Some? && now >= e.expiresAt.value
  }

  function MarkUsed<K>(s: State<K>, key: K): State<K>
    requires key in s.entries
  {
    var e := s.entries[key];
    var used := s.next + 1;
    State(s.entries[key := e.(used := used)], (s.recency - {e.used})[used := key], used)
  }

  /** A hit moves the entry to the newest number and gives its lookup; an expired entry goes, which is a miss. */
  function FreshEntry<K>(s: State<K>, key: K, now: int): (State<K>, Option<nat>) {
    if key !in s.entries then (s, None)
    else if IsExpired(s.entries[key], now) then (RemoveKey(s, key), None)
    else (MarkUsed(s, key), Some(s.entries[key].id))
  }

  function Insert<K>(s: State<K>, key: K, e: Entry): State<K> {
    var removed := RemoveKey(s, key);
    removed.(entries := removed.entries[key := e], recency := removed.recency[e.used := key])
  }

  function PopAt<K>(s: State<K>, n: nat): State<K>
    requires n in s.recency
  {
    s.(entries := s.entries - {s.recency[n]}, recency := s.recency - {n})
  }

  /** `t` is `s` after the eviction loop: least recently used entries go until `capacity` is met. */
  ghost predicate Evicted<K(!new)>(s: State<K>, capacity: nat, t: State<K>)
    decreases |s.recency|
  {
    if |s.entries| <= capacity || s.recency == map[] then t == s
    else exists n :: IsLeast(s.recency, n) && Evicted(PopAt(s, n), capacity, t)
  }

  /** A new pending entry for lookup `next + 1`, before the eviction. */
  function Pending<K>(s: State<K>, key: K): State<K> {
    Insert(Bump(s), key, Entry(s.next + 1, s.next + 1, None))
  }

  /** `t` is `s` after a call: the fresh entry is used, or a new lookup starts and old entries go. */
  ghost predicate IsCall<K(!new)>(s: State<K>, key: K, now: int, capacity: nat, t: State<K>) {
    var (looked, joined) := FreshEntry(s, key, now);
    if joined.Some? then t == looked else Evicted(Pending(looked, key), capacity, t)
  }

  /** The end of a life that starts at `now`, unless the clock cannot represent it. */
  function ExpiryOf(now: int, ttl: nat, clockEnd: int): Option<int> {
    if now + ttl <= clockEnd then Some(now + ttl) else None
  }

  function Complete<K>(s: State<K>, key: K, id: nat, ttl: nat, now: int, clockEnd: int): State<K> {
    if ttl == 0 then
      RemoveLookup(s, key, id)
    else if key in s.entries && s.entries[key].id == id then
      s.(entries := s.entries[key := s.entries[key].(expiresAt := ExpiryOf(now, ttl, clockEnd))])
    else
      s
  }

  // ----- The invariant -----

  /** The two maps are inverse to each other, and no number is above the counter. */
  ghost predicate Agree<K(!new)>(s: State<K>) {
    && (forall k :: k in s.entries ==>
          s.entries[k].used in s.recency && s.recency[s.entries[k].used] == k && s.entries[k].id <= s.entries[k].used)
    && (forall n :: n in s.recency ==>
          n <= s.next && s.recency[n] in s.entries && s.entries[s.recency[n]].used == n)
  }

  // ----- The locked sections, as code -----

  class Store<K(==,!new)> {
    const capacity: nat
    const clockEnd: int
    var entries: map<K, Entry>
    var recency: map<nat, K>
    var next: nat

    ghost function Now(): State<K>
      reads this
    {
      State(entries, recency, next)
    }

    ghost predicate Valid()
      reads this
    {
      Agree(Now())
    }

    constructor (capacity: nat, clockEnd: int)
      ensures Valid() && Now() == State(map[], map[], 0)
      ensures this.capacity == capacity && this.clockEnd == clockEnd
    {
      this.capacity := capacity;
      this.clockEnd := clockEnd;
      entries := map[];
      recency := map[];
      next := 0;
    }

    method BumpNext() returns (n: nat)
      modifies `next
      ensures n == next && Now() == Bump(old(Now()))
    {
      next := next + 1;
      n := next;
    }

    method RemoveEntry(key: K)
      modifies `entries, `recency
      ensures Now() == RemoveKey(old(Now()), key)
    {
      if key in entries {
        var e := entries[key];
        entries := entries - {key};
        recency := recency - {e.used};
      }
    }

    method RemoveEntryOf(key: K, id: nat)
      requires Valid()
      modifies `entries, `recency
      ensures Valid() && Now() == RemoveLookup(old(Now()), key, id)
    {
      RemoveLookupAgrees(Now(), key, id);
      if key in entries && entries[key].id == id {
        RemoveEntry(key);
      }
    }

    method Fresh(key: K, now: int) returns (lookup: Option<nat>)
      requires Valid()
      modifies `entries, `recency, `next
      ensures Valid() && (Now(), lookup) == FreshEntry(old(Now()), key, now)
    {
      FreshEntryAgrees(Now(), key, now);
      if key !in entries {
        return None;
      }
      if IsExpired(entries[key], now) {
        RemoveEntry(key);
        return None;
      }
      var used := BumpNext();
      var e := entries[key];
      recency := recency - {e.used};
      entries := entries[key := e.(used := used)];
      recency := recency[used := key];
      lookup := Some(e.id);
    }

    method Put(key: K, e: Entry)
      modifies `entries, `recency
      ensures Now() == Insert(old(Now()), key, e)
    {
      RemoveEntry(key);
      recency := recency[e.used := key];
      entries := entries[key := e];
    }

    /** The loop never takes its early exit: the maps agree, so an entry has a recency number. */
    method EvictOver()
      requires Valid()
      modifies `entries, `recency
      ensures Valid() && Evicted(old(Now()), capacity, Now())
      ensures |entries| <= capacity
    {
      ghost var before := Now();
      while |entries| > capacity
        invariant Valid() && next == old(next)
        invariant forall t :: Evicted(Now(), capacity, t) ==> Evicted(before, capacity, t)
        decreases |recency|
      {
        SomeKey(entries);
        if recency == map[] {
          assert false;
        }
        LeastExists(recency);
        var n :| n in recency && forall m :: m in recency ==> n <= m;
        PopAgrees(Now(), n);
        ghost var s := Now();
        var key := recency[n];
        recency := recency - {n};
        entries := entries - {key};
        assert IsLeast(s.recency, n) && Now() == PopAt(s, n);
      }
      assert Evicted(Now(), capacity, Now());
    }

    /** The locked part of `get_with`: the lookup to wait for, and whether it starts now. */
    method GetWith(key: K, now: int) returns (lookup: nat, started: bool)
      requires Valid()
      modifies `entries, `recency, `next
      ensures Valid() && (old(|entries|) <= capacity ==> |entries| <= capacity)
      ensures var (looked, joined) := FreshEntry(old(Now()), key, now);
              && started == joined.None?
              && (joined.Some? ==> lookup == joined.value && Now() == looked)
              && (joined.None? ==> lookup == looked.next + 1 && Evicted(Pending(looked, key), capacity, Now()))
    {
      FreshEntrySize(Now(), key, now);
      var joined := Fresh(key, now);
      if joined.Some? {
        return joined.value, false;
      }
      PendingAgrees(Now(), key);
      lookup := BumpNext();
      Put(key, Entry(lookup, lookup, None));
      EvictOver();
      started := true;
    }

    method CompleteLookup(key: K, id: nat, ttl: nat, now: int)
      requires Valid()
      modifies `entries, `recency
      ensures Valid() && Now() == Complete(old(Now()), key, id, ttl, now, clockEnd)
    {
      CompleteAgrees(Now(), key, id, ttl, now, clockEnd);
      if ttl == 0 {
        RemoveEntryOf(key, id);
      } else if key in entries && entries[key].id == id {
        entries := entries[key := entries[key].(expiresAt := ExpiryOf(now, ttl, clockEnd))];
      }
    }
  }

  /** The drop guard of a lookup task: while armed, its drop takes the task's own entry away. */
  class PendingGuard<K(==,!new)> {
    const store: Store<K>
    const key: K
    const id: nat
    var armed: bool

    constructor (store: Store<K>, key: K, id: nat)
      ensures this.store == store && this.key == key && this.id == id && armed
    {
      this.store := store;
      this.key := key;
      this.id := id;
      armed := true;
    }

    method Drop()
      requires store.Valid()
      modifies store`entries, store`recency
      ensures store.Valid()
      ensures store.Now() == if armed then RemoveLookup(old(store.Now()), key, id) else old(store.Now())
    {
      if armed {
        store.RemoveEntryOf(key, id);
      }
    }
  }

  /** How a lookup task ends: with the time to live of its outcome, or with a panic. */
  datatype TaskEnd = Returned(ttl: nat) | Panicked

  function EndTask<K>(s: State<K>, key: K, id: nat, end: TaskEnd, now: int, clockEnd: int): State<K> {
    match end
    case Returned(ttl) => Complete(s, key, id, ttl, now, clockEnd)
    case Panicked => RemoveLookup(s, key, id)
  }

  /** The body of a lookup task: the guard is disarmed only after the outcome is recorded. */
  method RunTask<K(==,!new)>(store: Store<K>, key: K, id: nat, end: TaskEnd, now: int)
    requires store.Valid()
    modifies store`entries, store`recency
    ensures store.Valid() && store.Now() == EndTask(old(store.Now()), key, id, end, now, store.clockEnd)
  {
    var pending := new PendingGuard(store, key, id);
    if end.Returned? {
      store.CompleteLookup(key, id, end.ttl, now);
      pending.armed := false;
    }
    pending.Drop();
  }

  // ----- Each section keeps the invariant -----

  lemma RemoveKeyAgrees<K(!new)>(s: State<K>, key: K)
    requires Agree(s)
    ensures Agree(RemoveKey(s, key)) && key !in RemoveKey(s, key).entries
  {
  }

  lemma RemoveLookupAgrees<K(!new)>(s: State<K>, key: K, id: nat)
    requires Agree(s)
    ensures Agree(RemoveLookup(s, key, id))
  {
    RemoveKeyAgrees(s, key);
  }

  lemma FreshEntryAgrees<K(!new)>(s: State<K>, key: K, now: int)
    requires Agree(s)
    ensures Agree(FreshEntry(s, key, now).0)
    ensures FreshEntry(s, key, now).1.None? ==> key !in FreshEntry(s, key, now).0.entries
  {
    RemoveKeyAgrees(s, key);
  }

  lemma MissingEntry<K(!new)>(s: State<K>, key: K, now: int)
    requires FreshEntry(s, key, now).1.None?
    ensures var t := FreshEntry(s, key, now).0;
            && t.entries == s.entries - {key} && t.next == s.next
            && (key in s.entries ==> s.entries[key].expiresAt.Some?)
  {
    assert key !in s.entries ==> s.entries - {key} == s.entries;
  }

  /** A lookup that starts after a miss fills the entry of its key and changes no other entry. */
  lemma PendingAfterMiss<K(!new)>(s: State<K>, key: K, now: int)
    requires Agree(s) && FreshEntry(s, key, now).1.None?
    ensures var pending := Pending(FreshEntry(s, key, now).0, key);
            && Agree(pending) && pending.next == s.next + 1
            && pending.entries == s.entries[key := Entry(s.next + 1, s.next + 1, None)]
  {
    var looked := FreshEntry(s, key, now).0;
    FreshEntryAgrees(s, key, now);
    MissingEntry(s, key, now);
    PendingAgrees(looked, key);
    assert Pending(looked, key).entries == looked.entries[key := Entry(s.next + 1, s.next + 1, None)];
  }

  lemma FreshEntrySize<K(!new)>(s: State<K>, key: K, now: int)
    ensures |FreshEntry(s, key, now).0.entries| <= |s.entries|
  {
    var t := FreshEntry(s, key, now).0;
    assert t.entries.Keys == s.entries.Keys || t.entries.Keys == s.entries.Keys - {key};
    assert |t.entries| == |t.entries.Keys| && |s.entries| == |s.entries.Keys|;
  }

  lemma PendingAgrees<K(!new)>(s: State<K>, key: K)
    requires Agree(s)
    ensures Agree(Pending(s, key))
  {
    RemoveKeyAgrees(s, key);
  }

  lemma PopAgrees<K(!new)>(s: State<K>, n: nat)
    requires Agree(s) && n in s.recency
    ensures Agree(PopAt(s, n)) && |PopAt(s, n).recency| < |s.recency|
  {
    assert (s.recency - {n}).Keys == s.recency.Keys - {n};
  }

  lemma CompleteAgrees<K(!new)>(s: State<K>, key: K, id: nat, ttl: nat, now: int, clockEnd: int)
    requires Agree(s)
    ensures Agree(Complete(s, key, id, ttl, now, clockEnd))
  {
    RemoveLookupAgrees(s, key, id);
  }

  lemma SomeKey<K(!new)>(m: map<K, Entry>)
    requires |m| > 0
    ensures exists k :: k in m
  {
    assert m.Keys != {};
  }

  lemma {:induction false} LeastExists<K(!new)>(m: map<nat, K>)
    requires m != map[]
    ensures exists n :: IsLeast(m, n)
    decreases |m|
  {
    assert m.Keys != {};
    var n :| n in m;
    var rest := m - {n};
    assert rest.Keys == m.Keys - {n};
    if rest == map[] {
      assert forall k :: k in m ==> k == n || k in rest;
      assert IsLeast(m, n);
    } else {
      LeastExists(rest);
      var least: nat :| IsLeast(rest, least);
      assert forall k :: k in m ==> k == n || k in rest;
      assert IsLeast(m, if n < least then n else least);
    }
  }
}
