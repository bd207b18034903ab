/**
  The pool of lookups with a fixed number of slots and outputs in input order
  (crates/server/src/application/bounded.rs), as a schedule over time.

  A finished lookup frees its slot at once: time passes only while no lookup can start and
  none has ended. Which of several ended lookups is collected first is open, so each result
  holds for every schedule.
*/
module Scheduler {
  import opened Collections
  import opened Sequences
  import opened Sorting

  /** One lookup: how long it takes, and what it gives. */
  datatype Job<T> = Job(duration: nat, output: T)

  /** `started` has the start time of each started item, `finished` the ended items in completion order. */
  datatype Sched = Sched(now: nat, started: seq<nat>, running: set<nat>, finished: seq<nat>)

  const IDLE := Sched(0, [], {}, [])

  function EndOf<T>(jobs: seq<Job<T>>, s: Sched, i: nat): nat
    requires i < |s.started| <= |jobs|
  {
    s.started[i] + jobs[i].duration
  }

  predicate CanStart<T>(jobs: seq<Job<T>>, limit: nat, s: Sched) {
    |s.started| < |jobs| && |s.running| < limit
  }

  function Started(s: Sched): Sched {
    s.(started := s.started + [s.now], running := s.running + {|s.started|})
  }

  /** The clock moves to `time`, at most to the first end of a running lookup. */
  predicate CanAdvance<T>(jobs: seq<Job<T>>, limit: nat, s: Sched, time: nat)
    requires |s.started| <= |jobs|
  {
    && !CanStart(jobs, limit, s) && s.running != {} && s.now < time
    && forall i :: i in s.running ==> i < |s.started| && time <= EndOf(jobs, s, i)
  }

  predicate CanFinish<T>(jobs: seq<Job<T>>, s: Sched, i: nat)
    requires |s.started| <= |jobs|
  {
    i in s.running && i < |s.started| && EndOf(jobs, s, i) <= s.now
  }

  function Finished(s: Sched, i: nat): Sched {
    s.(running := s.running - {i}, finished := s.finished + [i])
  }

  datatype Event = Start | Advance(time: nat) | Finish(item: nat)

  ghost predicate Next<T>(jobs: seq<Job<T>>, limit: nat, s: Sched, e: Event, s': Sched) {
    && |s.started| <= |jobs|
    && match e
       case Start => CanStart(jobs, limit, s) && s' == Started(s)
       case Advance(time) => CanAdvance(jobs, limit, s, time) && s' == s.(now := time)
       case Finish(i) => CanFinish(jobs, s, i) && s' == Finished(s, i)
  }

  ghost predicate IsSchedule<T>(jobs: seq<Job<T>>, limit: nat, events: seq<Event>, states: seq<Sched>) {
    && |states| == |events| + 1
    && states[0] == IDLE
    && forall k :: 0 <= k < |events| ==> Next(jobs, limit, states[k], events[k], states[k + 1])
  }

  /** A schedule as a value. */
  datatype Trace = Trace(events: seq<Event>, states: seq<Sched>)

  ghost predicate Reaches<T>(jobs: seq<Job<T>>, limit: nat, trace: Trace, s: Sched) {
    IsSchedule(jobs, limit, trace.events, trace.states) && trace.states[|trace.events|] == s
  }

  lemma OneMoreStep<T>(jobs: seq<Job<T>>, limit: nat, trace: Trace, s: Sched, e: Event, s': Sched)
    requires Reaches(jobs, limit, trace, s) && Next(jobs, limit, s, e, s')
    ensures Reaches(jobs, limit, Trace(trace.events + [e], trace.states + [s']), s')
  {
    var events, states := trace.events + [e], trace.states + [s'];
    forall k | 0 <= k < |events|
      ensures Next(jobs, limit, states[k], events[k], states[k + 1])
    {
      if k < |trace.events| {
        assert Next(jobs, limit, trace.states[k], trace.events[k], trace.states[k + 1]);
      }
    }
  }

  // ----- Sums -----

  function TotalTo<T>(jobs: seq<Job<T>>, n: nat): nat
    requires n <= |jobs|
  {
    if n == 0 then 0 else TotalTo(jobs, n - 1) + jobs[n - 1].duration
  }

  function Total<T>(jobs: seq<Job<T>>): nat {
    TotalTo(jobs, |jobs|)
  }

  function Longest<T>(jobs: seq<Job<T>>): (m: nat)
    ensures forall i :: 0 <= i < |jobs| ==> jobs[i].duration <= m
    ensures jobs != [] ==> exists i :: 0 <= i < |jobs| && jobs[i].duration == m
  {
    if jobs == [] then 0
    else
      var rest := Longest(jobs[1..]);
      assert jobs == [jobs[0]] + jobs[1..];
      if rest > jobs[0].duration || (rest == jobs[0].duration && |jobs| > 1) then
        assert exists i :: 0 <= i < |jobs[1..]| && jobs[1..][i].duration == rest;
        rest
      else jobs[0].duration
  }

  /** The lookup time that the first `n` started items have used by `now`. */
  function WorkTo<T>(jobs: seq<Job<T>>, started: seq<nat>, now: nat, n: nat): int
    requires n <= |started| <= |jobs|
  {
    if n == 0 then 0
    else WorkTo(jobs, started, now, n - 1) + Min(jobs[n - 1].duration, now - started[n - 1])
  }

  function CountBelow(s: set<nat>, n: nat): nat {
    if n == 0 then 0 else CountBelow(s, n - 1) + if n - 1 in s then 1 else 0
  }

  lemma {:induction false} CountIsSize(s: set<nat>, n: nat)
    requires forall i :: i in s ==> i < n
    ensures CountBelow(s, n) == |s|
  {
    if n == 0 {
      assert s == {};
    } else {
      var rest := s - {n - 1};
      CountIsSize(rest, n - 1);
      CountWithout(s, n - 1, n - 1);
    }
  }

  lemma {:induction false} CountWithout(s: set<nat>, x: nat, n: nat)
    requires n <= x
    ensures CountBelow(s - {x}, n) == CountBelow(s, n)
  {
    if n > 0 {
      CountWithout(s, x, n - 1);
    }
  }

  lemma {:induction false} TotalGrows<T>(jobs: seq<Job<T>>, m: nat, n: nat)
    requires m <= n <= |jobs|
    ensures TotalTo(jobs, m) <= TotalTo(jobs, n)
    ensures m < n ==> TotalTo(jobs, m) + jobs[m].duration <= TotalTo(jobs, n)
    decreases n
  {
    if m < n {
      TotalGrows(jobs, m, n - 1);
    }
  }

  // ----- The invariant -----

  ghost predicate Times<T>(jobs: seq<Job<T>>, s: Sched)
    requires |s.started| <= |jobs|
  {
    && (forall i :: 0 <= i < |s.started| ==> s.started[i] <= s.now)
    && (forall i :: i in s.running ==> i < |s.started| && s.now <= EndOf(jobs, s, i))
    && (forall i :: 0 <= i < |s.started| && i !in s.running ==> i in s.finished && EndOf(jobs, s, i) <= s.now)
  }

  ghost predicate Order(s: Sched) {
    && (forall k :: 0 <= k < |s.finished| ==> s.finished[k] < |s.started| && s.finished[k] !in s.running)
    && (forall k, l :: 0 <= k < l < |s.finished| ==> s.finished[k] != s.finished[l])
  }

  /** The slots do no more work than time allows, and while items wait all have been busy since the beginning. */
  ghost predicate Busy<T>(jobs: seq<Job<T>>, limit: nat, s: Sched)
    requires |s.started| <= |jobs|
  {
    && WorkTo(jobs, s.started, s.now, |s.started|) <= limit * s.now
    && (|s.started| < |jobs| ==> limit * s.now == WorkTo(jobs, s.started, s.now, |s.started|))
    && (forall i :: 0 <= i < |s.started| ==> limit * s.started[i] <= TotalTo(jobs, i))
    && (s.now == 0 || exists i :: 0 <= i < |s.started| && s.now <= EndOf(jobs, s, i))
  }

  ghost predicate Inv<T>(jobs: seq<Job<T>>, limit: nat, s: Sched) {
    && |s.started| <= |jobs| && |s.running| <= limit
    && Times(jobs, s) && Order(s) && Busy(jobs, limit, s)
  }

  lemma {:induction false} WorkOfPrefix<T>(jobs: seq<Job<T>>, started: seq<nat>, now: nat, n: nat)
    requires n <= |started| < |jobs|
    ensures WorkTo(jobs, started + [now], now, n) == WorkTo(jobs, started, now, n)
  {
    if n > 0 {
      WorkOfPrefix(jobs, started, now, n - 1);
    }
  }

  lemma {:induction false} WorkWithinTotal<T>(jobs: seq<Job<T>>, started: seq<nat>, now: nat, n: nat)
    requires n <= |started| <= |jobs|
    ensures WorkTo(jobs, started, now, n) <= TotalTo(jobs, n)
  {
    if n > 0 {
      WorkWithinTotal(jobs, started, now, n - 1);
    }
  }

  /** In a step of the clock each running lookup works all the time, and no other does. */
  lemma {:induction false} WorkOfAdvance<T>(jobs: seq<Job<T>>, s: Sched, time: nat, n: nat)
    requires n <= |s.started| <= |jobs| && Times(jobs, s) && s.now <= time
    requires forall i :: i in s.running ==> time <= EndOf(jobs, s, i)
    ensures WorkTo(jobs, s.started, time, n)
         == WorkTo(jobs, s.started, s.now, n) + (time - s.now) * CountBelow(s.running, n)
  {
    if n > 0 {
      WorkOfAdvance(jobs, s, time, n - 1);
      OneMore(time - s.now, CountBelow(s.running, n - 1));
      assert Min(jobs[n - 1].duration, time - s.started[n - 1])
          == Min(jobs[n - 1].duration, s.now - s.started[n - 1]) + if n - 1 in s.running then time - s.now else 0;
    }
  }

  lemma OneMore(step: nat, count: nat)
    ensures step * (count + 1) == step * count + step
  {
  }

  lemma StartKeepsInv<T>(jobs: seq<Job<T>>, limit: nat, s: Sched)
    requires Inv(jobs, limit, s) && CanStart(jobs, limit, s)
    ensures Inv(jobs, limit, Started(s))
  {
    var n := |s.started|;
    WorkOfPrefix(jobs, s.started, s.now, n);
    WorkWithinTotal(jobs, s.started, s.now, n);
    var s' := Started(s);
    assert WorkTo(jobs, s'.started, s.now, n + 1) == WorkTo(jobs, s.started, s.now, n);
    assert s.now == 0 || s.now <= EndOf(jobs, s', n);
  }

  lemma WholeStep(limit: nat, now: nat, time: nat)
    requires now <= time
    ensures limit * time == limit * now + (time - now) * limit
  {
  }

  lemma PartStep(limit: nat, now: nat, time: nat, count: nat)
    requires now <= time && count <= limit
    ensures limit * now + (time - now) * count <= limit * time
  {
    assert (time - now) * count <= (time - now) * limit;
  }

  lemma AdvanceKeepsInv<T>(jobs: seq<Job<T>>, limit: nat, s: Sched, time: nat)
    requires Inv(jobs, limit, s) && CanAdvance(jobs, limit, s, time)
    ensures Inv(jobs, limit, s.(now := time))
  {
    var n := |s.started|;
    var s' := s.(now := time);
    WorkOfAdvance(jobs, s, time, n);
    CountIsSize(s.running, n);
    PartStep(limit, s.now, time, |s.running|);
    if n < |jobs| {
      assert |s.running| == limit;
      WholeStep(limit, s.now, time);
    }
    var i :| i in s.running;
    assert time <= EndOf(jobs, s', i);
  }

  lemma FinishKeepsInv<T>(jobs: seq<Job<T>>, limit: nat, s: Sched, i: nat)
    requires Inv(jobs, limit, s) && |s.started| <= |jobs| && CanFinish(jobs, s, i)
    ensures Inv(jobs, limit, Finished(s, i))
  {
    var s' := Finished(s, i);
    assert s'.finished[|s.finished|] == i;
    assert forall k :: 0 <= k < |s.finished| ==> s'.finished[k] == s.finished[k];
    forall j | 0 <= j < |s'.started| && j !in s'.running
      ensures j in s'.finished && EndOf(jobs, s', j) <= s'.now
    {
      if j != i {
        assert j in s.finished;
      }
    }
    if s.now != 0 {
      var j :| 0 <= j < |s.started| && s.now <= EndOf(jobs, s, j);
      assert s'.now <= EndOf(jobs, s', j);
    }
  }

  lemma {:induction false} SchedulesKeepInv<T>(jobs: seq<Job<T>>, limit: nat, events: seq<Event>, states: seq<Sched>,
                                               k: nat)
    requires IsSchedule(jobs, limit, events, states) && k < |states|
    ensures Inv(jobs, limit, states[k])
  {
    if k > 0 {
      var s, e, s' := states[k - 1], events[k - 1], states[k];
      assert Next(jobs, limit, s, e, s');
      SchedulesKeepInv(jobs, limit, events, states, k - 1);
      match e
      case Start => StartKeepsInv(jobs, limit, s);
      case Advance(time) => AdvanceKeepsInv(jobs, limit, s, time);
      case Finish(i) => FinishKeepsInv(jobs, limit, s, i);
    }
  }

  // ----- Main results -----

  /** The bound of list scheduling. */
  lemma BoundOfInv<T>(jobs: seq<Job<T>>, limit: nat, s: Sched)
    requires limit >= 1 && Inv(jobs, limit, s)
    ensures limit * s.now <= Total(jobs) + (limit - 1) * Longest(jobs)
  {
    if s.now == 0 {
      ScaledBound(limit, 0, 0, 0, 0, Total(jobs), Longest(jobs));
    } else {
      var i :| 0 <= i < |s.started| && s.now <= EndOf(jobs, s, i);
      assert limit * s.started[i] <= TotalTo(jobs, i);
      BoundFromLast(jobs, limit, s.now, s.started[i], i);
    }
  }

  /** An item that starts within its share and runs to the end bounds the end. */
  lemma BoundFromLast<T>(jobs: seq<Job<T>>, limit: nat, now: nat, start: nat, i: nat)
    requires limit >= 1 && i < |jobs| && now <= start + jobs[i].duration && limit * start <= TotalTo(jobs, i)
    ensures limit * now <= Total(jobs) + (limit - 1) * Longest(jobs)
  {
    TotalGrows(jobs, i, |jobs|);
    ScaledBound(limit, now, start, jobs[i].duration, TotalTo(jobs, i), Total(jobs), Longest(jobs));
  }

  lemma ScaledBound(limit: nat, now: nat, start: nat, duration: nat, before: nat, total: nat, longest: nat)
    requires limit >= 1 && now <= start + duration && limit * start <= before
    requires before + duration <= total && duration <= longest
    ensures limit * now <= total + (limit - 1) * longest
  {
    var slack := start + duration - now;
    assert limit * now + limit * slack == limit * start + limit * duration;
    assert limit * slack >= 0;
    assert limit * duration == duration + (limit - 1) * duration;
    assert (limit - 1) * (longest - duration) >= 0;
    assert (limit - 1) * longest == (limit - 1) * duration + (limit - 1) * (longest - duration);
  }

  /**
    Every schedule runs at most `limit` lookups at once, never idles a slot while an item
    waits, and takes at most (sum of durations + (limit - 1) * longest duration) / limit.
  */
  lemma EverySchedule<T>(jobs: seq<Job<T>>, limit: nat, events: seq<Event>, states: seq<Sched>, k: nat)
    requires limit >= 1 && IsSchedule(jobs, limit, events, states) && k < |states|
    ensures var s := states[k];
            && |s.running| <= limit
            && limit * s.now <= Total(jobs) + (limit - 1) * Longest(jobs)
            && (k < |events| && events[k].Advance? && |s.started| < |jobs| ==> |s.running| == limit)
  {
    SchedulesKeepInv(jobs, limit, events, states, k);
    BoundOfInv(jobs, limit, states[k]);
    if k < |events| {
      assert Next(jobs, limit, states[k], events[k], states[k + 1]);
    }
  }

  lemma {:induction false} FinishedWorkIsAll<T>(jobs: seq<Job<T>>, s: Sched, n: nat)
    requires n <= |s.started| == |jobs| && Times(jobs, s) && s.running == {}
    ensures WorkTo(jobs, s.started, s.now, n) == TotalTo(jobs, n)
  {
    if n > 0 {
      FinishedWorkIsAll(jobs, s, n - 1);
      assert EndOf(jobs, s, n - 1) <= s.now;
    }
  }

  lemma AllCollected<T>(jobs: seq<Job<T>>, limit: nat, s: Sched)
    requires Inv(jobs, limit, s) && |s.finished| == |jobs|
    ensures |s.started| == |jobs| && s.running == {}
  {
    DistinctCount(s.finished, |s.started|);
    if i :| i in s.running {
      DistinctCount(s.finished + [i], |s.started|);
    }
  }

  /**
    The lower bounds of every schedule that has collected all items: no slot does more than one
    lookup at a time, and no lookup ends before its duration has passed.
  */
  lemma EveryScheduleTakesItsTime<T>(jobs: seq<Job<T>>, limit: nat, events: seq<Event>, states: seq<Sched>, k: nat)
    requires IsSchedule(jobs, limit, events, states) && k < |states| && |states[k].finished| == |jobs|
    ensures Total(jobs) <= limit * states[k].now && Longest(jobs) <= states[k].now
  {
    var s := states[k];
    SchedulesKeepInv(jobs, limit, events, states, k);
    AllCollected(jobs, limit, s);
    FinishedWorkIsAll(jobs, s, |jobs|);
    if jobs != [] {
      var i :| 0 <= i < |jobs| && jobs[i].duration == Longest(jobs);
      assert EndOf(jobs, s, i) <= s.now;
    }
  }

  /** A schedule that has not collected every item can always take a step. */
  lemma NeverStuck<T>(jobs: seq<Job<T>>, limit: nat, s: Sched)
    requires limit >= 1 && Inv(jobs, limit, s) && |s.finished| < |jobs|
    ensures exists e, s' :: Next(jobs, limit, s, e, s')
  {
    if CanStart(jobs, limit, s) {
      assert Next(jobs, limit, s, Start, Started(s));
    } else {
      UnfinishedRuns(jobs, limit, s);
      var i := EarliestEnd(jobs, s, s.running);
      if EndOf(jobs, s, i) <= s.now {
        assert Next(jobs, limit, s, Finish(i), Finished(s, i));
      } else {
        assert Next(jobs, limit, s, Advance(EndOf(jobs, s, i)), s.(now := EndOf(jobs, s, i)));
      }
    }
  }

  lemma UnfinishedRuns<T>(jobs: seq<Job<T>>, limit: nat, s: Sched)
    requires limit >= 1 && Inv(jobs, limit, s) && |s.finished| < |jobs| && !CanStart(jobs, limit, s)
    ensures s.running != {}
  {
    if s.running == {} {
      assert |s.started| == |jobs|;
      CoversCount(s.finished, |jobs|);
      assert false;
    }
  }

  lemma {:induction false} CoversCount(finished: seq<nat>, n: nat)
    requires forall i :: 0 <= i < n ==> i in finished
    ensures |finished| >= n
  {
    if n > 0 {
      assert n - 1 in finished;
      var k :| 0 <= k < |finished| && finished[k] == n - 1;
      var rest := finished[..k] + finished[k + 1..];
      forall i | 0 <= i < n - 1
        ensures i in rest
      {
        assert i in finished;
        var j :| 0 <= j < |finished| && finished[j] == i;
        assert rest[if j < k then j else j - 1] == i;
      }
      CoversCount(rest, n - 1);
    }
  }

  lemma EarliestEnd<T>(jobs: seq<Job<T>>, s: Sched, among: set<nat>) returns (i: nat)
    requires |s.started| <= |jobs| && among != {} && forall j :: j in among ==> j < |s.started|
    ensures i in among && forall j :: j in among ==> EndOf(jobs, s, i) <= EndOf(jobs, s, j)
    decreases among
  {
    var first :| first in among;
    i := first;
    var rest := among - {first};
    assert forall j :: j in among ==> j == first || j in rest;
    if rest != {} {
      var k := EarliestEnd(jobs, s, rest);
      if EndOf(jobs, s, k) < EndOf(jobs, s, first) {
        i := k;
      }
    }
  }

  // ----- The code: a pool that fills and drains, then a sort by index -----

  function ByIndex<T(!new)>(): ((nat, T), (nat, T)) -> bool {
    (a: (nat, T), b: (nat, T)) => a.0 <= b.0
  }

  function OutputOf<T>(): Job<T> -> T {
    (job: Job<T>) => job.output
  }

  /** Each collected output carries the index of its item. */
  ghost predicate Collected<T>(jobs: seq<Job<T>>, finished: seq<nat>, outputs: seq<(nat, T)>) {
    && |outputs| == |finished|
    && forall k :: 0 <= k < |outputs| ==>
         finished[k] < |jobs| && outputs[k] == (finished[k], jobs[finished[k]].output)
  }

  /** What is left to do: two steps for an item that waits, one for an item that runs. */
  ghost function StepsLeft<T>(jobs: seq<Job<T>>, s: Sched): nat
    requires |s.started| <= |jobs|
  {
    2 * (|jobs| - |s.started|) + |s.running|
  }

  /** The pool starts items until it is full or none waits. */
  method Fill<T>(jobs: seq<Job<T>>, limit: nat, s: Sched, ghost before: Trace) returns (t: Sched, ghost trace: Trace)
    requires Inv(jobs, limit, s) && Reaches(jobs, limit, before, s)
    ensures Reaches(jobs, limit, trace, t)
    ensures Inv(jobs, limit, t) && t.finished == s.finished && t.now == s.now
    ensures !CanStart(jobs, limit, t) && StepsLeft(jobs, t) <= StepsLeft(jobs, s)
    ensures limit >= 1 && (|s.started| < |jobs| || s.running != {}) ==> t.running != {}
  {
    t, trace := s, before;
    while |t.running| < limit && |t.started| < |jobs|
      invariant Reaches(jobs, limit, trace, t)
      invariant Inv(jobs, limit, t) && t.finished == s.finished && t.now == s.now
      invariant StepsLeft(jobs, t) <= StepsLeft(jobs, s)
      invariant t.running != {} || t == s
      decreases |jobs| - |t.started|
    {
      StartKeepsInv(jobs, limit, t);
      assert |Started(t).running| == |t.running| + 1;
      OneMoreStep(jobs, limit, trace, t, Start, Started(t));
      t, trace := Started(t), Trace(trace.events + [Start], trace.states + [Started(t)]);
    }
  }

  /** The clock moves to the next end, and one of the lookups that end then is collected. */
  method CollectNext<T>(jobs: seq<Job<T>>, limit: nat, s: Sched, ghost before: Trace)
    returns (i: nat, t: Sched, ghost trace: Trace)
    requires Inv(jobs, limit, s) && !CanStart(jobs, limit, s) && s.running != {}
    requires Reaches(jobs, limit, before, s)
    ensures Reaches(jobs, limit, trace, t)
    ensures Inv(jobs, limit, t) && i < |jobs| && t.finished == s.finished + [i]
    ensures StepsLeft(jobs, t) < StepsLeft(jobs, s)
  {
    ghost var _ := EarliestEnd(jobs, s, s.running);
    i :| i in s.running && forall j :: j in s.running ==> EndOf(jobs, s, i) <= EndOf(jobs, s, j);
    t, trace := s, before;
    if t.now < EndOf(jobs, s, i) {
      var time := EndOf(jobs, s, i);
      AdvanceKeepsInv(jobs, limit, t, time);
      OneMoreStep(jobs, limit, trace, t, Advance(time), t.(now := time));
      t, trace := t.(now := time), Trace(trace.events + [Advance(time)], trace.states + [t.(now := time)]);
    }
    FinishKeepsInv(jobs, limit, t, i);
    OneMoreStep(jobs, limit, trace, t, Finish(i), Finished(t, i));
    t, trace := Finished(t, i), Trace(trace.events + [Finish(i)], trace.states + [Finished(t, i)]);
  }

  /** The final sort by index, and the outputs without their indices. */
  method Reorder<T(!new)>(jobs: seq<Job<T>>, ghost finished: seq<nat>, outputs: seq<(nat, T)>) returns (results: seq<T>)
    requires Collected(jobs, finished, outputs)
    requires forall k, l :: 0 <= k < l < |finished| ==> finished[k] != finished[l]
    requires forall i :: 0 <= i < |jobs| ==> i in finished
    ensures results == Map(jobs, OutputOf())
  {
    SortedByIndex(jobs, finished, outputs);
    var sorted := Sort(outputs, ByIndex());
    results := [];
    for k := 0 to |sorted|
      invariant |results| == k && forall l :: 0 <= l < k ==> results[l] == jobs[l].output
    {
      results := results + [sorted[k].1];
    }
  }

  /**
    `in_order_bounded`. Among the lookups that end first, any one is collected next. What the
    code does is a schedule that collects every item, and `elapsed` is the time of the last one.
  */
  method InOrderBounded<T(!new)>(jobs: seq<Job<T>>, limit: nat)
    returns (results: seq<T>, elapsed: nat, ghost trace: Trace)
    requires limit >= 1
    ensures results == Map(jobs, OutputOf())
    ensures limit * elapsed <= Total(jobs) + (limit - 1) * Longest(jobs)
    ensures IsSchedule(jobs, limit, trace.events, trace.states)
    ensures var last := trace.states[|trace.events|]; last.now == elapsed && |last.finished| == |jobs|
  {
    var s := IDLE;
    var outputs: seq<(nat, T)> := [];
    trace := Trace([], [IDLE]);
    while |s.started| < |jobs| || s.running != {}
      invariant Inv(jobs, limit, s) && Reaches(jobs, limit, trace, s)
      invariant Collected(jobs, s.finished, outputs)
      decreases StepsLeft(jobs, s)
    {
      s, trace := Fill(jobs, limit, s, trace);
      var i;
      i, s, trace := CollectNext(jobs, limit, s, trace);
      outputs := outputs + [(i, jobs[i].output)];
    }
    BoundOfInv(jobs, limit, s);
    AllFinished(s.finished, |jobs|);
    results := Reorder(jobs, s.finished, outputs);
    elapsed := s.now;
  }

  /** Distinct items below `n` that cover all of them are `n` many. */
  lemma AllFinished(finished: seq<nat>, n: nat)
    requires forall k :: 0 <= k < |finished| ==> finished[k] < n
    requires forall k, l :: 0 <= k < l < |finished| ==> finished[k] != finished[l]
    requires forall i :: 0 <= i < n ==> i in finished
    ensures |finished| == n
  {
    CoversCount(finished, n);
    DistinctCount(finished, n);
  }

  lemma {:induction false} DistinctCount(finished: seq<nat>, n: nat)
    requires forall k :: 0 <= k < |finished| ==> finished[k] < n
    requires forall k, l :: 0 <= k < l < |finished| ==> finished[k] != finished[l]
    ensures |finished| <= n
    decreases n
  {
    if finished != [] {
      assert finished[0] < n;
      if n - 1 in finished {
        var k :| 0 <= k < |finished| && finished[k] == n - 1;
        DistinctCount(finished[..k] + finished[k + 1..], n - 1);
      } else {
        DistinctCount(finished, n - 1);
      }
    }
  }

  function Indexed<T>(jobs: seq<Job<T>>): seq<(nat, T)> {
    seq(|jobs|, i requires 0 <= i < |jobs| => (i, jobs[i].output))
  }

  /** With distinct indices, a rank has one element or none. */
  lemma {:induction false} FilterByIndex<T(!new)>(s: seq<(nat, T)>, x: (nat, T))
    requires forall k, l :: 0 <= k < l < |s| ==> s[k].0 != s[l].0
    ensures (forall k :: 0 <= k < |s| ==> s[k].0 != x.0) ==> Filter(s, SameRank(ByIndex(), x)) == []
    ensures forall k :: 0 <= k < |s| && s[k].0 == x.0 ==> Filter(s, SameRank(ByIndex(), x)) == [s[k]]
  {
    if s != [] {
      FilterByIndex(s[1..], x);
      FilterHead(s, SameRank(ByIndex(), x));
      forall k | 0 <= k < |s| && s[k].0 == x.0
        ensures Filter(s, SameRank(ByIndex(), x)) == [s[k]]
      {
        if k > 0 {
          assert s[1..][k - 1] == s[k] && s[0].0 != s[k].0;
        } else {
          assert forall l :: 0 <= l < |s[1..]| ==> s[1..][l] == s[l + 1];
        }
      }
    }
  }

  /** Sorting the collected outputs by index gives the output of each item at its own place. */
  lemma SortedByIndex<T(!new)>(jobs: seq<Job<T>>, finished: seq<nat>, outputs: seq<(nat, T)>)
    requires Collected(jobs, finished, outputs)
    requires forall k, l :: 0 <= k < l < |finished| ==> finished[k] != finished[l]
    requires forall i :: 0 <= i < |jobs| ==> i in finished
    ensures Sort(outputs, ByIndex()) == Indexed(jobs)
  {
    var leq: ((nat, T), (nat, T)) -> bool := ByIndex();
    forall x: (nat, T)
      ensures Filter(Indexed(jobs), SameRank(leq, x)) == Filter(outputs, SameRank(leq, x))
    {
      FilterByIndex(outputs, x);
      FilterByIndex(Indexed(jobs), x);
      if x.0 < |jobs| {
        assert x.0 in finished;
        var k :| 0 <= k < |finished| && finished[k] == x.0;
        assert outputs[k].0 == x.0 && Indexed(jobs)[x.0] == outputs[k];
      }
    }
    SortIsTheStableSort(Indexed(jobs), outputs, leq);
  }
}
