/**
  The prefetch of the other tabs (web/src/modules/prefetchRunner.ts, web/src/modules/prefetchTabs.ts).

  Prefetch loops of earlier and later routes overlap, and between two steps of a loop views
  open and close, queries start and settle, and the user signs out. Each event below is one
  piece of code that runs without a pause; a run is any order of events.
*/
module Prefetch {
  import opened Collections

  datatype Tab = Upcoming | Discounted | Monthly | Wishlist | Purchased

  const PREFETCH_ORDER: seq<Tab> := [Upcoming, Discounted, Monthly, Wishlist, Purchased]

  predicate IsSignedInTab(tab: Tab) {
    tab == Wishlist || tab == Purchased
  }

  datatype Access = Unknown | Denied

  predicate MayFetch(covered: set<Tab>, access: Access, tab: Tab) {
    tab !in covered && !(access == Denied && IsSignedInTab(tab))
  }

  /** The first tab of the order, from place `i`, that is not covered and allowed. */
  function NextTab(covered: set<Tab>, access: Access, i: nat): (r: Option<Tab>)
    requires i <= |PREFETCH_ORDER|
    ensures r.None? ==> forall k :: i <= k < |PREFETCH_ORDER| ==> !MayFetch(covered, access, PREFETCH_ORDER[k])
    ensures r.Some? ==> exists k ::
              && i <= k < |PREFETCH_ORDER| && PREFETCH_ORDER[k] == r.value && MayFetch(covered, access, r.value)
              && forall j :: i <= j < k ==> !MayFetch(covered, access, PREFETCH_ORDER[j])
    decreases |PREFETCH_ORDER| - i
  {
    if i == |PREFETCH_ORDER| then None
    else if MayFetch(covered, access, PREFETCH_ORDER[i]) then Some(PREFETCH_ORDER[i])
    else NextTab(covered, access, i + 1)
  }

  // ----- The world -----

  /** A query of the client: one of the tabs, or any other, such as NEW or a search. */
  datatype Query = TabQuery(tab: Tab) | OtherQuery(name: string)

  datatype Outcome = Finished | Interrupted | Failed(unauthorized: bool)

  /** Where a loop stands. `Fetching` has the outcome once its request has settled. */
  datatype Place = Top | Waiting | Resumed | Fetching(tab: Tab, outcome: Option<Outcome>) | Ended

  /** `view` is the query of the loop's own route, if the route has one. */
  datatype Loop = Loop(view: Option<Query>, place: Place, aborted: bool)

  datatype World = World(fetching: set<Query>, settled: set<Query>, succeeded: set<Query>, active: set<Query>,
                         halted: bool, access: Access, loops: map<nat, Loop>)

  datatype Event =
    | Mount(loop: nat, view: Option<Query>)
    | CheckTop(loop: nat)
    | Wake(loop: nat)
    | Decide(loop: nat)
    | Resume(loop: nat)
    | Abort(loop: nat)
    | ViewFetches(query: Query)
    | Settles(query: Query, outcome: Outcome)
    | Views(active: set<Query>)
    | Discards(query: Query)
    | SignOut

  ghost predicate Init(w: World) {
    w.fetching == {} && !w.halted && w.access == Unknown && w.loops == map[]
  }

  /** Nothing fetches, and the open view, if the route has one, has settled. */
  predicate IsReady(w: World, view: Option<Query>) {
    w.fetching == {} && (view.Some? ==> view.value in w.settled)
  }

  /** A tab is covered when its last settled request succeeded, or an open view fetches it. */
  function Covered(w: World): set<Tab> {
    set tab | tab in PREFETCH_ORDER && (TabQuery(tab) in w.succeeded || TabQuery(tab) in w.active)
  }

  function At(w: World, loop: nat, place: Place): World
    requires loop in w.loops
  {
    w.(loops := w.loops[loop := w.loops[loop].(place := place)])
  }

  predicate Stands(w: World, loop: nat, place: Place) {
    loop in w.loops && w.loops[loop].place == place
  }

  /** The loop after `untilReady`: the second check, the choice of the tab, and the start of its request. */
  function Decided(w: World, loop: nat): World
    requires loop in w.loops
  {
    if !IsReady(w, w.loops[loop].view) then At(w, loop, Top)
    else match NextTab(Covered(w), w.access, 0)
         case None => At(w, loop, Place.Ended)
         case Some(tab) =>
           At(w, loop, Fetching(tab, None)).(fetching := w.fetching + {TabQuery(tab)})
  }

  /** The loop after its request: a 401 of a signed-in tab denies access, any other failure halts. */
  function AfterOutcome(w: World, loop: nat, tab: Tab, outcome: Outcome): World
    requires loop in w.loops
  {
    var next := At(w, loop, Top);
    if outcome.Failed? then
      if IsSignedInTab(tab) && outcome.unauthorized then next.(access := Denied) else next.(halted := true)
    else next
  }

  /** A settled request gives its outcome to each loop that waits for it. */
  function Delivered(loops: map<nat, Loop>, query: Query, outcome: Outcome): map<nat, Loop> {
    map l | l in loops ::
      if loops[l].place.Fetching? && loops[l].place.outcome.None? && TabQuery(loops[l].place.tab) == query
      then loops[l].(place := Fetching(loops[l].place.tab, Some(outcome)))
      else loops[l]
  }

  ghost predicate Next(w: World, e: Event, w': World) {
    match e
    case Mount(l, view) => l !in w.loops && w' == w.(loops := w.loops[l := Loop(view, Top, false)])
    case CheckTop(l) =>
      && Stands(w, l, Top)
      && w' == if w.loops[l].aborted || w.halted then At(w, l, Place.Ended)
               else if IsReady(w, w.loops[l].view) then At(w, l, Resumed)
               else At(w, l, Waiting)
    case Wake(l) => Stands(w, l, Waiting) && IsReady(w, w.loops[l].view) && w' == At(w, l, Resumed)
    case Decide(l) => Stands(w, l, Resumed) && w' == Decided(w, l)
    case Resume(l) =>
      && l in w.loops && w.loops[l].place.Fetching? && w.loops[l].place.outcome.Some?
      && w' == AfterOutcome(w, l, w.loops[l].place.tab, w.loops[l].place.outcome.value)
    case Abort(l) =>
      && l in w.loops
      && var aborted := w.(loops := w.loops[l := w.loops[l].(aborted := true)]);
         w' == if Stands(w, l, Waiting) then At(aborted, l, Place.Ended) else aborted
    case ViewFetches(q) => w' == w.(fetching := w.fetching + {q})
    case Settles(q, outcome) =>
      && q in w.fetching
      && w' == w.(fetching := w.fetching - {q},
                  settled := if outcome.Interrupted? then w.settled else w.settled + {q},
                  succeeded := match outcome
                               case Finished => w.succeeded + {q}
                               case Interrupted => w.succeeded
                               case Failed(_) => w.succeeded - {q},
                  loops := Delivered(w.loops, q, outcome))
    case Views(active) => w' == w.(active := active)
    case Discards(q) => q !in w.fetching && w' == w.(settled := w.settled - {q}, succeeded := w.succeeded - {q})
    case SignOut => w' == w.(access := Denied)
  }

  /** The worlds between the events, from any first world on. */
  ghost predicate IsPath(events: seq<Event>, worlds: seq<World>) {
    && |worlds| == |events| + 1
    && forall i :: 0 <= i < |events| ==> Next(worlds[i], events[i], worlds[i + 1])
  }

  ghost predicate IsRun(events: seq<Event>, worlds: seq<World>) {
    IsPath(events, worlds) && Init(worlds[0])
  }

  /** The event starts the prefetch of the tab. */
  ghost predicate StartsPrefetch(w: World, e: Event, w': World, tab: Tab) {
    e.Decide? && Next(w, e, w') && w'.loops[e.loop].place == Fetching(tab, None)
  }

  // ----- The invariant -----

  ghost predicate IsLive(w: World, l: nat) {
    l in w.loops && w.loops[l].place.Fetching? && w.loops[l].place.outcome.None?
  }

  /** The request of a loop is among the fetching queries, and no two loops have one. */
  ghost predicate Inv(w: World) {
    && (forall l :: IsLive(w, l) ==> TabQuery(w.loops[l].place.tab) in w.fetching)
    && (forall l, m :: IsLive(w, l) && IsLive(w, m) ==> l == m)
  }

  lemma DecideKeepsInv(w: World, l: nat, w': World)
    requires Inv(w) && Next(w, Decide(l), w')
    ensures Inv(w')
  {
    assert forall m :: IsLive(w, m) ==> TabQuery(w.loops[m].place.tab) in w.fetching;
    forall m | IsLive(w', m) && m != l
      ensures IsLive(w, m)
    {
    }
    assert !IsLive(w, l);
  }

  lemma NextKeepsInv(w: World, e: Event, w': World)
    requires Inv(w) && Next(w, e, w')
    ensures Inv(w')
  {
    if e.Decide? {
      DecideKeepsInv(w, e.loop, w');
    } else {
      forall m | IsLive(w', m)
        ensures IsLive(w, m) && w'.loops[m].place == w.loops[m].place
        ensures e.Settles? ==> TabQuery(w.loops[m].place.tab) != e.query
      {
      }
    }
  }

  lemma {:induction false} RunsKeepInv(events: seq<Event>, worlds: seq<World>, i: nat)
    requires IsRun(events, worlds) && i < |worlds|
    ensures Inv(worlds[i])
  {
    if i > 0 {
      assert Next(worlds[i - 1], events[i - 1], worlds[i]);
      RunsKeepInv(events, worlds, i - 1);
      NextKeepsInv(worlds[i - 1], events[i - 1], worlds[i]);
    }
  }

  /** No data, no open view that fetches it, and no denied access to a signed-in tab. */
  predicate IsOpen(w: World, tab: Tab) {
    && TabQuery(tab) !in w.succeeded && TabQuery(tab) !in w.active
    && (w.access == Denied ==> tab != Wishlist && tab != Purchased)
  }

  /** The first open tab of UPCOMING, DISCOUNTED, MONTHLY, the wishlist, and the purchases. */
  predicate IsFirstOpen(w: World, tab: Tab) {
    && IsOpen(w, tab)
    && (tab != Upcoming ==> !IsOpen(w, Upcoming))
    && (tab != Upcoming && tab != Discounted ==> !IsOpen(w, Discounted))
    && (tab == Wishlist || tab == Purchased ==> !IsOpen(w, Monthly))
    && (tab == Purchased ==> !IsOpen(w, Wishlist))
  }

  lemma MayFetchIsOpen(w: World)
    ensures forall tab :: MayFetch(Covered(w), w.access, tab) <==> IsOpen(w, tab)
  {
    var order := PREFETCH_ORDER;
    assert order[0] == Upcoming && order[1] == Discounted && order[2] == Monthly && order[3] == Wishlist
        && order[4] == Purchased;
    forall tab: Tab
      ensures tab in order
    {
      match tab case Upcoming => case Discounted => case Monthly => case Wishlist => case Purchased =>
    }
  }

  /**
    A loop at its choice starts a tab exactly when nothing fetches, its own view has settled,
    and the tab is the first open one.
  */
  lemma StartsAreQuietAndInOrder(w: World, l: nat, w': World, tab: Tab)
    requires Next(w, Decide(l), w')
    ensures StartsPrefetch(w, Decide(l), w', tab)
       <==> && w.fetching == {} && (w.loops[l].view.Some? ==> w.loops[l].view.value in w.settled)
            && IsFirstOpen(w, tab)
  {
    MayFetchIsOpen(w);
    var order := PREFETCH_ORDER;
    assert order[0] == Upcoming && order[1] == Discounted && order[2] == Monthly && order[3] == Wishlist
        && order[4] == Purchased;
  }

  // ----- Main results -----

  /** In every run at most one prefetch request is in flight. */
  lemma OnePrefetchAtATime(events: seq<Event>, worlds: seq<World>, i: nat)
    requires IsRun(events, worlds) && i < |worlds|
    ensures forall l, m :: IsLive(worlds[i], l) && IsLive(worlds[i], m) ==> l == m
  {
    RunsKeepInv(events, worlds, i);
  }

  /** A loop learns that its request for the wishlist or the purchases was answered with a 401. */
  predicate LearnsOfRejection(w: World, e: Event) {
    && e.Resume? && e.loop in w.loops
    && w.loops[e.loop].place in [Fetching(Wishlist, Some(Failed(true))), Fetching(Purchased, Some(Failed(true)))]
  }

  /** A loop learns of any other failure of its request. */
  predicate LearnsOfFailure(w: World, e: Event) {
    && e.Resume? && e.loop in w.loops && w.loops[e.loop].place.Fetching?
    && w.loops[e.loop].place.outcome in [Some(Failed(true)), Some(Failed(false))]
    && !LearnsOfRejection(w, e)
  }

  lemma StepOfAccess(w: World, e: Event, w': World)
    requires Next(w, e, w')
    ensures w'.access == Denied <==> w.access == Denied || e == SignOut || LearnsOfRejection(w, e)
    ensures w'.halted <==> w.halted || LearnsOfFailure(w, e)
  {
  }

  /**
    In every run access is denied exactly after a sign-out or a 401 of a signed-in tab, and the
    session is halted exactly after any other failure.
  */
  lemma {:induction false} DeniedAndHaltedExactly(events: seq<Event>, worlds: seq<World>, j: nat)
    requires IsRun(events, worlds) && j < |worlds|
    ensures worlds[j].access == Denied
       <==> exists i :: 0 <= i < j && (events[i] == SignOut || LearnsOfRejection(worlds[i], events[i]))
    ensures worlds[j].halted <==> exists i :: 0 <= i < j && LearnsOfFailure(worlds[i], events[i])
  {
    if j > 0 {
      DeniedAndHaltedExactly(events, worlds, j - 1);
      assert Next(worlds[j - 1], events[j - 1], worlds[j]);
      StepOfAccess(worlds[j - 1], events[j - 1], worlds[j]);
    }
  }

  /** After a sign-out, or after a 401 of a signed-in tab, no signed-in tab is started again. */
  lemma NoSignedInStartAfterDenial(events: seq<Event>, worlds: seq<World>, i: nat, j: nat, tab: Tab)
    requires IsRun(events, worlds) && i < j < |events|
    requires events[i] == SignOut || LearnsOfRejection(worlds[i], events[i])
    requires StartsPrefetch(worlds[j], events[j], worlds[j + 1], tab)
    ensures tab != Wishlist && tab != Purchased
  {
    DeniedAndHaltedExactly(events, worlds, j);
    StartsAreQuietAndInOrder(worlds[j], events[j].loop, worlds[j + 1], tab);
  }

  // ----- A tab is not prefetched twice -----

  /** The event ends a success of the query. */
  predicate Forgets(e: Event, q: Query) {
    (e.Discards? && e.query == q) || (e.Settles? && e.query == q && e.outcome.Failed?)
  }

  lemma {:induction false} SuccessStays(events: seq<Event>, worlds: seq<World>, q: Query, i: nat, j: nat)
    requires IsRun(events, worlds) && i <= j < |worlds| && q in worlds[i].succeeded
    requires forall k :: i <= k < j ==> !Forgets(events[k], q)
    ensures q in worlds[j].succeeded
  {
    if i < j {
      assert Next(worlds[j - 1], events[j - 1], worlds[j]);
      SuccessStays(events, worlds, q, i, j - 1);
    }
  }

  /** After a successful request for a tab, by a prefetch or by a view, no loop starts it again before its data goes. */
  lemma NoStartAfterSuccess(events: seq<Event>, worlds: seq<World>, i: nat, j: nat, tab: Tab)
    requires IsRun(events, worlds) && i < j < |events|
    requires events[i] == Settles(TabQuery(tab), Finished)
    requires StartsPrefetch(worlds[j], events[j], worlds[j + 1], tab)
    ensures exists k :: i < k < j && Forgets(events[k], TabQuery(tab))
  {
    if forall k :: i + 1 <= k < j ==> !Forgets(events[k], TabQuery(tab)) {
      assert Next(worlds[i], events[i], worlds[i + 1]);
      SuccessStays(events, worlds, TabQuery(tab), i + 1, j);
      StartsAreQuietAndInOrder(worlds[j], events[j].loop, worlds[j + 1], tab);
      assert false;
    }
  }

  // ----- A halt -----

  /** The loop has passed the check at its top, and has not chosen a tab yet. */
  predicate StandsBy(w: World, l: nat) {
    Stands(w, l, Waiting) || Stands(w, l, Resumed)
  }

  lemma {:induction false} HaltStays(events: seq<Event>, worlds: seq<World>, i: nat, j: nat)
    requires IsPath(events, worlds) && i <= j < |worlds| && worlds[i].halted
    ensures worlds[j].halted
  {
    if i < j {
      assert Next(worlds[j - 1], events[j - 1], worlds[j]);
      HaltStays(events, worlds, i, j - 1);
    }
  }

  /** After a halt no loop passes the check at its top any more. */
  lemma HaltedStep(w: World, e: Event, w': World, l: nat)
    requires w.halted && Next(w, e, w') && !StandsBy(w, l)
    ensures !StandsBy(w', l)
  {
  }

  lemma {:induction false} NoneComesToStandBy(events: seq<Event>, worlds: seq<World>, i: nat, j: nat, l: nat)
    requires IsPath(events, worlds) && i <= j < |worlds| && worlds[i].halted && !StandsBy(worlds[i], l)
    ensures !StandsBy(worlds[j], l)
  {
    if i < j {
      assert worlds[j - 1].halted && !StandsBy(worlds[j - 1], l) by {
        HaltStays(events, worlds, i, j - 1);
        NoneComesToStandBy(events, worlds, i, j - 1, l);
      }
      HaltedStep(worlds[j - 1], events[j - 1], worlds[j], l);
    }
  }

  lemma StartersStandBy(w: World, e: Event, w': World, tab: Tab)
    requires StartsPrefetch(w, e, w', tab)
    ensures StandsBy(w, e.loop) && !StandsBy(w', e.loop)
  {
  }

  /** A prefetch that starts after a halt comes from a loop that stood by at that moment. */
  lemma StartsAfterHalt(events: seq<Event>, worlds: seq<World>, i: nat, j: nat, tab: Tab)
    requires IsRun(events, worlds) && i <= j < |events| && worlds[i].halted
    requires StartsPrefetch(worlds[j], events[j], worlds[j + 1], tab)
    ensures StandsBy(worlds[i], events[j].loop)
  {
    StartersStandBy(worlds[j], events[j], worlds[j + 1], tab);
    if !StandsBy(worlds[i], events[j].loop) {
      NoneComesToStandBy(events, worlds, i, j, events[j].loop);
    }
  }

  /** Each such loop starts at most one prefetch after the halt. */
  lemma OneStartPerLoopAfterHalt(events: seq<Event>, worlds: seq<World>, i: nat, j: nat, k: nat, tab: Tab, other: Tab)
    requires IsRun(events, worlds) && i <= j < k < |events| && worlds[i].halted
    requires StartsPrefetch(worlds[j], events[j], worlds[j + 1], tab)
    requires StartsPrefetch(worlds[k], events[k], worlds[k + 1], other)
    ensures events[j].loop != events[k].loop
  {
    StartersStandBy(worlds[j], events[j], worlds[j + 1], tab);
    HaltStays(events, worlds, i, j + 1);
    NoneComesToStandBy(events, worlds, j + 1, k, events[j].loop);
    StartersStandBy(worlds[k], events[k], worlds[k + 1], other);
  }

  // ----- What a halt does not stop -----

  const IDLE := World({}, {}, {}, {}, false, Unknown, map[])

  /** Two loops pass the check at their top; the request of the first one fails. */
  const LATE_EVENTS: seq<Event> := [
    Mount(0, None), CheckTop(0), Mount(1, None), CheckTop(1),
    Decide(0), Settles(TabQuery(Upcoming), Failed(false)), Resume(0), Decide(1)]

  function LateWorlds(): (worlds: seq<World>)
    ensures |worlds| == |LATE_EVENTS| + 1
  {
    var top, resumed := Loop(None, Top, false), Loop(None, Resumed, false);
    var fetching := Loop(None, Fetching(Upcoming, None), false);
    var failed := Loop(None, Fetching(Upcoming, Some(Failed(false))), false);
    var q := TabQuery(Upcoming);
    [IDLE,
     IDLE.(loops := map[0 := top]),
     IDLE.(loops := map[0 := resumed]),
     IDLE.(loops := map[0 := resumed, 1 := top]),
     IDLE.(loops := map[0 := resumed, 1 := resumed]),
     IDLE.(loops := map[0 := fetching, 1 := resumed], fetching := {q}),
     IDLE.(loops := map[0 := failed, 1 := resumed], settled := {q}),
     IDLE.(loops := map[0 := top, 1 := resumed], settled := {q}, halted := true),
     IDLE.(loops := map[0 := top, 1 := fetching], settled := {q}, halted := true, fetching := {q})]
  }

  lemma UpcomingIsNext(w: World, l: nat)
    requires l in w.loops && w.loops[l].view == None && w.fetching == {} && w.succeeded == {} && w.active == {}
    ensures Decided(w, l) == At(w, l, Fetching(Upcoming, None)).(fetching := {TabQuery(Upcoming)})
  {
    assert PREFETCH_ORDER[0] == Upcoming;
    assert Covered(w) == {};
  }

  /** A run in which a prefetch starts after the halt. */
  lemma AStartAfterAHalt()
    ensures var worlds := LateWorlds();
            && IsRun(LATE_EVENTS, worlds) && worlds[7].halted
            && StartsPrefetch(worlds[7], LATE_EVENTS[7], worlds[8], Upcoming)
  {
    var worlds := LateWorlds();
    UpcomingIsNext(worlds[4], 0);
    UpcomingIsNext(worlds[7], 1);
    FirstLateSteps();
    LastLateSteps();
  }

  lemma FirstLateSteps()
    ensures var w, e := LateWorlds(), LATE_EVENTS; forall i :: 0 <= i < 4 ==> Next(w[i], e[i], w[i + 1])
  {
  }

  lemma LastLateSteps()
    ensures var w, e := LateWorlds(), LATE_EVENTS; forall i :: 4 <= i < 8 ==> Next(w[i], e[i], w[i + 1])
  {
    var worlds := LateWorlds();
    UpcomingIsNext(worlds[4], 0);
    UpcomingIsNext(worlds[7], 1);
  }

  // ----- When a halt is final -----

  ghost predicate Reaches(w: World, v: World) {
    exists events, worlds :: IsPath(events, worlds) && worlds[0] == w && worlds[|events|] == v
  }

  lemma ReachesItself(w: World)
    ensures Reaches(w, w)
  {
    assert IsPath([], [w]);
  }

  lemma ReachesNext(w: World, v: World, e: Event, u: World)
    requires Reaches(w, v) && Next(v, e, u)
    ensures Reaches(w, u)
  {
    var events, worlds :| IsPath(events, worlds) && worlds[0] == w && worlds[|events|] == v;
    var events', worlds' := events + [e], worlds + [u];
    forall i | 0 <= i < |events'|
      ensures Next(worlds'[i], events'[i], worlds'[i + 1])
    {
      if i < |events| {
        assert Next(worlds[i], events[i], worlds[i + 1]);
      }
    }
    assert IsPath(events', worlds') && worlds'[0] == w && worlds'[|events'|] == u;
  }

  /** Some continuation starts a prefetch. */
  ghost predicate CanStart(w: World) {
    exists v, e, u, tab :: Reaches(w, v) && StartsPrefetch(v, e, u, tab)
  }

  /** Loop `l` stands by with its view, as in `w`. */
  ghost predicate StillStandsBy(w: World, v: World, l: nat) {
    l in w.loops && Reaches(w, v) && StandsBy(v, l) && v.loops[l].view == w.loops[l].view
  }

  lemma {:induction false} SettleAll(w: World, v: World, l: nat) returns (u: World)
    requires StillStandsBy(w, v, l)
    ensures StillStandsBy(w, u, l) && u.fetching == {}
    decreases |v.fetching|
  {
    if v.fetching == {} {
      u := v;
    } else {
      var q :| q in v.fetching;
      var next := v.(fetching := v.fetching - {q}, loops := Delivered(v.loops, q, Interrupted));
      assert Next(v, Settles(q, Interrupted), next);
      ReachesNext(w, v, Settles(q, Interrupted), next);
      u := SettleAll(w, next, l);
    }
  }

  /** The own view of the loop fetches and settles. */
  lemma SettleView(w: World, v: World, l: nat) returns (u: World)
    requires StillStandsBy(w, v, l) && v.fetching == {}
    ensures StillStandsBy(w, u, l) && IsReady(u, w.loops[l].view)
  {
    var view := w.loops[l].view;
    if view.None? {
      u := v;
    } else {
      var q := view.value;
      var during := v.(fetching := {q});
      assert Next(v, ViewFetches(q), during);
      ReachesNext(w, v, ViewFetches(q), during);
      u := during.(fetching := {}, settled := v.settled + {q}, succeeded := v.succeeded + {q},
                   loops := Delivered(v.loops, q, Finished));
      assert during.fetching - {q} == {};
      assert Next(during, Settles(q, Finished), u);
      ReachesNext(w, during, Settles(q, Finished), u);
    }
  }

  /** Only the own view of the loop is open, and a public tab that is not this view has no data. */
  lemma UncoverTab(w: World, v: World, l: nat) returns (u: World, tab: Tab)
    requires StillStandsBy(w, v, l) && IsReady(v, w.loops[l].view)
    ensures StillStandsBy(w, u, l) && IsReady(u, w.loops[l].view)
    ensures tab in PREFETCH_ORDER && MayFetch(Covered(u), u.access, tab)
  {
    var view := w.loops[l].view;
    tab := if view == Some(TabQuery(Upcoming)) then Discounted else Upcoming;
    assert PREFETCH_ORDER[0] == Upcoming && PREFETCH_ORDER[1] == Discounted;
    var alone := v.(active := if view.Some? then {view.value} else {});
    assert Next(v, Views(alone.active), alone);
    ReachesNext(w, v, Views(alone.active), alone);
    var q := TabQuery(tab);
    u := alone.(settled := v.settled - {q}, succeeded := v.succeeded - {q});
    assert Next(alone, Discards(q), u);
    ReachesNext(w, alone, Discards(q), u);
  }

  lemma WakeUp(w: World, v: World, l: nat) returns (u: World)
    requires StillStandsBy(w, v, l) && IsReady(v, w.loops[l].view)
    ensures Reaches(w, u) && u == At(v, l, Resumed)
  {
    u := At(v, l, Resumed);
    if Stands(v, l, Waiting) {
      assert Next(v, Wake(l), u);
      ReachesNext(w, v, Wake(l), u);
    } else {
      assert u.loops == v.loops;
      assert u == v;
    }
  }

  lemma ReadyLoopStarts(v: World, l: nat, tab: Tab)
    requires Stands(v, l, Resumed) && IsReady(v, v.loops[l].view)
    requires tab in PREFETCH_ORDER && MayFetch(Covered(v), v.access, tab)
    ensures NextTab(Covered(v), v.access, 0).Some?
    ensures StartsPrefetch(v, Decide(l), Decided(v, l), NextTab(Covered(v), v.access, 0).value)
  {
    var k :| 0 <= k < |PREFETCH_ORDER| && PREFETCH_ORDER[k] == tab;
    assert MayFetch(Covered(v), v.access, PREFETCH_ORDER[k]);
  }

  lemma ALoopThatStandsByCanStart(w: World, l: nat)
    requires StandsBy(w, l)
    ensures CanStart(w)
  {
    ReachesItself(w);
    var quiet := SettleAll(w, w, l);
    var ready := SettleView(w, quiet, l);
    var uncovered, tab := UncoverTab(w, ready, l);
    var resumed := WakeUp(w, uncovered, l);
    assert Covered(resumed) == Covered(uncovered);
    ReadyLoopStarts(resumed, l, tab);
  }

  /** From a halted world some continuation starts a prefetch if and only if a loop stands by. */
  lemma HaltIsFinal(w: World)
    requires w.halted
    ensures CanStart(w) <==> exists l :: StandsBy(w, l)
  {
    if l :| StandsBy(w, l) {
      ALoopThatStandsByCanStart(w, l);
    }
    if CanStart(w) {
      var v, e, u, tab :| Reaches(w, v) && StartsPrefetch(v, e, u, tab);
      var events, worlds :| IsPath(events, worlds) && worlds[0] == w && worlds[|events|] == v;
      StartersStandBy(v, e, u, tab);
      if !StandsBy(w, e.loop) {
        NoneComesToStandBy(events, worlds, 0, |events|, e.loop);
      }
    }
  }
}
