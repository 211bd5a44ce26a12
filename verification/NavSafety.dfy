/** What any sequence of queue operations and updates keeps, for every planner that tags its paths. */
module NavSafety {
  import opened Grids
  import opened Angles
  import opened NavModel
  import opened NavSteps

  /** A changed queue or path is marked for publication. */
  predicate Marked(before: Nav, after: Nav) {
    (after.queue != before.queue ==> after.targetsDirty) && (after.path != before.path ==> after.pathDirty)
  }

  lemma QueueOperationsMark(n: Nav, targets: seq<Target>)
    ensures Marked(n, PushTargets(n, targets)) && Marked(n, PopTarget(n)) && Marked(n, ClearTargets(n))
      && Marked(n, Reset(n))
  {
  }

  lemma UpdateMarks(c: Config, s: System, t: Tick)
    requires c.Usable() && Inv(c, s.nav)
    ensures Marked(s.nav, Update(c, s, t).0.nav)
  {
    hide Steer, Apart, HeadingReached, PopTarget, PositionReached;
    QueueOperationsMark(s.nav, []);
  }

  /** Failure is final: neither new targets nor updates lead out of it. */
  lemma FailedStays(c: Config, s: System, t: Tick, targets: seq<Target>)
    requires c.Usable() && Inv(c, s.nav) && s.nav.status == Failed
    ensures PushTargets(s.nav, targets).status == Failed && Update(c, s, t) == (s, STOP)
  {
  }

  // ----- runs -----

  datatype Event = Push(targets: seq<Target>) | Pop | Clear | ResetAll | Step(tick: Tick)

  /**
   A system with its history: targets pushed and completed since the queue was last wiped, how often the planner was
   asked for the target now in front, the attempts that were already on the counter when it got there, and where the
   robot was at the navigating updates since the path was set.
   */
  datatype History = History(system: System, pushed: seq<Target>, done: seq<Target>, plans: nat, carried: nat,
                             places: seq<Point>)

  ghost predicate Legal(c: Config, e: Event) {
    e.Step? ==> Tagged(e.tick)
  }

  function Next(c: Config, h: History, e: Event): History
    requires c.Usable()
  {
    var nav := h.system.nav;
    match e
    case Push(targets) =>
      var h' := if nav.queue == [] then h.(plans := 0, carried := nav.replans) else h;
      h'.(system := h.system.(nav := PushTargets(nav, targets)), pushed := h.pushed + targets)
    case Pop => Dropped(h, h.system.(nav := PopTarget(nav)))
    case Clear => History(h.system.(nav := ClearTargets(nav)), [], [], 0, 0, [])
    case ResetAll => History(h.system.(nav := Reset(nav)), [], [], 0, 0, [])
    case Step(t) =>
      var s := Update(c, h.system, t).0;
      if s.nav.queue != nav.queue then Dropped(h, s)
      else if AsksPlanner(c, h.system, t) then h.(system := s, plans := h.plans + 1, places := [])
      else h.(system := s, places := if nav.status == Navigating then h.places + [t.pose.At()] else h.places)
  }

  /** The front target, if there was one, is done with. */
  function Dropped(h: History, s: System): History {
    var front := if h.system.nav.queue == [] then [] else [h.system.nav.queue[0]];
    History(s, h.pushed, h.done + front, 0, s.nav.replans, [])
  }

  /**
   Planner calls for the front target and the attempts it inherited never outrun the counter. The first target since
   the queue was wiped inherits nothing.
   */
  ghost predicate PlansWithin(c: Config, h: History) {
    var n := h.system.nav;
    && h.carried <= n.replans && h.plans + h.carried <= c.maxReplans
    && (n.status == PlanningPath ==> h.plans + h.carried <= n.replans)
    && (OnPath(n) ==> h.plans + h.carried <= n.replans + 1)
    && (h.done == [] ==> h.carried == 0 && (n.queue == [] ==> n.replans == 0))
  }

  /** Targets are served in the order they were pushed: those done, followed by those queued, are those pushed. */
  ghost predicate InOrder(h: History) {
    h.done + h.system.nav.queue == h.pushed
  }

  /** Every waypoint the robot has passed on its path was once within the threshold. */
  ghost predicate Visited(c: Config, h: History) {
    var n := h.system.nav;
    OnPath(n) && n.path.Some? && n.index < |n.path.value.waypoints| ==>
      forall i :: 0 <= i < n.index ==> SomeNear(c, h.places, n.path.value.waypoints[i])
  }

  ghost predicate SomeNear(c: Config, places: seq<Point>, waypoint: Point) {
    exists k :: 0 <= k < |places| && Apart(c, places[k], waypoint) < c.waypointThreshold
  }

  lemma NearAfter(c: Config, places: seq<Point>, place: Point, waypoint: Point)
    ensures SomeNear(c, places, waypoint) ==> SomeNear(c, places + [place], waypoint)
    ensures Apart(c, place, waypoint) < c.waypointThreshold ==> SomeNear(c, places + [place], waypoint)
  {
    hide Apart;
    assert (places + [place])[|places|] == place;
    if k :| 0 <= k < |places| && Apart(c, places[k], waypoint) < c.waypointThreshold {
      assert (places + [place])[k] == places[k];
    }
  }

  ghost predicate HistoryInv(c: Config, h: History) {
    Inv(c, h.system.nav) && PlansWithin(c, h) && InOrder(h) && Visited(c, h)
  }

  /** An update moves the index past a waypoint only where the robot is within its threshold. */
  lemma UpdateVisits(c: Config, h: History, t: Tick)
    requires c.Usable() && Tagged(t) && Inv(c, h.system.nav) && Visited(c, h)
    ensures Visited(c, Next(c, h, Step(t)))
  {
    hide Tagged, Update, Steer, Apart, SomeNear, HeadingReached, NormalizeAngle;
    UpdateKeepsInv(c, h.system, t);
    var before, after := h.system.nav, Next(c, h, Step(t)).system.nav;
    if before.status == Navigating && OnPath(after) {
      forall i | 0 <= i < after.index
        ensures SomeNear(c, h.places + [t.pose.At()], after.path.value.waypoints[i])
      {
        NearAfter(c, h.places, t.pose.At(), after.path.value.waypoints[i]);
      }
    }
  }

  /** An update leaves the queue alone or drops the front target; the count starts over only if another one follows. */
  lemma UpdateQueue(c: Config, s: System, t: Tick)
    requires c.Usable() && Inv(c, s.nav)
    ensures var n := Update(c, s, t).0.nav;
      n.queue == s.nav.queue
      || (s.nav.queue != [] && n.queue == s.nav.queue[1..] && n.replans == if n.queue != [] then 0 else s.nav.replans)
  {
    hide Steer, Apart, HeadingReached, HandleNavigating, HandleRotating, Arriving, AtWaypoint, Progressing;
    if s.nav.status == Navigating {
      NavigatingKeepsInv(c, s, t);
    } else if s.nav.status == RotatingToHeading {
      RotatingKeepsInv(c, s, t);
    }
  }

  /** An update that keeps the front target: how its status, replan attempts and planner calls move together. */
  lemma UpdateAttempts(c: Config, s: System, t: Tick)
    requires c.Usable() && Inv(c, s.nav) && Update(c, s, t).0.nav.queue == s.nav.queue
    ensures var n := Update(c, s, t).0.nav;
      && s.nav.replans <= n.replans && (s.nav.queue == [] ==> n == s.nav)
      && (AsksPlanner(c, s, t) ==>
            && s.nav.status == PlanningPath && s.nav.replans < c.maxReplans
            && n.replans == s.nav.replans && (OnPath(n) || n.status == Failed))
      && (!AsksPlanner(c, s, t) && n.status == PlanningPath ==> OnPath(s.nav) && n.replans == s.nav.replans + 1)
      && (!AsksPlanner(c, s, t) && OnPath(n) ==> OnPath(s.nav) && n.replans == s.nav.replans)
  {
    hide Steer, HeadingReached, HandleNavigating, Apart;
    if s.nav.status == Navigating && !t.hazard {
      NavigatingKeepsInv(c, s, t);
    }
  }

  lemma UpdatePlans(c: Config, h: History, t: Tick)
    requires c.Usable() && Tagged(t) && Inv(c, h.system.nav) && PlansWithin(c, h)
    ensures PlansWithin(c, Next(c, h, Step(t)))
  {
    hide Update, AsksPlanner, Tagged;
    UpdateKeepsInv(c, h.system, t);
    if Update(c, h.system, t).0.nav.queue == h.system.nav.queue {
      UpdateAttempts(c, h.system, t);
    } else {
      UpdateQueue(c, h.system, t);
    }
  }

  lemma NextKeepsHistory(c: Config, h: History, e: Event)
    requires c.Usable() && Legal(c, e) && HistoryInv(c, h)
    ensures HistoryInv(c, Next(c, h, e))
  {
    hide Next, Inv, PlansWithin, InOrder, Visited, Tagged;
    if e.Step? {
      UpdateKeepsInv(c, h.system, e.tick);
      StepSystem(c, h, e.tick);
      UpdatePlans(c, h, e.tick);
      UpdateVisits(c, h, e.tick);
    } else {
      QueueKeepsInv(c, h, e);
      QueuePlans(c, h, e);
    }
    NextInOrder(c, h, e);
  }

  lemma StepSystem(c: Config, h: History, t: Tick)
    requires c.Usable()
    ensures Next(c, h, Step(t)).system == Update(c, h.system, t).0
  {
    hide Update;
  }

  lemma QueueKeepsInv(c: Config, h: History, e: Event)
    requires c.Usable() && Inv(c, h.system.nav) && !e.Step?
    ensures Inv(c, Next(c, h, e).system.nav)
  {
    hide Inv;
    QueueOperationsKeepInv(c, h.system.nav, if e.Push? then e.targets else []);
  }

  lemma NextInOrder(c: Config, h: History, e: Event)
    requires c.Usable() && Inv(c, h.system.nav) && InOrder(h)
    ensures InOrder(Next(c, h, e))
  {
    hide Update, Inv;
    match e {
      case Push(targets) =>
        assert h.done + (h.system.nav.queue + targets) == h.pushed + targets;
      case Pop =>
        DroppedInOrder(h, h.system.(nav := PopTarget(h.system.nav)));
      case Step(t) =>
        UpdateQueue(c, h.system, t);
        DroppedInOrder(h, Update(c, h.system, t).0);
      case _ =>
    }
  }

  lemma QueuePlans(c: Config, h: History, e: Event)
    requires c.Usable() && Inv(c, h.system.nav) && PlansWithin(c, h) && Visited(c, h) && !e.Step?
    ensures PlansWithin(c, Next(c, h, e)) && Visited(c, Next(c, h, e))
  {
    hide SomeNear;
  }

  lemma DroppedInOrder(h: History, s: System)
    requires InOrder(h)
    ensures s.nav.queue == (if h.system.nav.queue == [] then [] else h.system.nav.queue[1..]) ==>
      InOrder(Dropped(h, s))
  {
    if h.system.nav.queue != [] {
      assert h.done + h.system.nav.queue == (h.done + [h.system.nav.queue[0]]) + h.system.nav.queue[1..];
    }
  }

  ghost function After(c: Config, h: History, events: seq<Event>): (r: History)
    requires c.Usable() && HistoryInv(c, h) && forall i :: 0 <= i < |events| ==> Legal(c, events[i])
    ensures HistoryInv(c, r)
    decreases |events|
  {
    hide HistoryInv, Next;
    if events == [] then h
    else
      NextKeepsHistory(c, After(c, h, events[..|events| - 1]), events[|events| - 1]);
      Next(c, After(c, h, events[..|events| - 1]), events[|events| - 1])
  }

  function Beginning(created: real): History {
    History(System(EMPTY, None, created), [], [], 0, 0, [])
  }

  /**
   From an empty system, after any events: the invariant, first-come first-served, planner calls for the target in
   front limited to the attempts it did not inherit, and no waypoint of its path skipped.
   */
  lemma EveryRun(c: Config, created: real, events: seq<Event>)
    requires c.Usable() && forall i :: 0 <= i < |events| ==> Legal(c, events[i])
    ensures HistoryInv(c, Beginning(created))
    ensures var h := After(c, Beginning(created), events);
      && Inv(c, h.system.nav)
      && h.plans + h.carried <= c.maxReplans
      && (h.done == [] ==> h.carried == 0)
      && h.done + h.system.nav.queue == h.pushed
      && Visited(c, h)
  {
    hide After, SomeNear;
  }

  // ----- inherited attempts -----

  /** An event that ends the front target. */
  ghost predicate EndsFront(c: Config, h: History, e: Event)
    requires c.Usable()
  {
    |Next(c, h, e).done| > |h.done|
  }

  /**
   When a target ends, the next in the queue starts with a fresh count; with no next, the count stays, and a target
   pushed later inherits it. So nothing is inherited exactly when the target was queued behind another one, or the one
   before it needed no replan.
   */
  lemma InheritedExactly(c: Config, h: History, e: Event, targets: seq<Target>)
    requires c.Usable() && HistoryInv(c, h) && EndsFront(c, h, e)
    ensures var h' := Next(c, h, e);
      h'.carried == (if h'.system.nav.queue != [] then 0 else h.system.nav.replans)
    ensures var h' := Next(c, h, e);
      h'.system.nav.queue == [] ==> Next(c, h', Push(targets)).carried == h.system.nav.replans
    ensures Next(c, h, e).carried == 0 <==> Next(c, h, e).system.nav.queue != [] || h.system.nav.replans == 0
  {
    hide Update;
    if e.Step? {
      UpdateQueue(c, h.system, e.tick);
    }
  }

  /** One attempt per target, and an escape that is over at once. */
  const ONE_ATTEMPT := Config(
    0.1, 0.1, 1.0, 1.0, 1.0, 1.0, 10.0, 0.1, 1, 0.0, -0.1, (x: real, y: real) => 0.0, (y: real, x: real) => 0.0)

  /** An update with a map and a planner that always finds a path. */
  function Round(hazard: bool): Event {
    Step(Tick(0.0, Pose(0.0, 0.0, 0.0), true, hazard, (t: Target) => Planned(Route([t.position], t.id))))
  }

  /** Plan for `a`, meet a hazard, escape, give up, drop `a`, push `b`, update. */
  function Inheriting(a: Target, b: Target): seq<Event> {
    [Push([a]), Round(false), Round(true), Round(false), Round(false), Pop, Push([b]), Round(false)]
  }

  /** The second target fails without the planner ever being asked for it. */
  lemma NeverPlanned(a: Target, b: Target)
    ensures forall i :: 0 <= i < |Inheriting(a, b)| ==> Legal(ONE_ATTEMPT, Inheriting(a, b)[i])
    ensures var h := After(ONE_ATTEMPT, Beginning(0.0), Inheriting(a, b));
      h.system.nav.status == Failed && h.system.nav.queue == [b] && h.plans == 0 && h.carried == 1
  {
    hide Next, HistoryInv;
    var h, events := Beginning(0.0), Inheriting(a, b);
    EveryRun(ONE_ATTEMPT, 0.0, []);
    assert events[..0] == [];
    for k := 0 to 8
      invariant After(ONE_ATTEMPT, h, events[..k]) == Replay(events, k)
    {
      AfterStep(ONE_ATTEMPT, h, events, k);
    }
    assert events[..8] == events;
    FirstGivesUp(a, b);
    SecondGivesUp(a, b);
  }

  /** The first `k` events, one after the other. */
  function Replay(events: seq<Event>, k: nat): History
    requires k <= |events|
  {
    if k == 0 then Beginning(0.0) else Next(ONE_ATTEMPT, Replay(events, k - 1), events[k - 1])
  }

  lemma FirstPlanned(a: Target, b: Target)
    ensures var n := Replay(Inheriting(a, b), 2).system.nav;
      n.status == Navigating && n.queue == [a] && n.replans == 0
  {
    hide Steer, HandleNavigating, HandleRotating, HandleEscaping, Dropped, PopTarget, ClearTargets;
    var events := Inheriting(a, b);
    assert Replay(events, 0) == Beginning(0.0) && [] + [a] == [a];
    var n := Replay(events, 1).system.nav;
    assert n.status == PlanningPath && n.queue == [a] && n.replans == 0;
  }

  lemma FirstGivesUp(a: Target, b: Target)
    ensures var n := Replay(Inheriting(a, b), 5).system.nav;
      n.status == Failed && n.queue == [a] && n.replans == 1
  {
    hide Steer, HandleNavigating, HandleRotating;
    FirstPlanned(a, b);
    var events := Inheriting(a, b);
    var n3, n4 := Replay(events, 3).system.nav, Replay(events, 4).system.nav;
    assert n3.status == Escaping && n3.queue == [a] && n3.escapeStart == Some(0.0) && n3.replans == 0;
    assert n4.status == PlanningPath && n4.queue == [a] && n4.replans == 1;
  }

  lemma SecondGivesUp(a: Target, b: Target)
    requires var n := Replay(Inheriting(a, b), 5).system.nav;
      n.status == Failed && n.queue == [a] && n.replans == 1
    ensures var h := Replay(Inheriting(a, b), 8);
      h.system.nav.status == Failed && h.system.nav.queue == [b] && h.plans == 0 && h.carried == 1
  {
    var events := Inheriting(a, b);
    hide Steer, HandleNavigating, HandleRotating;
    assert Replay(events, 6).system.nav.queue == [] && Replay(events, 6).system.nav.replans == 1;
    assert Replay(events, 7).system.nav.status == PlanningPath && Replay(events, 7).carried == 1;
  }

  /** One event more. */
  lemma AfterStep(c: Config, h: History, events: seq<Event>, k: nat)
    requires c.Usable() && HistoryInv(c, h) && k < |events| && forall i :: 0 <= i < |events| ==> Legal(c, events[i])
    ensures After(c, h, events[..k + 1]) == Next(c, After(c, h, events[..k]), events[k])
  {
    hide HistoryInv, Next;
    assert events[..k + 1][..k] == events[..k];
  }
}
