/**
 * The lifecycle of one drone (src/Drone/drone.ts): target sequencing,
 * dwelling on a target, scoring, destruction and disposal.
 *
 * The per-tick state machine is stated once, as the pure function `Tick` over
 * `DroneState`; the class `Drone` holds the same fields and its methods are
 * proved to change them exactly as the pure functions say.
 */
module DroneLifecycle {
  import opened Wrappers
  import opened Geometry

  /** Tick budget of a fresh drone (max_duration). */
  const DefaultMaxDuration: int := 600
  /** Tick budget once the drone follows the mouse or a manual target. */
  const ManualMaxDuration: int := 100000
  /** Rounded distance up to which a drone stands on its target. */
  const ArrivalRadius: nat := 20
  /** Consecutive ticks on a target that complete it. */
  const DwellTicks: int := 100
  /** Weight of the ticks left in the budget in the completion bonus. */
  const SpeedWeight: real := 0.1
  /** Flat part of the completion bonus. */
  const FlatBonus: real := 200.0

  /** Waypoints of the demo pattern as fractions of the canvas size. */
  const WaypointFractions: seq<(real, real)> :=
    [(0.5, 0.5), (0.3, 0.6), (0.5, 0.8), (0.3, 0.4), (0.2, 0.8),
     (0.5, 0.5), (0.8, 0.2), (0.8, 0.8), (0.2, 0.2)]

  /** The waypoints a drone visits on a canvas of the given size. */
  function Waypoints(width: int, height: int): (ts: seq<Point>)
    ensures |ts| == |WaypointFractions| > 0
  {
    seq(|WaypointFractions|, i requires 0 <= i < |WaypointFractions| =>
      Point((width as real * WaypointFractions[i].0).Floor,
            (height as real * WaypointFractions[i].1).Floor))
  }

  /** Each waypoint is its fraction of the canvas, rounded down. */
  lemma WaypointsOnCanvas(width: int, height: int, i: int)
    requires 0 <= i < |WaypointFractions|
    ensures var p := Waypoints(width, height)[i];
      p.x as real <= width as real * WaypointFractions[i].0 < p.x as real + 1.0 &&
      p.y as real <= height as real * WaypointFractions[i].1 < p.y as real + 1.0
  {
  }

  /** What the outside world reports to a drone on one tick: whether its body
      touches a boundary, and its distance to its target rounded to an integer. */
  datatype TickInput = TickInput(collided: bool, distance: nat)

  /** Every field of a drone that its own operations change. */
  datatype DroneState = DroneState(
    targets: seq<Point>,
    currentTarget: int,
    mouseMode: bool,
    manualTarget: Option<Point>,
    maxDuration: int,
    timer: int,
    targetArrived: int,
    targetArrivedTotal: int,
    score: real,
    fitness: real,
    isDestroyed: bool,
    isDisposed: bool,
    inWorld: bool)
  {
    /** The bounds every reachable drone state keeps. */
    predicate Inv() {
      && |targets| > 0
      && 0 <= currentTarget < |targets|
      && 0 <= targetArrived < DwellTicks
      && 0 <= targetArrivedTotal
      && 0 <= timer <= maxDuration <= ManualMaxDuration
      && (!isDestroyed ==> timer < maxDuration)
      && score >= 0.0
    }

    /** The point the drone steers toward (the `target` getter): the manual
        target if there is one, else the mouse in mouse mode, else the current
        waypoint. */
    function Target(mouse: Point): (p: Point)
      requires manualTarget.Some? || mouseMode || 0 <= currentTarget < |targets|
      ensures manualTarget.Some? ==> p == manualTarget.value
      ensures manualTarget.None? && mouseMode ==> p == mouse
      ensures manualTarget.None? && !mouseMode ==> p == targets[currentTarget]
    {
      if manualTarget.Some? then manualTarget.value
      else if mouseMode then mouse
      else targets[currentTarget]
    }
  }

  /** The state the constructor leaves a drone in. */
  function Initial(targets: seq<Point>): (s: DroneState)
    ensures |targets| > 0 ==> s.Inv()
    ensures !s.isDestroyed && !s.isDisposed && s.inWorld && !s.mouseMode
    ensures s.score == 0.0 && s.timer == 0 && s.currentTarget == 0
    ensures s.maxDuration == DefaultMaxDuration && s.manualTarget.None?
    ensures s.targetArrived == 0 && s.targetArrivedTotal == 0
    ensures s.targets == targets
  {
    DroneState(targets, 0, false, None, DefaultMaxDuration, 0, 0, 0, 0.0, 0.0, false, false, true)
  }

  /** A new drone heads for its first waypoint, wherever the mouse is. */
  lemma InitialTarget(targets: seq<Point>, mouse: Point)
    requires |targets| > 0
    ensures Initial(targets).Target(mouse) == targets[0]
  {
  }

  /** `set_target`: mouse mode on, a budget of `ManualMaxDuration` ticks, and
      `p` as manual target. */
  function Steered(s: DroneState, p: Point): (r: DroneState)
    ensures r.manualTarget == Some(p)
    ensures s.Inv() ==> r.Inv()
    ensures r.mouseMode && r.maxDuration == ManualMaxDuration
    ensures r.score == s.score && r.timer == s.timer && r.currentTarget == s.currentTarget
    ensures r.isDestroyed == s.isDestroyed && r.isDisposed == s.isDisposed && r.inWorld == s.inWorld
  {
    s.(mouseMode := true, maxDuration := ManualMaxDuration, manualTarget := Some(p))
  }

  /** Once steered, the drone flies to the given point wherever the mouse is. */
  lemma SteeredTarget(s: DroneState, p: Point, mouse: Point)
    ensures Steered(s, p).Target(mouse) == p
  {
  }

  /** Reward of one tick at the given rounded distance: 1 / (distance + 1). */
  function Reward(distance: nat): (r: real)
    ensures 0.0 < r <= 1.0
  {
    1.0 / (distance as real + 1.0)
  }

  /** Bonus for completing a waypoint with `timer` ticks spent of the budget. */
  function Bonus(s: DroneState): real {
    (s.maxDuration - s.timer) as real * SpeedWeight + FlatBonus
  }

  /** The tick counts toward dwelling: in range and not in mouse mode. */
  predicate OnTarget(s: DroneState, distance: nat) {
    distance <= ArrivalRadius && !s.mouseMode
  }

  /** The tick is the last of `DwellTicks` consecutive ticks on target (a
      collision on this tick has just reset the dwell count). */
  predicate Completes(s: DroneState, t: TickInput) {
    OnTarget(s, t.distance) && (if t.collided then 0 else s.targetArrived) + 1 == DwellTicks
  }

  /** The tick completes the last waypoint of the sequence. */
  predicate FinishesSequence(s: DroneState, t: TickInput) {
    Completes(s, t) && s.currentTarget + 1 == |s.targets|
  }

  /** Arrival step of a tick on target: count the dwell and, on the
      `DwellTicks`-th tick, take the bonus and move to the next waypoint. */
  function Dwell(s: DroneState): DroneState {
    var arrived := s.targetArrived + 1;
    var s1 := if arrived == DwellTicks then NextWaypoint(s) else s.(targetArrived := arrived);
    s1.(targetArrivedTotal := s1.targetArrivedTotal + 1)
  }

  /** Completing a waypoint: the bonus, the next waypoint with fresh
      counters, and destruction after the last one (outside mouse mode). */
  function NextWaypoint(s: DroneState): DroneState {
    var next := s.currentTarget + 1;
    var finished := next == |s.targets| && !s.mouseMode;
    s.(score := s.score + Bonus(s),
       currentTarget := if finished then 0 else next,
       targetArrived := 0,
       timer := 0,
       isDestroyed := s.isDestroyed || finished)
  }

  /** Collision step: a boundary hit destroys the drone and resets its dwell
      count; the body leaves the physics world unless the drone is steered. */
  function Collide(s: DroneState, collided: bool): DroneState {
    if collided then
      s.(isDestroyed := true, targetArrived := 0,
         inWorld := s.inWorld && (s.manualTarget.Some? || s.mouseMode))
    else s
  }

  /** Homing step: the reward for this tick's distance. */
  function Scored(s: DroneState, distance: nat): DroneState {
    s.(score := s.score + Reward(distance))
  }

  /** Arrival step: dwell on target, or reset the dwell count. */
  function Arrive(s: DroneState, distance: nat): DroneState {
    if OnTarget(s, distance) then Dwell(s) else s.(targetArrived := 0)
  }

  /** Budget step: count the tick and destroy the drone when its budget is spent. */
  function Expire(s: DroneState): DroneState {
    var s1 := s.(timer := s.timer + 1);
    if s1.timer == s1.maxDuration then s1.(isDestroyed := true) else s1
  }

  /** One call of `update`: collision, homing reward, arrival, time budget. */
  function Tick(s: DroneState, t: TickInput): (r: DroneState)
    ensures s.isDestroyed ==> r == s
    ensures s.Inv() ==> r.Inv()
    ensures s.Inv() && !s.isDestroyed ==> r.score > s.score
  {
    if s.isDestroyed then s
    else
      var s1 := Collide(s, t.collided);
      Expire(Arrive(Scored(s1, t.distance), t.distance))
  }

  /** A tick of a live drone is its four phases in order. */
  lemma TickPhases(s: DroneState, t: TickInput)
    requires !s.isDestroyed
    ensures Tick(s, t) == Expire(Arrive(Scored(Collide(s, t.collided), t.distance), t.distance))
  {
  }

  /** Score of a live tick: the homing reward, plus the bonus when the tick
      completes a waypoint. */
  lemma TickScore(s: DroneState, t: TickInput)
    requires !s.isDestroyed
    ensures Tick(s, t).score == s.score + Reward(t.distance) + (if Completes(s, t) then Bonus(s) else 0.0)
    ensures s.Inv() && Completes(s, t) ==> Bonus(s) > FlatBonus
  {
  }

  /** The timer counts every live tick and restarts at 1 on a completed waypoint. */
  lemma TickTimer(s: DroneState, t: TickInput)
    requires !s.isDestroyed
    ensures Tick(s, t).timer == if Completes(s, t) then 1 else s.timer + 1
  {
  }

  /** A live drone is destroyed by a tick exactly when it hits a boundary,
      completes its last waypoint, or spends its last tick of budget. */
  lemma TickDestruction(s: DroneState, t: TickInput)
    requires !s.isDestroyed
    ensures Tick(s, t).isDestroyed <==>
      t.collided || FinishesSequence(s, t) || Tick(s, t).timer == s.maxDuration
    ensures s.Inv() && !t.collided && !Completes(s, t) ==>
      (Tick(s, t).isDestroyed <==> s.timer + 1 == s.maxDuration)
  {
  }

  /** Dwell counting and waypoint advance: only on target and outside mouse
      mode; the count restarts off target and after each completed waypoint,
      and the waypoint index wraps to 0 after the last one. */
  lemma TickDwell(s: DroneState, t: TickInput)
    requires !s.isDestroyed
    ensures Tick(s, t).targetArrived ==
      if OnTarget(s, t.distance) && !Completes(s, t)
      then (if t.collided then 0 else s.targetArrived) + 1 else 0
    ensures Tick(s, t).currentTarget ==
      if !Completes(s, t) then s.currentTarget
      else if FinishesSequence(s, t) then 0 else s.currentTarget + 1
    ensures Tick(s, t).targetArrivedTotal ==
      s.targetArrivedTotal + (if OnTarget(s, t.distance) then 1 else 0)
  {
  }

  /** The body leaves the physics world on a collision unless the drone
      follows a manual target or the mouse. */
  lemma TickBody(s: DroneState, t: TickInput)
    requires !s.isDestroyed
    ensures Tick(s, t).inWorld ==
      (s.inWorld && (!t.collided || s.manualTarget.Some? || s.mouseMode))
  {
  }

  /** The state after a sequence of ticks. */
  function Run(s: DroneState, ticks: seq<TickInput>): DroneState
    decreases |ticks|
  {
    if ticks == [] then s else Run(Tick(s, ticks[0]), ticks[1..])
  }

  lemma {:induction false} RunKeepsInv(s: DroneState, ticks: seq<TickInput>)
    requires s.Inv()
    ensures Run(s, ticks).Inv()
    decreases |ticks|
  {
    if ticks != [] {
      RunKeepsInv(Tick(s, ticks[0]), ticks[1..]);
    }
  }

  /** The score never decreases over any run of ticks. */
  lemma {:induction false} RunScoreNeverDecreases(s: DroneState, ticks: seq<TickInput>)
    requires s.Inv()
    ensures Run(s, ticks).score >= s.score
    decreases |ticks|
  {
    if ticks != [] {
      RunScoreNeverDecreases(Tick(s, ticks[0]), ticks[1..]);
    }
  }

  /** A destroyed drone is frozen: no tick changes it any more. */
  lemma {:induction false} RunDestroyedIsFrozen(s: DroneState, ticks: seq<TickInput>)
    requires s.isDestroyed
    ensures Run(s, ticks) == s
    decreases |ticks|
  {
    if ticks != [] {
      RunDestroyedIsFrozen(Tick(s, ticks[0]), ticks[1..]);
    }
  }

  /** In mouse mode a drone never dwells and never advances its waypoint. */
  lemma {:induction false} MouseModeRunKeepsWaypoint(s: DroneState, ticks: seq<TickInput>)
    requires s.mouseMode
    ensures Run(s, ticks).mouseMode
    ensures Run(s, ticks).currentTarget == s.currentTarget
    ensures Run(s, ticks).targetArrivedTotal == s.targetArrivedTotal
    decreases |ticks|
  {
    if ticks != [] {
      RunMouseModeStep(s, ticks[0]);
      MouseModeRunKeepsWaypoint(Tick(s, ticks[0]), ticks[1..]);
    }
  }

  lemma RunMouseModeStep(s: DroneState, t: TickInput)
    requires s.mouseMode
    ensures Tick(s, t).mouseMode
    ensures Tick(s, t).currentTarget == s.currentTarget
    ensures Tick(s, t).targetArrivedTotal == s.targetArrivedTotal
  {
  }

  /**
   * One drone. `position` is where the physics engine holds the drone's body;
   * the engine is not part of this model, so the model never moves it.
   */
  class Drone {
    const position: Point
    var targets: seq<Point>
    var currentTarget: int
    var mouseMode: bool
    var manualTarget: Option<Point>
    var maxDuration: int
    var timer: int
    var targetArrived: int
    var targetArrivedTotal: int
    var score: real
    var fitness: real
    var isDestroyed: bool
    var isDisposed: bool
    var inWorld: bool

    function State(): DroneState
      reads this
    {
      DroneState(targets, currentTarget, mouseMode, manualTarget, maxDuration, timer,
                 targetArrived, targetArrivedTotal, score, fitness, isDestroyed, isDisposed, inWorld)
    }

    predicate Valid()
      reads this
    {
      State().Inv()
    }

    /** A new drone at the spawn point, with the waypoints of a canvas of the
        given size, added to the physics world. */
    constructor (width: int, height: int, spawn: Point)
      ensures position == spawn
      ensures State() == Initial(Waypoints(width, height))
      ensures Valid()
    {
      position := spawn;
      targets := Waypoints(width, height);
      currentTarget := 0;
      mouseMode := false;
      manualTarget := None;
      maxDuration := DefaultMaxDuration;
      score := 0.0;
      fitness := 0.0;
      isDestroyed := false;
      isDisposed := false;
      inWorld := true;
      timer := 0;
      targetArrived := 0;
      targetArrivedTotal := 0;
    }

    method SetMouseMode(on: bool)
      modifies this
      ensures State() == old(State()).(mouseMode := on, maxDuration := ManualMaxDuration)
      ensures old(Valid()) ==> Valid()
    {
      mouseMode := on;
      maxDuration := ManualMaxDuration;
    }

    method SetTarget(p: Point)
      modifies this
      ensures State() == Steered(old(State()), p)
    {
      SetMouseMode(true);
      manualTarget := Some(p);
    }

    /** One simulation tick of this drone. */
    method Update(t: TickInput)
      modifies this
      ensures State() == Tick(old(State()), t)
    {
      if isDestroyed {
        return;
      }
      ghost var s0 := State();
      CheckCollision(t.collided);
      ghost var s1 := State();
      score := score + Reward(t.distance);
      assert State() == Scored(s1, t.distance);
      CheckArrival(t.distance);
      CountTick();
      TickPhases(s0, t);
    }

    /** The collision part of `Update`: a boundary hit destroys the drone and
        takes its body out of the physics world unless the drone is steered;
        the rest of the tick still runs. */
    method CheckCollision(collided: bool)
      modifies this
      ensures State() == Collide(old(State()), collided)
    {
      if collided {
        isDestroyed := true;
        targetArrived := 0;
        if manualTarget.None? && !mouseMode {
          inWorld := false;
        }
      }
    }

    /** The last part of `Update`: count the tick and destroy the drone when
        its budget is spent. */
    method CountTick()
      modifies this
      ensures State() == Expire(old(State()))
    {
      timer := timer + 1;
      if timer == maxDuration {
        isDestroyed := true;
      }
    }

    /** The arrival part of `Update`: dwell on the target or reset the count. */
    method CheckArrival(distance: nat)
      modifies this
      ensures State() == Arrive(old(State()), distance)
    {
      if distance <= ArrivalRadius && !mouseMode {
        targetArrived := targetArrived + 1;
        if targetArrived == DwellTicks {
          CompleteWaypoint();
        }
        targetArrivedTotal := targetArrivedTotal + 1;
      } else {
        targetArrived := 0;
      }
    }

    /** The dwell target reached: take the bonus and move on. */
    method CompleteWaypoint()
      modifies this
      ensures State() == NextWaypoint(old(State()))
    {
      score := score + Bonus(State());
      currentTarget := currentTarget + 1;
      targetArrived := 0;
      timer := 0;
      if currentTarget == |targets| && !mouseMode {
        currentTarget := 0;
        isDestroyed := true;
      }
    }

    method Destroy()
      modifies this
      ensures State() == old(State()).(isDestroyed := true)
      ensures old(isDestroyed) ==> unchanged(this)
    {
      isDestroyed := true;
    }

    /** Removes the body from the physics world and marks the drone disposed. */
    method Dispose()
      modifies this
      ensures State() == old(State()).(isDisposed := true, inWorld := false)
    {
      inWorld := false;
      isDisposed := true;
    }

    /** A new drone at the spawn point carrying this drone's score. */
    method Copy(width: int, height: int, spawn: Point) returns (c: Drone)
      ensures fresh(c) && c.position == spawn
      ensures c.State() == Initial(Waypoints(width, height)).(score := score)
      ensures c.score == score
    {
      c := new Drone(width, height, spawn);
      c.score := score;
    }
  }
}
