/**
 * The swarm coordinator (src/ASCII/writer.ts): it keeps the live drones and
 * the destroyed-but-not-yet-disposed ones, maps the drones onto the points of
 * a new word in one greedy pass, and advances every drone each tick.
 */
module SwarmWriter {
  import opened Wrappers
  import opened Geometry
  import opened DroneLifecycle

  /** Columns of the idle grid. */
  const GridColumns: nat := 15
  /** Spacing between idle grid points. */
  const GridSpacing: nat := 50

  /** Idle-grid point of the drone at `index` (get_circle_postion): rows of
      `GridColumns` points, `GridSpacing` apart, from the canvas centre. */
  function CirclePosition(index: nat, width: int, height: int): (p: Point)
    ensures width / 2 <= p.x < width / 2 + GridColumns * GridSpacing
    ensures height / 2 <= p.y
    ensures (p.x - width / 2) % GridSpacing == 0 && (p.y - height / 2) % GridSpacing == 0
  {
    Point((index % GridColumns) * GridSpacing + width / 2,
          (index / GridColumns) * GridSpacing + height / 2)
  }

  /** Distinct drones get distinct idle-grid points. */
  lemma CirclePositionInjective(i: nat, j: nat, width: int, height: int)
    requires CirclePosition(i, width, height) == CirclePosition(j, width, height)
    ensures i == j
  {
    var ci, cj := i % GridColumns, j % GridColumns;
    var ri, rj := i / GridColumns, j / GridColumns;
    assert ci * GridSpacing == cj * GridSpacing;
    assert ri * GridSpacing == rj * GridSpacing;
    assert ci == cj;
    assert ri == rj;
    assert i == ri * GridColumns + ci;
    assert j == rj * GridColumns + cj;
  }

  /** No element occurs twice. */
  predicate NoDup<T(==)>(s: seq<T>) {
    forall i, j :: 0 <= i < j < |s| ==> s[i] != s[j]
  }

  /** The set of elements of `s`. */
  function Elems<T(==)>(s: seq<T>): set<T> {
    set x | x in s
  }

  /** The elements of `s` not in `claimed`, in their order in `s`
      (`filter(d => !claimed.includes(d))`). */
  function Without<T(==)>(s: seq<T>, claimed: seq<T>): (r: seq<T>)
    ensures forall i :: 0 <= i < |r| ==> r[i] in s && r[i] !in claimed
    ensures forall i :: 0 <= i < |s| && s[i] !in claimed ==> s[i] in r
    ensures |r| <= |s|
    ensures NoDup(s) ==> NoDup(r)
  {
    if s == [] then []
    else
      var last := s[|s| - 1];
      Without(s[..|s| - 1], claimed) + (if last in claimed then [] else [last])
  }

  /** The elements of `s` that are in `sel`, in their order in `s`. */
  function Among<T(==)>(s: seq<T>, sel: seq<T>): (r: seq<T>)
    ensures forall i :: 0 <= i < |r| ==> r[i] in s && r[i] in sel
    ensures forall i :: 0 <= i < |s| && s[i] in sel ==> s[i] in r
    ensures NoDup(s) ==> NoDup(r)
  {
    if s == [] then []
    else
      var last := s[|s| - 1];
      Among(s[..|s| - 1], sel) + (if last in sel then [last] else [])
  }

  /** The two filters split a sequence: each element lands in exactly one
      of the results, so their lengths add up. */
  lemma {:induction false} WithoutAmongSplit<T>(s: seq<T>, sel: seq<T>)
    ensures |Without(s, sel)| + |Among(s, sel)| == |s|
  {
    if s != [] {
      WithoutAmongSplit(s[..|s| - 1], sel);
    }
  }

  /** The drones of `s` not yet disposed, in order. */
  function Live(s: seq<Drone>): (r: seq<Drone>)
    reads s
    ensures forall i :: 0 <= i < |r| ==> r[i] in s && !r[i].isDisposed
    ensures forall i :: 0 <= i < |s| && !s[i].isDisposed ==> s[i] in r
  {
    if s == [] then []
    else
      var last := s[|s| - 1];
      Live(s[..|s| - 1]) + (if last.isDisposed then [] else [last])
  }

  /** `pool[k]` is the first drone of least distance to `target`. */
  ghost predicate FirstNearest(pool: seq<Drone>, target: Point, k: int) {
    && 0 <= k < |pool|
    && (forall j :: 0 <= j < |pool| ==> SqDist(pool[k].position, target) <= SqDist(pool[j].position, target))
    && (forall j :: 0 <= j < k ==> SqDist(pool[k].position, target) < SqDist(pool[j].position, target))
  }

  /**
   * The outcome get_closest_drone must have. Without spawning, the first
   * nearest drone of a non-empty pool. With spawning allowed, the same drone
   * if it is strictly nearer to the target than the spawn point is, and
   * nothing (spawn a new drone) otherwise. An empty pool yields nothing.
   */
  ghost predicate IsClosest(pool: seq<Drone>, target: Point, canSpawn: bool, spawn: Point, r: Option<Drone>) {
    match r
    case None =>
      |pool| == 0 ||
      (canSpawn && forall j :: 0 <= j < |pool| ==> SqDist(spawn, target) <= SqDist(pool[j].position, target))
    case Some(d) =>
      (exists k :: 0 <= k < |pool| && FirstNearest(pool, target, k) && pool[k] == d) &&
      (canSpawn ==> SqDist(d.position, target) < SqDist(spawn, target))
  }

  /** The first nearest drone of a pool is unique. */
  lemma {:induction false} FirstNearestUnique(pool: seq<Drone>, target: Point, k1: int, k2: int)
    requires FirstNearest(pool, target, k1) && FirstNearest(pool, target, k2)
    ensures k1 == k2
  {
    assert SqDist(pool[k1].position, target) == SqDist(pool[k2].position, target);
  }

  /** The greedy pick is a function of the pool: at most one outcome meets
      `IsClosest`, so the result of the retarget pass is determined. */
  lemma IsClosestUnique(pool: seq<Drone>, target: Point, canSpawn: bool, spawn: Point, r1: Option<Drone>, r2: Option<Drone>)
    requires IsClosest(pool, target, canSpawn, spawn, r1)
    requires IsClosest(pool, target, canSpawn, spawn, r2)
    ensures r1 == r2
  {
    if r1.Some? && r2.Some? {
      var k1 :| FirstNearest(pool, target, k1) && pool[k1] == r1.value;
      var k2 :| FirstNearest(pool, target, k2) && pool[k2] == r2.value;
      FirstNearestUnique(pool, target, k1, k2);
    }
  }

  /** The set of a duplicate-free sequence has as many elements as the sequence. */
  lemma {:induction false} ElemsOfDistinct<T>(s: seq<T>)
    requires NoDup(s)
    ensures |Elems(s)| == |s|
  {
    if s != [] {
      var init := s[..|s| - 1];
      assert NoDup(init);
      ElemsOfDistinct(init);
      assert Elems(s) == Elems(init) + {s[|s| - 1]};
      assert s[|s| - 1] !in Elems(init);
    }
  }

  /** A sequence has at least as many entries as distinct elements. */
  lemma {:induction false} ElemsBound<T>(s: seq<T>)
    ensures |Elems(s)| <= |s|
  {
    if s != [] {
      var init := s[..|s| - 1];
      ElemsBound(init);
      assert Elems(s) == Elems(init) + {s[|s| - 1]};
    }
  }

  /** Fewer claims than distinct drones always leave an unclaimed drone. */
  lemma UnclaimedNonEmpty<T>(s: seq<T>, claimed: seq<T>)
    requires NoDup(s) && |claimed| < |s|
    ensures |Without(s, claimed)| > 0
  {
    if Without(s, claimed) == [] {
      assert Elems(s) <= Elems(claimed);
      ElemsOfDistinct(s);
      ElemsBound(claimed);
      SubsetCard(Elems(s), Elems(claimed));
    }
  }

  lemma SubsetCard<T>(a: set<T>, b: set<T>)
    requires a <= b
    ensures |a| <= |b|
  {
    assert b == a + (b - a);
  }

  /** A duplicate-free list of `n` drones built from a pool of `m` holds at
      least `n - m` drones from outside the pool. */
  lemma SpawnedAtLeast<T>(chosen: seq<T>, pool: seq<T>)
    requires NoDup(chosen)
    ensures |Without(chosen, pool)| >= |chosen| - |pool|
  {
    var a, p := Elems(chosen), Elems(pool);
    ElemsOfDistinct(chosen);
    ElemsBound(pool);
    ElemsOfDistinct(Without(chosen, pool));
    assert Elems(Without(chosen, pool)) == a - p;
    assert a == (a - p) + (a * p);
    SubsetCard(a * p, p);
  }

  /**
   * The coordinator. `width` and `height` are the canvas size, `spawnPoint`
   * the birth place of new drones; `word` is absent until a word is first set.
   */
  class Writer {
    const width: int
    const height: int
    const spawnPoint: Point
    var word: Option<string>
    var drones: seq<Drone>
    var destroyedDrones: seq<Drone>

    /** Live drones are distinct, valid and not destroyed; retiring drones
        are destroyed (so no drone is in both lists). */
    predicate Valid()
      reads this, drones, destroyedDrones
    {
      && NoDup(drones)
      && (forall i :: 0 <= i < |drones| ==> !drones[i].isDestroyed)
      && (forall i :: 0 <= i < |drones| ==> drones[i].Valid())
      && (forall i :: 0 <= i < |destroyedDrones| ==> destroyedDrones[i].isDestroyed)
    }

    constructor (width: int, height: int, spawn: Point)
      ensures Valid()
      ensures this.width == width && this.height == height && spawnPoint == spawn
      ensures word == None && drones == [] && destroyedDrones == []
    {
      this.width := width;
      this.height := height;
      spawnPoint := spawn;
      word := None;
      drones := [];
      destroyedDrones := [];
    }

    /** get_closest_drone: one pass with a running minimum. */
    method ClosestDrone(pool: seq<Drone>, target: Point, canSpawn: bool) returns (closest: Option<Drone>)
      ensures IsClosest(pool, target, canSpawn, spawnPoint, closest)
      ensures closest.Some? ==> closest.value in pool
    {
      if |pool| == 0 {
        return None;
      }
      closest := None;
      var shortest: Option<nat> := None;  // None stands for Infinity
      ghost var best := 0;
      for i := 0 to |pool|
        invariant closest.None? <==> shortest.None?
        invariant closest.None? ==>
          forall j :: 0 <= j < i ==> canSpawn && SqDist(spawnPoint, target) <= SqDist(pool[j].position, target)
        invariant closest.Some? ==>
          && 0 <= best < i
          && pool[best] == closest.value
          && shortest == Some(SqDist(pool[best].position, target))
          && (forall j :: 0 <= j < i ==> SqDist(pool[best].position, target) <= SqDist(pool[j].position, target))
          && (forall j :: 0 <= j < best ==> SqDist(pool[best].position, target) < SqDist(pool[j].position, target))
          && (canSpawn ==> SqDist(pool[best].position, target) < SqDist(spawnPoint, target))
      {
        var drone := pool[i];
        var distance := SqDist(drone.position, target);
        var spawnDistance := SqDist(spawnPoint, target);
        var nearer := shortest.None? || distance < shortest.value;
        if (nearer && !canSpawn) || (distance < spawnDistance && nearer && canSpawn) {
          closest := Some(drone);
          shortest := Some(distance);
          best := i;
        }
      }
      if closest.Some? {
        assert FirstNearest(pool, target, best);
      }
    }

    /**
     * set_word: map the drones onto the points of a new word. Each point, in
     * order, takes the drone `ClosestDrone` picks from the drones not yet
     * claimed, or a new drone at the spawn point; every drone left unclaimed
     * is destroyed and retired. `positions` are the word's pixel points.
     */
    method SetWord(newWord: string, positions: seq<Point>)
      requires Valid()
      modifies this, drones
      ensures Valid()
      ensures word == Some(newWord)
      ensures old(word) == Some(newWord) ==>
        drones == old(drones) && destroyedDrones == old(destroyedDrones) &&
        forall j :: 0 <= j < |drones| ==> unchanged(drones[j])
      ensures old(word) != Some(newWord) ==> |drones| == |positions|
      ensures old(word) != Some(newWord) ==>
        forall i :: 0 <= i < |drones| ==> Reassigned(old(drones), drones, positions, spawnPoint, i)
      ensures old(word) != Some(newWord) ==>
        forall i :: 0 <= i < |drones| && drones[i] in old(drones) ==>
          var d := drones[i]; d.State() == Steered(old(d.State()), positions[i])
      ensures old(word) != Some(newWord) ==>
        forall i :: 0 <= i < |drones| && drones[i] !in old(drones) ==>
          fresh(drones[i]) && drones[i].position == spawnPoint &&
          drones[i].State() == Steered(Initial(Waypoints(width, height)), positions[i])
      ensures old(word) != Some(newWord) ==>
        destroyedDrones == old(destroyedDrones) + Without(old(drones), drones)
      ensures old(word) != Some(newWord) ==>
        var retired := Without(old(drones), drones);
        forall r :: 0 <= r < |retired| ==> retired[r].State() == old(retired[r].State()).(isDestroyed := true)
    {
      if word == Some(newWord) {
        return;
      }
      word := Some(newWord);
      Retarget(positions);
    }

    /** The body of set_word after its word check. */
    method Retarget(positions: seq<Point>)
      requires Valid()
      modifies this, drones
      ensures Valid()
      ensures word == old(word)
      ensures |drones| == |positions|
      ensures forall i :: 0 <= i < |drones| ==> Reassigned(old(drones), drones, positions, spawnPoint, i)
      ensures forall i :: 0 <= i < |drones| && drones[i] in old(drones) ==>
        var d := drones[i]; d.State() == Steered(old(d.State()), positions[i])
      ensures forall i :: 0 <= i < |drones| && drones[i] !in old(drones) ==>
        fresh(drones[i]) && drones[i].position == spawnPoint &&
        drones[i].State() == Steered(Initial(Waypoints(width, height)), positions[i])
      ensures destroyedDrones == old(destroyedDrones) + Without(old(drones), drones)
      ensures var retired := Without(old(drones), drones);
        forall r :: 0 <= r < |retired| ==> retired[r].State() == old(retired[r].State()).(isDestroyed := true)
    {
      var newDrones := Regroup(positions);
      var retired := Retire(drones, newDrones);
      Install(newDrones, retired);
    }

    /** The last step of set_word: the claimed drones become the live list
        and the retired ones join the retiring list. */
    method Install(newDrones: seq<Drone>, retired: seq<Drone>)
      requires NoDup(newDrones)
      requires forall j :: 0 <= j < |newDrones| ==> !newDrones[j].isDestroyed && newDrones[j].Valid()
      requires forall k :: 0 <= k < |destroyedDrones| ==> destroyedDrones[k].isDestroyed
      requires forall r :: 0 <= r < |retired| ==> retired[r].isDestroyed
      modifies this
      ensures Valid() && word == old(word)
      ensures drones == newDrones && destroyedDrones == old(destroyedDrones) + retired
    {
      destroyedDrones := destroyedDrones + retired;
      drones := newDrones;
    }

    /** The retarget loop of set_word: every point, in order, claims a drone
        and aims it at the point. */
    method Regroup(positions: seq<Point>) returns (newDrones: seq<Drone>)
      requires Valid()
      modifies drones
      ensures |newDrones| == |positions| && NoDup(newDrones)
      ensures forall j :: 0 <= j < |newDrones| ==> !newDrones[j].isDestroyed && newDrones[j].Valid()
      ensures forall k :: 0 <= k < |destroyedDrones| ==> destroyedDrones[k].isDestroyed
      ensures forall j :: 0 <= j < |newDrones| ==> Reassigned(drones, newDrones, positions, spawnPoint, j)
      ensures forall j :: 0 <= j < |newDrones| && newDrones[j] in drones ==>
        var d := newDrones[j]; d.State() == Steered(old(d.State()), positions[j])
      ensures forall j :: 0 <= j < |newDrones| && newDrones[j] !in drones ==>
        fresh(newDrones[j]) && newDrones[j].position == spawnPoint &&
        newDrones[j].State() == Steered(Initial(Waypoints(width, height)), positions[j])
      ensures forall k :: 0 <= k < |drones| && drones[k] !in newDrones ==> unchanged(drones[k])
    {
      newDrones := PickDrones(positions);
      Aim(newDrones, positions, destroyedDrones);
    }

    /** The pick half of set_word's retarget loop: every point, in order,
        claims the drone get_closest_drone picks, or a new drone. */
    method PickDrones(positions: seq<Point>) returns (newDrones: seq<Drone>)
      requires Valid()
      ensures |newDrones| == |positions| && NoDup(newDrones)
      ensures forall j :: 0 <= j < |newDrones| ==> !newDrones[j].isDestroyed && newDrones[j].Valid()
      ensures forall j :: 0 <= j < |newDrones| ==> Reassigned(drones, newDrones, positions, spawnPoint, j)
      ensures forall j :: 0 <= j < |newDrones| && newDrones[j] !in drones ==>
        fresh(newDrones[j]) && newDrones[j].position == spawnPoint &&
        newDrones[j].State() == Initial(Waypoints(width, height))
    {
      newDrones := [];
      for i := 0 to |positions|
        invariant |newDrones| == i
        invariant NoDup(newDrones)
        invariant forall j :: 0 <= j < i ==> !newDrones[j].isDestroyed && newDrones[j].Valid()
        invariant forall j :: 0 <= j < i ==> Reassigned(drones, newDrones, positions, spawnPoint, j)
        invariant forall j :: 0 <= j < i && newDrones[j] !in drones ==>
          fresh(newDrones[j]) && newDrones[j].position == spawnPoint &&
          newDrones[j].State() == Initial(Waypoints(width, height))
      {
        var drone := Claim(positions, newDrones);
        ReassignedExtend(drones, newDrones, drone, positions, spawnPoint);
        newDrones := newDrones + [drone];
      }
    }

    /** One step of the retarget loop: the drone the next point claims, or a
        new one when get_closest_drone finds none. */
    method Claim(positions: seq<Point>, claimed: seq<Drone>) returns (drone: Drone)
      requires Valid() && |claimed| < |positions|
      ensures drone !in claimed && !drone.isDestroyed && drone.Valid()
      ensures Reassigned(drones, claimed + [drone], positions, spawnPoint, |claimed|)
      ensures drone !in drones ==>
        fresh(drone) && drone.position == spawnPoint && drone.State() == Initial(Waypoints(width, height))
    {
      var pool := Without(drones, claimed);
      var canSpawn := |drones| < |positions|;
      var closest := ClosestDrone(pool, positions[|claimed|], canSpawn);
      if closest.Some? {
        drone := closest.value;
      } else {
        drone := new Drone(width, height, spawnPoint);
      }
      assert (claimed + [drone])[..|claimed|] == claimed;
    }

    /**
     * update: in idle mode (the empty word) every drone is first aimed at its
     * idle-grid point; disposed drones leave the retiring list; every live
     * drone advances one tick (`ticks[i]` is what the physics reports for
     * drone `i`), and the drones destroyed in this tick are destroyed again
     * and moved, in order, to the retiring list.
     */
    method Update(ticks: seq<TickInput>) returns (ghost casualties: seq<Drone>)
      requires Valid() && |ticks| == |drones|
      modifies this, drones
      ensures Valid() && word == old(word)
      ensures forall i :: 0 <= i < |old(drones)| ==>
        var d := old(drones)[i];
        d.State() == Tick(if old(word) == Some("") then Steered(old(d.State()), CirclePosition(i, width, height))
                          else old(d.State()), ticks[i])
      ensures forall i :: 0 <= i < |old(drones)| ==> (old(drones)[i] in casualties <==> old(drones)[i].isDestroyed)
      ensures drones == Without(old(drones), casualties)
      ensures destroyedDrones == old(Live(destroyedDrones)) + Among(old(drones), casualties)
    {
      Idle();
      casualties := Advance(ticks);
    }

    /** The first step of update: with the empty word every drone is aimed
        at its idle-grid point; otherwise nothing changes. */
    method Idle()
      requires Valid()
      modifies drones
      ensures Valid()
      ensures forall i :: 0 <= i < |drones| ==>
        var d := drones[i];
        d.State() == if word == Some("") then Steered(old(d.State()), CirclePosition(i, width, height)) else old(d.State())
    {
      if word == Some("") {
        Aim(drones, CirclePositions(|drones|, width, height), destroyedDrones);
      }
    }

    /** update after the idle-mode aiming: every live drone ticks once and
        the drones destroyed by it are retired. */
    method Advance(ticks: seq<TickInput>) returns (ghost casualties: seq<Drone>)
      requires Valid() && |ticks| == |drones|
      modifies this, drones
      ensures Valid() && word == old(word)
      ensures forall i :: 0 <= i < |old(drones)| ==>
        var d := old(drones)[i]; d.State() == Tick(old(d.State()), ticks[i])
      ensures forall i :: 0 <= i < |old(drones)| ==> (old(drones)[i] in casualties <==> old(drones)[i].isDestroyed)
      ensures drones == Without(old(drones), casualties)
      ensures destroyedDrones == old(Live(destroyedDrones)) + Among(old(drones), casualties)
    {
      destroyedDrones := Live(destroyedDrones);
      var toBeRemoved := TickSwarm(drones, ticks);
      Cull(toBeRemoved);
      casualties := toBeRemoved;
    }

    /** The filter of update, on the drones' status after the tick loop. */
    method Cull(toBeRemoved: seq<Drone>)
      requires NoDup(drones)
      requires forall j :: 0 <= j < |drones| ==> (drones[j] in toBeRemoved <==> drones[j].isDestroyed)
      requires forall j :: 0 <= j < |drones| ==> drones[j].Valid()
      requires forall k :: 0 <= k < |destroyedDrones| ==> destroyedDrones[k].isDestroyed
      modifies this, drones
      ensures Valid() && word == old(word)
      ensures forall j :: 0 <= j < |old(drones)| ==>
        var d := old(drones)[j]; d.State() == old(d.State()) && d.isDestroyed == old(d.isDestroyed)
      ensures drones == Without(old(drones), toBeRemoved)
      ensures destroyedDrones == old(destroyedDrones) + Among(old(drones), toBeRemoved)
    {
      var kept, removed := Remove(drones, toBeRemoved);
      SplitByStatus(drones, toBeRemoved);
      destroyedDrones := destroyedDrones + removed;
      drones := kept;
    }

    /** dispose_drones: every live drone is disposed and the live list is
        emptied; the retiring list is left as it is. */
    method DisposeDrones()
      requires Valid()
      modifies this, drones
      ensures Valid() && word == old(word)
      ensures drones == [] && destroyedDrones == old(destroyedDrones)
      ensures forall i :: 0 <= i < |old(drones)| ==>
        var d := old(drones)[i]; d.State() == old(d.State()).(isDisposed := true, inWorld := false)
    {
      DisposeAll(drones, destroyedDrones);
      drones := [];
    }
  }

  /** The idle-grid points of the first `n` drones. */
  function CirclePositions(n: nat, width: int, height: int): seq<Point> {
    seq(n, i requires 0 <= i => CirclePosition(i, width, height))
  }

  /** The tick loop of update on valid drones: they stay valid. */
  method TickSwarm(all: seq<Drone>, ticks: seq<TickInput>) returns (toBeRemoved: seq<Drone>)
    requires NoDup(all) && |ticks| == |all|
    requires forall j :: 0 <= j < |all| ==> all[j].Valid()
    modifies all
    ensures forall j :: 0 <= j < |all| ==> all[j].State() == Tick(old(all[j].State()), ticks[j])
    ensures forall j :: 0 <= j < |all| ==> (all[j] in toBeRemoved <==> all[j].isDestroyed)
    ensures forall j :: 0 <= j < |all| ==> all[j].Valid()
  {
    toBeRemoved := TickAll(all, ticks);
    forall j | 0 <= j < |all|
      ensures all[j].Valid()
    {
      assert old(all[j].State()).Inv();
    }
  }

  /** The tick loop of update: every drone advances one tick, and the ones
      destroyed by it are collected, in order. */
  method TickAll(all: seq<Drone>, ticks: seq<TickInput>) returns (toBeRemoved: seq<Drone>)
    requires NoDup(all) && |ticks| == |all|
    modifies all
    ensures forall j :: 0 <= j < |all| ==> all[j].State() == Tick(old(all[j].State()), ticks[j])
    ensures forall j :: 0 <= j < |all| ==> (all[j] in toBeRemoved <==> all[j].isDestroyed)
  {
    toBeRemoved := [];
    for i := 0 to |all|
      invariant forall j :: 0 <= j < i ==> all[j].State() == Tick(old(all[j].State()), ticks[j])
      invariant forall j :: i <= j < |all| ==> unchanged(all[j])
      invariant forall j :: 0 <= j < i ==> (all[j] in toBeRemoved <==> all[j].isDestroyed)
      invariant forall d :: d in toBeRemoved ==> d in all[..i]
    {
      all[i].Update(ticks[i]);
      if all[i].isDestroyed {
        toBeRemoved := toBeRemoved + [all[i]];
      }
    }
  }

  /** The filter of update: a drone the tick loop collected is destroyed
      (again: its state does not change) and moved to `removed`; the others
      are kept, in order. */
  method Remove(all: seq<Drone>, toBeRemoved: seq<Drone>) returns (kept: seq<Drone>, removed: seq<Drone>)
    requires NoDup(all)
    requires forall j :: 0 <= j < |all| ==> (all[j] in toBeRemoved <==> all[j].isDestroyed)
    modifies all
    ensures forall j :: 0 <= j < |all| ==> unchanged(all[j])
    ensures kept == Without(all, toBeRemoved) && removed == Among(all, toBeRemoved)
  {
    kept, removed := [], [];
    for i := 0 to |all|
      invariant forall j :: 0 <= j < |all| ==> unchanged(all[j])
      invariant kept == Without(all[..i], toBeRemoved) && removed == Among(all[..i], toBeRemoved)
    {
      assert all[..i + 1][..i] == all[..i];
      assert Without(all[..i + 1], toBeRemoved) == kept + if all[i] in toBeRemoved then [] else [all[i]];
      assert Among(all[..i + 1], toBeRemoved) == removed + if all[i] in toBeRemoved then [all[i]] else [];
      if all[i] in toBeRemoved {
        all[i].Destroy();
        removed := removed + [all[i]];
      } else {
        kept := kept + [all[i]];
      }
    }
    assert all[..|all|] == all;
  }

  /** Filtering by a list that holds exactly the destroyed drones keeps the
      intact ones and removes the destroyed ones. */
  lemma SplitByStatus(all: seq<Drone>, toBeRemoved: seq<Drone>)
    requires forall j :: 0 <= j < |all| ==> (all[j] in toBeRemoved <==> all[j].isDestroyed)
    ensures forall k :: 0 <= k < |Without(all, toBeRemoved)| ==> !Without(all, toBeRemoved)[k].isDestroyed
    ensures forall r :: 0 <= r < |Among(all, toBeRemoved)| ==> Among(all, toBeRemoved)[r].isDestroyed
  {
  }

  /** The loop of dispose_drones. */
  method DisposeAll(all: seq<Drone>, retiring: seq<Drone>)
    requires NoDup(all)
    requires forall k :: 0 <= k < |retiring| ==> retiring[k].isDestroyed
    modifies all
    ensures forall j :: 0 <= j < |all| ==>
      all[j].State() == old(all[j].State()).(isDisposed := true, inWorld := false)
    ensures forall k :: 0 <= k < |retiring| ==> retiring[k].isDestroyed
  {
    for i := 0 to |all|
      invariant forall j :: 0 <= j < i ==>
        all[j].State() == old(all[j].State()).(isDisposed := true, inWorld := false)
      invariant forall j :: i <= j < |all| ==> unchanged(all[j])
      invariant forall k :: 0 <= k < |retiring| ==> retiring[k].isDestroyed
    {
      all[i].Dispose();
    }
  }

  /** The aim half of set_word's retarget loop: each claimed drone gets its
      point as manual target. */
  method Aim(chosen: seq<Drone>, positions: seq<Point>, retiring: seq<Drone>)
    requires NoDup(chosen) && |chosen| == |positions|
    requires forall j :: 0 <= j < |chosen| ==> !chosen[j].isDestroyed && chosen[j].Valid()
    requires forall k :: 0 <= k < |retiring| ==> retiring[k].isDestroyed
    modifies chosen
    ensures forall j :: 0 <= j < |chosen| ==>
      chosen[j].State() == Steered(old(chosen[j].State()), positions[j])
    ensures forall j :: 0 <= j < |chosen| ==> !chosen[j].isDestroyed && chosen[j].Valid()
    ensures forall k :: 0 <= k < |retiring| ==> retiring[k].isDestroyed
  {
    for i := 0 to |chosen|
      invariant forall j :: 0 <= j < i ==>
        chosen[j].State() == Steered(old(chosen[j].State()), positions[j])
      invariant forall j :: 0 <= j < |chosen| ==> !chosen[j].isDestroyed && chosen[j].Valid()
      invariant forall j :: i <= j < |chosen| ==> unchanged(chosen[j])
      invariant forall k :: 0 <= k < |retiring| ==> retiring[k].isDestroyed
    {
      chosen[i].SetTarget(positions[i]);
    }
  }

  /** The retire loop of set_word: every drone of `all` that is not in
      `keep` is destroyed and, in order, retired. The drones to retire are
      chosen first and destroyed after: destroying a drone does not change
      which drones are claimed, so this is the source's single loop. */
  method Retire(all: seq<Drone>, keep: seq<Drone>) returns (retired: seq<Drone>)
    requires NoDup(all)
    modifies all
    ensures retired == Without(all, keep)
    ensures forall r :: 0 <= r < |retired| ==>
      retired[r].State() == old(retired[r].State()).(isDestroyed := true)
    ensures forall r :: 0 <= r < |retired| ==> retired[r].isDestroyed
    ensures forall j :: 0 <= j < |keep| ==> unchanged(keep[j])
  {
    retired := Without(all, keep);
    DestroyAll(retired);
  }

  /** Destroys every drone of the list. */
  method DestroyAll(ds: seq<Drone>)
    requires NoDup(ds)
    modifies ds
    ensures forall r :: 0 <= r < |ds| ==> ds[r].State() == old(ds[r].State()).(isDestroyed := true)
    ensures forall r :: 0 <= r < |ds| ==> ds[r].isDestroyed
  {
    for i := 0 to |ds|
      invariant forall r :: 0 <= r < i ==> ds[r].State() == old(ds[r].State()).(isDestroyed := true)
      invariant forall r :: 0 <= r < i ==> ds[r].isDestroyed
      invariant forall r :: i <= r < |ds| ==> unchanged(ds[r])
    {
      ds[i].Destroy();
    }
  }

  /** Appending a drone keeps every earlier pick's record intact. */
  lemma {:induction false} ReassignedExtend(before: seq<Drone>, after: seq<Drone>, d: Drone, positions: seq<Point>, spawn: Point)
    requires |after| < |positions|
    requires forall j :: 0 <= j < |after| ==> Reassigned(before, after, positions, spawn, j)
    ensures forall j :: 0 <= j < |after| ==> Reassigned(before, after + [d], positions, spawn, j)
  {
    forall j | 0 <= j < |after|
      ensures Reassigned(before, after + [d], positions, spawn, j)
    {
      assert (after + [d])[..j] == after[..j];
      assert Reassigned(before, after, positions, spawn, j);
    }
  }

  /** With at least as many old drones as points nothing is spawned: every
      drone of the pass is an old one. */
  lemma {:induction false} NoSpawnWhenEnough(before: seq<Drone>, after: seq<Drone>, positions: seq<Point>, spawn: Point)
    requires NoDup(before) && |after| == |positions| <= |before|
    requires forall j :: 0 <= j < |after| ==> Reassigned(before, after, positions, spawn, j)
    ensures forall j :: 0 <= j < |after| ==> after[j] in before
  {
    forall j | 0 <= j < |after|
      ensures after[j] in before
    {
      assert Reassigned(before, after, positions, spawn, j);
      UnclaimedNonEmpty(before, after[..j]);
    }
  }

  /**
   * The `i`-th drone of a retarget pass was picked the way get_closest_drone
   * picks: from the old drones not claimed by the first `i` points, with
   * spawning allowed exactly when there were fewer old drones than points; a
   * drone that is not an old one is a spawned one.
   */
  ghost predicate Reassigned(before: seq<Drone>, after: seq<Drone>, positions: seq<Point>, spawn: Point, i: int)
    requires 0 <= i < |after| && i < |positions|
  {
    IsClosest(Without(before, after[..i]), positions[i], |before| < |positions|, spawn,
              if after[i] in before then Some(after[i]) else None)
  }
}
