# clever-drones: the drone swarm that writes words

This project models the core of the clever-drones demo. That core has two parts.

The first part is the life of one drone (`src/Drone/drone.ts`):
- A drone flies a fixed sequence of nine waypoints, placed as fractions of the canvas.
- It earns a reward on every tick. The reward is larger the closer the drone is to its target.
- It completes a waypoint by staying within 20 distance units of it for 100 consecutive ticks. Completing a waypoint earns a bonus, and the bonus grows with the budget ticks left.
- It is destroyed when it hits a boundary, completes its last waypoint, or spends its tick budget.
- `set_target` switches a drone to a manual target: the drone is then in mouse mode and has a budget of 100000 ticks.

The second part is the writer that drives a swarm of drones (`src/ASCII/writer.ts`). The writer keeps two lists: the live drones, and the destroyed drones that are not yet disposed (the retiring list).
- `set_word` maps the swarm onto the pixel points of a new word in one greedy pass. Each point, in order, takes the nearest unclaimed drone. When there are fewer drones than points, a point takes a new drone from the spawn point instead if the spawn point is at least as near as every unclaimed drone. Drones left unclaimed are destroyed and moved to the retiring list.
- `update` first aims every drone at an idle-grid point when the word is empty. It then drops disposed drones from the retiring list, advances every drone one tick, and moves the drones destroyed in that tick to the retiring list.

How the model is arranged:
- `DroneLifecycle` states a tick once, as the pure function `Tick` over the record `DroneState`. The class `Drone` has the source's fields. Each method of `Drone` is proved to change those fields as a pure function of the old state says (`State() == Tick(old(State()), t)`). The properties of the tick are lemmas about `Tick` and `Run`.
- `SwarmWriter` has the class `Writer`, with the live list and the retiring list as sequence fields. Its validity says that the live drones are distinct, not destroyed, and each keeps the drone invariant (dwell count below 100, waypoint index in range, timer within the budget, score not negative). The retiring drones are all destroyed. Its methods are proved against the specification predicates `IsClosest` and `Reassigned`, the filters `Without`, `Among` and `Live`, and the drone functions.
- The retarget loop of `set_word` claims a drone and aims it in the same iteration. The model claims all drones first (`PickDrones`) and then aims them (`Aim`). The two are equivalent: a claim reads only drone positions, and aiming never changes a position.
- The retire loop of `set_word` tests each old drone and destroys it in the same iteration. The model first selects the unclaimed drones (`Without`) and then destroys them (`DestroyAll`). The two are equivalent: destroying a drone does not change which drones are claimed.
- `update` collects the destroyed drones by the id of their neural network. The model collects the drones themselves: every drone's network is its own copy, so the ids tell drones apart exactly as identity does.
- Both loops of `set_word` are also split into helper methods, as is the tick loop of `update`. Each helper method is proved against its own contract. This splitting keeps each proof small.

## Model

| member | source | states |
|---|---|---|
| `Geometry.SqDist` | src/ASCII/writer.ts:293-294 | the distance between two points is zero exactly when the points coincide |
| `DroneLifecycle.Waypoints` | src/Drone/drone.ts:90-94 | a drone gets one waypoint per fraction of the fixed nine-entry pattern, so the route is never empty |
| `DroneLifecycle.WaypointsOnCanvas` | src/Drone/drone.ts:90-94 | each waypoint is the canvas size times its fraction, rounded down (each coordinate lies within 1 below the exact product) |
| `DroneLifecycle.DroneState.Target` | src/Drone/drone.ts:200-205 | the steering target is the manual target if set, else the mouse in mouse mode, else the current waypoint of the route |
| `DroneLifecycle.Initial` | src/Drone/drone.ts:82-88 | a new drone is live, in the world, not in mouse mode and without a manual target, at waypoint 0 of the given route, with zero score, timer and dwell counts, a budget of 600 ticks, and satisfies the state invariant |
| `DroneLifecycle.InitialTarget` | src/Drone/drone.ts:200-205 | a new drone steers toward its first waypoint |
| `DroneLifecycle.Steered` | src/Drone/drone.ts:195-198 | set_target sets the manual target, turns mouse mode on and the budget to 100000, and leaves score, timer, waypoint, destruction and disposal as they were; the invariant is preserved |
| `DroneLifecycle.SteeredTarget` | src/Drone/drone.ts:195-205 | after set_target the drone steers toward the given point wherever the mouse is |
| `DroneLifecycle.Reward` | src/Drone/drone.ts:137-138 | the reward of one tick, 1 / (distance + 1), lies in (0, 1] |
| `DroneLifecycle.Tick` | src/Drone/drone.ts:121-178 | a destroyed drone is left unchanged; a tick preserves the state invariant; a live drone's score strictly grows |
| `DroneLifecycle.TickScore` | src/Drone/drone.ts:136-147 | a live tick adds the distance reward, plus the completion bonus exactly when the tick completes a waypoint; that bonus exceeds 200 |
| `DroneLifecycle.TickTimer` | src/Drone/drone.ts:147-173 | the timer counts every live tick and restarts at 1 on a completed waypoint |
| `DroneLifecycle.TickDestruction` | src/Drone/drone.ts:121-178 | a live drone is destroyed exactly when it collides, finishes its last waypoint, or its timer reaches the budget |
| `DroneLifecycle.TickDwell` | src/Drone/drone.ts:141-162 | the dwell count grows only on target outside mouse mode and resets otherwise; the waypoint advances on completion and wraps to 0 after the last; the total dwell count grows on every on-target tick |
| `DroneLifecycle.TickBody` | src/Drone/drone.ts:125-134 | a collision takes the body out of the world unless the drone has a manual target or is in mouse mode |
| `DroneLifecycle.RunKeepsInv` | src/Drone/drone.ts:121-178 | any run of ticks preserves the state invariant |
| `DroneLifecycle.RunScoreNeverDecreases` | src/Drone/drone.ts:136-147 | the score never decreases over any run of ticks |
| `DroneLifecycle.RunDestroyedIsFrozen` | src/Drone/drone.ts:121-122 | no run of ticks changes a destroyed drone |
| `DroneLifecycle.RunMouseModeStep` | src/Drone/drone.ts:141-162 | one tick in mouse mode keeps mouse mode, the waypoint and the total dwell count |
| `DroneLifecycle.MouseModeRunKeepsWaypoint` | src/Drone/drone.ts:141-162 | in mouse mode no run of ticks dwells or advances the waypoint |
| `DroneLifecycle.Drone.constructor` | src/Drone/drone.ts:82-94 | a new drone is at the spawn point, in the initial state with the canvas waypoints, and valid |
| `DroneLifecycle.Drone.SetMouseMode` | src/Drone/drone.ts:116-119 | sets mouse mode as given and the budget to 100000, whatever the flag; validity is kept |
| `DroneLifecycle.Drone.SetTarget` | src/Drone/drone.ts:195-198 | the new state is the steered old state |
| `DroneLifecycle.Drone.Update` | src/Drone/drone.ts:121-178 | the new state is one tick of the old state |
| `DroneLifecycle.Drone.CheckCollision` | src/Drone/drone.ts:125-134 | the new state is the collision step of the old state |
| `DroneLifecycle.Drone.CheckArrival` | src/Drone/drone.ts:141-162 | the new state is the arrival step of the old state |
| `DroneLifecycle.Drone.CompleteWaypoint` | src/Drone/drone.ts:144-157 | the new state takes the bonus and moves to the next waypoint, destroying the drone after the last |
| `DroneLifecycle.Drone.CountTick` | src/Drone/drone.ts:173-177 | the new state counts the tick and is destroyed when the budget is spent |
| `DroneLifecycle.Drone.Destroy` | src/Drone/drone.ts:214-217 | only the destroyed flag changes; destroying a destroyed drone changes nothing |
| `DroneLifecycle.Drone.Dispose` | src/Drone/drone.ts:258-264 | the drone is marked disposed and its body leaves the world; nothing else changes |
| `DroneLifecycle.Drone.Copy` | src/Drone/drone.ts:276-280 | the copy is a new drone at the spawn point in the initial state, carrying the original's score |
| `SwarmWriter.CirclePosition` | src/ASCII/writer.ts:163-169 | an idle-grid point lies in one of 15 columns right of the canvas centre and below it, on a 50-unit grid |
| `SwarmWriter.CirclePositionInjective` | src/ASCII/writer.ts:163-169 | different drones get different idle-grid points |
| `SwarmWriter.Without` | src/ASCII/writer.ts:263 | the filter keeps exactly the elements not in the claimed list, in order, and no more than the input |
| `SwarmWriter.Among` | src/ASCII/writer.ts:153-160 | the filter keeps exactly the elements that are in the selection list, in order |
| `SwarmWriter.WithoutAmongSplit` | src/ASCII/writer.ts:153-160 | the kept and the removed drones together are as many as the drones filtered |
| `SwarmWriter.Live` | src/ASCII/writer.ts:141 | the retiring list keeps exactly its drones that are not disposed |
| `SwarmWriter.FirstNearestUnique` | src/ASCII/writer.ts:291-299 | the first drone of least distance is unique |
| `SwarmWriter.IsClosestUnique` | src/ASCII/writer.ts:286-302 | the outcome of get_closest_drone is determined by the pool, the target and the spawn flag |
| `SwarmWriter.UnclaimedNonEmpty` | src/ASCII/writer.ts:261-265 | when fewer drones are claimed than exist, an unclaimed drone remains |
| `SwarmWriter.SpawnedAtLeast` | src/ASCII/writer.ts:259-271 | a duplicate-free result with more entries than the old drone list holds at least the shortfall in new drones |
| `SwarmWriter.NoSpawnWhenEnough` | src/ASCII/writer.ts:261-269 | with at least as many drones as points, every drone of the pass is an old one: nothing is spawned |
| `SwarmWriter.ReassignedExtend` | src/ASCII/writer.ts:259-271 | appending the next claim leaves the record of every earlier claim intact |
| `SwarmWriter.Writer.constructor` | src/ASCII/writer.ts:9-23 | a new writer has no word and empty live and retiring lists |
| `SwarmWriter.Writer.ClosestDrone` | src/ASCII/writer.ts:286-302 | the result is nothing for an empty pool; without spawning it is the first nearest drone; with spawning it is that drone only when strictly nearer than the spawn point, else nothing |
| `SwarmWriter.Writer.SetWord` | src/ASCII/writer.ts:218-281 | the same word changes nothing; a new word gives one drone per point, each picked as get_closest_drone picks from the drones still unclaimed and aimed at its point; spawned drones start fresh at the spawn point; unclaimed drones are destroyed and appended, in order, to the retiring list; validity is kept |
| `SwarmWriter.Writer.Retarget` | src/ASCII/writer.ts:259-279 | the retarget and retire loops, with the same guarantees as set_word for a new word |
| `SwarmWriter.Writer.Regroup` | src/ASCII/writer.ts:259-271 | the retarget loop: distinct drones, picked greedily and aimed at their points; drones not picked are untouched |
| `SwarmWriter.Writer.PickDrones` | src/ASCII/writer.ts:259-269 | every point claims, in order, the get_closest_drone pick among the unclaimed drones, or a new drone; the claims are distinct |
| `SwarmWriter.Writer.Claim` | src/ASCII/writer.ts:263-268 | one claim: an unclaimed drone picked as get_closest_drone picks, or a new drone at the spawn point |
| `SwarmWriter.Aim` | src/ASCII/writer.ts:270 | every claimed drone's state is the old state steered to its point |
| `SwarmWriter.Retire` | src/ASCII/writer.ts:273-278 | the retired drones are the old drones not claimed, in order; each is destroyed with nothing else changed; claimed drones are untouched |
| `SwarmWriter.DestroyAll` | src/ASCII/writer.ts:273-276 | every drone of the list is destroyed with nothing else changed |
| `SwarmWriter.Writer.Install` | src/ASCII/writer.ts:276-279 | the claimed drones become the live list and the retired drones are appended to the retiring list; validity is kept |
| `SwarmWriter.Writer.Update` | src/ASCII/writer.ts:111-160 | each drone's new state is one tick of its old state, after aiming it at its idle-grid point when the word is empty; exactly the drones destroyed by the tick leave the live list, in order, and are appended to the retiring list after the drones not yet disposed; validity is kept |
| `SwarmWriter.Writer.Idle` | src/ASCII/writer.ts:112-118 | with the empty word every drone is steered to its idle-grid point; otherwise no drone changes |
| `SwarmWriter.Writer.Advance` | src/ASCII/writer.ts:141-160 | the disposal filter, the tick loop and the removal filter, with the same guarantees as update |
| `SwarmWriter.TickSwarm` | src/ASCII/writer.ts:144-151 | the tick loop on valid drones: each advances one tick, the collected list holds exactly the destroyed ones, and every drone stays valid |
| `SwarmWriter.TickAll` | src/ASCII/writer.ts:144-151 | every drone advances one tick, and the collected list holds exactly the drones destroyed afterwards |
| `SwarmWriter.Writer.Cull` | src/ASCII/writer.ts:153-160 | the live list keeps the drones not collected and the collected ones are appended to the retiring list; no drone's state changes |
| `SwarmWriter.Remove` | src/ASCII/writer.ts:153-160 | the kept and removed lists are the two filters of the drones by the collected list; destroying an already destroyed drone changes nothing |
| `SwarmWriter.SplitByStatus` | src/ASCII/writer.ts:153-160 | filtering by the list of destroyed drones keeps only intact drones and removes only destroyed ones |
| `SwarmWriter.Writer.DisposeDrones` | src/ASCII/writer.ts:203-208 | every live drone is disposed, the live list becomes empty and the retiring list is unchanged |
| `SwarmWriter.DisposeAll` | src/ASCII/writer.ts:204-206 | every drone of the list is disposed with nothing else changed |

## Left out

- Physics: Matter.js bodies, thrusters, collision detection and movement are not modelled. The collision flag and the rounded distance to the target are per-tick inputs (`TickInput`).
- A drone's position is a constant: only the physics engine moves a body. So every drone the writer creates stays at the spawn point. When there are fewer drones than points, `IsClosest` never picks such a drone, because it is not strictly nearer than the spawn point. The model then spawns a new drone where the source could reuse a drone that has flown away.
- `calculate_action`, the neural network (`brain`), `freeze`, `unfreeze`, `draw` and the `target_vector` getter are outside the modelled core.
- Floating point: coordinates are integers, and scores and waypoint fractions are exact reals.
- Distances: the model compares squared Euclidean distances. `src/util.ts` (`calculate_distance`) is not part of this model. It is taken to be the Euclidean distance, whose order the squares preserve.
- The pixel positions of a word come from `convert_ascii` and the centring arithmetic (`src/ASCII/writer.ts:223-243`). They are an input of `SetWord`, because the font converter is not part of this model.
- The spawn point is a constructor parameter of the writer. `src/Matter/matter.ts` sets it from the canvas size, and that code is not modelled.
- `destroy` schedules `dispose` two seconds later with `setTimeout`. The timer is not modelled: `Destroy` only sets the flag, and `Dispose` is a separate operation.
- The mouse drone and the hover progress in `update` (`src/ASCII/writer.ts:122-139`), `init_mouse_drone`, `scroll`, `input_change`, the DOM elements and `load_drone_brain` are not modelled. They are browser I/O.
- `circle_timer` is advanced by `update`, but no live line of `get_circle_postion` reads it, so the model leaves it out.
- `async`/`await` interleaving is not modelled. Every operation runs to completion.
- `fitness` is only initialised by the modelled code.
