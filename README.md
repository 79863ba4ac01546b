# MiniSollaris, index-level core, in Dafny

MiniSollaris is a two-dimensional N-body simulator. A `SolarSystem` holds an
array of `CelestialObject`s: bodies with integer positions in metres and
floating-point velocities. It advances them in steps with one of several
strategies:

- **Serial (`CalculateStep`).** Each body in array order computes its
  acceleration, velocity and position.
- **Two-phase.** Worker threads each own a list of bodies. In every step they
  first compute all new velocities (`CalculateNewVelocity`). After a barrier
  they move every body (`UpdatePosition`).
- **Slim.** Each body fills its half of a shared antisymmetric force table
  (`CalculateForces`). After a barrier each body sums its row of the table
  and moves (`UpdatePositions`).

This project models the discrete skeleton of these strategies:

- how the bodies are dealt to workers (round robin and zig-zag);
- how every body's list of pulling bodies (`CalculatableObjects`) is built;
- which force-table cells each body writes;
- which fields each half of a step reads and writes;
- what a counted run of steps computes;
- the proximity-guarded accumulation of `CelestialObject2`.

How the model is structured:

- **Floating point stays abstract.** The force law, double addition, the
  velocity update, `Math.Round`, the `(long)` cast of the slim update and
  the `G * m` products are uninterpreted functions in a `Physics` record.
  Every result holds for every choice of them, except the two exhibits
  `Motion.SerialStepDependsOnOrder` and `Slim.SlimMoveAsWrittenAsymmetric`,
  which use one concrete choice, `Motion.LinearPhysics`.
- **Positions are unbounded integers.**
- **Bodies are objects.** `CelestialObject` and `SolarSystem` are classes
  whose methods update their fields in place. The partitioners and peer
  lists work on array indices, with index `j` standing for `objects[j]`.
- **A ghost snapshot specifies the methods.** `SolarSystem.Snapshot()` reads
  every body's state into a value `seq<Body>`. The methods are proved
  against functions on that value (`Motion`, `Slim`). Those functions carry
  the lemmas: order independence, exact partition, Newton's third law and
  so on.
- **Threads run one after another.** A multi-threaded run is modelled as its
  barrier-synchronised sequential meaning: every worker's first phase, in
  worker order, then every worker's second phase. The theorems show that
  this order does not matter for the two-phase strategy. They also show that
  it does matter for the serial step.

Modules:

- `Vectors`: positions, vectors, `Physics`.
- `Partition`: worker count and partitioners.
- `Motion`: the serial and two-phase steps on snapshots.
- `Slim`: the force table and the slim step.
- `CelestialObjects`: the body class.
- `CelestialObject2`: the guarded acceleration.
- `Solar`: the `SolarSystem` class.

Two points of the code worth knowing before reading the model:

- The counted two-phase loop (`MiniSollaris/SolarSystem.cs:711`), the slim
  loop (`:265`) and the per-step locked loops (`:467`, `:499`) comment out
  the barrier after the second phase, so only the barrier between the two
  phases of a step is active there. The cycle-gated loop keeps both
  barriers (`:810`, `:815`) and then waits on the monitor after each cycle
  of steps (`:817`).
- The slim update `UpdatePositions` truncates with a `(long)` cast
  (`MiniSollaris/SolarSystem.cs:303-304`), whereas `UpdatePosition` of
  `CelestialObject` rounds with `Math.Round`
  (`MiniSollaris/CelestialObject.cs:213-214`).

## Model

| member | source | states |
|---|---|---|
| Partition.WorkerCount | MiniSollaris/SolarSystem.cs:93-95 | the worker count is the minimum of the processor count and the body count; with at least one processor it is zero exactly when there are no bodies |
| Partition.DivideObjectsPerThreads | MiniSollaris/SolarSystem.cs:884-895 | the lists are the round-robin deal; body `i` sits at position `i / count` of list `i % count`; list `t` holds `n / count` bodies, plus one when `t < n % count` |
| Partition.DivideObjectsPerThreadsSlim | MiniSollaris/SolarSystem.cs:158-172 | the `thread`/`step` walk deals body `j` to `r` if `r = j mod 2W` is below `W`, else to `2W-1-r`; list `t` holds exactly the bodies dealt to `t` |
| Partition.ZigZagAdvance | MiniSollaris/SolarSystem.cs:166-170 | one update of `thread` and `step` moves from the closed form for body `j` to the closed form for body `j + 1` |
| Partition.DealtMembers | MiniSollaris/SolarSystem.cs:884-895 | a worker's list holds exactly the indices assigned to that worker |
| Partition.DealtIncreasing | MiniSollaris/SolarSystem.cs:884-895 | every worker's list keeps array order |
| Partition.DealPermutation | MiniSollaris/SolarSystem.cs:158-172 | under either scheme, the concatenated lists name every body exactly once |
| Partition.RoundRobinPlacement | MiniSollaris/SolarSystem.cs:890-894 | body `j` is at position `j / count` of list `j % count`, and the list sizes are `n / count`, or one more for `t < n % count` |
| Partition.RoundRobinBalanced | MiniSollaris/SolarSystem.cs:884-895 | round-robin list sizes differ by at most one |
| Partition.ZigZagBlock | MiniSollaris/SolarSystem.cs:150-155 | in every complete block of `2W` bodies starting at `b`, worker `t` gets exactly bodies `b + t` and `b + 2W - 1 - t`, whose indices sum to `2b + 2W - 1` |
| Partition.ZigZagTwoWorkers | MiniSollaris/SolarSystem.cs:153-154 | with costs 3, 2, 1, 0 and two workers the lists are `{3, 0}` and `{2, 1}` |
| Partition.ZigZagSingleWorker | MiniSollaris/SolarSystem.cs:158-172 | with one worker every body lands in list 0, in order |
| Partition.PermutationFacts | MiniSollaris/SolarSystem.cs:884-895 | a permutation of the body indices stays in range, repeats nothing and misses nothing |
| Motion.AccumulateAppend | MiniSollaris/CelestialObject.cs:235-249 | the accumulation over `a + b` continues the accumulation over `a`: contributions are added strictly in list order |
| Motion.NewVelocity | MiniSollaris/CelestialObject.cs:194-198 | `CalculateNewVelocity` leaves the body's position, `StdGravPar`, mass and peer list as they were |
| Motion.NewPosition | MiniSollaris/CelestialObject.cs:211-215 | `UpdatePosition` leaves the velocity, acceleration, `StdGravPar`, mass and peer list as they were |
| Motion.VelocitySweep | MiniSollaris/CelestialObject.cs:189-198 | a sweep of `CalculateNewVelocity` calls moves no body and changes no mass, `StdGravPar` or peer list |
| Motion.PositionSweep | MiniSollaris/CelestialObject.cs:203-215 | a sweep of `UpdatePosition` calls changes no velocity, acceleration or peer list |
| Motion.SerialSweep | MiniSollaris/SolarSystem.cs:313-319 | the serial sweep keeps every peer list, so the snapshot stays well formed |
| Motion.TwoPhaseStep | MiniSollaris/SolarSystem.cs:700-712 | one two-phase step keeps every mass and peer list |
| Motion.AccelerationFrame | MiniSollaris/CelestialObject.cs:235-249 | a body's acceleration depends only on its own position and peer list and on its peers' positions and `StdGravPar` |
| Motion.VelocitySweepAt | MiniSollaris/CelestialObject.cs:189-198 | after a velocity sweep over distinct bodies, each body of the sweep holds what `CalculateNewVelocity` computes from the starting state, and every other body is untouched |
| Motion.PositionSweepAt | MiniSollaris/CelestialObject.cs:203-215 | the same for a position sweep |
| Motion.VelocitySweepIsPhase | MiniSollaris/CelestialObject.cs:189-191 | a first phase over any permutation of the bodies equals the phase computed from one snapshot |
| Motion.PositionSweepIsPhase | MiniSollaris/CelestialObject.cs:203-205 | a second phase over any permutation equals the phase |
| Motion.VelocitySweepAppend | MiniSollaris/SolarSystem.cs:702-705 | sweeping one worker list after another is the sweep over their concatenation |
| Motion.PositionSweepAppend | MiniSollaris/SolarSystem.cs:707-710 | the same for the second phase |
| Motion.TwoPhaseOrderFree | MiniSollaris/CelestialObject.cs:189-207 | thread safety of the two-phase step: whatever orders the two phases visit the bodies in, the result is the same step |
| Motion.StepsNext | MiniSollaris/SolarSystem.cs:700-712 | step `count + 1` is one two-phase step after step `count` |
| Motion.SerialStepDependsOnOrder | MiniSollaris/SolarSystem.cs:313-319 | the serial step is order-dependent: two bodies that never meet, processed in the two orders, end in different places |
| Slim.NewtonThirdLaw | MiniSollaris/SolarSystem.cs:283-286 | in the completed force table, cell `(c, r)` is minus cell `(r, c)` for every pair, the diagonal included |
| Slim.SlimBody | MiniSollaris/SolarSystem.cs:294-305 | `UpdatePositions` changes only the position, moved by the two lines as written (the Y line reads the X velocity); velocity, acceleration, mass, `StdGravPar` and peer list stay |
| Slim.SlimMovedNext | MiniSollaris/SolarSystem.cs:261-264 | moving one more body extends the set of moved bodies by that body |
| Slim.SlimMovedAll | MiniSollaris/SolarSystem.cs:261-264 | once every body has moved, in any order and any grouping, the result is one slim step |
| Slim.SlimStepsNext | MiniSollaris/SolarSystem.cs:254-266 | slim step `count + 1` is one slim step after slim step `count` |
| Slim.SlimStepsKeepVelocity | MiniSollaris/SolarSystem.cs:294-305 | however many slim steps run, no body's velocity, mass, `StdGravPar` or peer list changes |
| Slim.SlimMoveSymmetric | MiniSollaris/SolarSystem.cs:303-304 | the corrected update treats both axes alike: swapping X and Y in every input swaps them in the result |
| Slim.SlimMoveAsWrittenAsymmetric | MiniSollaris/SolarSystem.cs:303-304 | the update as written moves a body with velocity (0, 1) by (0, 0) and one with velocity (1, 0) by (1, 1) |
| CelestialObjects.CelestialObject.Default | MiniSollaris/CelestialObject.cs:33-36 | the parameterless constructor sets `StdGravPar` to `G * 0`, since `Mass` still holds 0 |
| CelestialObjects.CelestialObject.constructor | MiniSollaris/CelestialObject.cs:52-62 | every field takes the given value, `StdGravPar = G * mass`, acceleration zero, no peers |
| CelestialObjects.CelestialObject.Relative | MiniSollaris/CelestialObject.cs:107-119 | position and velocity are the given offsets plus the parent's, on each axis; the parent is not modified |
| CelestialObjects.CelestialObject.CalculateNewPosition | MiniSollaris/CelestialObject.cs:179-184 | acceleration from the peers, then velocity from that acceleration, then position from that velocity; nothing else changes |
| CelestialObjects.CelestialObject.CalculateNewVelocity | MiniSollaris/CelestialObject.cs:194-198 | new acceleration and velocity from the old position and peers; the position is not written |
| CelestialObjects.CelestialObject.UpdatePosition | MiniSollaris/CelestialObject.cs:211-215 | each axis moves by the rounded displacement; only the position changes |
| CelestialObjects.CelestialObject.UpdateVelocity | MiniSollaris/CelestialObject.cs:221-225 | each axis of the velocity takes one kick from the acceleration; only the velocity changes |
| CelestialObjects.CelestialObject.CalculateAcceleration | MiniSollaris/CelestialObject.cs:235-249 | the acceleration is the in-order accumulation over `CalculatableObjects` from zero, so zero with no peers |
| CelestialObject2.CalculateAcceleration | MiniSollaris/CelestialObject2.cs:17-43 | the acceleration is the sum over the massive non-self candidates before the first one that overlaps, in array order; only `acceleration` is written |
| CelestialObject2.QualifyingMembers | MiniSollaris/CelestialObject2.cs:27 | a candidate is considered exactly when it is massive and not the body itself |
| CelestialObject2.StopsAtTouch | MiniSollaris/CelestialObject2.cs:32-34 | at the first qualifying overlap the result is the sum over the qualifying candidates before it |
| CelestialObject2.NoTouchFullSum | MiniSollaris/CelestialObject2.cs:19-41 | with no qualifying overlap the result is the sum over every qualifying candidate |
| CelestialObject2.LaterCandidatesIgnored | MiniSollaris/CelestialObject2.cs:32-37 | once a qualifying candidate overlaps, no later candidate contributes |
| Solar.PullersAreMassive | MiniSollaris/SolarSystem.cs:897-904 | the LINQ filter over bodies keeps exactly the bodies at the massive indices other than the excluded one |
| Solar.FirstNamed | MiniSollaris/SolarSystem.cs:915-919 | the index found is the first whose name matches, or the body count when none does |
| Solar.WrittenDisjoint | MiniSollaris/SolarSystem.cs:276-287 | `CalculateForces` calls for different `Number`s write disjoint cells |
| Solar.WrittenBySmaller | MiniSollaris/SolarSystem.cs:276-287 | every off-diagonal cell is written by exactly the call for the smaller index, and none writes the diagonal |
| Solar.SolarSystem.SelectObject | MiniSollaris/SolarSystem.cs:915-919 | `None` exactly when no body has the name (the source throws); otherwise the first body in array order with that name |
| Solar.SolarSystem.CalculateContinuousStepsGMms | MiniSollaris/SolarSystem.cs:121-133 | a fresh `n` by `n` table with `G * m_i * m_j` in every cell |
| Solar.SolarSystem.constructor | MiniSollaris/SolarSystem.cs:44-67 | keeps the bodies and time step, fills `gMms`, zero force table, full peer lists; the system is valid (the same steps as `Reset`) |
| Solar.SolarSystem.Reset | MiniSollaris/SolarSystem.cs:922-930 | replaces bodies and time step and rebuilds every table: zero forces, full peer lists, valid system |
| Solar.SolarSystem.Rebuild | MiniSollaris/SolarSystem.cs:926-929 | fresh `gMms`, zero force table and full peer lists for the current bodies |
| Solar.SolarSystem.NewTables | MiniSollaris/SolarSystem.cs:926-928 | `gMms` matches the masses, a fresh all-zero force table with a zero diagonal, and every body found at its index |
| Solar.SolarSystem.ZeroForces | MiniSollaris/SolarSystem.cs:49 | the freshly allocated `n` by `n` force table is zero in every cell |
| Solar.SolarSystem.AssignCalculatableObjects | MiniSollaris/SolarSystem.cs:897-904 | every body's `CalculatableObjects` are the bodies at its full peer indices: the massive bodies other than itself |
| Solar.SolarSystem.FullPeersMembers | MiniSollaris/SolarSystem.cs:897-904 | body `k` lists `j` exactly when `j` is massive and `j != k`, in increasing order; so no body lists itself and no non-massive body is listed |
| Solar.SolarSystem.LinkFull | MiniSollaris/SolarSystem.cs:899-903 | after the loop, body `k`'s `CalculatableObjects` are the bodies at the indices of the massive bodies other than `k` |
| Solar.SolarSystem.AssignCalculatableObjectsSlim | MiniSollaris/SolarSystem.cs:140-147 | `Number == i` for every body, and its `CalculatableObjects` are the bodies at its slim peer indices |
| Solar.SolarSystem.NumberSlim | MiniSollaris/SolarSystem.cs:142-146 | body `i` gets `Number = i` and the massive bodies after it |
| Solar.SolarSystem.SlimPeersMembers | MiniSollaris/SolarSystem.cs:140-147 | body `k` lists `j` exactly when `k < j` and `j` is massive, in increasing order; the last body's list is empty |
| Solar.SolarSystem.VelocityAt | MiniSollaris/SolarSystem.cs:704 | `CalculateNewVelocity` on body `k` changes entry `k` of the snapshot to `NewVelocity` and nothing else |
| Solar.SolarSystem.PositionAt | MiniSollaris/SolarSystem.cs:709 | `UpdatePosition` on body `k` changes entry `k` to `NewPosition` and nothing else |
| Solar.SolarSystem.StateAt | MiniSollaris/SolarSystem.cs:317 | `CalculateNewPosition` on body `k` changes entry `k` to `NewState` and nothing else |
| Solar.SolarSystem.CalculateStep | MiniSollaris/SolarSystem.cs:313-319 | the new state is the serial sweep in array order; the system stays valid |
| Solar.SolarSystem.SerialPass | MiniSollaris/SolarSystem.cs:315-318 | the loop of `CalculateStep`: bodies step one after another in array order, each seeing its predecessors' new positions; the peer lists stay linked |
| Solar.SolarSystem.VelocityPass | MiniSollaris/SolarSystem.cs:702-705 | one worker's first phase is the velocity sweep over its list |
| Solar.SolarSystem.PositionPass | MiniSollaris/SolarSystem.cs:707-710 | one worker's second phase is the position sweep over its list |
| Solar.SolarSystem.VelocityPhases | MiniSollaris/SolarSystem.cs:702-706 | all workers' first phases are the velocity sweep over the concatenated lists |
| Solar.SolarSystem.PositionPhases | MiniSollaris/SolarSystem.cs:707-710 | all workers' second phases are the position sweep over the concatenated lists |
| Solar.SolarSystem.TwoPhases | MiniSollaris/SolarSystem.cs:700-712 | with lists that name every body once, one step is `TwoPhaseStep`, whatever the lists |
| Solar.SolarSystem.NextStep | MiniSollaris/SolarSystem.cs:700-712 | step `j + 1` follows step `j` |
| Solar.SolarSystem.CalculateContinuousSteps | MiniSollaris/SolarSystem.cs:696-713 | `steps` counted two-phase steps give `Steps(steps)` of the starting state |
| Solar.SolarSystem.StartThreadsPerCoreCounted | MiniSollaris/SolarSystem.cs:636-645 | round-robin lists for `min(procs, n)` workers, then `steps` two-phase steps |
| Solar.SolarSystem.CalculateForces | MiniSollaris/SolarSystem.cs:273-288 | writes exactly the cells `(num, i)` and `(i, num)` for `num < i < n`, with the pair force and its negation; every other cell and the zero diagonal stay |
| Solar.SolarSystem.UpdatePositions | MiniSollaris/SolarSystem.cs:294-305 | sums row `num` of the table in column order and moves only this body with the two lines as written, keeping its velocity |
| Solar.SolarSystem.ForcesPass | MiniSollaris/SolarSystem.cs:256-259 | after one worker's `CalculateForces` calls, every cell whose smaller index the worker holds has the snapshot's force; every other cell is kept |
| Solar.SolarSystem.ForcesPhase | MiniSollaris/SolarSystem.cs:256-260 | after every worker's calls, every cell holds the snapshot's force, whatever it held before |
| Solar.SolarSystem.MovesPass | MiniSollaris/SolarSystem.cs:261-264 | one worker's `UpdatePositions` calls move exactly its bodies against the completed table |
| Solar.SolarSystem.MovesPhase | MiniSollaris/SolarSystem.cs:261-264 | every worker's second phase is one slim step of the snapshot |
| Solar.SolarSystem.SlimStepOnce | MiniSollaris/SolarSystem.cs:254-266 | one slim step, with the zero diagonal kept |
| Solar.SolarSystem.NextSlimStep | MiniSollaris/SolarSystem.cs:254-266 | slim step `j + 1` follows slim step `j` |
| Solar.SolarSystem.CalculateContinuousStepsSlim | MiniSollaris/SolarSystem.cs:250-269 | `steps` counted slim steps give `SlimSteps(steps)` of the starting state |
| Solar.SolarSystem.Renumber | MiniSollaris/SolarSystem.cs:97 | rebuilding the slim peer lists keeps the bodies' state and sets their numbers |
| Solar.SolarSystem.RunSlim | MiniSollaris/SolarSystem.cs:96-100 | slim peer lists, then `steps` slim steps of the starting state |
| Solar.SolarSystem.StartThreadsSlim | MiniSollaris/SolarSystem.cs:90-101 | zig-zag lists for `min(procs, n)` workers, slim peer lists, then `steps` slim steps |

## Left out

- Threads, `Barrier`, `Thread.Start`, `GenerateThreads*`, cancellation
  tokens and locks are not modelled. Each run is its barrier-synchronised
  sequential meaning: every worker's first phase, in worker order, then
  every worker's second phase.
- The missing second barrier (`MiniSollaris/SolarSystem.cs:265` and `:711`)
  is not modelled. A worker that finishes its second phase early can start
  the next step's first phase while other workers are still moving bodies.
  The model assumes every phase ends before the next one begins.
  `Motion.SerialStepDependsOnOrder` shows that interleaving matters once
  bodies move while others are still reading positions.
- Floating-point arithmetic is not modelled. The force law, double
  addition, `v + a * dt`, `Math.Round`, the `(long)` cast of the slim
  update and `G * m` products are uninterpreted functions of `Physics`.
  NaN and infinity from coincident bodies are therefore not modelled.
- 64-bit overflow of `long` positions is not modelled: positions are
  unbounded integers.
- `CelestialObject2.CalculateAcceleration`: the overlap test is exact on the
  integer coordinates. The source computes it in `double`
  (`MiniSollaris/CelestialObject2.cs:29-32`): the squared distance and the
  squared radius sum are rounded once they exceed 2^53, that is for
  differences above about 9.5e7 metres. Since rounding is monotone, the
  source's test can then differ from the exact one only when the two squares
  are within rounding of each other.
- `forcesSum` is allocated by the constructors and `Reset` but is never read
  by the modelled code, so it is not modelled.
- The path constructor and `Reset(path, …)` read the bodies from a JSON
  file. The model takes the bodies as a parameter; JSON parsing is not
  modelled.
- The polar-coordinate constructors (`MiniSollaris/CelestialObject.cs:80`,
  `:138`) need trigonometry, and `GenerateShape` and `Picture` are user
  interface. None is modelled.
- The constructor of `CelestialObject2` only calls the base constructor and
  is not modelled separately.
- The RK4 methods, the `Parallel.ForEach` strategies, the cancellation-token
  and stepped or locked strategies, the benchmarks and the user
  interface are not part of this model.
- Solar.SolarSystem.constructor and Solar.SolarSystem.Reset require that no
  body occurs twice in the array. The source does not check this. With a
  repeated body, `objects[i] != j` would drop both copies from each
  other's lists, and the index map used to state the contracts would not
  exist.
- Solar.SolarSystem.StartThreadsSlim and
  Solar.SolarSystem.StartThreadsPerCoreCounted require at least one processor.
  `Environment.ProcessorCount` is always at least one.
- The slim strategy reads the force table and ignores the peer lists that
  `AssignCalculatableObjectsSlim` builds. `CalculateForces` also ignores
  `IsCalculatable`, as written. So massless bodies still pull in the slim
  strategy.
- Array aliasing between bodies and their callers is not modelled. The
  constructor at `MiniSollaris/CelestialObject.cs:52-62` stores the
  caller's `Position` and `Velocity` arrays by reference (`:58-59`); the
  model holds them as values, so a caller that shared one array between
  two bodies, or changed it later, would see behaviour the model does not
  describe.
- Null references are not modelled. A body built by the constructor at
  `MiniSollaris/CelestialObject.cs:52-62` keeps `CalculatableObjects` null
  until a `SolarSystem` assigns it, and `CalculateAcceleration` on it
  would throw; the model starts every peer list empty, so it gives zero
  acceleration there. A null `Name` is modelled as the empty string.

## Findings

| source | as written | input that shows it | evidently intended | confidence | as-written member | corrected member |
|---|---|---|---|---|---|---|
| MiniSollaris/SolarSystem.cs:304 | the Y position is updated with `obj.Velocity[0]`, the X velocity | a body with velocity (0, 1), no force, mass 1, time step 1 moves by (0, 0); with velocity (1, 0) it moves by (1, 1) | `obj.Velocity[1]` on the Y line, so that both axes are updated alike | high; not executed | Slim.SlimMoveAsWritten, Slim.SlimMoveAsWrittenAsymmetric | Slim.SlimMove, Slim.SlimMoveSymmetric |

The slim strategy of the model (`Slim.SlimBody` and everything built on it,
up to `Solar.SolarSystem.StartThreadsSlim`) moves bodies with the update as
written; the corrected update and its symmetry are stated beside it.
