# Volume sensor flood-fill, modelled in Dafny

This project models the volume sensor from `Assets/VolumeSensor.cs` and proves
properties of the model. On every refresh the sensor floors the player position
to the grid. From that origin it runs a breadth-first flood-fill over the
lattice and sorts the cells it reaches into two sets:

- `nodes`: cells in line of sight of the origin. These are expanded further.
- `spawnNodes`: cells out of sight and farther than `minSpawnDist` in the x/z
  plane. These are leaves.

A neighbour can be skipped for four reasons: it is beyond `maxDistance`, it is
already recorded, it is inside the dead zone, or it is out of sight and too
close to spawn.

Layout:

- `geometry.dfy`, module `Geometry`: cells, `floor`, `findLayer`, the
  distances, and the six directions.
- `expansion.dfy`, module `Expansion`: one call of `CreateNeighbors` as a
  function `Expand` of the state, plus the lemmas about one expansion.
- `sensor.dfy`, module `Sensor`: the class `VolumeSensor`. Its methods
  `GenerateField` (the source's `GenerateFeild`) and `CreateNeighbors` update
  `nodes`, `spawnNodes`, `openList` and `intOrigin` in place, with the loops
  the source has. The module also holds the pass invariant and the lemmas that
  carry it through the loop.

Modelling decisions:

- Cells are integer triples and `resolution` is an integer. A neighbour is
  `cell + direction * resolution`.
- `maxDistance`, `minSpawnDist` and `deadZone` are reals of either sign.
- Every comparison of a square root with a threshold is modelled as a
  comparison of the squared distance with the squared threshold. The sign of
  the threshold is handled explicitly.
- `RootExceeds` and `RootBelow` prove that this is the same test as comparing
  the square root with the threshold.
- `openList` has no initializer (line 14) and is null until the first pass
  creates it (line 57). A call of `CreateNeighbors` before any pass would throw
  a `NullReferenceException` at line 99 when it enqueues an unobstructed
  neighbour. The model starts the queue empty and drops that exception. `Start`
  always runs a pass first, so within this file the difference cannot be seen.
- `Physics.Linecast` becomes the parameter `obstructed`, a pure total function
  of two cells. Because it is pure, its two calls at lines 91 and 96 agree.
- The player position becomes a parameter of `GenerateField`.

The model follows the code literally at these points:

- The layer comes from the x/z offsets only, as the comment at line 111 says
  ("the xz layer of a node"). The y offset plays no part (`FindLayer`).
- The test at line 76 that drops the up and down steps compares the vertical
  offset `abs(origin.y - cell.y)` with the layer. A cell is expanded
  horizontally only when that offset equals its layer (`DirectionsShape`). The
  origin always is, since both are 0 there. With resolution 1 the eight cells
  around the origin in its plane are too. With a larger resolution the first
  in-plane neighbours, such as `(resolution, 0, 0)`, have layer
  `abs(resolution) - 1` but vertical offset 0, so all six directions are used.
- Spawn candidates are the cells whose segment from the origin is obstructed.
- The origin is queued but not recorded (line 60). A neighbour can later
  rediscover it, record it and queue it again (`OriginRediscovered`). The
  second expansion of the origin adds nothing (`LaterReexpansionChangesNothing`).
- No restriction on `resolution` is needed: every enqueue records a new cell
  inside a finite box, so the pass terminates for every resolution.

## Model

| member | source | states |
|---|---|---|
| `Geometry.Floor` | Assets/VolumeSensor.cs:104-109 | each coordinate of the result is the largest integer not above the position's coordinate |
| `Geometry.FindLayer` | Assets/VolumeSensor.cs:112-124 | the layer is max(abs(dx), abs(dz)) - 1 when dx or dz is non-zero and 0 otherwise; the y offset does not enter; the result is never negative |
| `Geometry.DistanceSquared` | Assets/VolumeSensor.cs:84 | the squared Euclidean distance of line 84 is non-negative and zero exactly when the two cells coincide |
| `Geometry.FlatDistanceSquared` | Assets/VolumeSensor.cs:127-130 | the flat distance is non-negative and zero exactly when x and z agree |
| `Geometry.FlatDistanceSymmetric` | Assets/VolumeSensor.cs:127-130 | the flat distance is symmetric in its two arguments and ignores both y coordinates |
| `Geometry.RootExceeds` | Assets/VolumeSensor.cs:84 | for the non-negative root s of a squared distance d, s > t holds exactly when t < 0 or d > t² (the test at lines 84 and 91) |
| `Geometry.RootBelow` | Assets/VolumeSensor.cs:86 | for the non-negative root s of d, s < t holds exactly when t > 0 and d < t² (the dead-zone test) |
| `Geometry.FlatDistanceBelowMonotone` | Assets/VolumeSensor.cs:86-88 | a cell inside the dead-zone radius t is inside every larger radius |
| `Geometry.Offset` | Assets/VolumeSensor.cs:83 | a horizontal step keeps y, a vertical step keeps x and z |
| `Geometry.OffsetDistance` | Assets/VolumeSensor.cs:83 | every neighbour lies at distance abs(resolution) from its cell |
| `Geometry.WithinDistanceInBox` | Assets/VolumeSensor.cs:84 | every cell that passes the maxDistance filter lies in a finite cube around the origin |
| `Expansion.DirectionsShape` | Assets/VolumeSensor.cs:70-83 | when abs(origin.y - cell.y) equals the layer, exactly the four horizontal directions are used and no neighbour leaves the cell's y plane; otherwise all six axis directions are used, each neighbour at distance resolution |
| `Expansion.RecordClassification` | Assets/VolumeSensor.cs:91-100 | a neighbour that passes the filters goes to spawnNodes only, without being enqueued, when obstructed and flat-farther than minSpawnDist; to nodes and the back of the queue when unobstructed; and nowhere when obstructed and close |
| `Expansion.ExpandAlongExtends` | Assets/VolumeSensor.cs:81-101 | an expansion removes nothing: both sets grow, the old queue is a prefix of the new one, the cells appended are exactly the cells new in nodes, and the queue is unchanged when nodes is |
| `Expansion.ExpandAlongQueuesOnce` | Assets/VolumeSensor.cs:84-100 | an expansion queues each new reachable cell once: the queue grows by exactly the number of cells new in nodes, since a recorded cell is skipped at line 84 |
| `Expansion.ExpandAlongRecords` | Assets/VolumeSensor.cs:84-100 | every cell an expansion adds is a neighbour along the chosen directions, is within maxDistance, is outside the dead zone of the expanded cell's layer, was previously in neither set, and went to the set its line-of-sight test selects; no added cell is in both sets |
| `Expansion.ExpandAlongDisjoint` | Assets/VolumeSensor.cs:84-98 | an expansion keeps nodes and spawnNodes disjoint |
| `Expansion.SettledMonotone` | Assets/VolumeSensor.cs:84-100 | a neighbour whose examination changes nothing still changes nothing after the sets have grown |
| `Expansion.ClosedMonotone` | Assets/VolumeSensor.cs:70-101 | a cell none of whose neighbours would be recorded stays so after the sets have grown |
| `Expansion.ExpandAlongSettles` | Assets/VolumeSensor.cs:81-101 | after the loop over the directions, re-examining any of the neighbours would record nothing |
| `Expansion.ExpandAlongSettledIdentity` | Assets/VolumeSensor.cs:81-101 | the loop over directions whose neighbours are all settled leaves the state unchanged |
| `Expansion.ExpandCloses` | Assets/VolumeSensor.cs:68-102 | after CreateNeighbors(cell) the cell is closed |
| `Expansion.ClosedExpandIdentity` | Assets/VolumeSensor.cs:68-102 | CreateNeighbors on a closed cell changes nothing |
| `Expansion.ExpandIdempotent` | Assets/VolumeSensor.cs:68-102 | running CreateNeighbors twice on the same cell adds nothing the second time |
| `Expansion.LaterReexpansionChangesNothing` | Assets/VolumeSensor.cs:60-64 | expanding a cell again after any growth of the sets changes nothing, so a rediscovered origin is re-expanded harmlessly |
| `Expansion.OriginExpansion` | Assets/VolumeSensor.cs:60-63 | expanding the seed records its in-range, in-sight right-hand neighbour as the first cell of the queue, and never records the origin itself |
| `Expansion.NeighbourRediscoversOrigin` | Assets/VolumeSensor.cs:83-99 | expanding the origin's right-hand neighbour while the origin is unrecorded records the origin and appends it to the queue |
| `Expansion.OriginRediscovered` | Assets/VolumeSensor.cs:55-64 | after the seed is dequeued and expanded, the head of the queue is the origin's right-hand neighbour; dequeuing and expanding it, the second step of the pass, records the origin and queues it a second time |
| `Sensor.AdmissibleInRange` | Assets/VolumeSensor.cs:86-88 | a neighbour that passes the dead-zone filter for a layer that is not negative is outside the plain deadZone radius |
| `Sensor.ExpandPreservesPassInvariant` | Assets/VolumeSensor.cs:84-100 | CreateNeighbors keeps the pass invariant: disjoint sets, every recorded cell within maxDistance and outside the deadZone band, nodes unobstructed, spawnNodes obstructed and beyond minSpawnDist, every queued cell except the seed in nodes |
| `Sensor.DirectlyAboveNeverRecorded` | Assets/VolumeSensor.cs:86-88 | with a positive deadZone, no cell straight above or below the origin is ever in either set |
| `Sensor.DrainStep` | Assets/VolumeSensor.cs:61-64 | one dequeue-and-expand keeps the loop invariant and removes nothing; it either records a new cell of the finite box, or the queue shrinks; this is the termination measure |
| `Sensor.VolumeSensor.constructor` | Assets/VolumeSensor.cs:9-16 | the settings are stored and both sets start empty, as the initializers at lines 13 and 15 make them; the queue, which the source leaves null until the first pass, starts empty here |
| `Sensor.VolumeSensor.GenerateField` | Assets/VolumeSensor.cs:52-66 | the origin is the floored position; the pass terminates with an empty queue and the pass invariant; the origin and every cell of nodes are closed: none of their neighbours would be recorded if examined again |
| `Sensor.VolumeSensor.CreateNeighbors` | Assets/VolumeSensor.cs:68-102 | the new state is `Expand` of the old state: the directions chosen at line 76, each neighbour filtered and classified in order |

## Left out

- The `RoomUpdate` coroutine (Assets/VolumeSensor.cs:36-50) is engine scheduling with `WaitForSeconds`. A pass is `GenerateField` run to completion, and `refreshTime` is not modelled.
- `Start`, `OnDrawGizmos`, `gizmos`, `nodeAmount` and `spawnAmount` are out: they are start-up, rendering and diagnostics only.
- `minimumForRound` is declared but never used.
- `Assets/MagicLeap/Lumin/APIs/MLEyes.cs` is eye-tracking device glue with native bindings and no algorithmic content. It is not part of this model.
- `Physics.Linecast` and `player.transform.position` are engine services. They are parameters: a pure obstruction oracle and a real-valued position.
- Floating point is out. Positions, `resolution` and the thresholds are floats; here cells are exact integer triples, `resolution` is an integer, and distances are compared exactly through squares. The float hashing of `Vector3`, `sqrt` rounding and the `(int)` casts in `findLayer` (exact on the lattice) are not reproduced. A non-integer `resolution` is not modelled.
- Sensor.VolumeSensor.GenerateField: its contract does not pin down the final sets uniquely. It states soundness (the pass invariant) and completeness (every recorded cell and the origin are closed), but there is no reference function for the whole pass.
- That every cell of `nodes` is joined to the origin by a chain of neighbour steps is not stated. The model proves instead that every added cell is a neighbour of the cell being expanded (`ExpandAlongRecords`).
