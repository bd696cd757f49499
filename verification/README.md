# Rubik's cube core, modelled in Dafny

This project models the core of `rubiks.js`, a generalised N×N×N twisty cube with animated slice rotations. The model covers three parts:

- **Piece layout and face geometry.** `setSize` keeps only the boundary cells of the N³ lattice, gives each one the faces it shows, and places it at a centre. `faceNormal` gives each face an axis, and the rotation sign comes from that axis.
- **Ring selection.** `Rubiks.ring` picks the pieces that currently lie in one layer counted from a face.
- **Rotation scheduling.** `RotationAnim` is a time-budget state machine. `Rubiks.rot` appends such tasks to the FIFO queue `anims`, and `Rubiks.update` drains a time budget through that queue.

Modules, leaves first:

| file | module | models |
|---|---|---|
| common.dfy | `Common` | the two exceptions as a `Result`, plus small helpers |
| geometry.dfy | `Geometry` | `Face`, `faceNormal`, the axis derivation, the quarter turn a finished task applies |
| layout.dfy | `Layout` | the three nested loops of `setSize` |
| rings.dfy | `Rings` | `Rubiks.ring`, including its epsilon test |
| ringcount.dfy | `RingCount` | how many pieces `ring` selects from a freshly built cube |
| animation.dfy | `Animation` | `RotationAnim`: the constructor and `update` |
| rubiks.dfy | `Rubiks` | the `Rubiks` object: constructor, `setSize`, `rot`, `update` |

Representation choices:

- **Exact centres.** A centre is kept in doubled lattice units. Cell coordinate k of a size-n cube sits at 2k+1−n, which is the source's real centre multiplied by 2n. `Layout.CentreExact` and `Rings.NearIffOnLayer` connect these integers to the real-valued formulas the source uses.
- **Angles.** Angles are measured in quarter turns (units of π/2), so every proportional angle sum is an exact `real`.
- **Time.** Time is a `real` in the source's units (milliseconds).
- **Values, not objects.** The object and its tasks are immutable values. Every operation returns the new object.
- **Children and resolved parts.** A task's resolved parts are indices into the children. A `generation` counter records which `setSize` created the current children. A task resolved before a resize therefore holds detached objects, and turning them changes no current child (`Rubiks.ResizeDetaches`). A second invariant, `Rubiks.PartsCurrent`, says that no queued task holds parts from a later piece set than the current one; every operation keeps it.
- **Promises.** The promise `rot` returns is a ticket number. Its `resolve` callback appends that ticket to `settled`.
- **When pieces move.** In the source, pieces move a little on every update. The model moves them in the one pass that uses up the task's time (`Rubiks.UsesUp`): the parts then turn the full quarter at once. In the source that is also the pass after which the rotation matrices applied add up to ±π/2. Ring selection happens only at a task's first update, and because the queue is FIFO, every earlier task has used up its time by then. So ring selection only ever sees the lattice positions of completed turns.

Literal behaviour of the code that the model keeps on purpose:

- **The strict `>`.** The comparison at `rubiks.js:244` is strict. So a budget exactly equal to a task's remaining time uses up that time, and turns the parts the whole way, but does not finish the task. The task finishes on the next call, consuming 0 and moving nothing. Its promise resolves and it is removed from the queue only then (`Rubiks.ExactBudgetDefersCompletion`, `Rubiks.ExactBudgetKeepsLast`).
- **`setSize` keeps the queue.** `setSize` resets a field named `animations`, not the queue `anims`, so queued rotations survive a resize (`Rubiks.SetSize`); one already resolved turns only the old, detached children (`Rubiks.ResizeDetaches`).
- **The extra `axis` argument.** `rot` passes `axis` to `ring`, and `ring` ignores it. `Animation.Request` therefore records only the face and the layer index.
- **The unused `theta` field.** `RotationAnim` sets `theta` to 0 and never updates it. Instead, the model keeps `turned`: the sum of the `deltaTheta` values applied so far.

- **No size check.** `setSize` does not check its argument; a size ≤ 0 creates no pieces (`Layout.PiecesInBox`).

## Model

| member | source | states |
|---|---|---|
| Geometry.Normal | rubiks.js:37-46 | every face's normal has exactly one nonzero component, equal to ±1; along the face's own axis it is +1 for Right, Up and Front and −1 for Left, Down and Back |
| Geometry.DeriveAxis | rubiks.js:127-128 | the axis derivation throws "Unable to determine axis" exactly for the zero vector, and otherwise returns an axis on which the vector is nonzero |
| Geometry.FaceAxisDerivable | rubiks.js:153-154 | on a face normal the axis derivation never throws and returns the face's own axis (x for Left/Right, y for Down/Up, z for Back/Front) |
| Geometry.QuarterAngle | rubiks.js:157-158 | the rotation angle is one quarter turn, negative exactly when the normal's component on the axis is positive |
| Geometry.QuarterTurn | rubiks.js:255-258 | the rotation by ±π/2 about axis e maps a centre v to e(e·v) ± e×v (Rodrigues' formula at a right angle, + for a positive angle); it keeps the axis coordinate, and keeps a centre inside the cube exactly when it was inside |
| Geometry.HalfTurn | rubiks.js:255-258 | two quarter turns the same way keep the axis coordinate and negate the other two, so a centre off the axis is moved by one, two or three turns |
| Geometry.QuarterTurnInverse | rubiks.js:255-258 | a quarter turn one way and then the other way about the same axis restores the centre |
| Geometry.FourQuarterTurns | rubiks.js:255-258 | four quarter turns the same way about one axis restore every centre |
| Layout.ExposedFaces | rubiks.js:80-87 | a cell shows Down iff y=0, Up iff y=N−1, Back iff z=0, Front iff z=N−1, Left iff x=0 and Right iff x=N−1; its face list is non-empty iff the cell is on the boundary |
| Layout.CentreExact | rubiks.js:98 | the centre k/N − 0.5 + 0.5/N equals the doubled coordinate (2k+1−N)/2N and lies strictly inside (−0.5, 0.5) |
| Layout.PiecesMembership | rubiks.js:76-103 | a piece is created exactly for each lattice cell with a coordinate equal to 0 or N−1, with that cell's centre and exposed faces |
| Layout.PiecesInBox | rubiks.js:76-103 | every created centre lies strictly inside the cube, and a size ≤ 0 creates no piece |
| Layout.PieceCount | rubiks.js:76-103 | setSize(N) creates N³ − max(0, N−2)³ pieces |
| Rings.NearIffOnLayer | rubiks.js:131-139 | on lattice centres, the test \|position − pos\| ≤ 0.1/N (pos mirrored for a positive normal) holds exactly on lattice coordinate index, or N−1−index for a positive normal |
| Rings.Select | rubiks.js:135-142 | the loop over the children keeps exactly the children within epsilon of the target, in child order |
| Rings.Ring | rubiks.js:123-143 | ring(face, index) never throws and returns, in child order, exactly the pieces whose coordinate on the face's axis is lattice layer index (negative normal) or N−1−index (positive normal) |
| Rings.RingOutOfRange | rubiks.js:130-142 | a layer index outside [0, N) selects no piece |
| RingCount.RingLength | rubiks.js:135-142 | the ring holds exactly as many pieces as there are children on its lattice layer |
| RingCount.RingSize | rubiks.js:123-143 | on a freshly built cube, ring(face, index) for index in [0, N) holds N² pieces for an outer layer (index 0 or N−1) and 4(N−1) for a middle layer |
| Animation.PendingValid | rubiks.js:218-228 | a freshly constructed task satisfies the task invariant: time 0, no angle applied, parts unresolved, not done |
| Animation.ResolveParts | rubiks.js:162 | the deferred parts function returns the ring of the task's face and index in the cube as it is when called |
| Animation.AngleShare | rubiks.js:252 | adding one update's deltaTheta to the angle applied so far gives the time-proportional share of the summed time |
| Animation.TaskUpdate | rubiks.js:235-267 | update throws iff the task is done; resolves the parts iff they are unresolved, and keeps them otherwise; consumes min(d, totalTime − time) and adds it to time; becomes done and fires the callback iff d strictly exceeds the remaining time; keeps 0 ≤ time ≤ totalTime and applied angle = totalTheta·time/totalTime |
| Animation.FeedKeepsValid | rubiks.js:235-249 | over any run of non-negative updates, each against the cube as it is at that call, the task invariant holds, time grows by exactly the time consumed, resolved parts are reused, and an update after done throws |
| Animation.FeedAngles | rubiks.js:249-252 | the deltaTheta values of any run, whatever cube each call sees, add up to totalTheta·(time consumed)/totalTime however the time was split, and to the remaining angle once the task is done |
| Animation.FeedCallsOnce | rubiks.js:238-264 | over any run, whatever cube each call sees, the parts function is called at most once (on the first update) and the callback fires at most once, exactly in the run that made the task done |
| Animation.ProportionalAngle | rubiks.js:252 | two states of the angle invariant differ by the share of the time between them, and a task whose time is all used has applied its total angle |
| Rubiks.New | rubiks.js:58-64 | the constructor gives an empty queue and the children of setSize(size); with a positive animation time the object invariant holds |
| Rubiks.SetSize | rubiks.js:70-104 | setSize replaces the children with the layout of the new size and keeps the queue anims (only the field animations is reset); the new children are a later piece set than the old; it preserves the object invariant and PartsCurrent |
| Rubiks.Rot | rubiks.js:151-164 | rot never throws; it appends exactly one pending task (the face's axis, −1 quarter turn for a positive normal and +1 otherwise, animationTime) to the back of the queue, returns a fresh ticket and changes nothing else |
| Rubiks.RotKeepsValid | rubiks.js:151-164 | rot preserves the object invariant; the new ticket is above every ticket already handed out |
| Rubiks.TurnPieces | rubiks.js:255-259 | every piece among the task's parts has its centre turned by the quarter turn about the task's axis; every other piece is unchanged; faces, axis coordinates and containment in the cube are kept |
| Rubiks.UpdateFrontMoves | rubiks.js:249-259 | one pass of the loop moves the children exactly when it uses up the front task's remaining time, and then turns the front's parts a quarter; a pass that only marks the task done moves nothing; for a task with a non-zero angle, that pass is exactly the update that brings the applied angle up to totalTheta |
| Rubiks.UpdateFront | rubiks.js:111-114 | one pass of the loop uses at most the budget; it removes the front iff budget is left over, and then records the front's callback; otherwise the queue keeps its length, only the front has progressed and no promise resolved |
| Rubiks.UpdateFrontKeepsValid | rubiks.js:111-114 | one pass keeps the object invariant (in particular no finished task stays queued) and hands out no promise anew |
| Rubiks.UpdateFrontBudget | rubiks.js:112-113 | one pass spends exactly the outstanding time the queue loses; a removed front used exactly its remaining time; a kept front used the whole budget and holds its resolved parts |
| Rubiks.Update | rubiks.js:110-115 | update terminates and never updates a finished task; on exit the budget is ≤ 0 or the queue is empty; a non-positive budget changes nothing; an emptied queue leaves budget over |
| Rubiks.UpdateConserves | rubiks.js:110-115 | the budget update uses equals the outstanding time the queue loses, and resolved plus queued tickets are unchanged |
| Rubiks.UpdateSettlesInOrder | rubiks.js:110-115 | after update, the promises of exactly the first k queued tasks have been resolved, in queue order, where k tasks left the queue |
| Rubiks.UpdateKeepsTail | rubiks.js:110-115 | after update the queue is the old queue without its first k tasks, untouched except for the new front's progress |
| Rubiks.EnoughBudgetDrains | rubiks.js:110-115 | a budget larger than the outstanding time finishes every queued task, in order, and leaves the excess over |
| Rubiks.ExactBudgetKeepsLast | rubiks.js:244 | a budget exactly equal to the outstanding time leaves a non-empty queue of tasks that have used all their time but are not done |
| Rubiks.ExactBudgetDefersCompletion | rubiks.js:244-258 | a rotation given exactly animationTime turns its ring the full quarter in that call but stays queued with its promise pending; the next positive update finishes it consuming 0 and moving nothing, resolves its promise and passes the whole budget on |
| Rubiks.UpdateSplit | rubiks.js:110-115 | update(a+b) leaves the same object as update(a) followed by update(b), for all positive a and b |
| Rubiks.SplitPastFront | rubiks.js:111-113 | when the first slice already finishes the front task, update(a) and update(a+b) remove the same front the same way and differ only in the budget they carry on, by b |
| Rubiks.UpdateKeepsPartsCurrent | rubiks.js:238-241 | update resolves parts only against the children the cube has at that call, so no queued task ever holds parts from a later piece set than the current one |
| Rubiks.ResizeDetaches | rubiks.js:70-73 | after setSize(n), a queued task resolved against the old children turns only those detached objects: the pass that finishes it leaves the new children exactly as setSize(n) laid them out |
| Rubiks.Cycle | rubiks.js:110-164 | a rot followed by an update keeps the object invariant |
| Rubiks.OneTurn | rubiks.js:151-164 | on an idle cube, rot(face, index) followed by an update longer than animationTime turns exactly ring(face, index) a quarter about the face's axis (clockwise seen from the face), resolves the new promise, empties the queue and changes nothing else |
| Rubiks.RingAfterTurn | rubiks.js:123-143 | after the ring of a face has turned about that face's axis, ring(face, index) selects the same children in the same order |
| Rubiks.FourRot | rubiks.js:151-164 | four completed rot(face, index) calls on an idle cube put every child back where it started and leave the queue empty |
| Rubiks.FourRotSettles | rubiks.js:161-163 | those four rotations resolve their four promises in the order they were made |
| Rubiks.SplitWithinFront | rubiks.js:244-252 | when the first slice does not finish the front task, the second slice continues it exactly as one combined slice would |

## Left out

- Rendering is not modelled: `faceCenterColor` and `RubiksPart` (`rubiks.js:21-30`, `171-204`) only build three.js colours, meshes and materials. Pieces keep only their centre and the list of faces they show.
- Floating-point matrices and epsilon drift are not modelled. Centres are exact lattice points, and piece orientation (which way a piece's colours point after turns) is not tracked.
- Intermediate positions during a task are not modelled: a task's parts move by a full quarter turn in the pass that uses up its time. The angle applied so far is kept exactly as `turned`.
- IEEE double rounding of `time`, `delta` and `totalTime - time` is not modelled: these are exact reals. In the source, rounding can decide the strict `>` at `rubiks.js:244` differently. With a total time of 0.3, `update(0.1)` then `update(0.2)` finds 0.3 − 0.1 = 0.19999999999999998 < 0.2, so the task finishes and is removed in the second call. In the model, exactly 0.2 remains, so the task stays queued, not done.
- Promises are not modelled: a promise is a ticket, and its resolution is the ticket being appended to `settled`.
- A non-positive animation time is left out, so the object invariant requires `animationTime > 0`. The source does not guard against either case:
  - With a time of 0, the division at `rubiks.js:252` produces NaN.
  - With a negative time, the first update overruns and returns the negative remaining time. `rubiks.js:112` then raises `delta`, so the whole queue completes in one call: each rotation applies its whole quarter turn at once, in the call that starts it.
  - `main.js` constructs `new Rubiks(2)` without an animation time, which is undefined and also not modelled.
- Animation.TaskUpdate: requires `totalTime > 0`, for the same reason; the source itself does not check it.
- Rubiks.Update: requires the object invariant, which includes `animationTime > 0`; the source does not check it.
- Sizes and layer indices are integers; non-integer JavaScript numbers are not modelled.
- Faces are the six `Face` values; any other argument is not modelled. For such an argument `faceNormal` returns undefined, so reading `n.x` at `rubiks.js:127` or `153` throws a TypeError before the "Unable to determine axis" check is reached (`rubiks.js:124-128`, `152-154`). `Geometry.DeriveAxis` models that check only on vectors.
- `main.js` is not modelled: the DOM controls, scene, camera, renderer, the `requestAnimationFrame` loop and its per-frame cap of 100 ms.
