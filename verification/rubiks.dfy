/**
  The `Rubiks` object: its size and children (`setSize`), the FIFO queue of rotation tasks
  that `rot` appends to, and `update`, which drains a time budget through that queue.
  The whole object is a value; each operation returns the new object.
 */
module Rubiks {
  import opened Common
  import opened Geometry
  import opened Layout
  import opened Rings
  import opened Animation

  /**
    A `Rubiks` object. `pieces` are its children in order. `generation` counts the piece
    sets `setSize` has created, so that a task resolved before a resize is known to hold
    detached pieces. `animations` is the field `setSize` resets; `anims` is the queue.
    `settled` lists, in order, the tickets whose promise has been resolved; `nextTicket`
    names the promise the next `rot` returns.
   */
  datatype Cube = Cube(
    size: int,
    animationTime: real,
    pieces: seq<Piece>,
    generation: nat,
    anims: seq<Task>,
    animations: seq<Task>,
    settled: seq<nat>,
    nextTicket: nat)

  /** What `rot` returns: the new object, and the ticket of its promise. */
  datatype Enqueued = Enqueued(cube: Cube, ticket: nat)

  /** What `update` leaves: the new object, and the budget left in its local `delta`. */
  datatype Drained = Drained(cube: Cube, leftover: real)

  function ContextOf(c: Cube): Context {
    Context(c.size, c.pieces, c.generation)
  }

  function Tickets(q: seq<Task>): (ts: seq<nat>)
    ensures |ts| == |q|
    ensures forall i :: 0 <= i < |q| ==> ts[i] == q[i].ticket
  {
    if q == [] then [] else [q[0].ticket] + Tickets(q[1..])
  }

  /** Every promise handed out so far: the resolved ones, then the queued ones, in order. */
  function Log(c: Cube): seq<nat> {
    c.settled + Tickets(c.anims)
  }

  /** The time the queued tasks still need: the sum of totalTime - time. */
  function Outstanding(q: seq<Task>): real {
    if q == [] then 0.0 else (q[0].totalTime - q[0].time) + Outstanding(q[1..])
  }

  /**
    The object invariant: a positive animation time; no children unless the size is
    positive, and every centre inside the cube; every queued task valid and not done; and
    promises handed out in increasing ticket order, each ticket below `nextTicket`.
   */
  predicate Valid(c: Cube) {
    c.animationTime > 0.0 && PiecesOk(c) && QueueOk(c) && TicketsOk(c)
  }

  predicate PiecesOk(c: Cube) {
    && (c.size > 0 || c.pieces == [])
    && (forall k :: 0 <= k < |c.pieces| ==> InBox(c.size, c.pieces[k].pos))
  }

  predicate QueueOk(c: Cube) {
    forall i :: 0 <= i < |c.anims| ==> TaskValid(c.anims[i]) && !c.anims[i].done
  }

  /**
    A second invariant, kept apart from `Valid`: no queued task holds parts resolved against
    a later piece set than the current children. Every operation preserves it (`New`,
    `SetSize`, `Rot`, `UpdateFrontKeepsPartsCurrent`, `UpdateKeepsPartsCurrent`).
   */
  predicate PartsCurrent(c: Cube) {
    forall i :: 0 <= i < |c.anims| && c.anims[i].parts.Some? ==> c.anims[i].parts.value.generation <= c.generation
  }

  predicate TicketsOk(c: Cube) {
    && StrictlyIncreasing(Log(c))
    && (forall i :: 0 <= i < |Log(c)| ==> Log(c)[i] < c.nextTicket)
  }

  /** `setSize(n)`: new children for size n; the queue `anims` is kept (only `animations` is reset). */
  function SetSize(c: Cube, n: int): (r: Cube)
    ensures r.size == n && r.pieces == Pieces(n)
    ensures r.anims == c.anims && r.animations == []
    ensures r.generation > c.generation
    ensures r.settled == c.settled && r.nextTicket == c.nextTicket && r.animationTime == c.animationTime
    ensures Valid(c) ==> Valid(r)
    ensures PartsCurrent(c) ==> PartsCurrent(r)
  {
    PiecesInBox(n);
    c.(size := n, pieces := Pieces(n), generation := c.generation + 1, animations := [])
  }

  /** The constructor `new Rubiks(size, animationTime)`. */
  function New(size: int, animationTime: real): (r: Cube)
    ensures r.size == size && r.pieces == Pieces(size) && r.animationTime == animationTime
    ensures r.anims == [] && r.settled == []
    ensures animationTime > 0.0 ==> Valid(r)
    ensures PartsCurrent(r)
  {
    SetSize(Cube(size, animationTime, [], 0, [], [], [], 0), size)
  }

  lemma TicketsAppend(q: seq<Task>, t: Task)
    ensures Tickets(q + [t]) == Tickets(q) + [t.ticket]
  {
  }

  /**
    `rot(face, index)`: never throws; appends one pending task at the back of the queue,
    turning a quarter about the face's axis, -pi/2 for a positive normal and +pi/2 otherwise,
    over `animationTime`, and returns a fresh ticket. Nothing else changes.
   */
  function Rot(c: Cube, face: Face, index: int): (r: Result<Enqueued>)
    ensures r.Ok?
    ensures r.value.ticket == c.nextTicket
    ensures r.value.cube.anims ==
      c.anims + [Pending(c.nextTicket, if Positive(face) then -1.0 else 1.0, AxisOf(face), c.animationTime, Request(face, index))]
    ensures r.value.cube.(anims := c.anims, nextTicket := c.nextTicket) == c
    ensures r.value.cube.nextTicket > c.nextTicket
    ensures PartsCurrent(c) ==> PartsCurrent(r.value.cube)
  {
    var normal := Normal(face);
    FaceAxisDerivable(face);
    match DeriveAxis(normal)
    case Err(e) => Err(e)
    case Ok(axis) =>
      var theta := QuarterAngle(normal, axis);
      var task := Pending(c.nextTicket, theta, axis, c.animationTime, Request(face, index));
      Ok(Enqueued(c.(anims := c.anims + [task], nextTicket := c.nextTicket + 1), c.nextTicket))
  }

  /** `rot` keeps the object invariant: the new ticket is above every ticket handed out so far. */
  lemma RotKeepsValid(c: Cube, face: Face, index: int)
    requires Valid(c)
    ensures Valid(Rot(c, face, index).value.cube)
  {
    var c' := Rot(c, face, index).value.cube;
    var task := c'.anims[|c.anims|];
    TicketsAppend(c.anims, task);
    PendingValid(task.ticket, task.totalTheta, task.axis, task.totalTime, task.request);
    assert Log(c') == Log(c) + [c.nextTicket];
  }

  /** The parts a task holds once it has been updated in the cube context `ctx`. */
  function PartsOf(t: Task, ctx: Context): Parts
    requires ContextOk(ctx)
  {
    if t.parts.Some? then t.parts.value else ResolveParts(t.request, ctx).value
  }

  /** Centres after the pieces at `indices` have turned a quarter about `axis`. */
  function TurnPieces(pieces: seq<Piece>, indices: seq<nat>, axis: Axis, ccw: bool): (r: seq<Piece>)
    ensures |r| == |pieces|
    ensures forall k :: 0 <= k < |r| ==> r[k].faces == pieces[k].faces
    ensures forall k :: 0 <= k < |r| ==> Component(r[k].pos, axis) == Component(pieces[k].pos, axis)
    ensures forall k :: 0 <= k < |r| && k !in indices ==> r[k] == pieces[k]
    ensures forall k :: 0 <= k < |r| && k in indices ==> r[k].pos == QuarterTurn(pieces[k].pos, axis, ccw)
    ensures forall k, n :: 0 <= k < |r| ==> (InBox(n, r[k].pos) <==> InBox(n, pieces[k].pos))
  {
    seq(|pieces|, k requires 0 <= k < |pieces| =>
      if k in indices then pieces[k].(pos := QuarterTurn(pieces[k].pos, axis, ccw)) else pieces[k])
  }

  /**
    The children once a finished task's matrices have all been applied: its parts have
    turned by its total angle. Parts resolved against an earlier piece set are detached
    objects, so turning them changes no current child.
   */
  function Settle(pieces: seq<Piece>, generation: nat, t: Task, parts: Parts): (r: seq<Piece>)
    ensures parts.generation != generation ==> r == pieces
    ensures |r| == |pieces|
  {
    if parts.generation == generation then TurnPieces(pieces, parts.indices, t.axis, t.totalTheta > 0.0)
    else pieces
  }

  /**
    Whether a pass with budget `delta` uses up the rest of a task's time. That pass applies
    the last of the task's rotation matrices, so its parts then sit a full quarter turn on,
    whether or not the task also becomes done in that pass.
   */
  predicate UsesUp(t: Task, delta: real) {
    t.time < t.totalTime <= t.time + delta
  }

  /** The fields of the object the drain loop never changes. */
  predicate Frame(c: Cube, c': Cube) {
    && c'.size == c.size && c'.animationTime == c.animationTime && c'.generation == c.generation
    && c'.animations == c.animations && c'.nextTicket == c.nextTicket && |c'.pieces| == |c.pieces|
  }

  lemma OutstandingNonNegative(q: seq<Task>)
    requires forall i :: 0 <= i < |q| ==> TaskValid(q[i])
    ensures Outstanding(q) >= 0.0
  {
    if q != [] {
      OutstandingNonNegative(q[1..]);
    }
  }

  /**
    One pass of the loop in `update`: the front task takes `delta`; the budget drops by
    what it consumed; the front is removed exactly when budget is left over, which is
    exactly when the task finished and fired its callback. Only the front is touched.
   */
  function UpdateFront(c: Cube, delta: real): (r: Result<Drained>)
    requires Valid(c) && delta > 0.0 && |c.anims| > 0
    ensures r.Ok?
    ensures Frame(c, r.value.cube)
    ensures 0.0 <= r.value.leftover <= delta
    ensures r.value.leftover > 0.0 ==>
      && r.value.cube.anims == c.anims[1..]
      && r.value.cube.settled == c.settled + [c.anims[0].ticket]
    ensures r.value.leftover <= 0.0 ==>
      && |r.value.cube.anims| == |c.anims|
      && r.value.cube.anims[1..] == c.anims[1..]
      && SameJob(r.value.cube.anims[0], c.anims[0])
      && r.value.cube.settled == c.settled
  {
    var front := c.anims[0];
    match TaskUpdate(front, delta, ContextOf(c))
    case Err(e) => Err(e)
    case Ok(s) =>
      var leftover := delta - s.consumed;
      var pieces := if UsesUp(front, delta) then Settle(c.pieces, c.generation, front, s.task.parts.value) else c.pieces;
      var settled := if s.fired then c.settled + [s.task.ticket] else c.settled;
      var anims := if leftover > 0.0 then c.anims[1..] else [s.task] + c.anims[1..];
      Ok(Drained(c.(pieces := pieces, anims := anims, settled := settled), leftover))
  }

  /**
    One pass of the loop keeps the object invariant (the updated front is valid and, if it
    stays, not done) and hands out no promise anew: resolved plus queued tickets are unchanged.
   */
  lemma UpdateFrontKeepsValid(c: Cube, delta: real)
    requires Valid(c) && delta > 0.0 && |c.anims| > 0
    ensures Valid(UpdateFront(c, delta).value.cube)
    ensures Log(UpdateFront(c, delta).value.cube) == Log(c)
  {
    var front := c.anims[0];
    var s := TaskUpdate(front, delta, ContextOf(c)).value;
    var r := UpdateFront(c, delta).value;
    UpdateFrontKeepsLog(c, delta);
    assert TicketsOk(r.cube);
    SettleKeepsBox(c.pieces, c.generation, front, s.task.parts.value, c.size);
    assert PiecesOk(r.cube);
    if r.leftover > 0.0 {
      assert QueueOk(r.cube);
    } else {
      assert r.cube.anims == [s.task] + c.anims[1..];
      assert !s.task.done && TaskValid(s.task);
      assert QueueOk(r.cube);
    }
  }

  lemma UpdateFrontKeepsLog(c: Cube, delta: real)
    requires Valid(c) && delta > 0.0 && |c.anims| > 0
    ensures Log(UpdateFront(c, delta).value.cube) == Log(c)
  {
    var front := c.anims[0];
    var r := UpdateFront(c, delta).value;
    assert Tickets(c.anims) == [front.ticket] + Tickets(c.anims[1..]);
    if r.leftover <= 0.0 {
      assert Tickets(r.cube.anims) == [r.cube.anims[0].ticket] + Tickets(c.anims[1..]);
    }
  }

  /** One pass of the loop resolves parts only against the current piece set. */
  lemma UpdateFrontKeepsPartsCurrent(c: Cube, delta: real)
    requires Valid(c) && PartsCurrent(c) && delta > 0.0 && |c.anims| > 0
    ensures PartsCurrent(UpdateFront(c, delta).value.cube)
  {
    var r := UpdateFront(c, delta).value;
    if r.leftover <= 0.0 {
      UpdateFrontBudget(c, delta);
      assert r.cube.anims[0].parts.value.generation <= c.generation;
      forall i | 1 <= i < |r.cube.anims|
        ensures r.cube.anims[i] == c.anims[i]
      {
        assert r.cube.anims[i] == r.cube.anims[1..][i - 1];
      }
    }
  }

  /**
    The children move in exactly one pass per task: the one that uses up the front's time.
    Its parts then turn a quarter; in every other pass, the exact-budget pass that only
    marks the task done included, no child moves. For a task that turns at all, that pass
    is exactly the one in which the angle applied so far reaches the task's total angle.
   */
  lemma UpdateFrontMoves(c: Cube, delta: real)
    requires Valid(c) && delta > 0.0 && |c.anims| > 0
    ensures UpdateFront(c, delta).value.cube.pieces ==
      if UsesUp(c.anims[0], delta) then Settle(c.pieces, c.generation, c.anims[0], PartsOf(c.anims[0], ContextOf(c)))
      else c.pieces
    ensures c.anims[0].totalTheta != 0.0 ==>
      (UsesUp(c.anims[0], delta) <==>
        && c.anims[0].turned != c.anims[0].totalTheta
        && TaskUpdate(c.anims[0], delta, ContextOf(c)).value.task.turned == c.anims[0].totalTheta)
  {
    var f := c.anims[0];
    assert TaskValid(f) && !f.done;
    if f.totalTheta != 0.0 {
      var t' := TaskUpdate(f, delta, ContextOf(c)).value.task;
      ShareFull(f.totalTheta, f.time, f.totalTime);
      ShareFull(f.totalTheta, t'.time, f.totalTime);
    }
  }

  /** Settling a finished task keeps every centre inside the cube. */
  lemma SettleKeepsBox(pieces: seq<Piece>, generation: nat, t: Task, parts: Parts, n: int)
    requires forall k :: 0 <= k < |pieces| ==> InBox(n, pieces[k].pos)
    ensures var r := Settle(pieces, generation, t, parts);
      |r| == |pieces| && forall k :: 0 <= k < |r| ==> InBox(n, r[k].pos)
  {
  }

  /**
    One pass of the loop spends exactly the outstanding time the queue loses. When it
    removes the front, the front used what remained of its time; otherwise the front used
    the whole budget, and its parts are resolved.
   */
  lemma UpdateFrontBudget(c: Cube, delta: real)
    requires Valid(c) && delta > 0.0 && |c.anims| > 0
    ensures var r := UpdateFront(c, delta).value;
      && delta - r.leftover == Outstanding(c.anims) - Outstanding(r.cube.anims)
      && (r.leftover > 0.0 ==> r.leftover == delta - (c.anims[0].totalTime - c.anims[0].time))
      && (r.leftover <= 0.0 ==>
            && r.cube.anims[0].time == c.anims[0].time + delta
            && r.cube.anims[0].parts == Some(PartsOf(c.anims[0], ContextOf(c))))
  {
    var front := c.anims[0];
    var s := TaskUpdate(front, delta, ContextOf(c)).value;
    var r := UpdateFront(c, delta).value;
    assert Outstanding(c.anims) == (front.totalTime - front.time) + Outstanding(c.anims[1..]);
    if r.leftover <= 0.0 {
      assert r.cube.anims == [s.task] + c.anims[1..];
      assert Outstanding(r.cube.anims) == (s.task.totalTime - s.task.time) + Outstanding(c.anims[1..]);
    }
  }


  /**
    `update(delta)`: drains the budget through the queue, one front task at a time. It
    terminates and never updates a finished task (it cannot throw). On return the budget
    is used up or the queue is empty; a non-positive budget changes nothing.
   */
  function Update(c: Cube, delta: real): (r: Result<Drained>)
    requires Valid(c)
    ensures r.Ok?
    ensures Valid(r.value.cube) && Frame(c, r.value.cube)
    ensures r.value.leftover <= 0.0 || r.value.cube.anims == []
    ensures delta <= 0.0 ==> r.value == Drained(c, delta)
    ensures delta > 0.0 ==> 0.0 <= r.value.leftover <= delta
    ensures |r.value.cube.anims| <= |c.anims|
    ensures delta > 0.0 && c.anims != [] && r.value.cube.anims == [] ==> r.value.leftover > 0.0
    decreases |c.anims| + (if delta > 0.0 then 1 else 0)
  {
    if delta > 0.0 && |c.anims| > 0 then
      UpdateFrontKeepsValid(c, delta);
      match UpdateFront(c, delta)
      case Err(e) => Err(e)
      case Ok(s) => Update(s.cube, s.leftover)
    else
      Ok(Drained(c, delta))
  }

  /**
    Budget conservation: the time `update` uses is exactly the outstanding time the queue
    loses, and no promise is handed out anew: resolved plus queued tickets are unchanged.
   */
  lemma {:induction false} UpdateConserves(c: Cube, delta: real)
    requires Valid(c)
    ensures var r := Update(c, delta).value;
      && (delta > 0.0 ==> delta - r.leftover == Outstanding(c.anims) - Outstanding(r.cube.anims))
      && Log(r.cube) == Log(c)
    decreases |c.anims| + (if delta > 0.0 then 1 else 0)
  {
    if delta > 0.0 && |c.anims| > 0 {
      UpdateFrontKeepsValid(c, delta);
      UpdateFrontBudget(c, delta);
      var s := UpdateFront(c, delta).value;
      UpdateConserves(s.cube, s.leftover);
    }
  }

  /**
    FIFO order, part one: after `update`, the promises of exactly the first k queued tasks
    have been resolved, in queue order, where k is how many tasks left the queue.
   */
  lemma {:induction false} UpdateSettlesInOrder(c: Cube, delta: real)
    requires Valid(c)
    ensures var r := Update(c, delta).value;
      r.cube.settled == c.settled + Tickets(c.anims[..|c.anims| - |r.cube.anims|])
    decreases |c.anims| + (if delta > 0.0 then 1 else 0)
  {
    var r := Update(c, delta).value;
    if delta > 0.0 && |c.anims| > 0 {
      UpdateFrontKeepsValid(c, delta);
      var s := UpdateFront(c, delta).value;
      UpdateSettlesInOrder(s.cube, s.leftover);
      assert r == Update(s.cube, s.leftover).value;
      if s.leftover > 0.0 {
        var k := |c.anims| - |r.cube.anims|;
        assert |s.cube.anims| - |r.cube.anims| == k - 1;
        assert r.cube.settled == (c.settled + [c.anims[0].ticket]) + Tickets(c.anims[1..][..k - 1]);
        SettledAppend(c.settled, c.anims, k);
      } else {
        assert r == s;
      }
    } else {
      assert r.cube == c;
    }
  }

  /**
    FIFO order, part two: the tasks still queued after `update` are the old queue minus its
    first k; only the new front (the old k-th task) may have progressed.
   */
  lemma {:induction false} UpdateKeepsTail(c: Cube, delta: real)
    requires Valid(c)
    ensures var r := Update(c, delta).value;
      var k := |c.anims| - |r.cube.anims|;
      r.cube.anims != [] ==> r.cube.anims[1..] == c.anims[k + 1..] && SameJob(r.cube.anims[0], c.anims[k])
    decreases |c.anims| + (if delta > 0.0 then 1 else 0)
  {
    var r := Update(c, delta).value;
    if delta > 0.0 && |c.anims| > 0 {
      UpdateFrontKeepsValid(c, delta);
      var s := UpdateFront(c, delta).value;
      UpdateKeepsTail(s.cube, s.leftover);
      assert r == Update(s.cube, s.leftover).value;
      if s.leftover > 0.0 && r.cube.anims != [] {
        var k := |c.anims| - |r.cube.anims|;
        assert |s.cube.anims| - |r.cube.anims| == k - 1;
        DropOne(c.anims, k);
      }
    } else {
      assert r.cube == c;
    }
  }

  lemma DropOne(q: seq<Task>, k: nat)
    requires 0 < k < |q|
    ensures q[1..][k - 1 + 1..] == q[k + 1..] && q[1..][k - 1] == q[k]
  {
  }

  lemma SettledAppend(settled: seq<nat>, q: seq<Task>, k: nat)
    requires 0 < k <= |q|
    ensures (settled + [q[0].ticket]) + Tickets(q[1..][..k - 1]) == settled + Tickets(q[..k])
  {
    assert Tickets(q[..k]) == [q[0].ticket] + Tickets(q[1..][..k - 1]);
  }

  /**
    A budget larger than the outstanding time empties the queue: every queued task
    finishes, in order, and what is left over is the excess.
   */
  lemma EnoughBudgetDrains(c: Cube, delta: real)
    requires Valid(c) && delta > Outstanding(c.anims)
    ensures var r := Update(c, delta).value;
      && r.cube.anims == []
      && r.cube.settled == c.settled + Tickets(c.anims)
      && r.leftover == delta - Outstanding(c.anims)
  {
    var r := Update(c, delta).value;
    OutstandingNonNegative(c.anims);
    OutstandingNonNegative(r.cube.anims);
    UpdateConserves(c, delta);
    UpdateSettlesInOrder(c, delta);
    assert r.cube.anims == [];
    assert c.anims[..|c.anims|] == c.anims;
  }

  /**
    The strict comparison in `RotationAnim.update`: a budget exactly equal to the
    outstanding time never empties the queue. Nothing is left over, and the tasks still
    queued have used all their time but are not done.
   */
  lemma ExactBudgetKeepsLast(c: Cube, delta: real)
    requires Valid(c) && c.anims != [] && delta == Outstanding(c.anims) && delta > 0.0
    ensures var r := Update(c, delta).value;
      && r.cube.anims != []
      && r.leftover == 0.0
      && Outstanding(r.cube.anims) == 0.0
      && forall i :: 0 <= i < |r.cube.anims| ==> r.cube.anims[i].time == r.cube.anims[i].totalTime && !r.cube.anims[i].done
  {
    var r := Update(c, delta).value;
    UpdateConserves(c, delta);
    OutstandingNonNegative(r.cube.anims);
    assert r.cube.anims != [];
    OutstandingZero(r.cube.anims);
  }

  lemma {:induction false} OutstandingZero(q: seq<Task>)
    requires forall i :: 0 <= i < |q| ==> TaskValid(q[i])
    requires Outstanding(q) == 0.0
    ensures forall i :: 0 <= i < |q| ==> q[i].time == q[i].totalTime
  {
    if q != [] {
      OutstandingNonNegative(q[1..]);
      OutstandingZero(q[1..]);
      forall i | 1 <= i < |q|
        ensures q[i].time == q[i].totalTime
      {
        assert q[i] == q[1..][i - 1];
      }
    }
  }

  /**
    A new rotation on an idle cube, given exactly `animationTime`, is not finished by that
    call: its ring has turned the full quarter, but the task stays queued and its promise
    is still pending. The next call with any positive budget finishes it without using any
    time or moving anything, resolves its promise, and passes the whole budget on.
   */
  lemma ExactBudgetDefersCompletion(c: Cube, face: Face, index: int, d: real)
    requires Valid(c) && c.anims == [] && d > 0.0
    ensures Valid(Rot(c, face, index).value.cube)
    ensures var c1 := Rot(c, face, index).value.cube;
      var r1 := Update(c1, c.animationTime).value;
      var r2 := Update(r1.cube, d).value;
      && |r1.cube.anims| == 1 && !r1.cube.anims[0].done && r1.cube.anims[0].time == c.animationTime
      && r1.cube.settled == c.settled && r1.leftover == 0.0
      && r1.cube.pieces == TurnPieces(c.pieces, Ring(c.size, face, index, c.pieces).value, AxisOf(face), !Positive(face))
      && r2.cube.anims == [] && r2.cube.settled == c.settled + [c.nextTicket] && r2.leftover == d
      && r2.cube.pieces == r1.cube.pieces
  {
    var c1 := Rot(c, face, index).value.cube;
    RotKeepsValid(c, face, index);
    var task := c1.anims[0];
    UpdateFrontKeepsValid(c1, c.animationTime);
    UpdateFrontBudget(c1, c.animationTime);
    UpdateFrontMoves(c1, c.animationTime);
    var s1 := UpdateFront(c1, c.animationTime).value;
    assert s1.leftover == 0.0;
    var r1 := Update(c1, c.animationTime).value;
    assert r1 == Update(s1.cube, 0.0).value == s1;
    UpdateFrontKeepsValid(r1.cube, d);
    UpdateFrontBudget(r1.cube, d);
    UpdateFrontMoves(r1.cube, d);
    var s2 := UpdateFront(r1.cube, d).value;
    assert s2.leftover == d;
    var r2 := Update(r1.cube, d).value;
    assert r2 == Update(s2.cube, d).value == s2;
    assert ContextOf(c1) == ContextOf(c);
  }

  /** `update` keeps every resolved part at or before the current piece set. */
  lemma {:induction false} UpdateKeepsPartsCurrent(c: Cube, delta: real)
    requires Valid(c) && PartsCurrent(c)
    ensures PartsCurrent(Update(c, delta).value.cube)
    decreases |c.anims| + (if delta > 0.0 then 1 else 0)
  {
    if delta > 0.0 && |c.anims| > 0 {
      UpdateFrontKeepsValid(c, delta);
      UpdateFrontKeepsPartsCurrent(c, delta);
      var s := UpdateFront(c, delta).value;
      UpdateKeepsPartsCurrent(s.cube, s.leftover);
    }
  }

  /**
    Frame-rate independence: one `update(a + b)` leaves the cube exactly as `update(a)`
    followed by `update(b)` does, so how the driver slices time does not change which
    tasks finish, what moved, or how far the front task has turned.
   */
  lemma {:induction false} UpdateSplit(c: Cube, a: real, b: real)
    requires Valid(c) && a > 0.0 && b > 0.0
    ensures Update(Update(c, a).value.cube, b).value.cube == Update(c, a + b).value.cube
    decreases |c.anims|
  {
    if c.anims != [] {
      var f := c.anims[0];
      var remaining := f.totalTime - f.time;
      UpdateFrontKeepsValid(c, a);
      UpdateFrontBudget(c, a);
      var s := UpdateFront(c, a).value;
      if a > remaining {
        SplitPastFront(c, a, b);
        UpdateSplit(s.cube, s.leftover, b);
      } else {
        assert s.leftover == 0.0;
        assert Update(c, a).value == s;
        SplitWithinFront(c, a, b);
      }
    }
  }

  /**
    The case of `UpdateSplit` where the first slice already finishes the front task: both
    passes remove the same front the same way, and the second budget is carried over.
   */
  lemma SplitPastFront(c: Cube, a: real, b: real)
    requires Valid(c) && a > 0.0 && b > 0.0 && c.anims != []
    requires a > c.anims[0].totalTime - c.anims[0].time
    ensures var s, u := UpdateFront(c, a).value, UpdateFront(c, a + b).value;
      && s.leftover > 0.0 && s.cube == u.cube && u.leftover == s.leftover + b
      && Valid(s.cube)
      && Update(c, a).value == Update(s.cube, s.leftover).value
      && Update(c, a + b).value == Update(u.cube, u.leftover).value
  {
    UpdateFrontKeepsValid(c, a);
    UpdateFrontBudget(c, a);
    UpdateFrontBudget(c, a + b);
    UpdateFrontMoves(c, a);
    UpdateFrontMoves(c, a + b);
  }

  /** The case of `UpdateSplit` where the first slice does not finish the front task. */
  lemma SplitWithinFront(c: Cube, a: real, b: real)
    requires Valid(c) && a > 0.0 && b > 0.0 && c.anims != []
    requires a <= c.anims[0].totalTime - c.anims[0].time
    ensures Update(UpdateFront(c, a).value.cube, b).value.cube == Update(c, a + b).value.cube
  {
    var f := c.anims[0];
    var remaining := f.totalTime - f.time;
    UpdateFrontKeepsValid(c, a);
    UpdateFrontBudget(c, a);
    UpdateFrontKeepsValid(c, a + b);
    UpdateFrontBudget(c, a + b);
    var s := UpdateFront(c, a).value;
    var u := UpdateFront(c, a + b).value;
    UpdateFrontKeepsValid(s.cube, b);
    UpdateFrontBudget(s.cube, b);
    var w := UpdateFront(s.cube, b).value;
    var f' := s.cube.anims[0];
    assert f'.parts == Some(PartsOf(f, ContextOf(c)));
    assert PartsOf(f', ContextOf(s.cube)) == PartsOf(f, ContextOf(c));
    if a + b > remaining {
      assert w.leftover == u.leftover;
      assert w.cube == u.cube;
    } else {
      assert w.leftover == 0.0 && u.leftover == 0.0;
      var x, y := w.cube.anims[0], u.cube.anims[0];
      assert x.time == y.time;
      assert x == y;
      assert w.cube.anims == u.cube.anims;
      assert w.cube == u.cube;
    }
  }

  /** One `rot(face, index)` followed by one `update(big)`. */
  function Cycle(c: Cube, face: Face, index: int, big: real): (r: Cube)
    requires Valid(c)
    ensures Valid(r)
  {
    RotKeepsValid(c, face, index);
    Update(Rot(c, face, index).value.cube, big).value.cube
  }

  /**
    On an idle cube, a rotation followed by an update longer than `animationTime` runs to
    completion: the ring of the face turns a quarter (clockwise seen from that face), the
    promise resolves, the queue is empty again, and nothing else changes.
   */
  lemma OneTurn(c: Cube, face: Face, index: int, big: real)
    requires Valid(c) && c.anims == [] && big > c.animationTime
    ensures Cycle(c, face, index, big) ==
      c.(pieces := TurnPieces(c.pieces, Ring(c.size, face, index, c.pieces).value, AxisOf(face), !Positive(face)),
         settled := c.settled + [c.nextTicket],
         nextTicket := c.nextTicket + 1)
  {
    var c1 := Rot(c, face, index).value.cube;
    RotKeepsValid(c, face, index);
    UpdateFrontKeepsValid(c1, big);
    UpdateFrontBudget(c1, big);
    UpdateFrontMoves(c1, big);
    var s := UpdateFront(c1, big).value;
    assert s.leftover > 0.0;
    assert s.cube.anims == [];
    assert Update(c1, big).value == Update(s.cube, s.leftover).value;
    assert ContextOf(c1) == ContextOf(c);
  }

  /** The ring of a face selects the same children after they have turned about the face's axis. */
  lemma RingAfterTurn(n: int, face: Face, index: int, pieces: seq<Piece>, ccw: bool)
    requires n > 0 || pieces == []
    ensures var r := Ring(n, face, index, pieces).value;
      Ring(n, face, index, TurnPieces(pieces, r, AxisOf(face), ccw)).value == r
  {
    var r := Ring(n, face, index, pieces).value;
    var turned := TurnPieces(pieces, r, AxisOf(face), ccw);
    var r' := Ring(n, face, index, turned).value;
    assert forall k :: k in r' <==> k in r;
    SameMembersEqual(r', r);
  }

  /** Turning the same children four times the same way restores every child. */
  lemma FourTurnPieces(pieces: seq<Piece>, indices: seq<nat>, axis: Axis, ccw: bool)
    ensures TurnPieces(TurnPieces(TurnPieces(TurnPieces(pieces, indices, axis, ccw), indices, axis, ccw), indices, axis, ccw), indices, axis, ccw) == pieces
  {
    var p1 := TurnPieces(pieces, indices, axis, ccw);
    var p2 := TurnPieces(p1, indices, axis, ccw);
    var p3 := TurnPieces(p2, indices, axis, ccw);
    var p4 := TurnPieces(p3, indices, axis, ccw);
    forall k | 0 <= k < |pieces|
      ensures p4[k] == pieces[k]
    {
      if k in indices {
        FourQuarterTurns(pieces[k].pos, axis, ccw);
      }
    }
  }

  /** After one completed turn the cube is idle again, with one more promise resolved. */
  lemma TurnIdle(c: Cube, face: Face, index: int, big: real)
    requires Valid(c) && c.anims == [] && big > c.animationTime
    ensures var c1 := Cycle(c, face, index, big);
      && c1.anims == [] && c1.animationTime == c.animationTime
      && c1.settled == c.settled + [c.nextTicket] && c1.nextTicket == c.nextTicket + 1
  {
    OneTurn(c, face, index, big);
  }

  /**
    After one completed turn the cube is idle again and the same face and layer select the
    same children, now turned a quarter.
   */
  lemma TurnAgain(c: Cube, face: Face, index: int, big: real)
    requires Valid(c) && c.anims == [] && big > c.animationTime
    ensures var r := Ring(c.size, face, index, c.pieces).value;
      var c1 := Cycle(c, face, index, big);
      && c1.anims == [] && c1.size == c.size && c1.animationTime == c.animationTime
      && c1.pieces == TurnPieces(c.pieces, r, AxisOf(face), !Positive(face))
      && Ring(c1.size, face, index, c1.pieces).value == r
  {
    OneTurn(c, face, index, big);
    RingAfterTurn(c.size, face, index, c.pieces, !Positive(face));
  }

  /**
    Rotating the same face and layer four times on an idle cube, each run to completion,
    puts every child back where it started and leaves the queue empty.
   */
  lemma FourRot(c: Cube, face: Face, index: int, big: real)
    requires Valid(c) && c.anims == [] && big > c.animationTime
    ensures var c4 := Cycle(Cycle(Cycle(Cycle(c, face, index, big), face, index, big), face, index, big), face, index, big);
      c4.pieces == c.pieces && c4.anims == []
  {
    var r := Ring(c.size, face, index, c.pieces).value;
    var c1 := Cycle(c, face, index, big);
    TurnAgain(c, face, index, big);
    var c2 := Cycle(c1, face, index, big);
    TurnAgain(c1, face, index, big);
    var c3 := Cycle(c2, face, index, big);
    TurnAgain(c2, face, index, big);
    TurnAgain(c3, face, index, big);
    FourTurnPieces(c.pieces, r, AxisOf(face), !Positive(face));
  }

  /** Two completed rotations resolve their promises in the order they were made. */
  lemma TwoTurnsIdle(c: Cube, face: Face, index: int, big: real)
    requires Valid(c) && c.anims == [] && big > c.animationTime
    ensures var c2 := Cycle(Cycle(c, face, index, big), face, index, big);
      && c2.anims == [] && c2.animationTime == c.animationTime
      && c2.settled == c.settled + [c.nextTicket, c.nextTicket + 1] && c2.nextTicket == c.nextTicket + 2
  {
    var c1 := Cycle(c, face, index, big);
    TurnIdle(c, face, index, big);
    TurnIdle(c1, face, index, big);
  }

  /** The four rotations of `FourRot` resolve their four promises in the order they were made. */
  lemma FourRotSettles(c: Cube, face: Face, index: int, big: real)
    requires Valid(c) && c.anims == [] && big > c.animationTime
    ensures var c4 := Cycle(Cycle(Cycle(Cycle(c, face, index, big), face, index, big), face, index, big), face, index, big);
      c4.settled == c.settled + [c.nextTicket, c.nextTicket + 1] + [c.nextTicket + 2, c.nextTicket + 3]
  {
    var c2 := Cycle(Cycle(c, face, index, big), face, index, big);
    TwoTurnsIdle(c, face, index, big);
    TwoTurnsIdle(c2, face, index, big);
  }

  /**
    A task resolved before a resize holds the old children: when it finishes after
    `setSize(n)`, the new children stay exactly as `setSize` laid them out.
   */
  lemma ResizeDetaches(c: Cube, n: int, delta: real)
    requires Valid(c) && PartsCurrent(c) && c.anims != [] && c.anims[0].parts.Some? && delta > 0.0
    ensures UpdateFront(SetSize(c, n), delta).value.cube.pieces == Pieces(n)
  {
    UpdateFrontMoves(SetSize(c, n), delta);
  }
}
