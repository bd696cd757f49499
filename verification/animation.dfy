/**
  `RotationAnim`: one queued quarter turn, played back over `totalTime`. Angles are in
  quarter turns (units of pi/2), so the proportional angle sums are exact reals. The
  source's `theta` field is set to 0 and never read or updated; the model instead keeps
  `turned`, the sum of the `deltaTheta` values applied to the parts so far.
 */
module Animation {
  import opened Common
  import opened Geometry
  import opened Layout
  import opened Rings

  /** What the task's deferred `partsFn` selects: `ring(face, index)`. */
  datatype Request = Request(face: Face, index: int)

  /** Resolved parts: child indices into the piece set numbered `generation`. */
  datatype Parts = Parts(generation: nat, indices: seq<nat>)

  /** The cube as `partsFn` sees it when it is called: its size, its children, and which set they are. */
  datatype Context = Context(size: int, pieces: seq<Piece>, generation: nat)

  /** A size-n cube with n <= 0 has no children. */
  predicate ContextOk(ctx: Context) {
    ctx.size > 0 || ctx.pieces == []
  }

  /**
    A `RotationAnim`. `ticket` names the promise whose `resolve` is the `doneCallback`;
    `totalTheta` is in quarter turns; `parts` is `None` until `partsFn` has been called.
   */
  datatype Task = Task(
    ticket: nat,
    totalTheta: real,
    axis: Axis,
    totalTime: real,
    request: Request,
    parts: Option<Parts>,
    time: real,
    done: bool,
    turned: real)

  /** The outcome of one `update`: the new state, its return value, and what it did on the side. */
  datatype Step = Step(task: Task, consumed: real, deltaTheta: real, resolved: bool, fired: bool)

  /** The constructor: nothing resolved, no time spent, not done. */
  function Pending(ticket: nat, totalTheta: real, axis: Axis, totalTime: real, request: Request): Task {
    Task(ticket, totalTheta, axis, totalTime, request, None, 0.0, false, 0.0)
  }

  /** The fields an `update` never changes. */
  predicate SameJob(a: Task, b: Task) {
    a.ticket == b.ticket && a.totalTheta == b.totalTheta && a.axis == b.axis
    && a.totalTime == b.totalTime && a.request == b.request
  }

  /**
    The task invariant: time stays within [0, totalTime], the angle applied so far is the
    time-proportional share of the total, a done task has used all its time, and the parts
    are resolved before any time is spent.
   */
  predicate TaskValid(t: Task) {
    && t.totalTime > 0.0
    && 0.0 <= t.time <= t.totalTime
    && t.turned == Share(t.totalTheta, t.time, t.totalTime)
    && (t.done ==> t.time == t.totalTime)
    && (t.parts.None? ==> t.time == 0.0 && !t.done)
  }

  lemma PendingValid(ticket: nat, totalTheta: real, axis: Axis, totalTime: real, request: Request)
    requires totalTime > 0.0
    ensures TaskValid(Pending(ticket, totalTheta, axis, totalTime, request))
  {
  }

  /** Calling `partsFn`: the ring of the request in the cube as it is now. */
  function ResolveParts(request: Request, ctx: Context): (r: Result<Parts>)
    requires ContextOk(ctx)
    ensures r.Ok?
    ensures r.value.generation == ctx.generation
    ensures forall k :: k in r.value.indices <==>
      0 <= k < |ctx.pieces| &&
      Component(ctx.pieces[k].pos, AxisOf(request.face)) == Doubled(ctx.size, LayerOf(ctx.size, request.face, request.index))
  {
    match Ring(ctx.size, request.face, request.index, ctx.pieces)
    case Err(e) => Err(e)
    case Ok(indices) => Ok(Parts(ctx.generation, indices))
  }

  /** The time-proportional part of `theta` that `time` out of `total` earns. */
  function Share(theta: real, time: real, total: real): real
    requires total > 0.0
  {
    theta * time / total
  }

  /** Adding one update's `deltaTheta` to the share so far gives the share of the summed time. */
  lemma AngleShare(theta: real, total: real, time: real, consumed: real)
    requires total > 0.0
    ensures Share(theta, time, total) + theta / total * consumed == Share(theta, time + consumed, total)
  {
  }

  /**
    `RotationAnim.update(deltaTime)`: throws once done; resolves the parts on the first call
    only; consumes min(deltaTime, totalTime - time); becomes done, and fires its callback,
    only when deltaTime strictly exceeds the time that remained.
   */
  function TaskUpdate(t: Task, d: real, ctx: Context): (r: Result<Step>)
    requires t.totalTime > 0.0 && ContextOk(ctx)
    ensures r.Err? <==> t.done
    ensures r.Err? ==> r.error == AnimationAlreadyDone
    ensures r.Ok? ==> SameJob(r.value.task, t)
    ensures r.Ok? ==> r.value.consumed == Min(d, t.totalTime - t.time)
    ensures r.Ok? ==> r.value.task.time == t.time + r.value.consumed
    ensures r.Ok? ==> (r.value.task.done <==> d > t.totalTime - t.time)
    ensures r.Ok? ==> r.value.fired == r.value.task.done
    ensures r.Ok? ==> r.value.deltaTheta == r.value.task.turned - t.turned
    ensures r.Ok? ==> (r.value.resolved <==> t.parts.None?)
    ensures r.Ok? ==>
      r.value.task.parts == if t.parts.Some? then t.parts else Some(ResolveParts(t.request, ctx).value)
    ensures r.Ok? && TaskValid(t) && d >= 0.0 ==> TaskValid(r.value.task)
  {
    if t.done then Err(AnimationAlreadyDone)
    else
      match if t.parts.Some? then Ok(t.parts.value) else ResolveParts(t.request, ctx)
      case Err(e) => Err(e)
      case Ok(parts) =>
        var remaining := t.totalTime - t.time;
        var overrun := d > remaining;
        var consumed := if overrun then remaining else d;
        var deltaTheta := t.totalTheta / t.totalTime * consumed;
        AngleShare(t.totalTheta, t.totalTime, t.time, consumed);
        var task := t.(parts := Some(parts), time := t.time + consumed, done := overrun, turned := t.turned + deltaTheta);
        Ok(Step(task, consumed, deltaTheta, t.parts.None?, overrun))
  }

  /** What a run of updates did in total. */
  datatype Trace = Trace(task: Task, spent: real, swept: real, resolutions: nat, completions: nat)

  /** One cube state per update, each one a state `partsFn` may be called in. */
  predicate ContextsOk(ds: seq<real>, ctxs: seq<Context>) {
    |ctxs| == |ds| && forall i :: 0 <= i < |ctxs| ==> ContextOk(ctxs[i])
  }

  /**
    Feeding a task the time slices `ds` one `update` at a time, stopping at the first throw.
    Update i sees the cube as `ctxs[i]`, which may differ from call to call when the cube
    is resized in between.
   */
  function Feed(t: Task, ds: seq<real>, ctxs: seq<Context>): Result<Trace>
    requires t.totalTime > 0.0 && ContextsOk(ds, ctxs)
    decreases |ds|
  {
    if ds == [] then Ok(Trace(t, 0.0, 0.0, 0, 0))
    else
      var s :- TaskUpdate(t, ds[0], ctxs[0]);
      var rest :- Feed(s.task, ds[1..], ctxs[1..]);
      Ok(Trace(
        rest.task,
        s.consumed + rest.spent,
        s.deltaTheta + rest.swept,
        (if s.resolved then 1 else 0) + rest.resolutions,
        (if s.fired then 1 else 0) + rest.completions))
  }

  /**
    A run of non-negative updates that does not throw keeps the task invariant and the job,
    advances time by exactly what it spent, and never re-resolves resolved parts. A run
    that updates a done task throws.
   */
  lemma {:induction false} FeedKeepsValid(t: Task, ds: seq<real>, ctxs: seq<Context>)
    requires TaskValid(t) && ContextsOk(ds, ctxs)
    requires forall i :: 0 <= i < |ds| ==> ds[i] >= 0.0
    ensures t.done && ds != [] ==> Feed(t, ds, ctxs).Err?
    ensures Feed(t, ds, ctxs).Ok? ==>
      var r := Feed(t, ds, ctxs).value;
      && TaskValid(r.task)
      && SameJob(r.task, t)
      && r.task.time == t.time + r.spent
      && (t.parts.Some? ==> r.task.parts == t.parts)
    decreases |ds|
  {
    if ds != [] && !t.done {
      var s := TaskUpdate(t, ds[0], ctxs[0]).value;
      FeedKeepsValid(s.task, ds[1..], ctxs[1..]);
    }
  }

  /**
    The angles applied by a run add up to totalTheta * spent / totalTime however the time
    was split into updates, and to what remained of totalTheta once the task is done.
   */
  lemma {:induction false} FeedAngles(t: Task, ds: seq<real>, ctxs: seq<Context>)
    requires TaskValid(t) && ContextsOk(ds, ctxs)
    requires forall i :: 0 <= i < |ds| ==> ds[i] >= 0.0
    ensures Feed(t, ds, ctxs).Ok? ==>
      var r := Feed(t, ds, ctxs).value;
      && r.swept == r.task.turned - t.turned
      && r.swept == Share(t.totalTheta, r.spent, t.totalTime)
      && (r.task.done ==> t.turned + r.swept == t.totalTheta)
    decreases |ds|
  {
    FeedKeepsValid(t, ds, ctxs);
    if ds == [] {
      ShareAll(t.totalTheta, t.totalTime);
    } else if !t.done {
      var s := TaskUpdate(t, ds[0], ctxs[0]).value;
      FeedAngles(s.task, ds[1..], ctxs[1..]);
      if Feed(t, ds, ctxs).Ok? {
        var rest := Feed(s.task, ds[1..], ctxs[1..]).value;
        var r := Feed(t, ds, ctxs).value;
        assert r.task == rest.task && r.spent == s.consumed + rest.spent && r.swept == s.deltaTheta + rest.swept;
        assert r.swept == r.task.turned - t.turned;
        ProportionalAngle(t.totalTheta, t.totalTime, t.time, r.task.time, t.turned, r.task.turned);
      }
    }
  }

  /** Two states of the angle invariant differ by the share of the time between them. */
  lemma ProportionalAngle(theta: real, total: real, t0: real, t1: real, turned0: real, turned1: real)
    requires total > 0.0
    requires turned0 == Share(theta, t0, total) && turned1 == Share(theta, t1, total)
    ensures turned1 - turned0 == Share(theta, t1 - t0, total)
    ensures t1 == total ==> turned1 == theta
  {
    ShareDifference(theta, total, t0, t1 - t0);
  }

  /**
    Over a run that does not throw, `partsFn` is called once if the task was unresolved
    (and the run not empty), never otherwise; the callback fires once if the run made the
    task done, never otherwise.
   */
  lemma {:induction false} FeedCallsOnce(t: Task, ds: seq<real>, ctxs: seq<Context>)
    requires TaskValid(t) && ContextsOk(ds, ctxs)
    requires forall i :: 0 <= i < |ds| ==> ds[i] >= 0.0
    ensures Feed(t, ds, ctxs).Ok? ==>
      var r := Feed(t, ds, ctxs).value;
      && r.resolutions == (if t.parts.None? && ds != [] then 1 else 0)
      && r.completions == (if r.task.done && !t.done then 1 else 0)
    decreases |ds|
  {
    FeedKeepsValid(t, ds, ctxs);
    if ds != [] && !t.done {
      var s := TaskUpdate(t, ds[0], ctxs[0]).value;
      FeedKeepsValid(s.task, ds[1..], ctxs[1..]);
      FeedCallsOnce(s.task, ds[1..], ctxs[1..]);
    }
  }

  /** All of the time earns all of the angle. */
  lemma ShareAll(theta: real, total: real)
    requires total > 0.0
    ensures Share(theta, total, total) == theta
  {
  }

  /** For a non-zero total angle, the applied share reaches the total angle exactly when all the time is used. */
  lemma ShareFull(theta: real, time: real, total: real)
    requires total > 0.0 && theta != 0.0
    ensures Share(theta, time, total) == theta <==> time == total
  {
    assert Share(theta, time, total) * total == theta * time;
    if Share(theta, time, total) == theta {
      assert theta * total == theta * time;
    }
  }

  lemma ShareDifference(theta: real, total: real, a: real, b: real)
    requires total > 0.0
    ensures Share(theta, a + b, total) - Share(theta, a, total) == Share(theta, b, total)
  {
  }
}
