/**
  The six faces of the cube, their outward normals (`faceNormal`), the axis derivation
  shared by `Rubiks.ring` and `Rubiks.rot`, and the quarter turn a finished rotation
  applies to a piece centre.
 */
module Geometry {
  import opened Common

  datatype Face = Left | Right | Down | Up | Back | Front

  datatype Axis = X | Y | Z

  /** An integer vector: a face normal, or a piece centre in doubled lattice units. */
  datatype Vec3 = Vec3(x: int, y: int, z: int)

  /** `v[axis]` */
  function Component(v: Vec3, a: Axis): int {
    match a
    case X => v.x
    case Y => v.y
    case Z => v.z
  }

  /** Exactly one component is nonzero, and that component is +1 or -1. */
  predicate UnitAxis(v: Vec3) {
    var nonzero := (if v.x != 0 then 1 else 0) + (if v.y != 0 then 1 else 0) + (if v.z != 0 then 1 else 0);
    nonzero == 1 && -1 <= v.x <= 1 && -1 <= v.y <= 1 && -1 <= v.z <= 1
  }

  /** The axis a face turns about, from the cube's symmetry alone. */
  function AxisOf(f: Face): Axis {
    match f
    case Left | Right => X
    case Down | Up => Y
    case Back | Front => Z
  }

  /** The three faces that sit at the positive end of their axis. */
  predicate Positive(f: Face) {
    f == Right || f == Up || f == Front
  }

  /** `faceNormal`: the outward unit normal of a face. */
  function Normal(f: Face): (n: Vec3)
    ensures UnitAxis(n)
    ensures Component(n, AxisOf(f)) == (if Positive(f) then 1 else -1)
  {
    match f
    case Left => Vec3(-1, 0, 0)
    case Right => Vec3(1, 0, 0)
    case Down => Vec3(0, -1, 0)
    case Up => Vec3(0, 1, 0)
    case Back => Vec3(0, 0, -1)
    case Front => Vec3(0, 0, 1)
  }

  /** The axis `rot` reads off a normal: the first of x, y, z with a nonzero component; an error when all are zero. */
  function DeriveAxis(n: Vec3): (r: Result<Axis>)
    ensures r.Ok? <==> n != Vec3(0, 0, 0)
    ensures r.Ok? ==> Component(n, r.value) != 0
    ensures r.Err? ==> r.error == UnableToDetermineAxis
  {
    if n.x != 0 then Ok(X)
    else if n.y != 0 then Ok(Y)
    else if n.z != 0 then Ok(Z)
    else Err(UnableToDetermineAxis)
  }

  /** The axis derivation never reaches its error on a face normal, and finds the face's own axis. */
  lemma FaceAxisDerivable(f: Face)
    ensures DeriveAxis(Normal(f)) == Ok(AxisOf(f))
  {
  }

  /** `rot`'s angle, in quarter turns: -1 (clockwise seen from outside) for a positive normal, else +1. */
  function QuarterAngle(n: Vec3, axis: Axis): (theta: real)
    ensures theta == 1.0 || theta == -1.0
    ensures theta < 0.0 <==> Component(n, axis) > 0
  {
    if Component(n, axis) > 0 then -1.0 else 1.0
  }

  /** Every coordinate strictly inside (-n, n): a centre inside the cube, in doubled units. */
  predicate InBox(n: int, v: Vec3) {
    -n < v.x < n && -n < v.y < n && -n < v.z < n
  }

  /** The unit vector along an axis. */
  function Unit(a: Axis): Vec3 {
    match a
    case X => Vec3(1, 0, 0)
    case Y => Vec3(0, 1, 0)
    case Z => Vec3(0, 0, 1)
  }

  function Plus(a: Vec3, b: Vec3): Vec3 {
    Vec3(a.x + b.x, a.y + b.y, a.z + b.z)
  }

  function Scale(k: int, v: Vec3): Vec3 {
    Vec3(k * v.x, k * v.y, k * v.z)
  }

  function Cross(a: Vec3, b: Vec3): Vec3 {
    Vec3(a.y * b.z - a.z * b.y, a.z * b.x - a.x * b.z, a.x * b.y - a.y * b.x)
  }

  /**
    What `Matrix4.makeRotationX/Y/Z(theta)` does to a centre once the rotations of one
    task add up to a quarter turn: `ccw` is a turn by +pi/2, otherwise by -pi/2. With e the
    unit vector of the axis, Rodrigues' formula at +-90 degrees gives e (e . v) +- e x v.
   */
  function QuarterTurn(v: Vec3, axis: Axis, ccw: bool): (r: Vec3)
    ensures r == Plus(Scale(Component(v, axis), Unit(axis)), Scale(if ccw then 1 else -1, Cross(Unit(axis), v)))
    ensures Component(r, axis) == Component(v, axis)
    ensures forall n :: InBox(n, r) <==> InBox(n, v)
  {
    match axis
    case X => if ccw then Vec3(v.x, -v.z, v.y) else Vec3(v.x, v.z, -v.y)
    case Y => if ccw then Vec3(v.z, v.y, -v.x) else Vec3(-v.z, v.y, v.x)
    case Z => if ccw then Vec3(-v.y, v.x, v.z) else Vec3(v.y, -v.x, v.z)
  }

  /** A turn one way followed by a turn the other way about the same axis restores the centre. */
  lemma QuarterTurnInverse(v: Vec3, axis: Axis, ccw: bool)
    ensures QuarterTurn(QuarterTurn(v, axis, ccw), axis, !ccw) == v
  {
  }

  /**
    Two quarter turns the same way are a half turn: the axis coordinate stays and both
    other coordinates change sign. So a centre off the axis is moved by one, two and three
    turns, and the turn has order exactly four.
   */
  lemma HalfTurn(v: Vec3, axis: Axis, ccw: bool)
    ensures var h := QuarterTurn(QuarterTurn(v, axis, ccw), axis, ccw);
      forall b :: Component(h, b) == if b == axis then Component(v, b) else -Component(v, b)
    ensures (exists b :: b != axis && Component(v, b) != 0) ==>
      && QuarterTurn(v, axis, ccw) != v
      && QuarterTurn(QuarterTurn(v, axis, ccw), axis, ccw) != v
      && QuarterTurn(v, axis, !ccw) != v
  {
  }

  /** Four quarter turns the same way about one axis restore every centre. */
  lemma FourQuarterTurns(v: Vec3, axis: Axis, ccw: bool)
    ensures QuarterTurn(QuarterTurn(QuarterTurn(QuarterTurn(v, axis, ccw), axis, ccw), axis, ccw), axis, ccw) == v
  {
  }
}
