/**
  `Rubiks.ring`: the pieces that currently sit in layer `index` counted from a face.
  The source compares floating-point centres against a target within an epsilon of
  0.1/n; here centres are exact doubled lattice coordinates, and `NearIffOnLayer` shows
  that the epsilon test then selects exactly one lattice layer.
 */
module Rings {
  import opened Common
  import opened Geometry
  import opened Layout

  /** The real coordinate, in the cube's own units, of doubled coordinate d. */
  function Position(n: int, d: int): real
    requires n > 0
  {
    d as real / (2 * n) as real
  }

  /** `pos` in `ring`: index / n + 0.5 / n - 0.5, negated for a face with positive normal. */
  function TargetCentre(n: int, index: int, positive: bool): real
    requires n > 0
  {
    var pos := index as real * 1.0 / n as real + 0.5 / n as real - 0.5;
    if positive then -pos else pos
  }

  /** `epsilon` in `ring`. */
  function Epsilon(n: int): real
    requires n > 0
  {
    1.0 / n as real * 0.1
  }

  /** Whether a child's real coordinate on `axis` lies within epsilon of the target layer position, bounds included. */
  predicate Near(n: int, p: Piece, axis: Axis, target: real)
    requires n > 0
  {
    Abs(Position(n, Component(p.pos, axis)) - target) <= Epsilon(n)
  }

  /** The lattice coordinate that layer `index` of a face names: mirrored for a positive normal. */
  function LayerOf(n: int, face: Face, index: int): int {
    if Positive(face) then n - 1 - index else index
  }

  /** On exact lattice centres the epsilon test holds exactly on the named layer. */
  lemma NearIffOnLayer(n: int, d: int, index: int, positive: bool)
    requires n > 0
    ensures Abs(Position(n, d) - TargetCentre(n, index, positive)) <= Epsilon(n)
        <==> d == Doubled(n, if positive then n - 1 - index else index)
  {
    var nr := n as real;
    var q := 1.0 / nr;
    assert q * nr == 1.0;
    var t := Doubled(n, index);
    // the unmirrored target is t / 2n and a centre d sits at d / 2n
    var pos := index as real * 1.0 / nr + 0.5 / nr - 0.5;
    assert index as real * 1.0 / nr == index as real * q;
    assert 0.5 / nr == 0.5 * q;
    assert pos == (index as real + 0.5) * q - 0.5 * nr * q;
    assert pos == t as real * (0.5 * q);
    assert Position(n, d) == d as real * (0.5 * q);
    assert Epsilon(n) == 0.2 * (0.5 * q);
    var t' := if positive then -t else t;
    assert t' == Doubled(n, if positive then n - 1 - index else index);
    assert TargetCentre(n, index, positive) == t' as real * (0.5 * q);
    var diff := Position(n, d) - TargetCentre(n, index, positive);
    assert diff == (d - t') as real * (0.5 * q);
    assert 0.5 * q > 0.0;
    AbsScale((d - t') as real, 0.5 * q);
    assert Abs(diff) <= Epsilon(n) <==> Abs((d - t') as real) <= 0.2;
  }

  lemma AbsScale(x: real, s: real)
    requires s > 0.0
    ensures Abs(x * s) == Abs(x) * s
    ensures Abs(x * s) <= 0.2 * s <==> Abs(x) <= 0.2
  {
  }

  /** The loop of `ring` over `this.children`, from child `from` on, as child indices. */
  function Select(n: int, pieces: seq<Piece>, axis: Axis, target: real, from: nat): (r: seq<nat>)
    requires n > 0 && from <= |pieces|
    ensures forall k :: k in r <==> from <= k < |pieces| && Near(n, pieces[k], axis, target)
    ensures forall i :: 0 <= i < |r| ==> from <= r[i]
    ensures StrictlyIncreasing(r)
    decreases |pieces| - from
  {
    if from == |pieces| then []
    else (if Near(n, pieces[from], axis, target) then [from] else []) + Select(n, pieces, axis, target, from + 1)
  }

  lemma SelectOnLayer(n: int, pieces: seq<Piece>, face: Face, index: int)
    requires n > 0
    ensures forall k :: 0 <= k < |pieces| ==>
      (Near(n, pieces[k], AxisOf(face), TargetCentre(n, index, Positive(face))) <==>
        Component(pieces[k].pos, AxisOf(face)) == Doubled(n, LayerOf(n, face, index)))
  {
    forall k | 0 <= k < |pieces|
      ensures Near(n, pieces[k], AxisOf(face), TargetCentre(n, index, Positive(face))) <==>
        Component(pieces[k].pos, AxisOf(face)) == Doubled(n, LayerOf(n, face, index))
    {
      NearIffOnLayer(n, Component(pieces[k].pos, AxisOf(face)), index, Positive(face));
    }
  }

  /**
    `ring(face, index)`: the indices, in child order, of the pieces whose centre lies on
    lattice coordinate `index` (negative-normal face) or n-1-index (positive-normal face)
    along the face's axis. It never throws, and being a pure selection it moves nothing.
   */
  function Ring(n: int, face: Face, index: int, pieces: seq<Piece>): (r: Result<seq<nat>>)
    requires n > 0 || pieces == []
    ensures r.Ok?
    ensures forall k :: k in r.value <==>
      0 <= k < |pieces| && Component(pieces[k].pos, AxisOf(face)) == Doubled(n, LayerOf(n, face, index))
    ensures StrictlyIncreasing(r.value)
  {
    var normal := Normal(face);
    FaceAxisDerivable(face);
    match DeriveAxis(normal)
    case Err(e) => Err(e)
    case Ok(axis) =>
      var positive := Component(normal, axis) > 0;
      // With a non-positive size `setSize` created no children, so the loop selects nothing.
      if n <= 0 then Ok([])
      else
        SelectOnLayer(n, pieces, face, index);
        Ok(Select(n, pieces, axis, TargetCentre(n, index, positive), 0))
  }

  /** A layer index outside [0, n) selects no piece of a cube whose centres are inside it. */
  lemma RingOutOfRange(n: int, face: Face, index: int, pieces: seq<Piece>)
    requires n > 0 || pieces == []
    requires forall k :: 0 <= k < |pieces| ==> InBox(n, pieces[k].pos)
    requires index < 0 || index >= n
    ensures Ring(n, face, index, pieces) == Ok([])
  {
    var r := Ring(n, face, index, pieces).value;
    forall k | 0 <= k < |pieces|
      ensures Component(pieces[k].pos, AxisOf(face)) != Doubled(n, LayerOf(n, face, index))
    {
      assert InBox(n, pieces[k].pos);
    }
    EmptyWhenNoMembers(r);
  }
}
