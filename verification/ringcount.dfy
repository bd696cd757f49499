/**
  How many pieces `Rubiks.ring` selects from a freshly built cube: a whole face of n*n
  pieces for an outer layer, and the 4(n-1) boundary pieces of a middle layer.
 */
module RingCount {
  import opened Geometry
  import opened Layout
  import opened Rings

  /** How many pieces of `ps` have doubled coordinate `d` on `axis`. */
  function CountOn(ps: seq<Piece>, axis: Axis, d: int): nat {
    if ps == [] then 0
    else (if Component(ps[0].pos, axis) == d then 1 else 0) + CountOn(ps[1..], axis, d)
  }

  /** Whether lattice coordinate k is on the outside of a size-n cube. */
  predicate Outer(n: int, k: int) {
    k == 0 || k == n - 1
  }

  lemma {:induction false} CountOnAppend(a: seq<Piece>, b: seq<Piece>, axis: Axis, d: int)
    ensures CountOn(a + b, axis, d) == CountOn(a, axis, d) + CountOn(b, axis, d)
  {
    if a == [] {
      assert a + b == b;
    } else {
      assert (a + b)[1..] == a[1..] + b;
      CountOnAppend(a[1..], b, axis, d);
    }
  }

  /** Pieces that all share one coordinate are counted all or not at all. */
  lemma {:induction false} CountOnUniform(ps: seq<Piece>, axis: Axis, v: int, d: int)
    requires forall p :: p in ps ==> Component(p.pos, axis) == v
    ensures CountOn(ps, axis, d) == if v == d then |ps| else 0
  {
    if ps != [] {
      assert ps[0] in ps;
      assert forall p :: p in ps[1..] ==> p in ps;
      CountOnUniform(ps[1..], axis, v, d);
    }
  }

  /**
    The selection loop of `ring` keeps as many children as sit on the selected layer,
    whenever its epsilon test picks out exactly that layer.
   */
  lemma {:induction false} SelectLength(n: int, pieces: seq<Piece>, axis: Axis, target: real, d: int, from: nat)
    requires n > 0 && from <= |pieces|
    requires forall k :: 0 <= k < |pieces| ==> (Near(n, pieces[k], axis, target) <==> Component(pieces[k].pos, axis) == d)
    ensures |Select(n, pieces, axis, target, from)| == CountOn(pieces[from..], axis, d)
    decreases |pieces| - from
  {
    if from < |pieces| {
      SelectLength(n, pieces, axis, target, d, from + 1);
      assert pieces[from..][1..] == pieces[from + 1..];
    }
  }

  /** `ring(face, index)` has as many pieces as there are children on its lattice layer. */
  lemma RingLength(n: int, face: Face, index: int, pieces: seq<Piece>)
    requires n > 0
    ensures |Ring(n, face, index, pieces).value| == CountOn(pieces, AxisOf(face), Doubled(n, LayerOf(n, face, index)))
  {
    var positive := Positive(face);
    SelectOnLayer(n, pieces, face, index);
    FaceAxisDerivable(face);
    SelectLength(n, pieces, AxisOf(face), TargetCentre(n, index, positive), Doubled(n, LayerOf(n, face, index)), 0);
    assert pieces[0..] == pieces;
  }

  /** Along x, the row (x.., y, z) holds the piece at x = l exactly when that cell is on the boundary. */
  lemma {:induction false} RowAcross(n: int, y: int, z: int, x: int, l: int)
    requires 0 <= y < n && 0 <= z < n && 0 <= x <= n && 0 <= l < n
    ensures CountOn(Row(n, y, z, x), X, Doubled(n, l)) ==
      if x <= l && (Outer(n, l) || Outer(n, y) || Outer(n, z)) then 1 else 0
    decreases n - x
  {
    if x < n {
      RowAcross(n, y, z, x + 1, l);
      var c := Cell(x, y, z);
      var faces := ExposedFaces(n, c);
      var head := if |faces| == 0 then [] else [Piece(Centre(n, c), faces)];
      assert Row(n, y, z, x) == head + Row(n, y, z, x + 1);
      CountOnAppend(head, Row(n, y, z, x + 1), X, Doubled(n, l));
    }
  }

  /** Every piece of plane y sits on coordinate y along the y axis. */
  lemma PlaneOnY(n: int, y: int, z: int)
    requires 0 <= y < n && 0 <= z
    ensures forall p :: p in Plane(n, y, z) ==> Component(p.pos, Y) == Doubled(n, y)
  {
    PlaneMembers(n, y, z);
  }

  /** Every piece of row (.., y, z) sits on coordinate z along the z axis. */
  lemma RowOnZ(n: int, y: int, z: int)
    requires 0 <= y < n && 0 <= z < n
    ensures forall p :: p in Row(n, y, z, 0) ==> Component(p.pos, Z) == Doubled(n, z)
  {
    RowMembers(n, y, z, 0);
  }

  /** Along x, the rows z.. of plane y hold one piece each at x = l when on the boundary. */
  lemma {:induction false} PlaneAcross(n: int, y: int, z: int, l: int)
    requires 0 <= y < n && 0 <= z <= n && 0 <= l < n
    ensures CountOn(Plane(n, y, z), X, Doubled(n, l)) ==
      if Outer(n, l) || Outer(n, y) then n - z else Ends(n, z)
    decreases n - z
  {
    if z < n {
      PlaneAcross(n, y, z + 1, l);
      RowAcross(n, y, z, 0, l);
      CountOnAppend(Row(n, y, z, 0), Plane(n, y, z + 1), X, Doubled(n, l));
    }
  }

  /** Along z, the rows z.. of plane y contribute the row at z = l. */
  lemma {:induction false} PlaneAlongZ(n: int, y: int, z: int, l: int)
    requires 0 <= y < n && 0 <= z <= n && 0 <= l < n
    ensures CountOn(Plane(n, y, z), Z, Doubled(n, l)) == if z <= l then |Row(n, y, l, 0)| else 0
    decreases n - z
  {
    if z < n {
      PlaneAlongZ(n, y, z + 1, l);
      RowOnZ(n, y, z);
      CountOnUniform(Row(n, y, z, 0), Z, Doubled(n, z), Doubled(n, l));
      CountOnAppend(Row(n, y, z, 0), Plane(n, y, z + 1), Z, Doubled(n, l));
    }
  }

  /** Along y, the planes y.. contribute the plane at y = l. */
  lemma {:induction false} SlabAlongY(n: int, y: int, l: int)
    requires 0 <= y <= n && 0 <= l < n
    ensures CountOn(Slab(n, y), Y, Doubled(n, l)) == if y <= l then |Plane(n, l, 0)| else 0
    decreases n - y
  {
    if y < n {
      SlabAlongY(n, y + 1, l);
      PlaneOnY(n, y, 0);
      CountOnUniform(Plane(n, y, 0), Y, Doubled(n, y), Doubled(n, l));
      CountOnAppend(Plane(n, y, 0), Slab(n, y + 1), Y, Doubled(n, l));
    }
  }

  /** What plane y contributes to layer l along x or z: a full row or column, or its two ends. */
  lemma PlaneShare(n: int, y: int, axis: Axis, l: int)
    requires 0 <= y < n && 0 <= l < n && axis != Y
    ensures CountOn(Plane(n, y, 0), axis, Doubled(n, l)) == if Outer(n, l) || Outer(n, y) then n else 2
  {
    if axis == X {
      PlaneAcross(n, y, 0, l);
    } else {
      PlaneAlongZ(n, y, 0, l);
      RowCount(n, y, l, 0);
    }
  }

  /** Along x or z, the planes y.. hold n pieces of layer l per outer plane and 2 per middle one. */
  lemma {:induction false} SlabAcross(n: int, y: int, axis: Axis, l: int)
    requires 0 <= y <= n && 0 <= l < n && axis != Y
    ensures CountOn(Slab(n, y), axis, Doubled(n, l)) ==
      if Outer(n, l) then n * (n - y) else n * Ends(n, y) + 2 * ((n - y) - Ends(n, y))
    decreases n - y
  {
    if y < n {
      SlabAcross(n, y + 1, axis, l);
      PlaneShare(n, y, axis, l);
      CountOnAppend(Plane(n, y, 0), Slab(n, y + 1), axis, Doubled(n, l));
      var e' := Ends(n, y + 1);
      if Outer(n, l) {
        MulSucc(n, n - (y + 1));
      } else if Outer(n, y) {
        assert Ends(n, y) == e' + 1;
        MulSucc(n, e');
      } else {
        assert Ends(n, y) == e';
      }
    }
  }

  /**
    On a freshly built cube of size n, `ring(face, index)` for an index in [0, n) holds n*n
    pieces when the index names an outer layer and 4(n-1) pieces for a middle layer.
   */
  lemma {:induction false} RingSize(n: int, face: Face, index: int)
    requires 1 <= n && 0 <= index < n
    ensures |Ring(n, face, index, Pieces(n)).value| == if index == 0 || index == n - 1 then n * n else 4 * n - 4
  {
    var l := LayerOf(n, face, index);
    assert Outer(n, l) <==> index == 0 || index == n - 1;
    RingLength(n, face, index, Pieces(n));
    if AxisOf(face) == Y {
      SlabAlongY(n, 0, l);
      PlaneCount(n, l, 0);
    } else {
      SlabAcross(n, 0, AxisOf(face), l);
      assert !Outer(n, l) ==> Ends(n, 0) == 2;
    }
  }
}
