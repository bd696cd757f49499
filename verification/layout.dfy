/**
  `Rubiks.setSize`: which lattice cells of an n*n*n cube become pieces, which faces each
  piece shows, and where its centre sits. Centres are kept in doubled lattice units: cell
  coordinate k of a size-n cube sits at 2k+1-n, which is the source's real centre times 2n.
 */
module Layout {
  import opened Geometry

  /** A lattice cell (x, y, z); a cell of a size-n cube has every coordinate in [0, n). */
  datatype Cell = Cell(x: int, y: int, z: int)

  /** A piece: its centre in doubled units and the faces it carries a colour on, in creation order. */
  datatype Piece = Piece(pos: Vec3, faces: seq<Face>)

  predicate InGrid(n: int, c: Cell) {
    0 <= c.x < n && 0 <= c.y < n && 0 <= c.z < n
  }

  /** At least one coordinate is on the outside of the cube. */
  predicate IsBoundary(n: int, c: Cell) {
    c.x == 0 || c.x == n - 1 || c.y == 0 || c.y == n - 1 || c.z == 0 || c.z == n - 1
  }

  /** The order in which the source pushes face names. */
  const FaceOrder: seq<Face> := [Down, Up, Back, Front, Left, Right]

  /** Whether a cell shows a colour on face f: it lies on that face's outer layer. */
  predicate Shows(n: int, c: Cell, f: Face) {
    match f
    case Down => c.y == 0
    case Up => c.y == n - 1
    case Back => c.z == 0
    case Front => c.z == n - 1
    case Left => c.x == 0
    case Right => c.x == n - 1
  }

  /** The faces of `order` that a cell shows, keeping their order. */
  function ShownIn(n: int, c: Cell, order: seq<Face>): (fs: seq<Face>)
    ensures forall f :: f in fs <==> f in order && Shows(n, c, f)
  {
    if order == [] then []
    else (if Shows(n, c, order[0]) then [order[0]] else []) + ShownIn(n, c, order[1..])
  }

  /** The `faceNames` list built for a cell. */
  function ExposedFaces(n: int, c: Cell): (fs: seq<Face>)
    ensures forall f :: f in fs <==> Shows(n, c, f)
    ensures |fs| > 0 <==> IsBoundary(n, c)
  {
    var fs := ShownIn(n, c, FaceOrder);
    assert fs != [] ==> fs[0] in fs && Shows(n, c, fs[0]);
    assert IsBoundary(n, c) ==>
      Down in fs || Up in fs || Back in fs || Front in fs || Left in fs || Right in fs;
    fs
  }

  /** Lattice coordinate k of a size-n cube, in doubled units. */
  function Doubled(n: int, k: int): int {
    2 * k + 1 - n
  }

  function Centre(n: int, c: Cell): Vec3 {
    Vec3(Doubled(n, c.x), Doubled(n, c.y), Doubled(n, c.z))
  }

  /** The piece `setSize` creates for a boundary cell. */
  function MakePiece(n: int, c: Cell): Piece {
    Piece(Centre(n, c), ExposedFaces(n, c))
  }

  /** The cell whose centre a piece sits on (inverse of `Centre`). */
  function CellOf(n: int, p: Piece): Cell {
    Cell((p.pos.x + n - 1) / 2, (p.pos.y + n - 1) / 2, (p.pos.z + n - 1) / 2)
  }

  lemma CellOfMakePiece(n: int, c: Cell)
    ensures CellOf(n, MakePiece(n, c)) == c
  {
  }

  /** `p` is the piece a size-n cube creates for some boundary cell of its grid. */
  predicate Placed(n: int, p: Piece) {
    var c := CellOf(n, p);
    InGrid(n, c) && IsBoundary(n, c) && p == MakePiece(n, c)
  }

  /** The source's centre formula on one axis: k / n - 0.5 + 0.5 / n. */
  function SourceCentre(n: int, k: int): real
    requires n > 0
  {
    k as real / n as real - 0.5 + 0.5 / n as real
  }

  /** The source's centre is the doubled coordinate over 2n, strictly inside (-0.5, 0.5). */
  lemma CentreExact(n: int, k: int)
    requires n > 0 && 0 <= k < n
    ensures SourceCentre(n, k) == Doubled(n, k) as real / (2 * n) as real
    ensures -0.5 < SourceCentre(n, k) < 0.5
    ensures -n < Doubled(n, k) < n
  {
    var nr := n as real;
    var kr := k as real;
    calc {
      SourceCentre(n, k);
      kr / nr - 0.5 + 0.5 / nr;
      (2.0 * kr + 1.0 - nr) / (2.0 * nr);
      Doubled(n, k) as real / (2 * n) as real;
    }
    assert 0.0 <= kr <= nr - 1.0;
    assert (2.0 * kr + 1.0 - nr) < nr;
    assert -nr < (2.0 * kr + 1.0 - nr);
  }

  /** The innermost loop of `setSize`: cells (x.., y, z), keeping those with a visible face. */
  function Row(n: int, y: int, z: int, x: int): seq<Piece>
    decreases n - x
  {
    if x >= n then []
    else
      var c := Cell(x, y, z);
      var faces := ExposedFaces(n, c);
      (if |faces| == 0 then [] else [Piece(Centre(n, c), faces)]) + Row(n, y, z, x + 1)
  }

  /** The middle loop of `setSize`: rows z.. of the plane y. */
  function Plane(n: int, y: int, z: int): seq<Piece>
    decreases n - z
  {
    if z >= n then [] else Row(n, y, z, 0) + Plane(n, y, z + 1)
  }

  /** The outer loop of `setSize`: planes y.. */
  function Slab(n: int, y: int): seq<Piece>
    decreases n - y
  {
    if y >= n then [] else Plane(n, y, 0) + Slab(n, y + 1)
  }

  /** The children `setSize(n)` leaves in the group, in creation order. */
  function Pieces(n: int): seq<Piece> {
    Slab(n, 0)
  }

  lemma {:induction false} RowMembers(n: int, y: int, z: int, x: int)
    requires 0 <= y < n && 0 <= z < n && 0 <= x
    ensures forall p :: p in Row(n, y, z, x) <==>
      Placed(n, p) && CellOf(n, p).y == y && CellOf(n, p).z == z && CellOf(n, p).x >= x
    decreases n - x
  {
    if x < n {
      RowMembers(n, y, z, x + 1);
      var c := Cell(x, y, z);
      CellOfMakePiece(n, c);
      forall p | Placed(n, p) && CellOf(n, p) == c
        ensures p in Row(n, y, z, x)
      {
      }
    }
  }

  lemma {:induction false} PlaneMembers(n: int, y: int, z: int)
    requires 0 <= y < n && 0 <= z
    ensures forall p :: p in Plane(n, y, z) <==>
      Placed(n, p) && CellOf(n, p).y == y && CellOf(n, p).z >= z
    decreases n - z
  {
    if z < n {
      PlaneMembers(n, y, z + 1);
      RowMembers(n, y, z, 0);
    }
  }

  lemma {:induction false} SlabMembers(n: int, y: int)
    requires 0 <= y
    ensures forall p :: p in Slab(n, y) <==> Placed(n, p) && CellOf(n, p).y >= y
    decreases n - y
  {
    if y < n {
      SlabMembers(n, y + 1);
      PlaneMembers(n, y, 0);
    }
  }

  /** A piece of `setSize(n)` is exactly the piece of a boundary cell: its centre and its faces. */
  lemma PiecesMembership(n: int)
    ensures forall p :: p in Pieces(n) <==> Placed(n, p)
  {
    SlabMembers(n, 0);
  }

  /** Every piece of a size-n cube has its centre strictly inside the cube. */
  lemma PiecesInBox(n: int)
    ensures forall p :: p in Pieces(n) ==> InBox(n, p.pos)
    ensures n <= 0 ==> Pieces(n) == []
  {
    PiecesMembership(n);
  }

  /** How many of the coordinates k.. n-1 lie on the outside (are 0 or n-1). */
  function Ends(n: int, k: int): int {
    (if k == 0 then 1 else 0) + (if k <= n - 1 && n - 1 != 0 then 1 else 0)
  }

  lemma {:induction false} RowCount(n: int, y: int, z: int, x: int)
    requires 0 <= y < n && 0 <= z < n && 0 <= x <= n
    ensures |Row(n, y, z, x)| ==
      if y == 0 || y == n - 1 || z == 0 || z == n - 1 then n - x else Ends(n, x)
    decreases n - x
  {
    if x < n {
      RowCount(n, y, z, x + 1);
    }
  }

  lemma {:induction false} PlaneCount(n: int, y: int, z: int)
    requires 0 <= y < n && 0 <= z <= n
    ensures |Plane(n, y, z)| ==
      if y == 0 || y == n - 1 then n * (n - z) else n * Ends(n, z) + 2 * ((n - z) - Ends(n, z))
    decreases n - z
  {
    if z < n {
      PlaneCount(n, y, z + 1);
      RowCount(n, y, z, 0);
      assert |Plane(n, y, z)| == |Row(n, y, z, 0)| + |Plane(n, y, z + 1)|;
      if y == 0 || y == n - 1 {
        assert |Row(n, y, z, 0)| == n;
        MulSucc(n, n - (z + 1));
      } else {
        var e' := Ends(n, z + 1);
        if z == 0 || z == n - 1 {
          assert Ends(n, z) == e' + 1;
          MulSucc(n, e');
        } else {
          assert Ends(n, z) == e';
        }
      }
    }
  }

  /** a * (b + 1) == a * b + a, kept apart so the counting lemmas stay linear. */
  lemma MulSucc(a: int, b: int)
    ensures a * (b + 1) == a * b + a
  {
  }

  lemma {:induction false} SlabCount(n: int, y: int)
    requires 1 <= n && 0 <= y <= n
    ensures |Slab(n, y)| == n * n * Ends(n, y) + (4 * n - 4) * ((n - y) - Ends(n, y))
    decreases n - y
  {
    if y < n {
      SlabCount(n, y + 1);
      PlaneCount(n, y, 0);
      assert |Slab(n, y)| == |Plane(n, y, 0)| + |Slab(n, y + 1)|;
      var sq, k := n * n, 4 * n - 4;
      var e' := Ends(n, y + 1);
      var rest := (n - (y + 1)) - e';
      assert |Slab(n, y + 1)| == sq * e' + k * rest;
      if y == 0 || y == n - 1 {
        assert |Plane(n, y, 0)| == sq;
        assert Ends(n, y) == e' + 1;
        MulSucc(sq, e');
        assert (n - y) - Ends(n, y) == rest;
      } else {
        assert |Plane(n, y, 0)| == k;
        assert Ends(n, y) == e';
        MulSucc(k, rest);
        assert (n - y) - Ends(n, y) == rest + 1;
      }
    }
  }

  /** (n - 2)^3 expanded. */
  lemma CubeOfDifference(n: int)
    ensures (n - 2) * (n - 2) * (n - 2) == n * n * n - 6 * n * n + 12 * n - 8
    ensures n * n * n - (n - 2) * (n - 2) * (n - 2) == 2 * n * n + (4 * n - 4) * (n - 2)
  {
    var m := n - 2;
    assert m * m == n * n - 4 * n + 4;
    assert m * m * m == (n * n - 4 * n + 4) * (n - 2);
  }

  /** `setSize(n)` creates n^3 - max(0, n-2)^3 pieces: every cell but the hidden core. */
  lemma {:induction false} PieceCount(n: int)
    requires n >= 0
    ensures var m := if n >= 2 then n - 2 else 0; |Pieces(n)| == n * n * n - m * m * m
  {
    if n == 1 {
      SlabCount(1, 0);
    } else if n >= 2 {
      SlabCount(n, 0);
      assert Ends(n, 0) == 2;
      var sq := n * n;
      assert |Pieces(n)| == sq * 2 + (4 * n - 4) * (n - 2);
      CubeOfDifference(n);
    }
  }
}
