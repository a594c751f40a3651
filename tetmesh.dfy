/**
 * The legacy TetMesh of the grid library: a small lattice of tetrahedra centred on the
 * origin, used as the neighbourhood of a voxel when a grid is resampled. makeTetrahedra
 * puts (2s+1)³ vertices on the integer points -s .. s of each axis (x fastest, then y,
 * then z) and cuts each of the (2s)³ unit cubes between them into six tetrahedra, naming
 * the vertices through an index function getIndex(i, j, k).
 *
 * A vertex is modelled by its integer lattice coordinates; the source scales them by the
 * voxel size, in floating point.
 */
module LegacyTetMesh {
  import CInt
  import Lattice

  type Coord = (int, int, int)

  /** The point (x, y, z) of a w-wide cube of points whose linear index is m. */
  function Unlinear(w: nat, m: nat): (nat, nat, nat)
    requires w > 0
  {
    (m % w, (m / w) % w, m / (w * w))
  }

  /** Unlinear inverts the row-major index on a w × w × … lattice. */
  lemma UnlinearInverts(w: nat, x: nat, y: nat, z: nat)
    requires x < w && y < w
    ensures Unlinear(w, Lattice.LinearIndex(w, w, x, y, z)) == (x, y, z)
  {
    var m := Lattice.LinearIndex(w, w, x, y, z);
    Lattice.Regrouped(w, w, x, y, z);
    CInt.DivModUnique(m, w, y + w * z, x);
    CInt.DivModUnique(y + w * z, w, z, y);
    CInt.DivModUnique(m, w * w, z, x + w * y);
  }

  /** The index after the last point of a row is the first of the next row, and likewise for layers. */
  lemma RowAndLayerEnds(w: nat, y: nat, z: nat)
    ensures Lattice.LinearIndex(w, w, w, y, z) == Lattice.LinearIndex(w, w, 0, y + 1, z)
    ensures Lattice.LinearIndex(w, w, 0, w, z) == Lattice.LinearIndex(w, w, 0, 0, z + 1)
  {
    CInt.MulSucc(w, y);
    CInt.MulSucc(w * w, z);
  }

  /** The number of points on each axis: -s .. s. */
  function Width(s: nat): nat
  {
    2 * s + 1
  }

  /** Vertex m of the lattice of half-width s: Unlinear(2s+1, m) shifted by -s. */
  function VertexAt(s: nat, m: nat): Coord
  {
    var p := Unlinear(Width(s), m);
    (p.0 - s, p.1 - s, p.2 - s)
  }

  /** The first n vertices makeTetrahedra creates. */
  function Verts(s: nat, n: nat): (vs: seq<Coord>)
    ensures |vs| == n
  {
    seq(n, m requires 0 <= m => VertexAt(s, m))
  }

  lemma VertsStep(s: nat, n: nat)
    ensures Verts(s, n + 1) == Verts(s, n) + [VertexAt(s, n)]
  {
    assert Verts(s, n + 1)[..n] == Verts(s, n);
  }

  /**
   * getIndex(i, j, k) over a lattice `width` points wide. makeTetrahedra passes 2s, one
   * less than the number of points per row.
   */
  function GetIndex(width: nat, i: nat, j: nat, k: nat): nat
  {
    Lattice.LinearIndex(width, width, i, j, k)
  }

  /** Corners inside a cube of side `width` get indices below width^3. */
  lemma GetIndexBounded(width: nat, i: nat, j: nat, k: nat)
    requires i < width && j < width && k < width
    ensures GetIndex(width, i, j, k) < width * width * width
  {
    Lattice.InRange(width, width, width, i, j, k);
  }

  /** Corners whose first two coordinates are below the width never share an index. */
  lemma GetIndexInjective(width: nat, i: nat, j: nat, k: nat, i': nat, j': nat, k': nat)
    requires i < width && j < width && i' < width && j' < width
    requires GetIndex(width, i, j, k) == GetIndex(width, i', j', k')
    ensures i == i' && j == j' && k == k'
  {
    Lattice.Injective(width, width, i, j, k, i', j', k');
  }

  /** The corner offsets of the six tetrahedra, in the order makeTetrahedra pushes them. */
  function CornerOffset(t: nat, c: nat): (d: (nat, nat, nat))
    requires t < 6 && c < 4
    ensures d.0 <= 1 && d.1 <= 1 && d.2 <= 1
  {
    [[(1, 0, 0), (1, 1, 0), (0, 1, 0), (1, 1, 1)],
     [(0, 0, 1), (0, 0, 0), (0, 1, 1), (1, 0, 1)],
     [(0, 1, 1), (1, 0, 0), (1, 1, 1), (1, 0, 1)],
     [(0, 0, 0), (1, 0, 0), (0, 1, 1), (1, 0, 1)],
     [(0, 0, 0), (1, 0, 0), (0, 1, 0), (0, 1, 1)],
     [(0, 1, 0), (1, 0, 0), (1, 1, 1), (0, 1, 1)]][t][c]
  }

  /** The six tetrahedra of the unit cube whose lowest corner is (i, j, k), in push order. */
  function SixTets(width: nat, i: nat, j: nat, k: nat): (ts: seq<seq<nat>>)
    ensures |ts| == 6 && forall t :: 0 <= t < 6 ==> |ts[t]| == 4
  {
    seq(6, t requires 0 <= t < 6 =>
      seq(4, c requires 0 <= c < 4 =>
        var d := CornerOffset(t, c); GetIndex(width, i + d.0, j + d.1, k + d.2)))
  }

  /** Corner c of tetrahedron t of a cube is the point at its corner offset. */
  lemma SixTetsCorners(width: nat, i: nat, j: nat, k: nat, t: nat, c: nat)
    requires t < 6 && c < 4
    ensures var d := CornerOffset(t, c); SixTets(width, i, j, k)[t][c] == GetIndex(width, i + d.0, j + d.1, k + d.2)
  {
  }

  /** Tetrahedron m of the lattice: tetrahedron m % 6 of cube m / 6, cubes taken x fastest. */
  function TetAt(width: nat, cubes: nat, m: nat): seq<nat>
    requires cubes > 0
  {
    var c := Unlinear(cubes, m / 6);
    SixTets(width, c.0, c.1, c.2)[m % 6]
  }

  /** The tetrahedra of the first n cubes of a grid `cubes` cubes wide. */
  function Tets(width: nat, cubes: nat, n: nat): (ts: seq<seq<nat>>)
    requires cubes > 0 || n == 0
    ensures |ts| == 6 * n
  {
    if n == 0 then [] else seq(6 * n, m requires 0 <= m => TetAt(width, cubes, m))
  }

  lemma TetsStep(width: nat, cubes: nat, n: nat)
    requires cubes > 0
    ensures var c := Unlinear(cubes, n);
      Tets(width, cubes, n + 1) == Tets(width, cubes, n) + SixTets(width, c.0, c.1, c.2)
  {
    var c := Unlinear(cubes, n);
    var next := Tets(width, cubes, n) + SixTets(width, c.0, c.1, c.2);
    forall m | 0 <= m < 6 * (n + 1)
      ensures Tets(width, cubes, n + 1)[m] == next[m]
    {
      if m >= 6 * n {
        assert m / 6 == n && m % 6 == m - 6 * n;
      }
    }
  }

  lemma TetsAt(width: nat, cubes: nat, n: nat, q: nat, t: nat)
    requires cubes > 0 && q < n && t < 6
    ensures var c := Unlinear(cubes, q); Tets(width, cubes, n)[6 * q + t] == SixTets(width, c.0, c.1, c.2)[t]
  {
    assert (6 * q + t) / 6 == q && (6 * q + t) % 6 == t;
  }

  /**
   * With an index function as wide as the rows of points, every cube corner (x, y, z),
   * 0 <= x, y, z <= 2s, names the vertex at (x - s, y - s, z - s).
   */
  lemma CornerAddressed(s: nat, x: nat, y: nat, z: nat)
    requires x <= 2 * s && y <= 2 * s && z <= 2 * s
    ensures GetIndex(Width(s), x, y, z) < Points(s)
    ensures Verts(s, Points(s))[GetIndex(Width(s), x, y, z)] == (x - s, y - s, z - s)
  {
    var w := Width(s);
    Lattice.InRange(w, w, w, x, y, z);
    UnlinearInverts(w, x, y, z);
  }

  /** The number of vertices and the number of cubes of the lattice of half-width s. */
  function Points(s: nat): nat
  {
    Width(s) * Width(s) * Width(s)
  }

  function Cubes(s: nat): nat
  {
    (2 * s) * (2 * s) * (2 * s)
  }

  /** The lowest corner of cube q lies on the lattice, one step below its far side. */
  lemma CubeInLattice(s: nat, q: nat)
    requires s > 0 && q < Cubes(s)
    ensures var p := Unlinear(2 * s, q); p.0 < 2 * s && p.1 < 2 * s && p.2 < 2 * s
  {
    var n := 2 * s;
    assert q < (n * n) * n;
    if q / (n * n) >= n {
      CInt.MulMonotone(n * n, n, q / (n * n));
      CInt.EuclideanBounds(q, n * n);
    }
  }

  /**
   * The mesh built with row width 2s + 1: corner c of tetrahedron t of cube q is the
   * vertex at that corner of the cube.
   */
  lemma TetCornerIsCubeCorner(s: nat, q: nat, t: nat, c: nat)
    requires s > 0 && q < Cubes(s) && t < 6 && c < 4
    ensures var idx := Tets(Width(s), 2 * s, Cubes(s))[6 * q + t][c];
      var p := Unlinear(2 * s, q);
      var d := CornerOffset(t, c);
      idx < Points(s) && Verts(s, Points(s))[idx] == (p.0 + d.0 - s, p.1 + d.1 - s, p.2 + d.2 - s)
  {
    TetCornerAt(s, q, t, c, Unlinear(2 * s, q), CornerOffset(t, c));
  }

  /** TetCornerIsCubeCorner with the cube's lowest corner p and the corner's offset d named. */
  lemma TetCornerAt(s: nat, q: nat, t: nat, c: nat, p: (nat, nat, nat), d: (nat, nat, nat))
    requires s > 0 && q < Cubes(s) && t < 6 && c < 4
    requires p == Unlinear(2 * s, q) && d == CornerOffset(t, c)
    ensures var idx := Tets(Width(s), 2 * s, Cubes(s))[6 * q + t][c];
      idx < Points(s) && Verts(s, Points(s))[idx] == (p.0 + d.0 - s, p.1 + d.1 - s, p.2 + d.2 - s)
  {
    var idx := Tets(Width(s), 2 * s, Cubes(s))[6 * q + t][c];
    TetCornerIndex(Width(s), 2 * s, Cubes(s), q, t, c, p);
    assert idx == GetIndex(Width(s), p.0 + d.0, p.1 + d.1, p.2 + d.2);
    CubeInLattice(s, q);
    CornerAddressed(s, p.0 + d.0, p.1 + d.1, p.2 + d.2);
  }

  /** Corner c of tetrahedron t of cube q, at p, is the index of that corner of the cube. */
  lemma TetCornerIndex(width: nat, cubes: nat, n: nat, q: nat, t: nat, c: nat, p: (nat, nat, nat))
    requires cubes > 0 && q < n && t < 6 && c < 4 && p == Unlinear(cubes, q)
    ensures var d := CornerOffset(t, c);
      Tets(width, cubes, n)[6 * q + t][c] == GetIndex(width, p.0 + d.0, p.1 + d.1, p.2 + d.2)
  {
    assert (6 * q + t) / 6 == q && (6 * q + t) % 6 == t;
    TetsAt(width, cubes, n, q, t);
    CornerOfSixTets(Tets(width, cubes, n)[6 * q + t], width, p.0, p.1, p.2, t, c);
  }

  /** A tetrahedron equal to tetrahedron t of the cube at (i, j, k) has that cube's corners. */
  lemma CornerOfSixTets(tet: seq<nat>, width: nat, i: nat, j: nat, k: nat, t: nat, c: nat)
    requires t < 6 && c < 4 && tet == SixTets(width, i, j, k)[t]
    ensures var d := CornerOffset(t, c); c < |tet| && tet[c] == GetIndex(width, i + d.0, j + d.1, k + d.2)
  {
    SixTetsCorners(width, i, j, k, t, c);
  }

  // ---------------------------------------------------------------------------------
  // The index function as written

  /** With s = 1, getIndex as written (2 wide) gives corner (2, 0, 0) and corner (0, 1, 0) the same index. */
  lemma AsWrittenIndexCollides()
    ensures GetIndex(2, 2, 0, 0) == GetIndex(2, 0, 1, 0) == 2
  {
  }

  /** With s = 1, the first tetrahedron built as written uses vertex 2 as its third corner. */
  lemma AsWrittenFirstTetUsesVertexTwo()
    ensures Cubes(1) == 8
    ensures Tets(2, 2, 8)[0][2] == 2
  {
    assert Unlinear(2, 0) == (0, 0, 0);
    assert Tets(2, 2, 8)[0] == TetAt(2, 2, 0);
    assert TetAt(2, 2, 0) == SixTets(2, 0, 0, 0)[0];
    assert SixTets(2, 0, 0, 0)[0][2] == GetIndex(2, 0, 1, 0);
    assert GetIndex(2, 0, 1, 0) == 2;
  }

  /** With s = 1, vertex 2, which that tetrahedron uses, is the point (1, -1, -1)... */
  lemma AsWrittenVertexTwoIsFarCorner()
    ensures Points(1) == 27 && Verts(1, 27)[2] == (1, -1, -1)
  {
    assert Verts(1, 27)[2] == VertexAt(1, 2);
  }

  /** ...while the corner (0, 1, 0) of the first cube is vertex 3, the point (-1, 0, -1). */
  lemma IntendedCornerIsVertexThree()
    ensures GetIndex(Width(1), 0, 1, 0) == 3
  {
  }

  lemma VertexThreeIsIntendedCorner()
    ensures Verts(1, 27)[3] == (-1, 0, -1)
  {
    assert Verts(1, 27)[3] == VertexAt(1, 3);
  }

  datatype InterpolationMethod = NearestNeighbor | TriLinear | TriCubic | Barycentric

  /**
   * getInterpolatedValue: the nearest-neighbour or trilinear value (computed by the input
   * grid, here parameters); the two methods that are not implemented give 0.
   */
  function InterpolatedValue(m: InterpolationMethod, nearest: real, trilinear: real): (v: real)
    ensures m == NearestNeighbor ==> v == nearest
    ensures m == TriLinear ==> v == trilinear
    ensures m == TriCubic || m == Barycentric ==> v == 0.0
  {
    match m
    case NearestNeighbor => nearest
    case TriLinear => trilinear
    case _ => 0.0
  }

  class TetMesh {
    var vertices: seq<Coord>
    var tetrahedra: seq<seq<nat>>
    /** Whether an output grid is set, how many input grids there are, and the output resolution. */
    var hasOutputGrid: bool
    var inputGrids: nat
    var outputDims: (nat, nat, nat)

    /** The vertex loops of makeTetrahedra: k, then j, then i, each from -s to s. */
    method MakeVertices(s: nat)
      modifies this`vertices
      ensures vertices == Verts(s, Points(s))
    {
      var w := Width(s);
      var vs: seq<Coord> := [];
      var z := 0;
      while z < w
        invariant 0 <= z <= w
        invariant vs == Verts(s, Lattice.LinearIndex(w, w, 0, 0, z))
      {
        var y := 0;
        while y < w
          invariant 0 <= y <= w
          invariant vs == Verts(s, Lattice.LinearIndex(w, w, 0, y, z))
        {
          var x := 0;
          while x < w
            invariant 0 <= x <= w
            invariant vs == Verts(s, Lattice.LinearIndex(w, w, x, y, z))
          {
            UnlinearInverts(w, x, y, z);
            VertsStep(s, Lattice.LinearIndex(w, w, x, y, z));
            vs := vs + [(x - s, y - s, z - s)];
            x := x + 1;
          }
          RowAndLayerEnds(w, y, z);
          y := y + 1;
        }
        RowAndLayerEnds(w, 0, z);
        z := z + 1;
      }
      vertices := vs;
    }

    /** The tetrahedron loops of makeTetrahedra, over the (2s)³ cubes, with getIndex `width` wide. */
    method MakeCubes(s: nat, width: nat)
      modifies this`tetrahedra
      ensures tetrahedra == Tets(width, 2 * s, Cubes(s))
    {
      var n := 2 * s;
      var ts: seq<seq<nat>> := [];
      var k := 0;
      while k < n
        invariant 0 <= k <= n
        invariant ts == Tets(width, n, Lattice.LinearIndex(n, n, 0, 0, k))
      {
        var j := 0;
        while j < n
          invariant 0 <= j <= n
          invariant ts == Tets(width, n, Lattice.LinearIndex(n, n, 0, j, k))
        {
          var i := 0;
          while i < n
            invariant 0 <= i <= n
            invariant ts == Tets(width, n, Lattice.LinearIndex(n, n, i, j, k))
          {
            UnlinearInverts(n, i, j, k);
            TetsStep(width, n, Lattice.LinearIndex(n, n, i, j, k));
            ts := ts + SixTets(width, i, j, k);
            i := i + 1;
          }
          RowAndLayerEnds(n, j, k);
          j := j + 1;
        }
        RowAndLayerEnds(n, 0, k);
        k := k + 1;
      }
      tetrahedra := ts;
    }

    /**
     * makeTetrahedra as written: getIndex is 2s wide while the rows hold 2s + 1 points,
     * so a corner at x = 2s and the corner at x = 0 one row up share an index.
     */
    method MakeTetrahedraAsWritten(s: nat)
      modifies this`vertices, this`tetrahedra
      ensures vertices == Verts(s, Points(s))
      ensures tetrahedra == Tets(2 * s, 2 * s, Cubes(s))
    {
      MakeVertices(s);
      MakeCubes(s, 2 * s);
    }

    /**
     * makeTetrahedra with getIndex as wide as the rows of points: (2s+1)³ vertices,
     * 6·(2s)³ tetrahedra, and every tetrahedron corner is the vertex at that corner of
     * its cube (TetCornerIsCubeCorner).
     */
    method MakeTetrahedra(s: nat)
      modifies this`vertices, this`tetrahedra
      ensures vertices == Verts(s, Points(s))
      ensures tetrahedra == Tets(Width(s), 2 * s, Cubes(s))
      ensures |vertices| == (2 * s + 1) * (2 * s + 1) * (2 * s + 1)
      ensures |tetrahedra| == 6 * ((2 * s) * (2 * s) * (2 * s))
    {
      MakeVertices(s);
      MakeCubes(s, Width(s));
    }

    /**
     * The early returns of populateOutputGrid: nothing is generated without an output
     * grid, without input grids, or when a dimension of the output is zero.
     */
    method PopulateOutputGridGuards() returns (generates: bool)
      ensures generates <==> (hasOutputGrid && inputGrids > 0
                              && outputDims.0 > 0 && outputDims.1 > 0 && outputDims.2 > 0)
    {
      if !hasOutputGrid {
        return false;
      }
      if inputGrids == 0 {
        return false;
      }
      if outputDims.0 == 0 || outputDims.1 == 0 || outputDims.2 == 0 {
        return false;
      }
      return true;
    }
  }
}
