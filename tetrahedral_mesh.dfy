/**
 * The tetrahedral lattice of `TetMesh`: a box of nx*ny*nz cubes, each cut into six
 * tetrahedra, whose vertices live on an (nx+1)*(ny+1)*(nz+1) point lattice, and the
 * face-adjacency links between tetrahedra computed through a map keyed by sorted faces.
 *
 * Vertex positions, the origin and the cube size are integer triples where the source has
 * floating-point vectors.
 */
module TetrahedralMesh {
  import CInt

  // ---------------------------------------------------------------------------------
  // Faces of a tetrahedron

  /** faceOrder[f]: the vertex slots of face f, the face opposite vertex slot f. */
  const FaceOrder: seq<seq<int>> := [[3, 1, 2], [3, 2, 0], [3, 0, 1], [2, 1, 0]]

  function IdxOfPtInFace(faceIdx: int, pointIdx: int): (r: int)
    requires 0 <= faceIdx < 4 && 0 <= pointIdx < 3
    ensures 0 <= r < 4 && r != faceIdx
  {
    FaceOrder[faceIdx][pointIdx]
  }

  /** The three slots of face f are pairwise distinct, so they are exactly the slots other than f. */
  lemma FaceSlotsArePermutation(f: int)
    requires 0 <= f < 4
    ensures multiset{IdxOfPtInFace(f, 0), IdxOfPtInFace(f, 1), IdxOfPtInFace(f, 2), f} == multiset{0, 1, 2, 3}
  {
  }

  // ---------------------------------------------------------------------------------
  // Lattice indexing

  /** Number of lattice points of a box of nx*ny*nz cubes. */
  function VertexCount(nx: nat, ny: nat, nz: nat): nat
  {
    (nx + 1) * (ny + 1) * (nz + 1)
  }

  /** from3DTo1D: x fastest, then y, then z, over a lattice nx+1 points wide and ny+1 deep. */
  function From3DTo1D(nx: nat, ny: nat, x: int, y: int, z: int): (i: int)
    ensures 0 <= x <= nx && 0 <= y <= ny && 0 <= z ==> 0 <= i
  {
    x + (nx + 1) * y + (nx + 1) * (ny + 1) * z
  }

  /** idxTo3D with C's truncating `/` and `%`. */
  function IdxTo3D(i: int, h: int, w: int): (p: (int, int, int))
    requires h != 0 && w != 0
    ensures i >= 0 && h > 0 && w > 0 ==> 0 <= p.0 < h && 0 <= p.1 < w && 0 <= p.2
  {
    (CInt.TruncMod(i, h), CInt.TruncMod(CInt.TruncDiv(i, h), w), CInt.TruncDiv(i, h * w))
  }

  /** The lattice index regrouped two ways, as idxTo3D divides it. */
  lemma LatticeIndexRegrouped(h: nat, w: nat, x: int, y: int, z: int)
    requires 0 <= x < h && 0 <= y < w && 0 <= z
    ensures x + h * y + h * w * z == (y + w * z) * h + x
    ensures x + h * y + h * w * z == z * (h * w) + (x + h * y)
    ensures 0 <= x + h * y < h * w
  {
    assert h * y <= h * (w - 1);
  }

  /** idxTo3D inverts from3DTo1D on the lattice (h = nx+1, w = ny+1). */
  lemma {:induction false} IdxTo3DInvertsFrom3DTo1D(nx: nat, ny: nat, x: int, y: int, z: int)
    requires 0 <= x <= nx && 0 <= y <= ny && 0 <= z
    ensures IdxTo3D(From3DTo1D(nx, ny, x, y, z), nx + 1, ny + 1) == (x, y, z)
  {
    var h, w := nx + 1, ny + 1;
    var i := From3DTo1D(nx, ny, x, y, z);
    LatticeIndexRegrouped(h, w, x, y, z);
    var yz := y + w * z;
    CInt.DivModUnique(i, h, yz, x);
    CInt.DivModUnique(yz, w, z, y);
    CInt.DivModUnique(i, h * w, z, x + h * y);
    assert CInt.TruncMod(i, h) == x;
    assert CInt.TruncDiv(i, h) == yz;
    assert CInt.TruncMod(yz, w) == y;
    assert CInt.TruncDiv(i, h * w) == z;
  }

  /** Every lattice point of the box has an index below the vertex count. */
  lemma From3DTo1DInRange(nx: nat, ny: nat, nz: nat, x: int, y: int, z: int)
    requires 0 <= x <= nx && 0 <= y <= ny && 0 <= z <= nz
    ensures 0 <= From3DTo1D(nx, ny, x, y, z) < VertexCount(nx, ny, nz)
  {
    var h, w := nx + 1, ny + 1;
    CInt.MulMonotone(h, y, ny);
    CInt.MulMonotone(h * w, z, nz);
    CInt.MulNonNegative(h, y);
    CInt.MulNonNegative(h * w, z);
    CInt.MulSucc(h, ny);
    CInt.MulSucc(h * w, nz);
  }

  /** Distinct lattice points have distinct indices. */
  lemma From3DTo1DInjective(nx: nat, ny: nat, x: int, y: int, z: int, x': int, y': int, z': int)
    requires 0 <= x <= nx && 0 <= y <= ny && 0 <= z
    requires 0 <= x' <= nx && 0 <= y' <= ny && 0 <= z'
    requires From3DTo1D(nx, ny, x, y, z) == From3DTo1D(nx, ny, x', y', z')
    ensures x == x' && y == y' && z == z'
  {
    IdxTo3DInvertsFrom3DTo1D(nx, ny, x, y, z);
    IdxTo3DInvertsFrom3DTo1D(nx, ny, x', y', z');
  }

  /**
   * insertCubeIntoPtGrid: indices of the eight corners of cube (x,y,z), bottom square
   * (x,y) (x,y+1) (x+1,y+1) (x+1,y) then the same square one layer up.
   */
  function CubeCorners(nx: nat, ny: nat, x: int, y: int, z: int): (c: seq<int>)
    ensures |c| == 8
  {
    [From3DTo1D(nx, ny, x, y, z), From3DTo1D(nx, ny, x, y + 1, z),
     From3DTo1D(nx, ny, x + 1, y + 1, z), From3DTo1D(nx, ny, x + 1, y, z),
     From3DTo1D(nx, ny, x, y, z + 1), From3DTo1D(nx, ny, x, y + 1, z + 1),
     From3DTo1D(nx, ny, x + 1, y + 1, z + 1), From3DTo1D(nx, ny, x + 1, y, z + 1)]
  }

  /** The lattice coordinates of the eight corners, in the order of CubeCorners. */
  function CornerOffset(c: int): (d: (int, int, int))
    requires 0 <= c < 8
    ensures 0 <= d.0 <= 1 && 0 <= d.1 <= 1 && 0 <= d.2 <= 1
  {
    [(0, 0, 0), (0, 1, 0), (1, 1, 0), (1, 0, 0), (0, 0, 1), (0, 1, 1), (1, 1, 1), (1, 0, 1)][c]
  }

  /** The corners of a cube inside the box are eight distinct lattice vertices of the box. */
  lemma CubeCornersValid(nx: nat, ny: nat, nz: nat, x: int, y: int, z: int)
    requires 0 <= x < nx && 0 <= y < ny && 0 <= z < nz
    ensures forall c :: 0 <= c < 8 ==> 0 <= CubeCorners(nx, ny, x, y, z)[c] < VertexCount(nx, ny, nz)
    ensures forall c, d :: 0 <= c < d < 8 ==> CubeCorners(nx, ny, x, y, z)[c] != CubeCorners(nx, ny, x, y, z)[d]
  {
    forall c | 0 <= c < 8
      ensures 0 <= CubeCorners(nx, ny, x, y, z)[c] < VertexCount(nx, ny, nz)
    {
      CubeCornerInBox(nx, ny, nz, x, y, z, c);
    }
    forall c, d | 0 <= c < d < 8
      ensures CubeCorners(nx, ny, x, y, z)[c] != CubeCorners(nx, ny, x, y, z)[d]
    {
      CubeCornersApart(nx, ny, nz, x, y, z, c, d);
    }
  }

  lemma CubeCornerInBox(nx: nat, ny: nat, nz: nat, x: int, y: int, z: int, c: int)
    requires 0 <= x < nx && 0 <= y < ny && 0 <= z < nz && 0 <= c < 8
    ensures 0 <= CubeCorners(nx, ny, x, y, z)[c] < VertexCount(nx, ny, nz)
  {
    var o := CornerOffset(c);
    CubeCornerAt(nx, ny, x, y, z, c);
    From3DTo1DInRange(nx, ny, nz, x + o.0, y + o.1, z + o.2);
  }

  lemma CubeCornersApart(nx: nat, ny: nat, nz: nat, x: int, y: int, z: int, c: int, d: int)
    requires 0 <= x < nx && 0 <= y < ny && 0 <= z < nz && 0 <= c < d < 8
    ensures CubeCorners(nx, ny, x, y, z)[c] != CubeCorners(nx, ny, x, y, z)[d]
  {
    var o, p := CornerOffset(c), CornerOffset(d);
    CubeCornerAt(nx, ny, x, y, z, c);
    CubeCornerAt(nx, ny, x, y, z, d);
    if CubeCorners(nx, ny, x, y, z)[c] == CubeCorners(nx, ny, x, y, z)[d] {
      From3DTo1DInjective(nx, ny, x + o.0, y + o.1, z + o.2, x + p.0, y + p.1, z + p.2);
      assert false;
    }
  }

  // ---------------------------------------------------------------------------------
  // Tetrahedra

  datatype Tetrahedron = Tetrahedron(pointsIdx: seq<int>, neighbors: seq<int>)
  {
    predicate WellFormed() { |pointsIdx| == 4 && |neighbors| == 4 }
  }

  /** A tetrahedron as setIndices leaves a freshly built one: given corners, no neighbour (-1). */
  function WithIndices(a: int, b: int, c: int, d: int): (t: Tetrahedron)
    ensures t.WellFormed() && t.pointsIdx == [a, b, c, d]
    ensures forall f :: 0 <= f < 4 ==> t.neighbors[f] == -1
  {
    Tetrahedron([a, b, c, d], [-1, -1, -1, -1])
  }

  /** Which cube corners each of the six tetrahedra of decomposeAndAddCube uses. */
  const CubeSplit: seq<seq<int>> :=
    [[3, 2, 1, 6], [4, 0, 5, 7], [5, 3, 6, 7], [0, 3, 5, 7], [0, 3, 1, 5], [1, 3, 6, 5]]

  /** decomposeAndAddCube: the six tetrahedra of one cube, built from its corner indices. */
  function DecomposeCube(ptsIdx: seq<int>): (ts: seq<Tetrahedron>)
    requires |ptsIdx| >= 8
    ensures |ts| == 6
    ensures forall s :: 0 <= s < 6 ==>
      (ts[s].WellFormed() && forall v :: 0 <= v < 4 ==> ts[s].pointsIdx[v] == ptsIdx[CubeSplit[s][v]] && ts[s].neighbors[v] == -1)
  {
    seq(6, s requires 0 <= s < 6 =>
      WithIndices(ptsIdx[CubeSplit[s][0]], ptsIdx[CubeSplit[s][1]], ptsIdx[CubeSplit[s][2]], ptsIdx[CubeSplit[s][3]]))
  }

  /** Each of the six tetrahedra uses four distinct corners. */
  lemma CubeSplitCornersDistinct(s: int, v: int, w: int)
    requires 0 <= s < 6 && 0 <= v < w < 4
    ensures 0 <= CubeSplit[s][v] < 8 && 0 <= CubeSplit[s][w] < 8 && CubeSplit[s][v] != CubeSplit[s][w]
  {
  }

  // ---------------------------------------------------------------------------------
  // Sorted faces

  datatype Face = Face(v0: int, v1: int, v2: int)

  /** f lists a, b and c in one of the six orders. */
  predicate IsOrderOf(f: Face, a: int, b: int, c: int)
  {
    f == Face(a, b, c) || f == Face(a, c, b) || f == Face(b, a, c)
    || f == Face(b, c, a) || f == Face(c, a, b) || f == Face(c, b, a)
  }

  /** Three compare-and-swap steps, as the Face constructor performs them. */
  function Sort3(a: int, b: int, c: int): Face
  {
    var (v0, v1) := if b < a then (b, a) else (a, b);
    var (v1', v2) := if c < v1 then (c, v1) else (v1, c);
    var (v0', v1'') := if v1' < v0 then (v1', v0) else (v0, v1');
    Face(v0', v1'', v2)
  }

  /** The three steps sort: the result lists a, b and c in increasing order. */
  lemma Sort3Sorts(a: int, b: int, c: int)
    ensures var f := Sort3(a, b, c); f.v0 <= f.v1 <= f.v2 && IsOrderOf(f, a, b, c)
    ensures var f := Sort3(a, b, c); multiset{f.v0, f.v1, f.v2} == multiset{a, b, c}
  {
  }

  /** Two sorted triples with the same elements are equal. */
  lemma SortedTripleUnique(f: Face, g: Face)
    requires f.v0 <= f.v1 <= f.v2 && g.v0 <= g.v1 <= g.v2
    requires multiset{f.v0, f.v1, f.v2} == multiset{g.v0, g.v1, g.v2}
    ensures f == g
  {
    var m := multiset{f.v0, f.v1, f.v2};
    assert f.v0 in m && f.v2 in m && g.v0 in m && g.v2 in m;
    assert g.v0 in multiset{f.v0, f.v1, f.v2} && f.v0 in multiset{g.v0, g.v1, g.v2};
    assert f.v0 == g.v0;
    assert f.v2 == g.v2;
    assert multiset{f.v1} == m - multiset{f.v0, f.v2};
    assert multiset{g.v1} == m - multiset{g.v0, g.v2};
  }

  /** The sorted triple depends only on the three values, not on their order. */
  lemma Sort3OrderInsensitive(a: int, b: int, c: int, a': int, b': int, c': int)
    requires multiset{a, b, c} == multiset{a', b', c'}
    ensures Sort3(a, b, c) == Sort3(a', b', c')
  {
    Sort3Sorts(a, b, c);
    Sort3Sorts(a', b', c');
    SortedTripleUnique(Sort3(a, b, c), Sort3(a', b', c'));
  }

  /**
   * The Face constructor: its parameters are unsigned int, so each index is converted to
   * 32-bit unsigned before the three are sorted.
   */
  function MakeFace(a: int, b: int, c: int): Face
  {
    Sort3(CInt.ToUnsigned32(a), CInt.ToUnsigned32(b), CInt.ToUnsigned32(c))
  }

  /** A face holds the three indices (as unsigned values) in increasing order. */
  lemma MakeFaceSorts(a: int, b: int, c: int)
    ensures var f := MakeFace(a, b, c);
      && 0 <= f.v0 <= f.v1 <= f.v2 < CInt.TWO_POW_32
      && IsOrderOf(f, CInt.ToUnsigned32(a), CInt.ToUnsigned32(b), CInt.ToUnsigned32(c))
  {
    Sort3Sorts(CInt.ToUnsigned32(a), CInt.ToUnsigned32(b), CInt.ToUnsigned32(c));
  }

  /** Vertex indices of a lattice: the face is just the three indices sorted. */
  lemma MakeFaceOfIndices(a: int, b: int, c: int)
    requires 0 <= a < CInt.TWO_POW_32 && 0 <= b < CInt.TWO_POW_32 && 0 <= c < CInt.TWO_POW_32
    ensures var f := MakeFace(a, b, c); f.v0 <= f.v1 <= f.v2 && IsOrderOf(f, a, b, c)
  {
    MakeFaceSorts(a, b, c);
  }

  /** A face does not depend on the order its vertices are listed in: swapping the first two changes nothing. */
  lemma MakeFaceSwapFirst(a: int, b: int, c: int)
    ensures MakeFace(a, b, c) == MakeFace(b, a, c)
  {
    var a', b', c' := CInt.ToUnsigned32(a), CInt.ToUnsigned32(b), CInt.ToUnsigned32(c);
    Sort3OrderInsensitive(a', b', c', b', a', c');
  }

  /** Swapping the last two changes nothing either; with MakeFaceSwapFirst, every order gives the same face. */
  lemma MakeFaceSwapLast(a: int, b: int, c: int)
    ensures MakeFace(a, b, c) == MakeFace(a, c, b)
  {
    var a', b', c' := CInt.ToUnsigned32(a), CInt.ToUnsigned32(b), CInt.ToUnsigned32(c);
    Sort3OrderInsensitive(a', b', c', a', c', b');
  }

  /** Face::operator<, lexicographic on the sorted indices. */
  predicate FaceLess(f: Face, g: Face)
  {
    f.v0 < g.v0 || (f.v0 == g.v0 && f.v1 < g.v1) || (f.v0 == g.v0 && f.v1 == g.v1 && f.v2 < g.v2)
  }

  /** operator< is a strict total order, as std::map requires of its key comparison. */
  lemma FaceLessIsStrictTotalOrder(f: Face, g: Face, h: Face)
    ensures !FaceLess(f, f)
    ensures FaceLess(f, g) && FaceLess(g, h) ==> FaceLess(f, h)
    ensures f == g || FaceLess(f, g) || FaceLess(g, f)
    ensures !(FaceLess(f, g) && FaceLess(g, f))
  {
  }


  // ---------------------------------------------------------------------------------
  // Faces and neighbours in scan order: position p = 4 * tetrahedron + face

  predicate AllWellFormed(mesh: seq<Tetrahedron>)
  {
    forall t :: 0 <= t < |mesh| ==> mesh[t].WellFormed()
  }

  /** The face opposite vertex slot f, as computeNeighborhood builds it. */
  function FaceOf(t: Tetrahedron, f: int): Face
    requires t.WellFormed() && 0 <= f < 4
  {
    MakeFace(t.pointsIdx[IdxOfPtInFace(f, 0)], t.pointsIdx[IdxOfPtInFace(f, 1)], t.pointsIdx[IdxOfPtInFace(f, 2)])
  }

  lemma PositionOf(t: int, f: int)
    requires 0 <= f < 4
    ensures (4 * t + f) / 4 == t && (4 * t + f) % 4 == f
  {
    CInt.DivModUnique(4 * t + f, 4, t, f);
  }

  /** Every face of every tetrahedron, in the order computeNeighborhood visits them. */
  function Faces(mesh: seq<Tetrahedron>): (fs: seq<Face>)
    requires AllWellFormed(mesh)
    ensures |fs| == 4 * |mesh|
  {
    seq(4 * |mesh|, p requires 0 <= p < 4 * |mesh| => FaceOf(mesh[p / 4], p % 4))
  }

  /** Face 4·t + f of the scan is face f of tetrahedron t. */
  lemma FaceAt(mesh: seq<Tetrahedron>, t: int, f: int)
    requires AllWellFormed(mesh) && 0 <= t < |mesh| && 0 <= f < 4
    ensures 4 * t + f < |Faces(mesh)| && Faces(mesh)[4 * t + f] == FaceOf(mesh[t], f)
  {
    PositionOf(t, f);
  }

  /** Every neighbour slot of every tetrahedron, in the same order. */
  function Neighbors(mesh: seq<Tetrahedron>): (ns: seq<int>)
    requires AllWellFormed(mesh)
    ensures |ns| == 4 * |mesh|
  {
    seq(4 * |mesh|, p requires 0 <= p < 4 * |mesh| => mesh[p / 4].neighbors[p % 4])
  }

  /** First position below k holding face x, or -1. */
  function FirstPos<T(==)>(faces: seq<T>, x: T, k: nat): (r: int)
    requires k <= |faces|
    ensures -1 <= r < k && (r >= 0 ==> faces[r] == x)
  {
    if k == 0 then -1
    else
      var r := FirstPos(faces, x, k - 1);
      if r >= 0 then r else if faces[k - 1] == x then k - 1 else -1
  }

  /** No position before FirstPos holds x; -1 means no position below k does. */
  lemma {:induction false} FirstPosIsFirst<T>(faces: seq<T>, x: T, k: nat)
    requires k <= |faces|
    ensures var r := FirstPos(faces, x, k);
      (r >= 0 ==> forall q :: 0 <= q < r ==> faces[q] != x)
      && (r == -1 ==> forall q :: 0 <= q < k ==> faces[q] != x)
  {
    if k > 0 {
      FirstPosIsFirst(faces, x, k - 1);
    }
  }

  /** Last position below k holding face x, or -1. */
  function LastPos<T(==)>(faces: seq<T>, x: T, k: nat): (r: int)
    requires k <= |faces|
    ensures -1 <= r < k && (r >= 0 ==> faces[r] == x)
  {
    if k == 0 then -1
    else if faces[k - 1] == x then k - 1
    else LastPos(faces, x, k - 1)
  }

  /** No position after LastPos and below k holds x; -1 means no position below k does. */
  lemma {:induction false} LastPosIsLast<T>(faces: seq<T>, x: T, k: nat)
    requires k <= |faces|
    ensures var r := LastPos(faces, x, k);
      (r >= 0 ==> forall q :: r < q < k ==> faces[q] != x)
      && (r == -1 ==> forall q :: 0 <= q < k ==> faces[q] != x)
  {
    if k > 0 {
      LastPosIsLast(faces, x, k - 1);
    }
  }

  /**
   * The neighbour that computeNeighborhood leaves at position p once positions 0..k-1
   * are scanned: the first occurrence of a face links to the tetrahedron of its last
   * later occurrence (each later one overwrites it), every later occurrence links to the
   * tetrahedron of the first one (the map entry is never removed), and a face met only
   * once keeps the neighbour it had.
   */
  function LinkedNeighbor<T(==)>(faces: seq<T>, nbs: seq<int>, p: int, k: nat): int
    requires |nbs| == |faces| && 0 <= p < |faces| && k <= |faces|
  {
    if p >= k then nbs[p]
    else
      var first := FirstPos(faces, faces[p], k);
      if first == p then
        var last := LastPos(faces, faces[p], k);
        if last > p then last / 4 else nbs[p]
      else first / 4
  }

  function Linked<T(==)>(faces: seq<T>, nbs: seq<int>, k: nat): (r: seq<int>)
    requires |nbs| == |faces| && k <= |faces|
    ensures |r| == |faces|
  {
    seq(|faces|, p requires 0 <= p < |faces| => LinkedNeighbor(faces, nbs, p, k))
  }

  /** Some other position holds the same face as position p. */
  predicate SharedFace<T(==)>(faces: seq<T>, p: int)
    requires 0 <= p < |faces|
  {
    exists q :: 0 <= q < |faces| && q != p && faces[q] == faces[p]
  }

  /**
   * A face met only once keeps its neighbour; a shared face is linked to the tetrahedron
   * of another position holding the same face.
   */
  lemma {:induction false} LinkedNeighborSharesFace<T>(faces: seq<T>, nbs: seq<int>, p: int)
    requires |nbs| == |faces| && 0 <= p < |faces|
    ensures !SharedFace(faces, p) ==> Linked(faces, nbs, |faces|)[p] == nbs[p]
    ensures SharedFace(faces, p) ==>
      exists q :: 0 <= q < |faces| && q != p && faces[q] == faces[p] && Linked(faces, nbs, |faces|)[p] == q / 4
  {
    var n := |faces|;
    var x := faces[p];
    var first, last := FirstPos(faces, x, n), LastPos(faces, x, n);
    FirstPosIsFirst(faces, x, n);
    LastPosIsLast(faces, x, n);
    if SharedFace(faces, p) {
      var q :| 0 <= q < n && q != p && faces[q] == x;
      if first == p {
        assert last >= q;
        assert Linked(faces, nbs, n)[p] == last / 4;
      } else {
        assert Linked(faces, nbs, n)[p] == first / 4;
      }
    } else {
      assert first == p;
      assert last == p;
    }
  }

  /** When exactly two positions hold a face, each is linked to the other's tetrahedron. */
  lemma {:induction false} LinkedNeighborSymmetric<T>(faces: seq<T>, nbs: seq<int>, p: int, q: int)
    requires |nbs| == |faces| && 0 <= p < q < |faces| && faces[p] == faces[q]
    requires forall r :: 0 <= r < |faces| && r != p && r != q ==> faces[r] != faces[p]
    ensures Linked(faces, nbs, |faces|)[p] == q / 4
    ensures Linked(faces, nbs, |faces|)[q] == p / 4
  {
    var n := |faces|;
    var x := faces[p];
    var first, last := FirstPos(faces, x, n), LastPos(faces, x, n);
    FirstPosIsFirst(faces, x, n);
    LastPosIsLast(faces, x, n);
    assert first == p;
    assert last == q;
  }

  /** Before the scan every neighbour is as it was. */
  lemma LinkedNothing<T>(faces: seq<T>, nbs: seq<int>)
    requires |nbs| == |faces|
    ensures Linked(faces, nbs, 0) == nbs
  {
  }

  /** One scan step on a face not met before: nothing is linked, the face becomes known. */
  lemma LinkStepFirst<T>(faces: seq<T>, nbs: seq<int>, k: nat)
    requires |nbs| == |faces| && k < |faces|
    requires FirstPos(faces, faces[k], k) == -1
    ensures Linked(faces, nbs, k + 1) == Linked(faces, nbs, k)
  {
    FirstPosIsFirst(faces, faces[k], k);
    forall p | 0 <= p < |faces|
      ensures Linked(faces, nbs, k + 1)[p] == Linked(faces, nbs, k)[p]
    {
      if p < k {
        var y := faces[p];
        assert FirstPos(faces, y, k + 1) == FirstPos(faces, y, k);
        assert LastPos(faces, y, k + 1) == LastPos(faces, y, k);
      } else if p == k {
        assert LastPos(faces, faces[k], k + 1) == k;
      }
    }
  }

  /** One scan step on a face met before: this slot and the first one's slot link to each other. */
  lemma LinkStepRepeat<T>(faces: seq<T>, nbs: seq<int>, k: nat)
    requires |nbs| == |faces| && k < |faces|
    requires FirstPos(faces, faces[k], k) >= 0
    ensures var first := FirstPos(faces, faces[k], k);
      Linked(faces, nbs, k + 1) == Linked(faces, nbs, k)[k := first / 4][first := k / 4]
  {
    var x := faces[k];
    var first := FirstPos(faces, x, k);
    var after := Linked(faces, nbs, k)[k := first / 4][first := k / 4];
    forall p | 0 <= p < |faces|
      ensures Linked(faces, nbs, k + 1)[p] == after[p]
    {
      if p < k {
        var y := faces[p];
        if y == x {
          assert FirstPos(faces, y, k + 1) == first;
          assert LastPos(faces, y, k + 1) == k;
        } else {
          assert FirstPos(faces, y, k + 1) == FirstPos(faces, y, k);
          assert LastPos(faces, y, k + 1) == LastPos(faces, y, k);
        }
      }
    }
  }

  /** Position p is slot p % 4 of tetrahedron p / 4. */
  lemma PositionSplit(p: int)
    requires 0 <= p
    ensures p == 4 * (p / 4) + p % 4 && 0 <= p % 4 < 4
  {
  }

  /**
   * The map of computeNeighborhood after scanning positions 0..k-1: each face met so far,
   * with the (tetrahedron, face) of its first occurrence.
   */
  function ScanMap<T(==)>(faces: seq<T>, k: nat): (adj: map<T, (int, int)>)
    requires k <= |faces|
  {
    if k == 0 then map[]
    else
      var adj := ScanMap(faces, k - 1);
      if faces[k - 1] in adj then adj else adj[faces[k - 1] := ((k - 1) / 4, (k - 1) % 4)]
  }

  /** Every entry of the map is a (tetrahedron, face) pair naming a position already scanned. */
  lemma {:induction false} ScanMapEntry<T>(faces: seq<T>, k: nat, x: T)
    requires k <= |faces| && x in ScanMap(faces, k)
    ensures 0 <= ScanMap(faces, k)[x].1 < 4 && 0 <= 4 * ScanMap(faces, k)[x].0 + ScanMap(faces, k)[x].1 < k
  {
    PositionSplit(k - 1);
    if x in ScanMap(faces, k - 1) {
      ScanMapEntry(faces, k - 1, x);
    }
  }

  /** The map holds exactly the faces met so far, each with the position of its first occurrence. */
  lemma {:induction false} ScanMapFirst<T>(faces: seq<T>, k: nat)
    requires k <= |faces|
    ensures forall x :: x in ScanMap(faces, k) <==> FirstPos(faces, x, k) >= 0
    ensures forall x :: x in ScanMap(faces, k) ==> 4 * ScanMap(faces, k)[x].0 + ScanMap(faces, k)[x].1 == FirstPos(faces, x, k)
  {
    if k > 0 {
      ScanMapFirst(faces, k - 1);
      PositionSplit(k - 1);
    }
  }

  /**
   * The neighbour slots of computeNeighborhood after scanning positions 0..k-1: a face met
   * before links this slot and the slot of its first occurrence to each other's tetrahedron.
   */
  function ScanNeighbors<T(==)>(faces: seq<T>, nbs: seq<int>, k: nat): (r: seq<int>)
    requires |nbs| == |faces| && k <= |faces|
    ensures |r| == |faces|
  {
    if k == 0 then nbs
    else
      var r := ScanNeighbors(faces, nbs, k - 1);
      var adj := ScanMap(faces, k - 1);
      if faces[k - 1] !in adj then r
      else
        ScanMapEntry(faces, k - 1, faces[k - 1]);
        var (u, g) := adj[faces[k - 1]];
        r[k - 1 := u][4 * u + g := (k - 1) / 4]
  }

  /** The scan computes exactly Linked. */
  lemma {:induction false} ScanNeighborsIsLinked<T>(faces: seq<T>, nbs: seq<int>, k: nat)
    requires |nbs| == |faces| && k <= |faces|
    ensures ScanNeighbors(faces, nbs, k) == Linked(faces, nbs, k)
  {
    if k == 0 {
      LinkedNothing(faces, nbs);
    } else {
      ScanNeighborsIsLinked(faces, nbs, k - 1);
      ScanNeighborsStep(faces, nbs, k);
    }
  }

  lemma ScanNeighborsStep<T>(faces: seq<T>, nbs: seq<int>, k: nat)
    requires |nbs| == |faces| && 0 < k <= |faces|
    requires ScanNeighbors(faces, nbs, k - 1) == Linked(faces, nbs, k - 1)
    ensures ScanNeighbors(faces, nbs, k) == Linked(faces, nbs, k)
  {
    if faces[k - 1] !in ScanMap(faces, k - 1) {
      ScanMapFirst(faces, k - 1);
      LinkStepFirst(faces, nbs, k - 1);
    } else {
      ScanNeighborsRepeat(faces, nbs, k);
    }
  }

  lemma ScanNeighborsRepeat<T>(faces: seq<T>, nbs: seq<int>, k: nat)
    requires |nbs| == |faces| && 0 < k <= |faces| && faces[k - 1] in ScanMap(faces, k - 1)
    requires ScanNeighbors(faces, nbs, k - 1) == Linked(faces, nbs, k - 1)
    ensures ScanNeighbors(faces, nbs, k) == Linked(faces, nbs, k)
  {
    ScanMapFirst(faces, k - 1);
    ScanMapEntry(faces, k - 1, faces[k - 1]);
    var (u, g) := ScanMap(faces, k - 1)[faces[k - 1]];
    PositionOf(u, g);
    LinkStepRepeat(faces, nbs, k - 1);
  }

  /**
   * The mesh of computeNeighborhood after scanning positions 0..k-1 of faces, the faces of
   * the starting mesh m0 (corners never change, so they stay its faces).
   */
  function ScanMesh<T(==)>(faces: seq<T>, m0: seq<Tetrahedron>, k: nat): (m: seq<Tetrahedron>)
    requires AllWellFormed(m0) && |faces| == 4 * |m0| && k <= |faces|
    ensures AllWellFormed(m) && |m| == |m0|
  {
    if k == 0 then m0
    else
      var mesh := ScanMesh(faces, m0, k - 1);
      var adj := ScanMap(faces, k - 1);
      PositionSplit(k - 1);
      if faces[k - 1] !in adj then mesh
      else
        ScanMapEntry(faces, k - 1, faces[k - 1]);
        var (u, g) := adj[faces[k - 1]];
        SetNeighbor(SetNeighbor(mesh, (k - 1) / 4, (k - 1) % 4, u), u, g, (k - 1) / 4)
  }

  /** The scan never changes a corner. */
  lemma {:induction false} ScanMeshSameCorners<T>(faces: seq<T>, m0: seq<Tetrahedron>, k: nat)
    requires AllWellFormed(m0) && |faces| == 4 * |m0| && k <= |faces|
    ensures SameCorners(ScanMesh(faces, m0, k), m0)
  {
    if k > 0 {
      ScanMeshSameCorners(faces, m0, k - 1);
      ScanMeshCornersStep(faces, m0, k);
    }
  }

  lemma ScanMeshCornersStep<T>(faces: seq<T>, m0: seq<Tetrahedron>, k: nat)
    requires AllWellFormed(m0) && |faces| == 4 * |m0| && 0 < k <= |faces|
    requires SameCorners(ScanMesh(faces, m0, k - 1), m0)
    ensures SameCorners(ScanMesh(faces, m0, k), m0)
  {
    var mesh, adj := ScanMesh(faces, m0, k - 1), ScanMap(faces, k - 1);
    if faces[k - 1] in adj {
      ScanMapEntry(faces, k - 1, faces[k - 1]);
      var (u, g) := adj[faces[k - 1]];
      PositionSplit(k - 1);
      var m1 := SetNeighbor(mesh, (k - 1) / 4, (k - 1) % 4, u);
      SameCornersTransitive(SetNeighbor(m1, u, g, (k - 1) / 4), m1, mesh);
      SameCornersTransitive(SetNeighbor(m1, u, g, (k - 1) / 4), mesh, m0);
    }
  }

  /** The scanned mesh's neighbour slots are those of the flat scan. */
  lemma {:induction false} ScanMeshIsScanNeighbors<T>(faces: seq<T>, m0: seq<Tetrahedron>, k: nat)
    requires AllWellFormed(m0) && |faces| == 4 * |m0| && k <= |faces|
    ensures Neighbors(ScanMesh(faces, m0, k)) == ScanNeighbors(faces, Neighbors(m0), k)
  {
    if k > 0 {
      ScanMeshIsScanNeighbors(faces, m0, k - 1);
      ScanMeshNeighborsStep(faces, m0, k);
    }
  }

  lemma ScanMeshNeighborsStep<T>(faces: seq<T>, m0: seq<Tetrahedron>, k: nat)
    requires AllWellFormed(m0) && |faces| == 4 * |m0| && 0 < k <= |faces|
    requires Neighbors(ScanMesh(faces, m0, k - 1)) == ScanNeighbors(faces, Neighbors(m0), k - 1)
    ensures Neighbors(ScanMesh(faces, m0, k)) == ScanNeighbors(faces, Neighbors(m0), k)
  {
    if faces[k - 1] in ScanMap(faces, k - 1) {
      ScanMeshNeighborsRepeat(faces, m0, k);
    }
  }

  /** A face met again: both meshes and flat slots link the two positions the same way. */
  lemma ScanMeshNeighborsRepeat<T>(faces: seq<T>, m0: seq<Tetrahedron>, k: nat)
    requires AllWellFormed(m0) && |faces| == 4 * |m0| && 0 < k <= |faces| && faces[k - 1] in ScanMap(faces, k - 1)
    requires Neighbors(ScanMesh(faces, m0, k - 1)) == ScanNeighbors(faces, Neighbors(m0), k - 1)
    ensures Neighbors(ScanMesh(faces, m0, k)) == ScanNeighbors(faces, Neighbors(m0), k)
  {
    var mesh, adj := ScanMesh(faces, m0, k - 1), ScanMap(faces, k - 1);
    ScanMapEntry(faces, k - 1, faces[k - 1]);
    PositionSplit(k - 1);
    var (u, g) := adj[faces[k - 1]];
    var t, f := (k - 1) / 4, (k - 1) % 4;
    var m1 := SetNeighbor(mesh, t, f, u);
    assert 4 * t + f == k - 1;
    assert Neighbors(m1) == Neighbors(mesh)[k - 1 := u];
  }

  /** One step of the scan, at position k: face f of tetrahedron t. */
  lemma ScanStep<T>(faces: seq<T>, m0: seq<Tetrahedron>, k: nat, t: int, f: int)
    requires AllWellFormed(m0) && |faces| == 4 * |m0| && k < |faces|
    requires 0 <= t < |m0| && 0 <= f < 4 && k == 4 * t + f
    ensures var adj, x := ScanMap(faces, k), faces[k];
      x in adj ==> 0 <= adj[x].1 < 4 && 0 <= 4 * adj[x].0 + adj[x].1 < k
    ensures var adj, x := ScanMap(faces, k), faces[k];
      && ScanMap(faces, k + 1) == (if x in adj then adj else adj[x := (t, f)])
      && ScanMesh(faces, m0, k + 1)
         == if x !in adj then ScanMesh(faces, m0, k)
            else SetNeighbor(SetNeighbor(ScanMesh(faces, m0, k), t, f, adj[x].0), adj[x].0, adj[x].1, t)
  {
    PositionOf(t, f);
    if faces[k] in ScanMap(faces, k) {
      ScanMapEntry(faces, k, faces[k]);
    }
  }

  /** The face computeNeighborhood builds at position k of the scan is the k-th face of the starting mesh. */
  lemma FaceInScanOrder(faces: seq<Face>, m0: seq<Tetrahedron>, k: nat, t: int, f: int)
    requires AllWellFormed(m0) && faces == Faces(m0)
    requires 0 <= t < |m0| && 0 <= f < 4 && k == 4 * t + f
    ensures var tet := ScanMesh(faces, m0, k)[t];
      MakeFace(tet.pointsIdx[IdxOfPtInFace(f, 0)], tet.pointsIdx[IdxOfPtInFace(f, 1)], tet.pointsIdx[IdxOfPtInFace(f, 2)])
      == faces[k]
  {
    ScanMeshSameCorners(faces, m0, k);
    assert ScanMesh(faces, m0, k)[t].pointsIdx == m0[t].pointsIdx;
    FaceAt(m0, t, f);
  }

  /**
   * The two loops of computeNeighborhood, over tetrahedra and their faces: the map and the
   * mesh they leave are those of the whole scan.
   */
  method LinkAllFaces(m0: seq<Tetrahedron>) returns (m: seq<Tetrahedron>, adjacentFaces: map<Face, (int, int)>)
    requires AllWellFormed(m0)
    ensures adjacentFaces == ScanMap(Faces(m0), 4 * |m0|) && m == ScanMesh(Faces(m0), m0, 4 * |m0|)
  {
    ghost var faces := Faces(m0);
    ghost var done := 0;
    m, adjacentFaces := m0, map[];
    var tetIdx := 0;
    while tetIdx < |m|
      invariant 0 <= tetIdx <= |m0| && done == 4 * tetIdx
      invariant adjacentFaces == ScanMap(faces, done) && m == ScanMesh(faces, m0, done)
    {
      var faceIdx := 0;
      while faceIdx < 4
        invariant 0 <= faceIdx <= 4 && done == 4 * tetIdx + faceIdx
        invariant adjacentFaces == ScanMap(faces, done) && m == ScanMesh(faces, m0, done)
      {
        m, adjacentFaces := LinkFace(faces, m0, m, adjacentFaces, tetIdx, faceIdx, done);
        faceIdx := faceIdx + 1;
        done := done + 1;
      }
      tetIdx := tetIdx + 1;
    }
    assert done == 4 * |m0|;
  }

  /**
   * The body of computeNeighborhood's inner loop, at face f of tetrahedron t (position k):
   * a face not in the map is recorded with its position; a face found there links the two slots.
   */
  method LinkFace(ghost faces: seq<Face>, ghost m0: seq<Tetrahedron>, m: seq<Tetrahedron>,
                  adj: map<Face, (int, int)>, t: nat, f: nat, ghost k: nat)
    returns (m': seq<Tetrahedron>, adj': map<Face, (int, int)>)
    requires AllWellFormed(m0) && faces == Faces(m0) && t < |m0| && f < 4 && k == 4 * t + f
    requires adj == ScanMap(faces, k) && m == ScanMesh(faces, m0, k)
    ensures adj' == ScanMap(faces, k + 1) && m' == ScanMesh(faces, m0, k + 1)
  {
    var tet := m[t];
    var face := MakeFace(tet.pointsIdx[IdxOfPtInFace(f, 0)],
                         tet.pointsIdx[IdxOfPtInFace(f, 1)],
                         tet.pointsIdx[IdxOfPtInFace(f, 2)]);
    FaceInScanOrder(faces, m0, k, t, f);
    ScanStep(faces, m0, k, t, f);
    m', adj' := m, adj;
    if face !in adj {
      adj' := adj[face := (t, f)];
    } else {
      ScanMapEntry(faces, k, face);
      var (otherTet, otherFace) := adj[face];
      m' := SetNeighbor(m', t, f, otherTet);
      m' := SetNeighbor(m', otherTet, otherFace, t);
    }
  }

  /** The whole scan keeps the faces and links every neighbour slot as Linked says. */
  lemma ScanIsLinked(m0: seq<Tetrahedron>)
    requires AllWellFormed(m0)
    ensures var m := ScanMesh(Faces(m0), m0, 4 * |m0|);
      && SameCorners(m, m0) && Faces(m) == Faces(m0)
      && Neighbors(m) == Linked(Faces(m0), Neighbors(m0), 4 * |m0|)
  {
    var faces, k := Faces(m0), 4 * |m0|;
    ScanNeighborsIsLinked(faces, Neighbors(m0), k);
    ScanMeshIsScanNeighbors(faces, m0, k);
    ScanMeshSameCorners(faces, m0, k);
    SameCornersSameFaces(ScanMesh(faces, m0, k), m0);
  }

  /** Sets neighbour slot f of tetrahedron t. */
  function SetNeighbor(mesh: seq<Tetrahedron>, t: int, f: int, v: int): (m: seq<Tetrahedron>)
    requires AllWellFormed(mesh) && 0 <= t < |mesh| && 0 <= f < 4
    ensures AllWellFormed(m) && SameCorners(m, mesh)
    ensures Neighbors(m) == Neighbors(mesh)[4 * t + f := v]
  {
    var m := mesh[t := mesh[t].(neighbors := mesh[t].neighbors[f := v])];
    SetNeighborInScanOrder(mesh, m, t, f, v);
    m
  }

  lemma SetNeighborInScanOrder(mesh: seq<Tetrahedron>, m: seq<Tetrahedron>, t: int, f: int, v: int)
    requires AllWellFormed(mesh) && 0 <= t < |mesh| && 0 <= f < 4
    requires m == mesh[t := mesh[t].(neighbors := mesh[t].neighbors[f := v])]
    ensures AllWellFormed(m)
    ensures Neighbors(m) == Neighbors(mesh)[4 * t + f := v]
  {
    var n0, n1 := Neighbors(mesh), Neighbors(m);
    forall p | 0 <= p < 4 * |m|
      ensures n1[p] == n0[4 * t + f := v][p]
    {
      PositionSplit(p);
      var u, g := p / 4, p % 4;
      if p != 4 * t + f {
        assert n1[p] == m[u].neighbors[g] == mesh[u].neighbors[g];
      }
    }
  }

  // ---------------------------------------------------------------------------------
  // Building the grid

  /** A vertex position. The source's floating-point vectors become integer triples. */
  type Point = (int, int, int)

  function Add(a: Point, b: Point): Point
  {
    (a.0 + b.0, a.1 + b.1, a.2 + b.2)
  }

  /** Componentwise product, as glm multiplies two vectors. */
  function Scale(a: Point, b: Point): Point
  {
    (a.0 * b.0, a.1 * b.1, a.2 * b.2)
  }

  /** The position of lattice point p of a grid placed at origin, with cubes of the given size. */
  function GridPoint(origin: Point, size: Point, p: Point): Point
  {
    Add(origin, Scale(p, size))
  }

  /** buildCube: the eight corners of a cube, in the corner order of CubeCorners. */
  function BuildCube(origin: Point, size: Point): (cube: seq<Point>)
    ensures |cube| == 8
    ensures forall c :: 0 <= c < 8 ==> cube[c] == GridPoint(origin, size, CornerOffset(c))
  {
    [origin, Add(origin, (0, size.1, 0)), Add(origin, (size.0, size.1, 0)), Add(origin, (size.0, 0, 0)),
     Add(origin, (0, 0, size.2)), Add(origin, (0, size.1, size.2)), Add(origin, (size.0, size.1, size.2)),
     Add(origin, (size.0, 0, size.2))]
  }

  /** The position lattice slot i should hold once built: its own lattice point. */
  function Home(nx: nat, ny: nat, origin: Point, size: Point, i: int): Point
  {
    GridPoint(origin, size, IdxTo3D(i, nx + 1, ny + 1))
  }

  /** Corner c of cube (x, y, z) is the lattice point shifted by CornerOffset(c). */
  lemma CubeCornerAt(nx: nat, ny: nat, x: int, y: int, z: int, c: int)
    requires 0 <= c < 8
    ensures var o := CornerOffset(c);
      CubeCorners(nx, ny, x, y, z)[c] == From3DTo1D(nx, ny, x + o.0, y + o.1, z + o.2)
  {
  }

  /** Shifting a lattice point's position by o cubes gives the position of the shifted lattice point. */
  lemma GridPointShift(origin: Point, size: Point, p: Point, o: Point)
    ensures GridPoint(GridPoint(origin, size, p), size, o) == GridPoint(origin, size, Add(p, o))
  {
    CInt.MulDistributes(p.0, o.0, size.0);
    CInt.MulDistributes(p.1, o.1, size.1);
    CInt.MulDistributes(p.2, o.2, size.2);
  }

  /** The home of lattice point p's slot is p's position. */
  lemma HomeOfLatticePoint(nx: nat, ny: nat, origin: Point, size: Point, p: Point)
    requires 0 <= p.0 <= nx && 0 <= p.1 <= ny && 0 <= p.2
    ensures Home(nx, ny, origin, size, From3DTo1D(nx, ny, p.0, p.1, p.2)) == GridPoint(origin, size, p)
  {
    IdxTo3DInvertsFrom3DTo1D(nx, ny, p.0, p.1, p.2);
  }

  /** The cube buildCube makes for cube (x, y, z) puts corner c at the home of its lattice slot. */
  lemma CubePointAtHome(nx: nat, ny: nat, origin: Point, size: Point, x: int, y: int, z: int, c: int)
    requires 0 <= x < nx && 0 <= y < ny && 0 <= z && 0 <= c < 8
    ensures BuildCube(GridPoint(origin, size, (x, y, z)), size)[c] == Home(nx, ny, origin, size, CubeCorners(nx, ny, x, y, z)[c])
  {
    var o := CornerOffset(c);
    CubeCornerAt(nx, ny, x, y, z, c);
    HomeOfLatticePoint(nx, ny, origin, size, Add((x, y, z), o));
    GridPointShift(origin, size, (x, y, z), o);
  }

  /** The corner whose offset is d. */
  function OffsetCorner(d: (int, int, int)): (c: int)
    requires 0 <= d.0 <= 1 && 0 <= d.1 <= 1 && 0 <= d.2 <= 1
    ensures 0 <= c < 8 && CornerOffset(c) == d
  {
    if d.2 == 0 then (if d.0 == 0 then d.1 else 3 - d.1)
    else (if d.0 == 0 then 4 + d.1 else 7 - d.1)
  }

  /** The cube buildGrid's loops visit after cube p (x fastest, then y, then z) on a grid cx cubes wide and cy deep. */
  function NextCube(cx: nat, cy: nat, p: (int, int, int)): (int, int, int)
  {
    if p.0 + 1 < cx then (p.0 + 1, p.1, p.2)
    else if p.1 + 1 < cy then (0, p.1 + 1, p.2)
    else (0, 0, p.2 + 1)
  }

  /** The cube visited q-th (from 0) by buildGrid's loops. */
  function CubeAt(cx: nat, cy: nat, q: nat): (int, int, int)
  {
    if q == 0 then (0, 0, 0) else NextCube(cx, cy, CubeAt(cx, cy, q - 1))
  }

  /** Within a row, the cube visited after (i, j, k) is (i + 1, j, k). */
  lemma NextInRow(cx: nat, cy: nat, q: nat, i: int, j: int, k: int)
    requires CubeAt(cx, cy, q) == (i, j, k) && i + 1 < cx
    ensures CubeAt(cx, cy, q + 1) == (i + 1, j, k)
  {
  }

  /** The q-th cube visited is the one whose row-major number is q. */
  lemma {:induction false} CubeAtNumber(cx: nat, cy: nat, q: nat)
    requires cx > 0 && cy > 0
    ensures var p := CubeAt(cx, cy, q);
      0 <= p.0 < cx && 0 <= p.1 < cy && 0 <= p.2 && q == cx * cy * p.2 + cx * p.1 + p.0
  {
    if q > 0 {
      CubeAtNumber(cx, cy, q - 1);
      var p := CubeAt(cx, cy, q - 1);
      if p.0 + 1 == cx {
        CInt.MulSucc(cx, p.1);
        if p.1 + 1 == cy {
          CInt.MulSucc(cx * cy, p.2);
        }
      }
    }
  }

  /** The cubes visited before the last one lie in the box. */
  lemma CubeAtInRange(cx: nat, cy: nat, cz: nat, q: nat)
    requires cx > 0 && cy > 0 && q < cx * cy * cz
    ensures 0 <= CubeAt(cx, cy, q).0 < cx && 0 <= CubeAt(cx, cy, q).1 < cy && 0 <= CubeAt(cx, cy, q).2 < cz
  {
    CubeAtNumber(cx, cy, q);
    var p := CubeAt(cx, cy, q);
    if p.2 >= cz {
      CInt.MulMonotone(cx * cy, cz, p.2);
      CInt.MulNonNegative(cx, p.1);
      assert false;
    }
  }

  /** Cube (i, j, k) of the box is the one visited at its row-major number. */
  lemma CubeVisitedAt(cx: nat, cy: nat, cz: nat, i: int, j: int, k: int) returns (q: nat)
    requires 0 <= i < cx && 0 <= j < cy && 0 <= k < cz
    ensures q == cx * cy * k + cx * j + i
    ensures q < cx * cy * cz && CubeAt(cx, cy, q) == (i, j, k)
  {
    From3DTo1DInRange(cx - 1, cy - 1, cz - 1, i, j, k);
    q := cx * cy * k + cx * j + i;
    CubeAtNumber(cx, cy, q);
    var p := CubeAt(cx, cy, q);
    From3DTo1DInjective(cx - 1, cy - 1, p.0, p.1, p.2, i, j, k);
  }

  /** Lattice slot of corner c of the q-th cube. */
  function CubeCornerIdx(nx: nat, ny: nat, cx: nat, cy: nat, q: nat, c: int): int
    requires 0 <= c < 8
  {
    var p := CubeAt(cx, cy, q);
    CubeCorners(nx, ny, p.0, p.1, p.2)[c]
  }

  /** The tetrahedra buildGrid has added after its first q cubes, on a lattice nx+1 wide and ny+1 deep. */
  function GridMesh(nx: nat, ny: nat, cx: nat, cy: nat, q: nat): (g: seq<Tetrahedron>)
    ensures |g| == 6 * q && AllWellFormed(g)
  {
    if q == 0 then []
    else
      var p := CubeAt(cx, cy, q - 1);
      GridMesh(nx, ny, cx, cy, q - 1) + DecomposeCube(CubeCorners(nx, ny, p.0, p.1, p.2))
  }

  /** One more cube appends its six tetrahedra. */
  lemma GridMeshStep(nx: nat, ny: nat, cx: nat, cy: nat, q: nat, i: int, j: int, k: int)
    requires CubeAt(cx, cy, q) == (i, j, k)
    ensures GridMesh(nx, ny, cx, cy, q + 1) == GridMesh(nx, ny, cx, cy, q) + DecomposeCube(CubeCorners(nx, ny, i, j, k))
  {
  }

  /** A tetrahedron with four distinct corners, all lattice slots below n, and no neighbour yet. */
  predicate FreshTet(t: Tetrahedron, n: int)
  {
    t.WellFormed()
    && (forall v :: 0 <= v < 4 ==> 0 <= t.pointsIdx[v] < n && t.neighbors[v] == -1)
    && (forall v, w :: 0 <= v < w < 4 ==> t.pointsIdx[v] != t.pointsIdx[w])
  }

  /** Every tetrahedron of the grid has four distinct corners on the lattice, and no neighbour before linking. */
  lemma {:induction false} GridMeshFresh(nx: nat, ny: nat, nz: nat, cx: nat, cy: nat, cz: nat, q: nat)
    requires 0 < cx <= nx && 0 < cy <= ny && cz <= nz && q <= cx * cy * cz
    ensures forall t :: 0 <= t < 6 * q ==> FreshTet(GridMesh(nx, ny, cx, cy, q)[t], VertexCount(nx, ny, nz))
  {
    if q > 0 {
      GridMeshFresh(nx, ny, nz, cx, cy, cz, q - 1);
      var p := CubeAt(cx, cy, q - 1);
      CubeAtInRange(cx, cy, cz, q - 1);
      CubeCornersValid(nx, ny, nz, p.0, p.1, p.2);
      var ts := DecomposeCube(CubeCorners(nx, ny, p.0, p.1, p.2));
      forall s | 0 <= s < 6
        ensures FreshTet(ts[s], VertexCount(nx, ny, nz))
      {
        forall v, w | 0 <= v < w < 4
          ensures ts[s].pointsIdx[v] != ts[s].pointsIdx[w]
        {
          CubeSplitCornersDistinct(s, v, w);
        }
      }
      assert GridMesh(nx, ny, cx, cy, q) == GridMesh(nx, ny, cx, cy, q - 1) + ts;
    }
  }

  /** Every lattice slot holds either the zero vector it was created with or its own lattice point. */
  ghost predicate VerticesHome(vertices: seq<Point>, nx: nat, ny: nat, origin: Point, size: Point)
  {
    forall i :: 0 <= i < |vertices| ==> vertices[i] == (0, 0, 0) || vertices[i] == Home(nx, ny, origin, size, i)
  }

  /** The corners of the first q cubes hold their lattice points. */
  ghost predicate CubesPlaced(vertices: seq<Point>, nx: nat, ny: nat, cx: nat, cy: nat, origin: Point, size: Point, q: nat)
  {
    forall q', c :: 0 <= q' < q && 0 <= c < 8 ==>
      0 <= CubeCornerIdx(nx, ny, cx, cy, q', c) < |vertices|
      && vertices[CubeCornerIdx(nx, ny, cx, cy, q', c)] == Home(nx, ny, origin, size, CubeCornerIdx(nx, ny, cx, cy, q', c))
  }

  /**
   * Writing the corners of the last of q cubes, each at its home, and nothing else keeps
   * every slot at home and adds that cube to those placed.
   */
  lemma PlacingCubeKeepsHome(before: seq<Point>, after: seq<Point>, nx: nat, ny: nat, cx: nat, cy: nat,
                             origin: Point, size: Point, q: nat, slots: seq<int>)
    requires q > 0 && |slots| == 8 && |after| == |before|
    requires forall c :: 0 <= c < 8 ==> slots[c] == CubeCornerIdx(nx, ny, cx, cy, q - 1, c)
    requires forall c :: 0 <= c < 8 ==> 0 <= slots[c] < |after| && after[slots[c]] == Home(nx, ny, origin, size, slots[c])
    requires forall v :: 0 <= v < |after| && (forall c :: 0 <= c < 8 ==> slots[c] != v) ==> after[v] == before[v]
    requires VerticesHome(before, nx, ny, origin, size) && CubesPlaced(before, nx, ny, cx, cy, origin, size, q - 1)
    ensures VerticesHome(after, nx, ny, origin, size) && CubesPlaced(after, nx, ny, cx, cy, origin, size, q)
  {
    forall v | 0 <= v < |after|
      ensures after[v] == (0, 0, 0) || after[v] == Home(nx, ny, origin, size, v)
    {
      if c :| 0 <= c < 8 && slots[c] == v {
      } else {
        assert after[v] == before[v];
      }
    }
    forall q', c | 0 <= q' < q && 0 <= c < 8
      ensures 0 <= CubeCornerIdx(nx, ny, cx, cy, q', c) < |after|
      ensures after[CubeCornerIdx(nx, ny, cx, cy, q', c)] == Home(nx, ny, origin, size, CubeCornerIdx(nx, ny, cx, cy, q', c))
    {
      var v := CubeCornerIdx(nx, ny, cx, cy, q', c);
      if q' == q - 1 {
        assert v == slots[c];
      } else if d :| 0 <= d < 8 && slots[d] == v {
      } else {
        assert after[v] == before[v];
      }
    }
  }

  /** A lattice of n slots, each holding the zero vector buildGrid starts from. */
  function ZeroLattice(n: nat): (v: seq<Point>)
    ensures |v| == n && forall i :: 0 <= i < n ==> v[i] == (0, 0, 0)
  {
    seq(n, _ => (0, 0, 0))
  }

  /** The lattice after the first n corner points are written to their slots in turn (slots outside it are skipped). */
  function WriteCorners(v: seq<Point>, slots: seq<int>, pts: seq<Point>, n: nat): (w: seq<Point>)
    requires n <= |slots| && n <= |pts|
    ensures |w| == |v|
  {
    if n == 0 then v
    else
      var u := WriteCorners(v, slots, pts, n - 1);
      if 0 <= slots[n - 1] < |u| then u[slots[n - 1] := pts[n - 1]] else u
  }

  /** Writing to distinct slots of the lattice leaves each written point in its slot and every other slot as it was. */
  lemma {:induction false} WriteCornersEffect(v: seq<Point>, slots: seq<int>, pts: seq<Point>, n: nat)
    requires n <= |slots| && n <= |pts|
    requires forall c :: 0 <= c < n ==> 0 <= slots[c] < |v|
    requires forall c, d :: 0 <= c < d < n ==> slots[c] != slots[d]
    ensures forall c :: 0 <= c < n ==> WriteCorners(v, slots, pts, n)[slots[c]] == pts[c]
    ensures forall s :: 0 <= s < |v| && (forall c :: 0 <= c < n ==> slots[c] != s) ==> WriteCorners(v, slots, pts, n)[s] == v[s]
  {
    if n > 0 {
      WriteCornersEffect(v, slots, pts, n - 1);
    }
  }

  /** Writing eight corners is eight single-slot updates in turn. */
  lemma EightWrites(v: seq<Point>, slots: seq<int>, pts: seq<Point>)
    requires |slots| == 8 && |pts| >= 8 && forall c :: 0 <= c < 8 ==> 0 <= slots[c] < |v|
    ensures WriteCorners(v, slots, pts, 8)
         == v[slots[0] := pts[0]][slots[1] := pts[1]][slots[2] := pts[2]][slots[3] := pts[3]]
             [slots[4] := pts[4]][slots[5] := pts[5]][slots[6] := pts[6]][slots[7] := pts[7]]
  {
    var w := v;
    assert w == WriteCorners(v, slots, pts, 0);
    w := w[slots[0] := pts[0]];
    assert w == WriteCorners(v, slots, pts, 1);
    w := w[slots[1] := pts[1]];
    assert w == WriteCorners(v, slots, pts, 2);
    w := w[slots[2] := pts[2]];
    assert w == WriteCorners(v, slots, pts, 3);
    w := w[slots[3] := pts[3]];
    assert w == WriteCorners(v, slots, pts, 4);
    w := w[slots[4] := pts[4]];
    assert w == WriteCorners(v, slots, pts, 5);
    w := w[slots[5] := pts[5]];
    assert w == WriteCorners(v, slots, pts, 6);
    w := w[slots[6] := pts[6]];
    assert w == WriteCorners(v, slots, pts, 7);
    w := w[slots[7] := pts[7]];
    assert w == WriteCorners(v, slots, pts, 8);
  }

  /** The vertex lattice once buildGrid has placed its first q cubes, on a lattice nx+1 wide, ny+1 deep and nz+1 high. */
  function GridVertices(nx: nat, ny: nat, nz: nat, cx: nat, cy: nat, origin: Point, size: Point, q: nat): (v: seq<Point>)
    ensures |v| == VertexCount(nx, ny, nz)
  {
    if q == 0 then ZeroLattice(VertexCount(nx, ny, nz))
    else
      var p := CubeAt(cx, cy, q - 1);
      WriteCorners(GridVertices(nx, ny, nz, cx, cy, origin, size, q - 1), CubeCorners(nx, ny, p.0, p.1, p.2),
                   BuildCube(GridPoint(origin, size, p), size), 8)
  }

  /** A positive count below cx·cy·cz leaves no dimension empty. */
  lemma PositiveFactors(cx: nat, cy: nat, cz: nat, q: nat)
    requires 0 < q <= cx * cy * cz
    ensures cx > 0 && cy > 0 && cz > 0
  {
  }

  /** Placing the q-th cube keeps every slot at zero or at home and adds that cube to those placed. */
  lemma PlaceCubeStep(nx: nat, ny: nat, nz: nat, cx: nat, cy: nat, cz: nat, origin: Point, size: Point, q: nat)
    requires 0 < cx <= nx && 0 < cy <= ny && cz <= nz && 0 < q <= cx * cy * cz
    requires VerticesHome(GridVertices(nx, ny, nz, cx, cy, origin, size, q - 1), nx, ny, origin, size)
    requires CubesPlaced(GridVertices(nx, ny, nz, cx, cy, origin, size, q - 1), nx, ny, cx, cy, origin, size, q - 1)
    ensures VerticesHome(GridVertices(nx, ny, nz, cx, cy, origin, size, q), nx, ny, origin, size)
    ensures CubesPlaced(GridVertices(nx, ny, nz, cx, cy, origin, size, q), nx, ny, cx, cy, origin, size, q)
  {
    var p := CubeAt(cx, cy, q - 1);
    CubeAtInRange(cx, cy, cz, q - 1);
    var before := GridVertices(nx, ny, nz, cx, cy, origin, size, q - 1);
    var slots := CubeCorners(nx, ny, p.0, p.1, p.2);
    var pts := BuildCube(GridPoint(origin, size, p), size);
    CubeCornersValid(nx, ny, nz, p.0, p.1, p.2);
    WriteCornersEffect(before, slots, pts, 8);
    forall c | 0 <= c < 8
      ensures pts[c] == Home(nx, ny, origin, size, slots[c])
    {
      CubePointAtHome(nx, ny, origin, size, p.0, p.1, p.2, c);
    }
    PlacingCubeKeepsHome(before, GridVertices(nx, ny, nz, cx, cy, origin, size, q), nx, ny, cx, cy, origin, size, q, slots);
  }

  /** After any number of cubes every slot is at zero or at home, and the corners of the cubes placed are at home. */
  lemma {:induction false} GridVerticesPlaced(nx: nat, ny: nat, nz: nat, cx: nat, cy: nat, cz: nat,
                                              origin: Point, size: Point, q: nat)
    requires cx <= nx && cy <= ny && cz <= nz && q <= cx * cy * cz
    ensures VerticesHome(GridVertices(nx, ny, nz, cx, cy, origin, size, q), nx, ny, origin, size)
    ensures CubesPlaced(GridVertices(nx, ny, nz, cx, cy, origin, size, q), nx, ny, cx, cy, origin, size, q)
  {
    if q > 0 {
      PositiveFactors(cx, cy, cz, q);
      GridVerticesPlaced(nx, ny, nz, cx, cy, cz, origin, size, q - 1);
      PlaceCubeStep(nx, ny, nz, cx, cy, cz, origin, size, q);
    }
  }

  /** Lattice point (x, y, z) of the box is corner c of the q-th cube. */
  lemma CornerOfSomeCube(nx: nat, ny: nat, cx: nat, cy: nat, cz: nat, x: int, y: int, z: int) returns (q: nat, c: int)
    requires 0 < cx <= nx && 0 < cy <= ny && 0 < cz
    requires 0 <= x <= cx && 0 <= y <= cy && 0 <= z <= cz
    ensures 0 <= q < cx * cy * cz && 0 <= c < 8
    ensures CubeCornerIdx(nx, ny, cx, cy, q, c) == From3DTo1D(nx, ny, x, y, z)
  {
    var i := if x == cx then x - 1 else x;
    var j := if y == cy then y - 1 else y;
    var k := if z == cz then z - 1 else z;
    c := OffsetCorner((x - i, y - j, z - k));
    q := CubeVisitedAt(cx, cy, cz, i, j, k);
    CubeCornerAt(nx, ny, i, j, k, c);
  }

  /** Lattice point (x, y, z) of the box is a corner of one of the cubes, so it holds its position once all are placed. */
  lemma LatticePointCovered(vertices: seq<Point>, nx: nat, ny: nat, cx: nat, cy: nat, cz: nat, origin: Point, size: Point,
                            x: int, y: int, z: int)
    requires 0 < cx <= nx && 0 < cy <= ny && 0 < cz
    requires CubesPlaced(vertices, nx, ny, cx, cy, origin, size, cx * cy * cz)
    requires 0 <= x <= cx && 0 <= y <= cy && 0 <= z <= cz
    ensures 0 <= From3DTo1D(nx, ny, x, y, z) < |vertices|
    ensures vertices[From3DTo1D(nx, ny, x, y, z)] == GridPoint(origin, size, (x, y, z))
  {
    var q, c := CornerOfSomeCube(nx, ny, cx, cy, cz, x, y, z);
    HomeOfLatticePoint(nx, ny, origin, size, (x, y, z));
  }

  /** Every lattice point of a box of nbCube cubes holds its position (nothing is asked of an empty box). */
  ghost predicate LatticeFilled(vertices: seq<Point>, nx: nat, ny: nat, nbCube: (nat, nat, nat), origin: Point, size: Point)
  {
    nbCube.0 > 0 && nbCube.1 > 0 && nbCube.2 > 0 ==>
      forall x, y, z :: 0 <= x <= nbCube.0 && 0 <= y <= nbCube.1 && 0 <= z <= nbCube.2 ==>
        0 <= From3DTo1D(nx, ny, x, y, z) < |vertices| && vertices[From3DTo1D(nx, ny, x, y, z)] == GridPoint(origin, size, (x, y, z))
  }

  /** Once the corners of every cube are placed, the whole lattice of the box is filled. */
  lemma GridComplete(vertices: seq<Point>, nx: nat, ny: nat, nbCube: (nat, nat, nat), origin: Point, size: Point)
    requires nbCube.0 <= nx && nbCube.1 <= ny
    requires CubesPlaced(vertices, nx, ny, nbCube.0, nbCube.1, origin, size, nbCube.0 * nbCube.1 * nbCube.2)
    ensures LatticeFilled(vertices, nx, ny, nbCube, origin, size)
  {
    var (cx, cy, cz) := nbCube;
    if cx > 0 && cy > 0 && cz > 0 {
      forall x, y, z | 0 <= x <= cx && 0 <= y <= cy && 0 <= z <= cz
        ensures 0 <= From3DTo1D(nx, ny, x, y, z) < |vertices|
        ensures vertices[From3DTo1D(nx, ny, x, y, z)] == GridPoint(origin, size, (x, y, z))
      {
        LatticePointCovered(vertices, nx, ny, cx, cy, cz, origin, size, x, y, z);
      }
    }
  }

  /** Well-formed tetrahedra whose corners are vertex indices below n, or -1 (no vertex). */
  predicate CornersBelow(mesh: seq<Tetrahedron>, n: int)
  {
    AllWellFormed(mesh)
    && forall t, v :: 0 <= t < |mesh| && 0 <= v < 4 ==> -1 <= mesh[t].pointsIdx[v] < n
  }

  /** Appending the six tetrahedra of a cube whose corners are below n keeps every corner below n. */
  lemma CubeCornersBelow(mesh: seq<Tetrahedron>, ptsIdx: seq<int>, n: int)
    requires CornersBelow(mesh, n) && |ptsIdx| >= 8 && forall c :: 0 <= c < 8 ==> -1 <= ptsIdx[c] < n
    ensures CornersBelow(mesh + DecomposeCube(ptsIdx), n)
  {
    var ts := DecomposeCube(ptsIdx);
    forall t, v | 0 <= t < |mesh + ts| && 0 <= v < 4
      ensures (mesh + ts)[t].WellFormed() && -1 <= (mesh + ts)[t].pointsIdx[v] < n
    {
      if t >= |mesh| {
        assert (mesh + ts)[t] == ts[t - |mesh|];
        assert 0 <= CubeSplit[t - |mesh|][v] < 8;
      }
    }
  }

  lemma SameCornersBelow(a: seq<Tetrahedron>, b: seq<Tetrahedron>, n: int)
    requires AllWellFormed(a) && SameCorners(a, b) && CornersBelow(b, n)
    ensures CornersBelow(a, n)
  {
    forall t, v | 0 <= t < |a| && 0 <= v < 4
      ensures -1 <= a[t].pointsIdx[v] < n
    {
      assert a[t].pointsIdx == b[t].pointsIdx;
    }
  }

  class TetMesh {
    var nbTetra: (nat, nat, nat)
    var bbMin: Point
    var bbMax: Point
    var vertices: seq<Point>
    var mesh: seq<Tetrahedron>

    ghost predicate Valid()
      reads this
    {
      CornersBelow(mesh, |vertices|)
    }

    constructor ()
      ensures Valid() && nbTetra == (0, 0, 0) && vertices == [] && mesh == []
    {
      nbTetra := (0, 0, 0);
      vertices := [];
      mesh := [];
    }

    /** isEmpty */
    function IsEmpty(): (b: bool)
      reads this
      ensures b <==> |mesh| == 0
    {
      |mesh| == 0
    }

    /**
     * inTetraIdx: the first tetrahedron whose containment test accepts the point, or -1.
     * The floating-point containment test is given as its outcome per tetrahedron.
     */
    method InTetraIdx(inside: seq<bool>) returns (r: int)
      requires |inside| == |mesh|
      ensures -1 <= r < |mesh|
      ensures r == -1 <==> forall i :: 0 <= i < |mesh| ==> !inside[i]
      ensures r >= 0 ==> inside[r] && forall i :: 0 <= i < r ==> !inside[i]
    {
      var i := 0;
      while i < |mesh|
        invariant 0 <= i <= |mesh|
        invariant forall j :: 0 <= j < i ==> !inside[j]
      {
        if inside[i] {
          return i;
        }
        i := i + 1;
      }
      return -1;
    }

    /**
     * insertCubeIntoPtGrid: writes the eight corners of cube (x, y, z) into their lattice
     * slots, and returns the slots with the points now stored there (the source returns
     * their addresses).
     */
    method InsertCubeIntoPtGrid(cubePts: seq<Point>, x: int, y: int, z: int) returns (pts: seq<Point>, ptIndices: seq<int>)
      requires |cubePts| >= 8
      requires 0 <= x < nbTetra.0 && 0 <= y < nbTetra.1 && 0 <= z < nbTetra.2
      requires |vertices| == VertexCount(nbTetra.0, nbTetra.1, nbTetra.2)
      modifies this`vertices
      ensures ptIndices == CubeCorners(nbTetra.0, nbTetra.1, x, y, z) && |vertices| == |old(vertices)|
      ensures forall c :: 0 <= c < 8 ==> 0 <= ptIndices[c] < |vertices|
      ensures vertices == WriteCorners(old(vertices), ptIndices, cubePts, 8)
      ensures |pts| == 8 && forall c :: 0 <= c < 8 ==> pts[c] == vertices[ptIndices[c]]
    {
      ptIndices := CubeCorners(nbTetra.0, nbTetra.1, x, y, z);
      CubeCornersValid(nbTetra.0, nbTetra.1, nbTetra.2, x, y, z);
      EightWrites(vertices, ptIndices, cubePts);
      vertices := vertices[ptIndices[0] := cubePts[0]];
      vertices := vertices[ptIndices[1] := cubePts[1]];
      vertices := vertices[ptIndices[2] := cubePts[2]];
      vertices := vertices[ptIndices[3] := cubePts[3]];
      vertices := vertices[ptIndices[4] := cubePts[4]];
      vertices := vertices[ptIndices[5] := cubePts[5]];
      vertices := vertices[ptIndices[6] := cubePts[6]];
      vertices := vertices[ptIndices[7] := cubePts[7]];
      pts := cubePts[..8];
    }

    /**
     * decomposeAndAddCube: appends the six tetrahedra of one cube; a cube given more than
     * eight corner points is refused and nothing is added.
     */
    method DecomposeAndAddCube(pts: seq<Point>, ptsIdx: seq<int>)
      requires Valid() && |pts| >= 8
      requires |pts| == 8 ==> |ptsIdx| >= 8 && forall c :: 0 <= c < 8 ==> -1 <= ptsIdx[c] < |vertices|
      modifies this`mesh
      ensures Valid()
      ensures mesh == if |pts| > 8 then old(mesh) else old(mesh) + DecomposeCube(ptsIdx)
    {
      if |pts| > 8 {
        return;
      }
      CubeCornersBelow(mesh, ptsIdx, |vertices|);
      mesh := mesh + DecomposeCube(ptsIdx);
    }

    /** What buildGrid's loops have built after q cubes of a grid nbCube cubes large. */
    ghost predicate GridBuilt(nbCube: (nat, nat, nat), origin: Point, size: Point, q: nat)
      reads this
    {
      && nbCube.0 <= nbTetra.0 && nbCube.1 <= nbTetra.1 && nbCube.2 <= nbTetra.2
      && vertices == GridVertices(nbTetra.0, nbTetra.1, nbTetra.2, nbCube.0, nbCube.1, origin, size, q)
      && mesh == GridMesh(nbTetra.0, nbTetra.1, nbCube.0, nbCube.1, q)
    }

    /** One pass of buildGrid's innermost loop: cube (i, j, k), the q-th visited. */
    method AddCube(nbCube: (nat, nat, nat), size: Point, origin: Point, i: nat, j: nat, k: nat, ghost q: nat)
      requires Valid() && GridBuilt(nbCube, origin, size, q)
      requires i < nbCube.0 && j < nbCube.1 && k < nbCube.2 && CubeAt(nbCube.0, nbCube.1, q) == (i, j, k)
      modifies this`vertices, this`mesh
      ensures Valid() && GridBuilt(nbCube, origin, size, q + 1)
    {
      var nx, ny, cx, cy := nbTetra.0, nbTetra.1, nbCube.0, nbCube.1;
      var cubePts := BuildCube(GridPoint(origin, size, (i, j, k)), size);
      GridMeshStep(nx, ny, cx, cy, q, i, j, k);
      var pts, ptIndices := InsertCubeIntoPtGrid(cubePts, i, j, k);
      DecomposeAndAddCube(pts, ptIndices);
    }

    /**
     * The three loops of buildGrid over the cubes, z outermost, x innermost; total is the
     * number of cubes placed.
     */
    method PlaceCubes(nbCube: (nat, nat, nat), sizeCube: Point, origin: Point) returns (ghost total: nat)
      requires Valid() && GridBuilt(nbCube, origin, sizeCube, 0)
      modifies this`vertices, this`mesh
      ensures total == nbCube.0 * nbCube.1 * nbCube.2 && Valid() && GridBuilt(nbCube, origin, sizeCube, total)
    {
      ghost var layer := nbCube.0 * nbCube.1;
      total := 0;
      var k := 0;
      while k < nbCube.2
        invariant 0 <= k <= nbCube.2 && total == layer * k
        invariant Valid() && GridBuilt(nbCube, origin, sizeCube, total)
      {
        total := PlaceLayer(nbCube, sizeCube, origin, k, total);
        CInt.MulSucc(layer, k);
        k := k + 1;
      }
    }

    /** The middle loop of buildGrid: the layer of cubes at height k, the first of them the q-th visited. */
    method PlaceLayer(nbCube: (nat, nat, nat), sizeCube: Point, origin: Point, k: nat, ghost q: nat) returns (ghost done: nat)
      requires k < nbCube.2 && q == nbCube.0 * nbCube.1 * k
      requires Valid() && GridBuilt(nbCube, origin, sizeCube, q)
      modifies this`vertices, this`mesh
      ensures done == q + nbCube.0 * nbCube.1 && Valid() && GridBuilt(nbCube, origin, sizeCube, done)
    {
      done := q;
      var j := 0;
      while j < nbCube.1
        invariant 0 <= j <= nbCube.1 && done == q + nbCube.0 * j
        invariant Valid() && GridBuilt(nbCube, origin, sizeCube, done)
      {
        if nbCube.0 > 0 {
          ghost var start := CubeVisitedAt(nbCube.0, nbCube.1, nbCube.2, 0, j, k);
        }
        done := PlaceRow(nbCube, sizeCube, origin, j, k, done);
        CInt.MulSucc(nbCube.0, j);
        j := j + 1;
      }
    }

    /** The inner loop of buildGrid: the row of cubes at depth j and height k, the first of them the q-th visited. */
    method PlaceRow(nbCube: (nat, nat, nat), sizeCube: Point, origin: Point, j: nat, k: nat, ghost q: nat) returns (ghost done: nat)
      requires j < nbCube.1 && k < nbCube.2 && (0 < nbCube.0 ==> CubeAt(nbCube.0, nbCube.1, q) == (0, j, k))
      requires Valid() && GridBuilt(nbCube, origin, sizeCube, q)
      modifies this`vertices, this`mesh
      ensures done == q + nbCube.0 && Valid() && GridBuilt(nbCube, origin, sizeCube, done)
    {
      done := q;
      var i := 0;
      while i < nbCube.0
        invariant 0 <= i <= nbCube.0 && done == q + i
        invariant i < nbCube.0 ==> CubeAt(nbCube.0, nbCube.1, done) == (i, j, k)
        invariant Valid() && GridBuilt(nbCube, origin, sizeCube, done)
      {
        AddCube(nbCube, sizeCube, origin, i, j, k, done);
        if i + 1 < nbCube.0 {
          NextInRow(nbCube.0, nbCube.1, done, i, j, k);
        }
        i := i + 1;
        done := done + 1;
      }
    }

    /**
     * buildGrid: refused (the source throws) on a mesh that already has tetrahedra;
     * otherwise lays out the vertex lattice, cuts every cube into six tetrahedra, x fastest,
     * then y, then z, and links the tetrahedra that share a face.
     */
    method BuildGrid(nbCube: (nat, nat, nat), sizeCube: Point, origin: Point) returns (ok: bool)
      requires Valid()
      modifies this
      ensures Valid() && (ok <==> old(|mesh|) == 0)
      ensures !ok ==> (nbTetra == old(nbTetra) && bbMin == old(bbMin) && bbMax == old(bbMax)
                       && vertices == old(vertices) && mesh == old(mesh))
      ensures ok ==> (nbTetra == (old(nbTetra).0 + nbCube.0, old(nbTetra).1 + nbCube.1, old(nbTetra).2 + nbCube.2)
                      && bbMin == origin && bbMax == Add(origin, Scale(nbCube, sizeCube)))
      ensures ok ==> (|vertices| == VertexCount(nbTetra.0, nbTetra.1, nbTetra.2)
                      && VerticesHome(vertices, nbTetra.0, nbTetra.1, origin, sizeCube))
      ensures ok ==>
        var g := GridMesh(nbTetra.0, nbTetra.1, nbCube.0, nbCube.1, nbCube.0 * nbCube.1 * nbCube.2);
        SameCorners(mesh, g) && Neighbors(mesh) == Linked(Faces(g), Neighbors(g), 4 * |g|)
      ensures ok ==> LatticeFilled(vertices, nbTetra.0, nbTetra.1, nbCube, origin, sizeCube)
    {
      if !IsEmpty() {
        return false;
      }
      nbTetra := (nbTetra.0 + nbCube.0, nbTetra.1 + nbCube.1, nbTetra.2 + nbCube.2);
      bbMin := origin;
      bbMax := Add(origin, Scale(nbCube, sizeCube));
      vertices := ZeroLattice(VertexCount(nbTetra.0, nbTetra.1, nbTetra.2));
      ghost var total := PlaceCubes(nbCube, sizeCube, origin);
      GridVerticesPlaced(nbTetra.0, nbTetra.1, nbTetra.2, nbCube.0, nbCube.1, nbCube.2, origin, sizeCube, total);
      GridComplete(vertices, nbTetra.0, nbTetra.1, nbCube, origin, sizeCube);
      ComputeNeighborhood();
      return true;
    }

    /**
     * computeNeighborhood: scans the faces of every tetrahedron in order and, through a
     * map from sorted face to the first (tetrahedron, face) holding it, links each face
     * met again to that tetrahedron, and that tetrahedron back to this one.
     */
    method ComputeNeighborhood()
      requires Valid()
      modifies this`mesh
      ensures Valid() && SameCorners(mesh, old(mesh))
      ensures Faces(mesh) == old(Faces(mesh))
      ensures Neighbors(mesh) == old(Linked(Faces(mesh), Neighbors(mesh), 4 * |mesh|))
    {
      var m, _ := LinkAllFaces(mesh);
      ScanIsLinked(mesh);
      SameCornersBelow(m, mesh, |vertices|);
      mesh := m;
    }
  }

  lemma SameCornersTransitive(a: seq<Tetrahedron>, b: seq<Tetrahedron>, c: seq<Tetrahedron>)
    requires SameCorners(a, b) && SameCorners(b, c)
    ensures SameCorners(a, c)
  {
  }

  /** Two meshes whose tetrahedra have the same corners (their neighbours may differ). */
  predicate SameCorners(a: seq<Tetrahedron>, b: seq<Tetrahedron>)
  {
    |a| == |b| && forall t :: 0 <= t < |a| ==> a[t].pointsIdx == b[t].pointsIdx
  }

  lemma SameCornersSameFaces(a: seq<Tetrahedron>, b: seq<Tetrahedron>)
    requires AllWellFormed(a) && AllWellFormed(b) && SameCorners(a, b)
    ensures Faces(a) == Faces(b)
  {
    forall p | 0 <= p < 4 * |a|
      ensures Faces(a)[p] == Faces(b)[p]
    {
      assert a[p / 4].pointsIdx == b[p / 4].pointsIdx;
    }
  }
}
