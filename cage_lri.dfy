/**
 * The set-up of the Green cage with "LRI" propagation (CageGreenLRI). When some vertices
 * of the deformed tetrahedral mesh lie outside the cage (outliers), the tetrahedra are
 * sorted into inliers (no outlier vertex), "unknown" tetrahedra (with an outlier vertex)
 * and "handle" tetrahedra (inliers next to an unknown one); the unknown and handle
 * tetrahedra are copied, in mesh order, into the solver's own list, their neighbour
 * indices translated into that list, and the solver's edges, vertex numbering and
 * constraint vertices are collected from it.
 *
 * The outlier test itself (a distance to the cage's bounding box, in floating point), the
 * vertex positions and the least-squares solvers are outside the model: the outlier flags
 * are a parameter.
 */
module CageLRI {
  /** A tetrahedron: four vertex indices and four neighbour tetrahedra (-1 for none). */
  datatype Tet = Tet(pts: seq<nat>, nbrs: seq<int>)

  /** Four vertices, each below nVerts. */
  predicate PtsOk(t: Tet, nVerts: nat)
  {
    |t.pts| == 4 && forall v :: 0 <= v < 4 ==> t.pts[v] < nVerts
  }

  /** Four neighbours, each -1 or a tetrahedron of a mesh of size meshSize. */
  predicate NbrsOk(t: Tet, meshSize: nat)
  {
    |t.nbrs| == 4 && forall j :: 0 <= j < 4 ==> -1 <= t.nbrs[j] < meshSize
  }

  predicate MeshOk(mesh: seq<Tet>, nVerts: nat)
  {
    forall t :: 0 <= t < |mesh| ==> PtsOk(mesh[t], nVerts) && NbrsOk(mesh[t], |mesh|)
  }

  // ---------------------------------------------------------------------------------
  // Sequences without repetition, in first-seen order

  /** The elements of s, each kept at its first occurrence. */
  function Dedup<T(==)>(s: seq<T>): seq<T>
  {
    if |s| == 0 then []
    else
      var d := Dedup(s[..|s| - 1]);
      if s[|s| - 1] in d then d else d + [s[|s| - 1]]
  }

  predicate Distinct<T(==)>(s: seq<T>)
  {
    forall i, j :: 0 <= i < j < |s| ==> s[i] != s[j]
  }

  /** Dedup keeps exactly the elements of s, once each. */
  lemma {:induction false} DedupProperties<T>(s: seq<T>)
    ensures Distinct(Dedup(s))
    ensures forall x :: x in Dedup(s) <==> x in s
  {
    if |s| > 0 {
      var init := s[..|s| - 1];
      DedupProperties(init);
      assert s == init + [s[|s| - 1]];
    }
  }

  /** Appending one element to s appends it to Dedup(s) exactly when it is new. */
  lemma DedupSnoc<T>(s: seq<T>, x: T)
    ensures Dedup(s + [x]) == if x in Dedup(s) then Dedup(s) else Dedup(s) + [x]
  {
    assert (s + [x])[..|s|] == s;
  }

  /** The position of the first occurrence of x in s. */
  function IndexOf<T(==)>(s: seq<T>, x: T): (k: nat)
    requires x in s
    ensures k < |s| && s[k] == x && x !in s[..k]
  {
    if s[0] == x then 0
    else
      var k := 1 + IndexOf(s[1..], x);
      assert s[..k] == [s[0]] + s[1..][..k - 1];
      k
  }

  /** A first occurrence is unique. */
  lemma IndexOfUnique<T>(s: seq<T>, x: T, k: nat)
    requires k < |s| && s[k] == x && x !in s[..k]
    ensures IndexOf(s, x) == k
  {
  }

  // ---------------------------------------------------------------------------------
  // invertMatrix: the inverse of a 3 × 3 matrix by its adjugate

  /** Three column vectors, as glm stores them: entry (row r, column c) is m[c][r]. */
  type Mat = seq<seq<real>>

  predicate IsMat(m: Mat)
  {
    |m| == 3 && forall c :: 0 <= c < 3 ==> |m[c]| == 3
  }

  function At(m: Mat, r: nat, c: nat): real
    requires IsMat(m) && r < 3 && c < 3
  {
    m[c][r]
  }

  /** The determinant, expanded along the first row. */
  function Det(m: Mat): real
    requires IsMat(m)
  {
    At(m, 0, 0) * (At(m, 1, 1) * At(m, 2, 2) - At(m, 2, 1) * At(m, 1, 2))
    + At(m, 0, 1) * (At(m, 2, 0) * At(m, 1, 2) - At(m, 1, 0) * At(m, 2, 2))
    + At(m, 0, 2) * (At(m, 1, 0) * At(m, 2, 1) - At(m, 2, 0) * At(m, 1, 1))
  }

  /** Entry (j, col) of the adjugate of m. */
  function Adj(m: Mat, j: nat, col: nat): real
    requires IsMat(m) && j < 3 && col < 3
  {
    var a, b, c := At(m, 0, 0), At(m, 0, 1), At(m, 0, 2);
    var d, e, f := At(m, 1, 0), At(m, 1, 1), At(m, 1, 2);
    var g, h, k := At(m, 2, 0), At(m, 2, 1), At(m, 2, 2);
    if j == 0 then (if col == 0 then e * k - f * h else if col == 1 then c * h - b * k else b * f - c * e)
    else if j == 1 then (if col == 0 then f * g - d * k else if col == 1 then a * k - c * g else c * d - a * f)
    else (if col == 0 then d * h - e * g else if col == 1 then g * b - a * h else a * e - b * d)
  }

  /**
   * invertMatrix: false, with invM left as it was, when the determinant is 0; otherwise
   * true, with invM the adjugate divided by the determinant.
   */
  function InvertMatrix(m: Mat, invM: Mat): (r: (bool, Mat))
    requires IsMat(m)
    ensures !r.0 <==> Det(m) == 0.0
    ensures !r.0 ==> r.1 == invM
    ensures r.0 ==> IsMat(r.1) && forall j, col :: 0 <= j < 3 && 0 <= col < 3 ==> At(r.1, j, col) == Adj(m, j, col) / Det(m)
  {
    var det := Det(m);
    if det == 0.0 then (false, invM)
    else
      (true, [[Adj(m, 0, 0) / det, Adj(m, 1, 0) / det, Adj(m, 2, 0) / det],
              [Adj(m, 0, 1) / det, Adj(m, 1, 1) / det, Adj(m, 2, 1) / det],
              [Adj(m, 0, 2) / det, Adj(m, 1, 2) / det, Adj(m, 2, 2) / det]])
  }

  /**
   * The adjugate is what makes the inverse: row r of m against column col of the adjugate
   * gives the determinant when r == col and 0 otherwise (m · adj(m) = det(m) · I).
   */
  lemma AdjugateTimesMatrix(m: Mat, r: nat, col: nat)
    requires IsMat(m) && r < 3 && col < 3
    ensures At(m, r, 0) * Adj(m, 0, col) + At(m, r, 1) * Adj(m, 1, col) + At(m, r, 2) * Adj(m, 2, col)
      == if r == col then Det(m) else 0.0
  {
  }

  // ---------------------------------------------------------------------------------
  // Classification of the tetrahedra

  /** A tetrahedron is an inlier when none of its four vertices is an outlier. */
  predicate Inlier(t: Tet, outlier: seq<bool>)
    requires PtsOk(t, |outlier|)
  {
    forall v :: 0 <= v < 4 ==> !outlier[t.pts[v]]
  }

  /** Some neighbour of tetrahedron t exists and is not an inlier. */
  predicate HasOutlierNeighbour(mesh: seq<Tet>, inlier: seq<bool>, t: nat)
    requires t < |mesh| == |inlier| && NbrsOk(mesh[t], |mesh|)
  {
    exists j :: 0 <= j < 4 && mesh[t].nbrs[j] != -1 && !inlier[mesh[t].nbrs[j]]
  }

  /** Tetrahedron t goes to the solver: it is unknown (not an inlier), or a handle (an inlier next to one that is not). */
  predicate Kept(mesh: seq<Tet>, inlier: seq<bool>, t: nat)
    requires t < |mesh| == |inlier| && NbrsOk(mesh[t], |mesh|)
  {
    !inlier[t] || HasOutlierNeighbour(mesh, inlier, t)
  }

  /**
   * The selection after the first t mesh tetrahedra: the kept ones, in mesh order, with their
   * mesh index, and the positions of the handles and of the unknown ones among them.
   */
  predicate SelectedUpTo(mesh: seq<Tet>, inlier: seq<bool>, t: nat,
      tets: seq<Tet>, orig: seq<nat>, handles: seq<nat>, unknowns: seq<nat>)
  {
    |inlier| == |mesh| && t <= |mesh| && |tets| == |orig|
    && (forall k :: 0 <= k < |orig| ==> orig[k] < t && tets[k] == mesh[orig[k]])
    && (forall a, b :: 0 <= a < b < |orig| ==> orig[a] < orig[b])
    && (forall s :: 0 <= s < |mesh| && NbrsOk(mesh[s], |mesh|) ==> (s in orig <==> s < t && Kept(mesh, inlier, s)))
    && (forall k :: 0 <= k < |orig| ==>
          (k in handles <==> inlier[orig[k]]) && (k in unknowns <==> !inlier[orig[k]]))
    && (forall h :: h in handles ==> h < |orig|)
    && (forall u :: u in unknowns ==> u < |orig|)
  }

  /** One step of the selection: mesh tetrahedron t is appended when it is kept, as a handle or as unknown. */
  lemma SelectStep(mesh: seq<Tet>, inlier: seq<bool>, t: nat,
      tets: seq<Tet>, orig: seq<nat>, handles: seq<nat>, unknowns: seq<nat>)
    requires SelectedUpTo(mesh, inlier, t, tets, orig, handles, unknowns) && t < |mesh|
    requires NbrsOk(mesh[t], |mesh|)
    ensures !Kept(mesh, inlier, t) ==> SelectedUpTo(mesh, inlier, t + 1, tets, orig, handles, unknowns)
    ensures Kept(mesh, inlier, t) && inlier[t] ==>
      SelectedUpTo(mesh, inlier, t + 1, tets + [mesh[t]], orig + [t], handles + [|tets|], unknowns)
    ensures !inlier[t] ==>
      SelectedUpTo(mesh, inlier, t + 1, tets + [mesh[t]], orig + [t], handles, unknowns + [|tets|])
  {
  }

  /**
   * Every neighbour of an unknown tetrahedron goes to the solver too, provided the mesh's
   * neighbourhood is symmetric: it is unknown itself, or a handle next to this one.
   */
  lemma NeighbourOfUnknownIsKept(mesh: seq<Tet>, inlier: seq<bool>, t: nat, j: nat)
    requires t < |mesh| == |inlier| && NbrsOk(mesh[t], |mesh|) && !inlier[t]
    requires j < 4 && mesh[t].nbrs[j] != -1
    requires NbrsOk(mesh[mesh[t].nbrs[j]], |mesh|) && (t as int) in mesh[mesh[t].nbrs[j]].nbrs
    ensures Kept(mesh, inlier, mesh[t].nbrs[j])
  {
    var n := mesh[t].nbrs[j];
    var jj :| 0 <= jj < 4 && mesh[n].nbrs[jj] == t;
    assert mesh[n].nbrs[jj] != -1 && !inlier[mesh[n].nbrs[jj]];
  }

  /** A neighbour index after translation into the solver's list: its position there, or itself when it is not there. */
  function Remapped(orig: seq<nat>, n: int): int
  {
    if n >= 0 && (n as nat) in orig then IndexOf(orig, n as nat) else n
  }

  // ---------------------------------------------------------------------------------
  // Edges

  type Edge = (nat, nat)

  function Swap(e: Edge): Edge
  {
    (e.1, e.0)
  }

  /** The m-th vertex pair (v, vn) with v < vn of a tetrahedron, in the order of the nested v, vn loops. */
  function Pair(t: Tet, m: nat): Edge
    requires |t.pts| == 4 && m < 6
  {
    if m == 0 then (t.pts[0], t.pts[1])
    else if m == 1 then (t.pts[0], t.pts[2])
    else if m == 2 then (t.pts[0], t.pts[3])
    else if m == 3 then (t.pts[1], t.pts[2])
    else if m == 4 then (t.pts[1], t.pts[3])
    else (t.pts[2], t.pts[3])
  }

  function TetPairs(t: Tet): (ps: seq<Edge>)
    requires |t.pts| == 4
    ensures |ps| == 6
  {
    seq(6, m requires 0 <= m < 6 => Pair(t, m))
  }

  predicate AllPtsOk(tets: seq<Tet>, nVerts: nat)
  {
    forall i :: 0 <= i < |tets| ==> PtsOk(tets[i], nVerts)
  }

  predicate FourPts(tets: seq<Tet>)
  {
    forall i :: 0 <= i < |tets| ==> |tets[i].pts| == 4
  }

  /** The vertex pairs of the first n tetrahedra, with repetitions. */
  function AllPairs(tets: seq<Tet>, n: nat): seq<Edge>
    requires n <= |tets| && FourPts(tets)
  {
    if n == 0 then [] else AllPairs(tets, n - 1) + TetPairs(tets[n - 1])
  }

  function Get(m: map<Edge, seq<nat>>, k: Edge): seq<nat>
  {
    if k in m then m[k] else []
  }

  /** What the first m pairs of tetrahedron i add to key k of the edge map: i once per pair equal to k, once per pair equal to k swapped. */
  function TetOcc(k: Edge, t: Tet, i: nat, m: nat): seq<nat>
    requires |t.pts| == 4 && m <= 6
  {
    if m == 0 then []
    else
      TetOcc(k, t, i, m - 1)
      + (if Pair(t, m - 1) == k then [i] else [])
      + (if Swap(Pair(t, m - 1)) == k then [i] else [])
  }

  /** What the first n tetrahedra add to key k of the edge map. */
  function Occ(k: Edge, tets: seq<Tet>, n: nat): seq<nat>
    requires n <= |tets| && FourPts(tets)
  {
    if n == 0 then [] else Occ(k, tets, n - 1) + TetOcc(k, tets[n - 1], n - 1, 6)
  }

  lemma {:induction false} TetOccSymmetric(k: Edge, t: Tet, i: nat, m: nat)
    requires |t.pts| == 4 && m <= 6
    ensures TetOcc(k, t, i, m) == TetOcc(Swap(k), t, i, m)
  {
    if m > 0 {
      TetOccSymmetric(k, t, i, m - 1);
    }
  }

  /** The edge map lists the same tetrahedra under (a, b) and under (b, a). */
  lemma {:induction false} OccSymmetric(k: Edge, tets: seq<Tet>, n: nat)
    requires n <= |tets| && FourPts(tets)
    ensures Occ(k, tets, n) == Occ(Swap(k), tets, n)
  {
    if n > 0 {
      OccSymmetric(k, tets, n - 1);
      TetOccSymmetric(k, tets[n - 1], n - 1, 6);
    }
  }

  lemma {:induction false} TetOccMembership(k: Edge, t: Tet, i: nat, m: nat, x: nat)
    requires |t.pts| == 4 && m <= 6
    ensures x in TetOcc(k, t, i, m) <==> x == i && (k in TetPairs(t)[..m] || Swap(k) in TetPairs(t)[..m])
  {
    if m > 0 {
      TetOccMembership(k, t, i, m - 1, x);
      assert TetPairs(t)[..m] == TetPairs(t)[..m - 1] + [Pair(t, m - 1)];
    }
  }

  /** Tetrahedron x is listed under key k exactly when one of its vertex pairs is k, in either direction. */
  lemma {:induction false} OccMembership(k: Edge, tets: seq<Tet>, n: nat, x: nat)
    requires n <= |tets| && FourPts(tets)
    ensures x in Occ(k, tets, n) <==> x < n && (k in TetPairs(tets[x]) || Swap(k) in TetPairs(tets[x]))
  {
    if n > 0 {
      OccMembership(k, tets, n - 1, x);
      TetOccMembership(k, tets[n - 1], n - 1, 6, x);
      assert TetPairs(tets[n - 1])[..6] == TetPairs(tets[n - 1]);
    }
  }

  /** The edge map after tetrahedron i is recorded under key e: appended to its list, or a new list [i]. */
  function MapAdd(em: map<Edge, seq<nat>>, e: Edge, i: nat): map<Edge, seq<nat>>
  {
    if e !in em then em[e := [i]] else em[e := em[e] + [i]]
  }

  /** The edge map after one pair: recorded under the pair, then under the swapped pair. */
  function PairStep(em: map<Edge, seq<nat>>, e: Edge, i: nat): map<Edge, seq<nat>>
  {
    MapAdd(MapAdd(em, e, i), Swap(e), i)
  }

  /** The edge map after the first m pairs of tetrahedron i. */
  function TetMap(em: map<Edge, seq<nat>>, t: Tet, i: nat, m: nat): map<Edge, seq<nat>>
    requires |t.pts| == 4 && m <= 6
  {
    if m == 0 then em else PairStep(TetMap(em, t, i, m - 1), Pair(t, m - 1), i)
  }

  /** The edge map after the first n tetrahedra. */
  function AllMap(em: map<Edge, seq<nat>>, tets: seq<Tet>, n: nat): map<Edge, seq<nat>>
    requires n <= |tets| && FourPts(tets)
  {
    if n == 0 then em else TetMap(AllMap(em, tets, n - 1), tets[n - 1], n - 1, 6)
  }

  /** One MapAdd appends i under e and leaves every other key as it was. */
  lemma MapAddGet(em: map<Edge, seq<nat>>, e: Edge, i: nat, k: Edge)
    ensures Get(MapAdd(em, e, i), k) == Get(em, k) + (if e == k then [i] else [])
    ensures k in MapAdd(em, e, i) <==> k in em || e == k
  {
  }

  lemma PairStepGet(em: map<Edge, seq<nat>>, e: Edge, i: nat, k: Edge)
    ensures Get(PairStep(em, e, i), k) == Get(em, k) + (if e == k then [i] else []) + (if Swap(e) == k then [i] else [])
    ensures k in PairStep(em, e, i) <==> k in em || e == k || Swap(e) == k
  {
    MapAddGet(em, e, i, k);
    MapAddGet(MapAdd(em, e, i), Swap(e), i, k);
  }

  lemma {:induction false} TetMapGet(em: map<Edge, seq<nat>>, t: Tet, i: nat, m: nat, k: Edge)
    requires |t.pts| == 4 && m <= 6
    ensures Get(TetMap(em, t, i, m), k) == Get(em, k) + TetOcc(k, t, i, m)
    ensures k in TetMap(em, t, i, m) <==> k in em || TetOcc(k, t, i, m) != []
  {
    if m > 0 {
      TetMapGet(em, t, i, m - 1, k);
      PairStepGet(TetMap(em, t, i, m - 1), Pair(t, m - 1), i, k);
    }
  }

  lemma ConcatAssoc<T>(a: seq<T>, b: seq<T>, c: seq<T>)
    ensures a + b + c == a + (b + c)
  {
  }

  /** The edge map built from em over the first n tetrahedra holds, under each key, em's list followed by Occ. */
  lemma {:induction false} AllMapGet(em: map<Edge, seq<nat>>, tets: seq<Tet>, n: nat, k: Edge)
    requires n <= |tets| && FourPts(tets)
    ensures Get(AllMap(em, tets, n), k) == Get(em, k) + Occ(k, tets, n)
    ensures k in AllMap(em, tets, n) <==> k in em || Occ(k, tets, n) != []
  {
    if n > 0 {
      AllMapGet(em, tets, n - 1, k);
      var before, added := Occ(k, tets, n - 1), TetOcc(k, tets[n - 1], n - 1, 6);
      TetMapGet(AllMap(em, tets, n - 1), tets[n - 1], n - 1, 6, k);
      ConcatAssoc(Get(em, k), before, added);
    }
  }

  /** AllMapGet for every key at once. */
  lemma AllMapKeys(em: map<Edge, seq<nat>>, tets: seq<Tet>, n: nat)
    requires n <= |tets| && FourPts(tets)
    ensures forall k :: Get(AllMap(em, tets, n), k) == Get(em, k) + Occ(k, tets, n)
    ensures forall k :: k in AllMap(em, tets, n) <==> k in em || Occ(k, tets, n) != []
  {
    forall k {
      AllMapGet(em, tets, n, k);
    }
  }

  /**
   * One (v, vn) step of collect_edges: the pair is added to the edge list if it is new, and
   * tetrahedron i is appended under the pair and under the swapped pair.
   */
  method AddPair(edges: seq<Edge>, edgeMap: map<Edge, seq<nat>>, e: Edge, i: nat)
    returns (edges': seq<Edge>, edgeMap': map<Edge, seq<nat>>)
    ensures edges' == if e in edges then edges else edges + [e]
    ensures edgeMap' == PairStep(edgeMap, e, i)
  {
    edges' := edges;
    if e !in edges {
      edges' := edges + [e];
    }
    edgeMap' := edgeMap;
    if e !in edgeMap' {
      edgeMap' := edgeMap'[e := [i]];
    } else {
      edgeMap' := edgeMap'[e := edgeMap'[e] + [i]];
    }
    var r := Swap(e);
    if r !in edgeMap' {
      edgeMap' := edgeMap'[r := [i]];
    } else {
      edgeMap' := edgeMap'[r := edgeMap'[r] + [i]];
    }
  }

  // ---------------------------------------------------------------------------------
  // Vertices

  /** The vertices of the first n tetrahedra, in order, with repetitions. */
  function AllVerts(tets: seq<Tet>, n: nat): seq<nat>
    requires n <= |tets| && FourPts(tets)
  {
    if n == 0 then [] else AllVerts(tets, n - 1) + tets[n - 1].pts
  }

  /** The first m vertices of pts that are not unknown. */
  function KnownPts(pts: seq<nat>, unknown: seq<bool>, m: nat): seq<nat>
    requires m <= |pts| && forall v :: 0 <= v < |pts| ==> pts[v] < |unknown|
  {
    if m == 0 then []
    else KnownPts(pts, unknown, m - 1) + (if !unknown[pts[m - 1]] then [pts[m - 1]] else [])
  }

  /** The vertices that are not unknown of the first n unknown tetrahedra, in order, with repetitions. */
  function Candidates(tets: seq<Tet>, unknownTets: seq<nat>, unknown: seq<bool>, n: nat): seq<nat>
    requires n <= |unknownTets| && AllPtsOk(tets, |unknown|)
    requires forall i :: 0 <= i < |unknownTets| ==> unknownTets[i] < |tets|
  {
    if n == 0 then []
    else Candidates(tets, unknownTets, unknown, n - 1) + KnownPts(tets[unknownTets[n - 1]].pts, unknown, 4)
  }

  lemma {:induction false} KnownPtsMembership(pts: seq<nat>, unknown: seq<bool>, m: nat, x: nat)
    requires m <= |pts| && forall v :: 0 <= v < |pts| ==> pts[v] < |unknown|
    ensures x in KnownPts(pts, unknown, m) <==> x in pts[..m] && !unknown[x]
  {
    if m > 0 {
      KnownPtsMembership(pts, unknown, m - 1, x);
      assert pts[..m] == pts[..m - 1] + [pts[m - 1]];
    }
  }

  /** A candidate is a vertex of an unknown tetrahedron that is not unknown itself. */
  lemma {:induction false} CandidatesMembership(tets: seq<Tet>, unknownTets: seq<nat>, unknown: seq<bool>, n: nat, x: nat)
    requires n <= |unknownTets| && AllPtsOk(tets, |unknown|)
    requires forall i :: 0 <= i < |unknownTets| ==> unknownTets[i] < |tets|
    ensures x in Candidates(tets, unknownTets, unknown, n) <==>
      (x < |unknown| && !unknown[x] && exists i :: 0 <= i < n && x in tets[unknownTets[i]].pts)
  {
    if n > 0 {
      CandidatesMembership(tets, unknownTets, unknown, n - 1, x);
      var pts := tets[unknownTets[n - 1]].pts;
      assert PtsOk(tets[unknownTets[n - 1]], |unknown|);
      KnownPtsMembership(pts, unknown, 4, x);
      assert pts[..4] == pts;
      var earlier, known := Candidates(tets, unknownTets, unknown, n - 1), KnownPts(pts, unknown, 4);
      assert Candidates(tets, unknownTets, unknown, n) == earlier + known;
      if x in earlier {
        var i :| 0 <= i < n - 1 && x in tets[unknownTets[i]].pts;
        assert 0 <= i < n && x in tets[unknownTets[i]].pts;
      } else if x in known {
        assert 0 <= n - 1 < n && x in tets[unknownTets[n - 1]].pts;
      } else if x < |unknown| && !unknown[x] {
        forall i | 0 <= i < n
          ensures x !in tets[unknownTets[i]].pts
        {
        }
      }
    }
  }

  /**
   * The constraint vertices: each vertex of an unknown tetrahedron that is not unknown
   * itself, listed once.
   */
  lemma ConstraintVertices(tets: seq<Tet>, unknownTets: seq<nat>, unknown: seq<bool>, x: nat)
    requires AllPtsOk(tets, |unknown|)
    requires forall i :: 0 <= i < |unknownTets| ==> unknownTets[i] < |tets|
    ensures Distinct(Dedup(Candidates(tets, unknownTets, unknown, |unknownTets|)))
    ensures x in Dedup(Candidates(tets, unknownTets, unknown, |unknownTets|)) <==>
      (x < |unknown| && !unknown[x] && exists i :: 0 <= i < |unknownTets| && x in tets[unknownTets[i]].pts)
  {
    DedupProperties(Candidates(tets, unknownTets, unknown, |unknownTets|));
    CandidatesMembership(tets, unknownTets, unknown, |unknownTets|, x);
  }

  lemma PairsPrefixStep(before: seq<Edge>, t: Tet, m: nat)
    requires |t.pts| == 4 && m < 6
    ensures var d := Dedup(before + TetPairs(t)[..m]);
      Dedup(before + TetPairs(t)[..m + 1]) == if Pair(t, m) in d then d else d + [Pair(t, m)]
  {
    DedupPrefixStep(before, TetPairs(t), m);
  }

  lemma TetMapStep(em: map<Edge, seq<nat>>, t: Tet, i: nat, m: nat, prev: map<Edge, seq<nat>>, next: map<Edge, seq<nat>>)
    requires |t.pts| == 4 && m < 6
    requires prev == TetMap(em, t, i, m) && next == PairStep(prev, Pair(t, m), i)
    ensures next == TetMap(em, t, i, m + 1)
  {
  }

  /** The two inner loops of collect_edges for tetrahedron i, over its six vertex pairs. */
  method AddTetEdges(edges: seq<Edge>, edgeMap: map<Edge, seq<nat>>, t: Tet, i: nat, ghost before: seq<Edge>)
    returns (edges': seq<Edge>, edgeMap': map<Edge, seq<nat>>)
    requires |t.pts| == 4 && edges == Dedup(before)
    ensures edges' == Dedup(before + TetPairs(t))
    ensures edgeMap' == TetMap(edgeMap, t, i, 6)
  {
    edges', edgeMap' := edges, edgeMap;
    var m := 0;
    assert before + TetPairs(t)[..0] == before;
    while m < 6
      invariant 0 <= m <= 6
      invariant edges' == Dedup(before + TetPairs(t)[..m])
      invariant edgeMap' == TetMap(edgeMap, t, i, m)
    {
      PairsPrefixStep(before, t, m);
      ghost var prev := edgeMap';
      edges', edgeMap' := AddPair(edges', edgeMap', Pair(t, m), i);
      TetMapStep(edgeMap, t, i, m, prev, edgeMap');
      m := m + 1;
    }
    assert TetPairs(t)[..6] == TetPairs(t);
  }

  /** Dedup over a prefix that grows by one element. */
  lemma DedupPrefixStep<T>(before: seq<T>, s: seq<T>, v: nat)
    requires v < |s|
    ensures var d := Dedup(before + s[..v]);
      Dedup(before + s[..v + 1]) == if s[v] in d then d else d + [s[v]]
  {
    DedupSnoc(before + s[..v], s[v]);
    assert before + s[..v + 1] == before + s[..v] + [s[v]];
  }

  /** solver gives each vertex its position in order, or -1 when order does not hold it. */
  predicate Numbered(solver: seq<int>, order: seq<nat>)
  {
    forall x :: 0 <= x < |solver| ==> solver[x] == if x in order then IndexOf(order, x) else -1
  }

  /** Numbering a vertex that has no number yet gives it the next position and keeps the others. */
  lemma NumberedAppend(solver: seq<int>, order: seq<nat>, vh: nat)
    requires Numbered(solver, order) && vh < |solver| && vh !in order
    ensures Numbered(solver[vh := |order|], order + [vh])
  {
    NumberNewVertex(order, vh);
  }

  /** The inner loop of collect_vertices: the four vertices of one tetrahedron get a solver number when they have none yet. */
  method NumberTetVertices(solver: seq<int>, order: seq<nat>, pts: seq<nat>, ghost before: seq<nat>)
    returns (solver': seq<int>, order': seq<nat>)
    requires |pts| == 4 && forall v :: 0 <= v < 4 ==> pts[v] < |solver|
    requires order == Dedup(before) && Numbered(solver, order)
    ensures |solver'| == |solver| && order' == Dedup(before + pts) && Numbered(solver', order')
  {
    solver', order' := solver, order;
    var v := 0;
    assert before + pts[..0] == before;
    while v < 4
      invariant 0 <= v <= 4 && |solver'| == |solver|
      invariant order' == Dedup(before + pts[..v]) && Numbered(solver', order')
    {
      var vh := pts[v];
      DedupPrefixStep(before, pts, v);
      if solver'[vh] == -1 {
        NumberedAppend(solver', order', vh);
        solver' := solver'[vh := |order'|];
        order' := order' + [vh];
      }
      v := v + 1;
    }
    assert pts[..4] == pts;
  }

  /** Every vertex of the first n tetrahedra is below nVerts. */
  lemma {:induction false} AllVertsBelow(tets: seq<Tet>, n: nat, nVerts: nat)
    requires n <= |tets| && AllPtsOk(tets, nVerts)
    ensures forall x :: x in AllVerts(tets, n) ==> x < nVerts
  {
    if n > 0 {
      AllVertsBelow(tets, n - 1, nVerts);
      assert PtsOk(tets[n - 1], nVerts);
    }
  }

  /**
   * The two vertex mappings are inverse to each other: a numbered mesh vertex is found again
   * at its solver number, and each solver vertex carries its own position as number.
   */
  lemma NumberingRoundTrip(solver: seq<int>, order: seq<nat>)
    requires Numbered(solver, order) && Distinct(order)
    requires forall k :: 0 <= k < |order| ==> order[k] < |solver|
    ensures forall v :: 0 <= v < |solver| && solver[v] != -1 ==> 0 <= solver[v] < |order| && order[solver[v]] == v
    ensures forall k :: 0 <= k < |order| ==> solver[order[k]] == k
  {
    forall k | 0 <= k < |order|
      ensures solver[order[k]] == k
    {
      assert order[k] !in order[..k];
      IndexOfUnique(order, order[k], k);
    }
  }

  /** Appending a new vertex keeps the positions of the others and gives it the last one. */
  lemma NumberNewVertex(order: seq<nat>, vh: nat)
    requires vh !in order
    ensures forall x :: x in order ==> IndexOf(order + [vh], x) == IndexOf(order, x)
    ensures IndexOf(order + [vh], vh) == |order|
  {
    forall x | x in order
      ensures IndexOf(order + [vh], x) == IndexOf(order, x)
    {
      var k := IndexOf(order, x);
      assert (order + [vh])[..k] == order[..k];
      IndexOfUnique(order + [vh], x, k);
    }
    assert (order + [vh])[..|order|] == order;
    IndexOfUnique(order + [vh], vh, |order|);
  }

  /** marked flags exactly the vertices taken. */
  predicate MarkedAs(marked: seq<bool>, taken: seq<nat>)
  {
    forall x :: 0 <= x < |marked| ==> (marked[x] <==> x in taken)
  }

  /** cs lists the solver numbers of the vertices taken, in the same order. */
  predicate Listed(cs: seq<int>, taken: seq<nat>, toSolver: seq<int>)
  {
    |cs| == |taken| && forall k :: 0 <= k < |taken| ==> taken[k] < |toSolver| && cs[k] == toSolver[taken[k]]
  }

  lemma MarkAppend(marked: seq<bool>, taken: seq<nat>, cs: seq<int>, toSolver: seq<int>, vi: nat)
    requires MarkedAs(marked, taken) && Listed(cs, taken, toSolver)
    requires vi < |marked| && vi < |toSolver| && vi !in taken
    ensures MarkedAs(marked[vi := true], taken + [vi]) && Listed(cs + [toSolver[vi]], taken + [vi], toSolver)
  {
  }

  lemma KnownPrefixStep(before: seq<nat>, pts: seq<nat>, unknown: seq<bool>, v: nat)
    requires v < |pts| && forall w :: 0 <= w < |pts| ==> pts[w] < |unknown|
    ensures var d := Dedup(before + KnownPts(pts, unknown, v));
      Dedup(before + KnownPts(pts, unknown, v + 1)) == if unknown[pts[v]] || pts[v] in d then d else d + [pts[v]]
  {
    if !unknown[pts[v]] {
      DedupSnoc(before + KnownPts(pts, unknown, v), pts[v]);
      assert before + KnownPts(pts, unknown, v + 1) == before + KnownPts(pts, unknown, v) + [pts[v]];
    } else {
      assert KnownPts(pts, unknown, v + 1) == KnownPts(pts, unknown, v);
    }
  }

  /** The inner loop of collect_constraints_vertices over the four vertices of one unknown tetrahedron. */
  method MarkTetConstraints(marked: seq<bool>, taken: seq<nat>, cs: seq<int>, pts: seq<nat>,
      unknown: seq<bool>, toSolver: seq<int>, ghost before: seq<nat>)
    returns (marked': seq<bool>, taken': seq<nat>, cs': seq<int>)
    requires |pts| == 4 && forall v :: 0 <= v < 4 ==> pts[v] < |unknown|
    requires |marked| == |unknown| == |toSolver| && taken == Dedup(before)
    requires MarkedAs(marked, taken) && Listed(cs, taken, toSolver)
    ensures |marked'| == |unknown| && taken' == Dedup(before + KnownPts(pts, unknown, 4))
    ensures MarkedAs(marked', taken') && Listed(cs', taken', toSolver)
  {
    marked', taken', cs' := marked, taken, cs;
    var v := 0;
    assert before + KnownPts(pts, unknown, 0) == before;
    while v < 4
      invariant 0 <= v <= 4 && |marked'| == |unknown|
      invariant taken' == Dedup(before + KnownPts(pts, unknown, v))
      invariant MarkedAs(marked', taken') && Listed(cs', taken', toSolver)
    {
      var vi := pts[v];
      KnownPrefixStep(before, pts, unknown, v);
      if !unknown[vi] && !marked'[vi] {
        MarkAppend(marked', taken', cs', toSolver, vi);
        cs' := cs' + [toSolver[vi]];
        taken' := taken' + [vi];
        marked' := marked'[vi := true];
      }
      v := v + 1;
    }
  }

  class CageGreenLRI {
    /** The deformed tetrahedral mesh and its number of vertices. */
    var mesh: seq<Tet>
    var nVerts: nat
    var outlierVertices: seq<bool>
    /** tetInfos[i].cage_inlier */
    var tetInlier: seq<bool>
    /** The solver's tetrahedra, and for each the index it has in the mesh. */
    var tetrahedra: seq<Tet>
    var origIndex: seq<nat>
    /** Positions in `tetrahedra` of the handle and of the unknown tetrahedra. */
    var handleTets: seq<nat>
    var unknownTets: seq<nat>
    var edges: seq<Edge>
    var edgeMap: map<Edge, seq<nat>>
    /** verts_mapping_from_solver_to_mesh and verts_mapping_from_mesh_to_solver. */
    var toMesh: seq<nat>
    var toSolver: seq<int>
    var unknownVertices: seq<bool>
    /** The solver numbers of the constraint vertices. */
    var constraints: seq<int>

    /** The classification loop: a tetrahedron is an inlier until one of its vertices turns out to be an outlier. */
    method ClassifyTets()
      requires MeshOk(mesh, |outlierVertices|)
      modifies this`tetInlier
      ensures |tetInlier| == |mesh|
      ensures forall i :: 0 <= i < |mesh| ==> (tetInlier[i] <==> Inlier(mesh[i], outlierVertices))
    {
      var inlier := seq(|mesh|, _ => false);
      var i := 0;
      while i < |mesh|
        invariant 0 <= i <= |mesh| && |inlier| == |mesh|
        invariant forall k :: 0 <= k < i ==> (inlier[k] <==> Inlier(mesh[k], outlierVertices))
      {
        var pts := mesh[i].pts;
        var ok := true;
        var v := 0;
        // the loop stops at the first outlier vertex
        while v < 4 && ok
          invariant 0 <= v <= 4
          decreases if ok then 5 - v else 0
          invariant ok ==> forall w :: 0 <= w < v ==> !outlierVertices[pts[w]]
          invariant !ok ==> v < 4 && outlierVertices[pts[v]]
        {
          if outlierVertices[pts[v]] {
            ok := false;
          } else {
            v := v + 1;
          }
        }
        inlier := inlier[i := ok];
        i := i + 1;
      }
      tetInlier := inlier;
    }

    /** Whether tetrahedron t has a neighbour that is not an inlier (the loop that stops at the first one). */
    method FindOutlierNeighbour(t: nat) returns (found: bool)
      requires t < |mesh| == |tetInlier| && NbrsOk(mesh[t], |mesh|)
      ensures found <==> HasOutlierNeighbour(mesh, tetInlier, t)
    {
      found := false;
      var j := 0;
      while j < 4 && !found
        invariant 0 <= j <= 4
        decreases if found then 0 else 5 - j
        invariant !found ==> forall w :: 0 <= w < j ==> !(mesh[t].nbrs[w] != -1 && !tetInlier[mesh[t].nbrs[w]])
        invariant found ==> j < 4 && mesh[t].nbrs[j] != -1 && !tetInlier[mesh[t].nbrs[j]]
      {
        var n := mesh[t].nbrs[j];
        if n != -1 && !tetInlier[n] {
          found := true;
        } else {
          j := j + 1;
        }
      }
    }

    /**
     * The selection loop of initializeLRISolver: in mesh order, an unknown tetrahedron and a
     * handle tetrahedron are copied to the solver's list, with their mesh index, and their
     * position there is recorded as unknown or handle; other inliers are skipped.
     */
    method SelectTets()
      requires |tetInlier| == |mesh| && MeshOk(mesh, nVerts)
      modifies this`tetrahedra, this`origIndex, this`handleTets, this`unknownTets
      ensures |tetrahedra| == |origIndex|
      ensures forall k :: 0 <= k < |origIndex| ==> origIndex[k] < |mesh| && tetrahedra[k] == mesh[origIndex[k]]
      ensures forall a, b :: 0 <= a < b < |origIndex| ==> origIndex[a] < origIndex[b]
      ensures forall t :: 0 <= t < |mesh| ==> (t in origIndex <==> Kept(mesh, tetInlier, t))
      ensures forall k :: 0 <= k < |origIndex| ==>
        (k in handleTets <==> tetInlier[origIndex[k]]) && (k in unknownTets <==> !tetInlier[origIndex[k]])
      ensures forall h :: h in handleTets ==> h < |origIndex|
      ensures forall u :: u in unknownTets ==> u < |origIndex|
    {
      var tets: seq<Tet>, orig: seq<nat>, handles: seq<nat>, unknowns: seq<nat> := [], [], [], [];
      var t := 0;
      while t < |mesh|
        invariant 0 <= t <= |mesh|
        invariant SelectedUpTo(mesh, tetInlier, t, tets, orig, handles, unknowns)
      {
        var index := |tets|;
        if tetInlier[t] {
          var found := FindOutlierNeighbour(t);
          SelectStep(mesh, tetInlier, t, tets, orig, handles, unknowns);
          if found {
            handles := handles + [index];
            tets := tets + [mesh[t]];
            orig := orig + [t];
          }
        } else {
          SelectStep(mesh, tetInlier, t, tets, orig, handles, unknowns);
          tets := tets + [mesh[t]];
          unknowns := unknowns + [index];
          orig := orig + [t];
        }
        t := t + 1;
      }
      tetrahedra, origIndex, handleTets, unknownTets := tets, orig, handles, unknowns;
    }

    /** The neighbours of one tetrahedron translated into positions of the solver's list. */
    method RemapTet(t: Tet) returns (r: Tet)
      requires |t.nbrs| == 4
      ensures r.pts == t.pts && |r.nbrs| == 4
      ensures forall j :: 0 <= j < 4 ==> r.nbrs[j] == Remapped(origIndex, t.nbrs[j])
    {
      var nbrs := t.nbrs;
      var j := 0;
      while j < 4
        invariant 0 <= j <= 4 && |nbrs| == 4
        invariant forall w :: 0 <= w < j ==> nbrs[w] == Remapped(origIndex, t.nbrs[w])
        invariant forall w :: j <= w < 4 ==> nbrs[w] == t.nbrs[w]
      {
        var current := nbrs[j];
        if current != -1 {
          if current >= 0 && (current as nat) in origIndex {
            nbrs := nbrs[j := IndexOf(origIndex, current as nat)];
          }
        }
        j := j + 1;
      }
      r := Tet(t.pts, nbrs);
    }

    /**
     * The neighbour remapping: every neighbour index found among the mesh indices of the
     * solver's tetrahedra becomes the position where it was found; the others are kept.
     */
    method RemapNeighbors()
      requires forall i :: 0 <= i < |tetrahedra| ==> |tetrahedra[i].nbrs| == 4
      modifies this`tetrahedra
      ensures |tetrahedra| == |old(tetrahedra)|
      ensures forall i :: 0 <= i < |tetrahedra| ==>
        tetrahedra[i].pts == old(tetrahedra)[i].pts && |tetrahedra[i].nbrs| == 4
        && forall j :: 0 <= j < 4 ==> tetrahedra[i].nbrs[j] == Remapped(origIndex, old(tetrahedra)[i].nbrs[j])
    {
      var tets := tetrahedra;
      var i := 0;
      while i < |tets|
        invariant 0 <= i <= |tets| && |tets| == |old(tetrahedra)|
        invariant forall k :: i <= k < |tets| ==> tets[k] == old(tetrahedra)[k]
        invariant forall k :: 0 <= k < i ==>
          tets[k].pts == old(tetrahedra)[k].pts && |tets[k].nbrs| == 4
          && forall j :: 0 <= j < 4 ==> tets[k].nbrs[j] == Remapped(origIndex, old(tetrahedra)[k].nbrs[j])
      {
        var r := RemapTet(tets[i]);
        tets := tets[i := r];
        i := i + 1;
      }
      tetrahedra := tets;
    }

    /**
     * collect_edges: every vertex pair (v, vn), v < vn, of every solver tetrahedron is kept
     * once, in first-seen order, and the edge map lists under each pair and under the
     * swapped pair the tetrahedra that have it, in order, on top of what it already held.
     */
    method CollectEdges()
      requires FourPts(tetrahedra)
      modifies this`edges, this`edgeMap
      ensures edges == Dedup(AllPairs(tetrahedra, |tetrahedra|))
      ensures forall k :: Get(edgeMap, k) == Get(old(edgeMap), k) + Occ(k, tetrahedra, |tetrahedra|)
      ensures forall k :: k in edgeMap <==> k in old(edgeMap) || Occ(k, tetrahedra, |tetrahedra|) != []
    {
      var es: seq<Edge> := [];
      var em := edgeMap;
      var i := 0;
      while i < |tetrahedra|
        invariant 0 <= i <= |tetrahedra|
        invariant es == Dedup(AllPairs(tetrahedra, i))
        invariant em == AllMap(old(edgeMap), tetrahedra, i)
      {
        es, em := AddTetEdges(es, em, tetrahedra[i], i, AllPairs(tetrahedra, i));
        i := i + 1;
      }
      edges, edgeMap := es, em;
      AllMapKeys(old(edgeMap), tetrahedra, |tetrahedra|);
    }

    /**
     * collect_vertices: the vertices of the solver's tetrahedra are numbered in first-seen
     * order; toMesh lists them by solver number and toSolver gives each mesh vertex its
     * solver number, or -1 when no solver tetrahedron has it.
     */
    method CollectVertices()
      requires AllPtsOk(tetrahedra, |unknownVertices|)
      modifies this`toMesh, this`toSolver
      ensures toMesh == Dedup(AllVerts(tetrahedra, |tetrahedra|))
      ensures |toSolver| == |unknownVertices|
      ensures Numbered(toSolver, toMesh)
      ensures forall k :: 0 <= k < |toMesh| ==> toMesh[k] < |toSolver| && toSolver[toMesh[k]] == k
      ensures forall v :: 0 <= v < |toSolver| && toSolver[v] != -1 ==> 0 <= toSolver[v] < |toMesh| && toMesh[toSolver[v]] == v
    {
      var tets, nVerts := tetrahedra, |unknownVertices|;
      var solver: seq<int> := seq(nVerts, _ => -1);
      var order: seq<nat> := [];
      var i := 0;
      while i < |tets|
        invariant 0 <= i <= |tets| && |solver| == nVerts
        invariant order == Dedup(AllVerts(tets, i)) && Numbered(solver, order)
      {
        assert PtsOk(tets[i], nVerts);
        solver, order := NumberTetVertices(solver, order, tets[i].pts, AllVerts(tets, i));
        assert AllVerts(tets, i + 1) == AllVerts(tets, i) + tets[i].pts;
        i := i + 1;
      }
      DedupProperties(AllVerts(tets, |tets|));
      AllVertsBelow(tets, |tets|, nVerts);
      assert forall k :: 0 <= k < |order| ==> order[k] in AllVerts(tets, |tets|);
      NumberingRoundTrip(solver, order);
      toMesh, toSolver := order, solver;
    }

    /**
     * collect_constraints_vertices: going through the unknown tetrahedra in order, each
     * vertex that is not unknown is taken once, at its first appearance, and its solver
     * number is listed.
     */
    method CollectConstraintsVertices()
      requires AllPtsOk(tetrahedra, |unknownVertices|) && |toSolver| == |unknownVertices|
      requires forall i :: 0 <= i < |unknownTets| ==> unknownTets[i] < |tetrahedra|
      modifies this`constraints
      ensures Listed(constraints, Dedup(Candidates(tetrahedra, unknownTets, unknownVertices, |unknownTets|)), toSolver)
    {
      var marked := seq(|unknownVertices|, _ => false);
      var taken: seq<nat> := [];
      var cs: seq<int> := [];
      var i := 0;
      while i < |unknownTets|
        invariant 0 <= i <= |unknownTets| && |marked| == |unknownVertices|
        invariant taken == Dedup(Candidates(tetrahedra, unknownTets, unknownVertices, i))
        invariant MarkedAs(marked, taken) && Listed(cs, taken, toSolver)
      {
        var pts := tetrahedra[unknownTets[i]].pts;
        assert PtsOk(tetrahedra[unknownTets[i]], |unknownVertices|);
        ghost var before := Candidates(tetrahedra, unknownTets, unknownVertices, i);
        marked, taken, cs := MarkTetConstraints(marked, taken, cs, pts, unknownVertices, toSolver, before);
        assert Candidates(tetrahedra, unknownTets, unknownVertices, i + 1) == before + KnownPts(pts, unknownVertices, 4);
        i := i + 1;
      }
      constraints := cs;
    }
  }
}
