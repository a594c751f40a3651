/**
 * The ARAP mesh-manipulation interface (MMInterface): a mesh, its deformed copy, and one
 * "selected" and one "fixed" flag per vertex. The selection operations update the flag
 * vectors in place; none of them ever leaves a vertex both selected and fixed when no
 * vertex was before.
 *
 * Screen projection and distances are floating-point geometry: the distance of a point to
 * the click is the parameter `distanceTo`, and whether a point projects into the screen
 * rectangle is the parameter `inZone`.
 */
module MeshManipInterface {
  type Point = (real, real, real)

  /** A vertex is never both selected and fixed. */
  predicate Disjoint(selected: seq<bool>, fixed: seq<bool>)
  {
    |selected| == |fixed| && forall i :: 0 <= i < |selected| ==> !(selected[i] && fixed[i])
  }

  /** The last of the constraint positions for each vertex replaces its deformed position. */
  function Overwrite(positions: seq<Point>, defs: seq<(nat, Point)>): (r: seq<Point>)
    requires forall k :: 0 <= k < |defs| ==> defs[k].0 < |positions|
    ensures |r| == |positions|
  {
    if |defs| == 0 then positions
    else
      var last := defs[|defs| - 1];
      Overwrite(positions, defs[..|defs| - 1])[last.0 := last.1]
  }

  /** A vertex no constraint names keeps its position. */
  lemma {:induction false} OverwriteUntouched(positions: seq<Point>, defs: seq<(nat, Point)>, i: nat)
    requires forall k :: 0 <= k < |defs| ==> defs[k].0 < |positions|
    requires i < |positions| && forall k :: 0 <= k < |defs| ==> defs[k].0 != i
    ensures Overwrite(positions, defs)[i] == positions[i]
  {
    if |defs| > 0 {
      OverwriteUntouched(positions, defs[..|defs| - 1], i);
    }
  }

  /** A constrained vertex takes the position of the last constraint that names it. */
  lemma {:induction false} OverwriteLast(positions: seq<Point>, defs: seq<(nat, Point)>, k: nat)
    requires forall j :: 0 <= j < |defs| ==> defs[j].0 < |positions|
    requires k < |defs| && forall j :: k < j < |defs| ==> defs[j].0 != defs[k].0
    ensures Overwrite(positions, defs)[defs[k].0] == defs[k].1
  {
    if k < |defs| - 1 {
      OverwriteLast(positions, defs[..|defs| - 1], k);
    }
  }

  /**
   * The handle vector changedConstraints builds as written: `std::vector<bool> handles(false,
   * n)` takes `false` as the element count and n as the value, so it is always empty.
   */
  function HandlesAsWritten(vertexCount: nat): seq<bool>
  {
    seq(BoolAsCount(false), _ => vertexCount != 0)
  }

  /** A bool converted to std::size_t. */
  function BoolAsCount(b: bool): nat
  {
    if b then 1 else 0
  }

  /**
   * Whatever the vertex count, the vector as built is empty, so the loop's first write
   * handles[defs[0].0] is out of range for any non-empty constraint list, even when that
   * index names a vertex and is in range for the intended vector of vertexCount flags.
   */
  lemma ConstraintHandleOutOfRange(vertexCount: nat, defs: seq<(nat, Point)>)
    ensures |HandlesAsWritten(vertexCount)| == 0
    ensures |defs| > 0 ==> defs[0].0 >= |HandlesAsWritten(vertexCount)|
    ensures |defs| > 0 && defs[0].0 < vertexCount ==>
      defs[0].0 < |seq(vertexCount, _ => false)| && defs[0].0 >= |HandlesAsWritten(vertexCount)|
  {
  }

  class MMInterface {
    var vertices: seq<Point>
    var modifiedVertices: seq<Point>
    var triangles: seq<seq<int>>
    var visuTriangles: seq<seq<int>>
    var visuQuads: seq<seq<int>>
    var selected: seq<bool>
    var fixed: seq<bool>

    /** The flag vectors and the deformed copy have one entry per vertex. */
    predicate Valid()
      reads this
    {
      |selected| == |vertices| && |fixed| == |vertices| && |modifiedVertices| == |vertices|
    }

    constructor ()
      ensures Valid() && vertices == [] && triangles == [] && visuQuads == []
    {
      vertices, modifiedVertices := [], [];
      triangles, visuTriangles, visuQuads := [], [], [];
      selected, fixed := [], [];
    }

    /** clear: every vector emptied. */
    method Clear()
      modifies this
      ensures Valid() && vertices == [] && modifiedVertices == [] && triangles == []
      ensures visuTriangles == [] && visuQuads == [] && selected == [] && fixed == []
    {
      modifiedVertices, vertices, triangles := [], [], [];
      selected, fixed := [], [];
      visuTriangles, visuQuads := [], [];
    }

    /** addFace(v1, v2, v3): one triangle appended. */
    method AddTriangle(v1: int, v2: int, v3: int)
      modifies this`triangles
      ensures triangles == old(triangles) + [[v1, v2, v3]]
    {
      triangles := triangles + [[v1, v2, v3]];
    }

    /** addFace(v1, v2, v3, v4): the triangles (v1, v2, v3) and (v1, v3, v4), and the quad kept for display. */
    method AddQuad(v1: int, v2: int, v3: int, v4: int)
      modifies this`triangles, this`visuQuads
      ensures triangles == old(triangles) + [[v1, v2, v3], [v1, v3, v4]]
      ensures visuQuads == old(visuQuads) + [[v1, v2, v3, v4]]
    {
      AddTriangle(v1, v2, v3);
      AddTriangle(v1, v3, v4);
      visuQuads := visuQuads + [[v1, v2, v3, v4]];
    }

    /** loadAndInitialize: the given mesh, its copy as the deformed mesh, and no vertex flagged. */
    method LoadAndInitialize(points: seq<Point>, tris: seq<(int, int, int)>)
      modifies this
      ensures Valid() && vertices == points && modifiedVertices == points
      ensures forall i :: 0 <= i < |points| ==> !selected[i] && !fixed[i]
      ensures |triangles| == |tris|
      ensures forall t :: 0 <= t < |tris| ==> triangles[t] == [tris[t].0, tris[t].1, tris[t].2]
      ensures visuTriangles == [] && visuQuads == []
    {
      Clear();
      var i := 0;
      while i < |points|
        invariant 0 <= i <= |points|
        invariant vertices == points[..i] && modifiedVertices == points[..i]
        invariant triangles == [] && visuTriangles == [] && visuQuads == []
      {
        vertices := vertices + [points[i]];
        modifiedVertices := modifiedVertices + [points[i]];
        i := i + 1;
      }
      selected := seq(|vertices|, _ => false);
      fixed := seq(|vertices|, _ => false);
      var t := 0;
      while t < |tris|
        invariant 0 <= t <= |tris|
        invariant vertices == points && modifiedVertices == points
        invariant Valid() && forall k :: 0 <= k < |points| ==> !selected[k] && !fixed[k]
        invariant |triangles| == t
        invariant forall k :: 0 <= k < t ==> triangles[k] == [tris[k].0, tris[k].1, tris[k].2]
        invariant visuTriangles == [] && visuQuads == []
      {
        AddTriangle(tris[t].0, tris[t].1, tris[t].2);
        t := t + 1;
      }
    }

    /** get_handles_vertices: a vertex is a handle when it is fixed or selected. */
    method GetHandlesVertices() returns (handles: seq<bool>)
      requires Valid()
      ensures |handles| == |vertices|
      ensures forall i :: 0 <= i < |vertices| ==> (handles[i] <==> fixed[i] || selected[i])
    {
      handles := seq(|vertices|, _ => false);
      var i := 0;
      while i < |vertices|
        invariant 0 <= i <= |vertices| && |handles| == |vertices|
        invariant forall k :: 0 <= k < i ==> (handles[k] <==> fixed[k] || selected[k])
        invariant forall k :: i <= k < |vertices| ==> !handles[k]
      {
        if fixed[i] || selected[i] {
          handles := handles[i := true];
        }
        i := i + 1;
      }
    }

    /** make_selected_fixed_handles: the selected vertices become fixed and nothing stays selected. */
    method MakeSelectedFixedHandles()
      requires Valid()
      modifies this`selected, this`fixed
      ensures Valid() && Disjoint(selected, fixed)
      ensures forall i :: 0 <= i < |vertices| ==> !selected[i] && (fixed[i] <==> old(fixed[i]) || old(selected[i]))
    {
      var i := 0;
      while i < |vertices|
        invariant 0 <= i <= |vertices| && Valid()
        invariant forall k :: 0 <= k < i ==> !selected[k] && (fixed[k] <==> old(fixed[k]) || old(selected[k]))
        invariant forall k :: i <= k < |vertices| ==> selected[k] == old(selected[k]) && fixed[k] == old(fixed[k])
      {
        if selected[i] {
          fixed := fixed[i := true];
          selected := selected[i := false];
        }
        i := i + 1;
      }
    }

    /**
     * index_of_closest_point_in_sphere: -1 when no deformed vertex lies within the radius,
     * otherwise the first of the nearest ones.
     */
    method IndexOfClosestPointInSphere(distanceTo: Point -> real, radius: real) returns (result: int)
      ensures result == -1 <==> forall v :: 0 <= v < |modifiedVertices| ==> distanceTo(modifiedVertices[v]) > radius
      ensures result != -1 ==> 0 <= result < |modifiedVertices| && distanceTo(modifiedVertices[result]) <= radius
      ensures result != -1 ==> forall v :: 0 <= v < |modifiedVertices| && distanceTo(modifiedVertices[v]) <= radius ==>
        distanceTo(modifiedVertices[result]) <= distanceTo(modifiedVertices[v])
      ensures result != -1 ==> forall v :: 0 <= v < result ==>
        distanceTo(modifiedVertices[result]) < distanceTo(modifiedVertices[v])
    {
      result := -1;
      var minDist := 0.0;
      var v := 0;
      while v < |modifiedVertices|
        invariant 0 <= v <= |modifiedVertices|
        invariant result == -1 <==> forall u :: 0 <= u < v ==> distanceTo(modifiedVertices[u]) > radius
        invariant result != -1 ==> 0 <= result < v && minDist == distanceTo(modifiedVertices[result]) && minDist <= radius
        invariant result != -1 ==> forall u :: 0 <= u < v && distanceTo(modifiedVertices[u]) <= radius ==>
          minDist <= distanceTo(modifiedVertices[u])
        invariant result != -1 ==> forall u :: 0 <= u < result ==> minDist < distanceTo(modifiedVertices[u])
      {
        var dist := distanceTo(modifiedVertices[v]);
        if dist <= radius && (result == -1 || dist < minDist) {
          result := v;
          minDist := dist;
        }
        v := v + 1;
      }
    }

    /** select(point): the nearest vertex within the radius has its selection toggled and is unfixed. */
    method SelectNearest(distanceTo: Point -> real, radius: real) returns (v: int)
      requires Valid()
      modifies this`selected, this`fixed
      ensures Valid()
      ensures v == -1 ==> selected == old(selected) && fixed == old(fixed)
      ensures v != -1 ==> 0 <= v < |vertices| && selected == old(selected)[v := !old(selected)[v]]
                          && fixed == old(fixed)[v := false]
      ensures old(Disjoint(selected, fixed)) ==> Disjoint(selected, fixed)
    {
      v := IndexOfClosestPointInSphere(distanceTo, radius);
      if v >= 0 {
        selected := selected[v := !selected[v]];
        fixed := fixed[v := false];
      }
    }

    /** make_fixed_handles(point): the nearest vertex within the radius has its fixed flag toggled and is selected iff it was fixed. */
    method MakeFixedNearest(distanceTo: Point -> real, radius: real) returns (v: int)
      requires Valid()
      modifies this`selected, this`fixed
      ensures Valid()
      ensures v == -1 ==> selected == old(selected) && fixed == old(fixed)
      ensures v != -1 ==> 0 <= v < |vertices| && fixed == old(fixed)[v := !old(fixed)[v]]
                          && selected == old(selected)[v := old(fixed)[v]]
      ensures old(Disjoint(selected, fixed)) ==> Disjoint(selected, fixed)
    {
      v := IndexOfClosestPointInSphere(distanceTo, radius);
      if v >= 0 {
        var wasFixed := fixed[v];
        fixed := fixed[v := !wasFixed];
        selected := selected[v := wasFixed];
      }
    }

    /** select(zone): every deformed vertex inside the zone becomes moving (selected) or fixed. */
    method SelectInZone(inZone: Point -> bool, moving: bool)
      requires Valid()
      modifies this`selected, this`fixed
      ensures Valid()
      ensures forall v :: 0 <= v < |vertices| ==>
        if inZone(modifiedVertices[v]) then selected[v] == moving && fixed[v] == !moving
        else selected[v] == old(selected[v]) && fixed[v] == old(fixed[v])
      ensures old(Disjoint(selected, fixed)) ==> Disjoint(selected, fixed)
    {
      var v := 0;
      while v < |modifiedVertices|
        invariant 0 <= v <= |modifiedVertices| && Valid()
        invariant forall u :: 0 <= u < v ==>
          if inZone(modifiedVertices[u]) then selected[u] == moving && fixed[u] == !moving
          else selected[u] == old(selected[u]) && fixed[u] == old(fixed[u])
        invariant forall u :: v <= u < |vertices| ==> selected[u] == old(selected[u]) && fixed[u] == old(fixed[u])
      {
        if inZone(modifiedVertices[v]) {
          selected := selected[v := moving];
          fixed := fixed[v := !moving];
        }
        v := v + 1;
      }
    }

    /** unselect(zone): every deformed vertex inside the zone loses both flags. */
    method UnselectInZone(inZone: Point -> bool)
      requires Valid()
      modifies this`selected, this`fixed
      ensures Valid()
      ensures forall v :: 0 <= v < |vertices| ==>
        if inZone(modifiedVertices[v]) then !selected[v] && !fixed[v]
        else selected[v] == old(selected[v]) && fixed[v] == old(fixed[v])
    {
      var v := 0;
      while v < |modifiedVertices|
        invariant 0 <= v <= |modifiedVertices| && Valid()
        invariant forall u :: 0 <= u < v ==>
          if inZone(modifiedVertices[u]) then !selected[u] && !fixed[u]
          else selected[u] == old(selected[u]) && fixed[u] == old(fixed[u])
        invariant forall u :: v <= u < |vertices| ==> selected[u] == old(selected[u]) && fixed[u] == old(fixed[u])
      {
        if inZone(modifiedVertices[v]) {
          selected := selected[v := false];
          fixed := fixed[v := false];
        }
        v := v + 1;
      }
    }

    /** clear_selection: no vertex selected or fixed. */
    method ClearSelection()
      requires Valid()
      modifies this`selected, this`fixed
      ensures Valid() && forall v :: 0 <= v < |vertices| ==> !selected[v] && !fixed[v]
    {
      var v := 0;
      while v < |selected|
        invariant 0 <= v <= |selected| && Valid()
        invariant forall u :: 0 <= u < v ==> !selected[u] && !fixed[u]
      {
        selected := selected[v := false];
        fixed := fixed[v := false];
        v := v + 1;
      }
    }

    /** select_all: every vertex that is not fixed becomes selected. */
    method SelectAll()
      requires Valid()
      modifies this`selected
      ensures Valid()
      ensures forall v :: 0 <= v < |vertices| ==> (selected[v] <==> old(selected[v]) || !fixed[v])
      ensures old(Disjoint(selected, fixed)) ==> Disjoint(selected, fixed)
    {
      var v := 0;
      while v < |selected|
        invariant 0 <= v <= |selected| && Valid()
        invariant forall u :: 0 <= u < v ==> (selected[u] <==> old(selected[u]) || !fixed[u])
        invariant forall u :: v <= u < |selected| ==> selected[u] == old(selected[u])
      {
        if !fixed[v] {
          selected := selected[v := true];
        }
        v := v + 1;
      }
    }

    /** unselect_all: no vertex selected. */
    method UnselectAll()
      requires Valid()
      modifies this`selected
      ensures Valid() && forall v :: 0 <= v < |vertices| ==> !selected[v]
    {
      var v := 0;
      while v < |selected|
        invariant 0 <= v <= |selected| && Valid()
        invariant forall u :: 0 <= u < v ==> !selected[u]
      {
        selected := selected[v := false];
        v := v + 1;
      }
    }

    /** fixe_all: every vertex that is not selected becomes fixed. */
    method FixeAll()
      requires Valid()
      modifies this`fixed
      ensures Valid()
      ensures forall v :: 0 <= v < |vertices| ==> (fixed[v] <==> old(fixed[v]) || !selected[v])
      ensures old(Disjoint(selected, fixed)) ==> Disjoint(selected, fixed)
    {
      var v := 0;
      while v < |selected|
        invariant 0 <= v <= |selected| && Valid()
        invariant forall u :: 0 <= u < v ==> (fixed[u] <==> old(fixed[u]) || !selected[u])
        invariant forall u :: v <= u < |selected| ==> fixed[u] == old(fixed[u])
      {
        if !selected[v] {
          fixed := fixed[v := true];
        }
        v := v + 1;
      }
    }

    /** unfixe_all: no vertex fixed. */
    method UnfixeAll()
      requires Valid()
      modifies this`fixed
      ensures Valid() && forall v :: 0 <= v < |vertices| ==> !fixed[v]
    {
      var v := 0;
      while v < |fixed|
        invariant 0 <= v <= |fixed| && Valid()
        invariant forall u :: 0 <= u < v ==> !fixed[u]
      {
        fixed := fixed[v := false];
        v := v + 1;
      }
    }

    /** setToPosition: the deformed mesh takes the given positions, unless their count differs. */
    method SetToPosition(points: seq<Point>)
      modifies this`modifiedVertices
      ensures |points| != |old(modifiedVertices)| ==> modifiedVertices == old(modifiedVertices)
      ensures |points| == |old(modifiedVertices)| ==> modifiedVertices == points
    {
      if |modifiedVertices| != |points| {
        return;
      }
      var i := 0;
      while i < |points|
        invariant 0 <= i <= |points| && |modifiedVertices| == |points|
        invariant modifiedVertices[..i] == points[..i]
      {
        modifiedVertices := modifiedVertices[i := points[i]];
        i := i + 1;
      }
      assert modifiedVertices[..|points|] == points[..|points|];
    }

    /**
     * changedConstraints, with the handle vector sized by the vertex count: every constraint
     * moves its vertex, and exactly the constrained vertices are handles.
     */
    method ChangedConstraints(defs: seq<(nat, Point)>) returns (handles: seq<bool>)
      requires Valid()
      requires forall k :: 0 <= k < |defs| ==> defs[k].0 < |vertices|
      modifies this`modifiedVertices
      ensures Valid()
      ensures modifiedVertices == Overwrite(old(modifiedVertices), defs)
      ensures |handles| == |vertices|
      ensures forall i :: 0 <= i < |vertices| ==> (handles[i] <==> exists k :: 0 <= k < |defs| && defs[k].0 == i)
    {
      handles := seq(|vertices|, _ => false);
      var k := 0;
      while k < |defs|
        invariant 0 <= k <= |defs| && |handles| == |vertices| && Valid()
        invariant modifiedVertices == Overwrite(old(modifiedVertices), defs[..k])
        invariant forall i :: 0 <= i < |vertices| ==> (handles[i] <==> exists j :: 0 <= j < k && defs[j].0 == i)
      {
        assert defs[..k + 1][..k] == defs[..k];
        modifiedVertices := modifiedVertices[defs[k].0 := defs[k].1];
        handles := handles[defs[k].0 := true];
        k := k + 1;
      }
      assert defs[..|defs|] == defs;
    }
  }
}
