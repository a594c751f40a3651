/**
 * The grid viewer's mesh manipulators (direct, ARAP, slice and marker): per-vertex
 * selection flags, the mode that says what a rectangle selection does to them, the
 * history entry recorded when a drag modified the mesh, and the marker tool's two-step
 * state machine with its list of (mesh vertex, marker) associations.
 *
 * The mesh itself (moving points, the ARAP solve, the undo history's contents), the
 * rotation guizmo and all drawing are outside the model; the number of history entries
 * recorded is kept as a counter. Floating-point geometry reaches the model as parameters.
 */
module MeshManipulators {
  type Point = (real, real, real)

  /** The history entries the mesh has recorded (addStateToHistory calls). */
  function RecordIfModified(history: nat, modified: bool): (h: nat)
    ensures h == history + (if modified then 1 else 0)
  {
    if modified then history + 1 else history
  }

  // ---------------------------------------------------------------------------------
  // DirectManipulator

  class DirectManipulator {
    var selectedManipulators: seq<bool>
    var meshIsModified: bool
    var historyLength: nat

    /** selectManipulator: the manipulator's own flag is raised, and no other changes. */
    method SelectManipulator(index: nat)
      requires index < |selectedManipulators|
      modifies this`selectedManipulators
      ensures selectedManipulators == old(selectedManipulators)[index := true]
    {
      if !selectedManipulators[index] {
        selectedManipulators := selectedManipulators[index := true];
      }
    }

    /** deselectManipulator: every flag is lowered, whichever manipulator was released. */
    method DeselectManipulator()
      modifies this`selectedManipulators
      ensures |selectedManipulators| == |old(selectedManipulators)|
      ensures forall i :: 0 <= i < |selectedManipulators| ==> !selectedManipulators[i]
    {
      var i := 0;
      while i < |selectedManipulators|
        invariant 0 <= i <= |selectedManipulators| == |old(selectedManipulators)|
        invariant forall k :: 0 <= k < i ==> !selectedManipulators[k]
      {
        selectedManipulators := selectedManipulators[i := false];
        i := i + 1;
      }
    }

    /** moveManipulator: the mesh point follows (not modelled) and the mesh is marked modified. */
    method MoveManipulator()
      modifies this`meshIsModified
      ensures meshIsModified
    {
      meshIsModified := true;
    }

    /** mouseReleased: a modified mesh records one history entry, then the flag resets. */
    method MouseReleased()
      modifies this`meshIsModified, this`historyLength
      ensures !meshIsModified
      ensures historyLength == RecordIfModified(old(historyLength), old(meshIsModified))
    {
      if meshIsModified {
        historyLength := historyLength + 1;
        meshIsModified := false;
      }
    }
  }

  /** A move followed by two releases records exactly one history entry. */
  method ReleaseRecordsOnce(d: DirectManipulator)
    modifies d
    ensures d.historyLength == old(d.historyLength) + 1 && !d.meshIsModified
  {
    d.MoveManipulator();
    d.MouseReleased();
    d.MouseReleased();
  }

  // ---------------------------------------------------------------------------------
  // ARAPManipulator

  datatype SelectionMode = Inactive | Active | AddFixed | AddMoving | Remove

  /** What a rectangle selection does to one vertex's (selected, fixed) flags. */
  function ModeEffect(mode: SelectionMode, inSelection: bool, flags: (bool, bool)): (r: (bool, bool))
  {
    if !inSelection then flags
    else match mode
      case AddMoving => (true, false)
      case AddFixed => (false, true)
      case Remove => (false, false)
      case _ => flags
  }

  /** No vertex is both selected (moving) and fixed. */
  predicate Disjoint(selected: seq<bool>, fixed: seq<bool>)
  {
    |selected| == |fixed| && forall i :: 0 <= i < |selected| ==> !(selected[i] && fixed[i])
  }

  /** A handle is a vertex that is fixed or selected. */
  function Handles(selected: seq<bool>, fixed: seq<bool>): (h: seq<bool>)
    requires |selected| == |fixed|
    ensures |h| == |selected|
  {
    seq(|selected|, i requires 0 <= i < |selected| => fixed[i] || selected[i])
  }

  /** Every mode keeps a vertex from being both moving and fixed, and a vertex caught by ADD_MOVING or ADD_FIXED becomes a handle. */
  lemma ModeEffectKeepsDisjoint(mode: SelectionMode, inSelection: bool, flags: (bool, bool))
    requires !(flags.0 && flags.1)
    ensures var r := ModeEffect(mode, inSelection, flags);
      !(r.0 && r.1)
      && (inSelection && (mode == AddMoving || mode == AddFixed) ==> r.0 || r.1)
      && (inSelection && mode == Remove ==> !r.0 && !r.1)
      && (!inSelection ==> r == flags)
  {
  }

  /** The buttons a press can carry. */
  datatype Button = LeftButton | RightButton | MidButton | OtherButton

  /** The mode a shift-press selects: ctrl removes, alt fixes, plain left moves, right ends the selection. */
  function PressMode(button: Button, ctrl: bool, alt: bool, mode: SelectionMode): (m: SelectionMode)
    ensures button == LeftButton && ctrl ==> m == Remove
    ensures button == LeftButton && !ctrl && alt ==> m == AddFixed
    ensures button == LeftButton && !ctrl && !alt ==> m == AddMoving
    ensures button == RightButton ==> m == Inactive
    ensures button == MidButton || button == OtherButton ==> m == mode
  {
    if button == LeftButton && ctrl then Remove
    else if button == LeftButton && alt then AddFixed
    else if button == LeftButton then AddMoving
    else if button == RightButton then Inactive
    else mode
  }

  /** The first manipulator at grabbing range, or -1. */
  method FirstAtRange(atRange: seq<bool>) returns (idx: int)
    ensures -1 <= idx < |atRange|
    ensures idx == -1 <==> forall i :: 0 <= i < |atRange| ==> !atRange[i]
    ensures idx >= 0 ==> atRange[idx] && forall i :: 0 <= i < idx ==> !atRange[i]
  {
    idx := -1;
    var i := 0;
    while i < |atRange|
      invariant 0 <= i <= |atRange|
      invariant forall k :: 0 <= k < i ==> !atRange[k]
    {
      if atRange[i] {
        idx := i;
        break;
      }
      i := i + 1;
    }
  }

  class ARAPManipulator {
    var selectedVertices: seq<bool>
    var fixedVertices: seq<bool>
    var atRangeForGrab: seq<bool>
    var selectionMode: SelectionMode
    var meshIsModified: bool
    var historyLength: nat

    predicate Valid()
      reads this
    {
      |selectedVertices| == |fixedVertices| == |atRangeForGrab|
    }

    /** A new manipulator: one unselected, unfixed vertex flag per mesh vertex, selection inactive. */
    constructor (vertexCount: nat)
      ensures Valid() && |selectedVertices| == vertexCount && selectionMode == Inactive
      ensures forall i :: 0 <= i < vertexCount ==> !selectedVertices[i] && !fixedVertices[i] && !atRangeForGrab[i]
      ensures !meshIsModified
    {
      selectedVertices := seq(vertexCount, _ => false);
      fixedVertices := seq(vertexCount, _ => false);
      atRangeForGrab := seq(vertexCount, _ => false);
      selectionMode := Inactive;
      meshIsModified := false;
      historyLength := 0;
    }

    /**
     * updateSelection: every vertex inside the rectangle (`inSelection`, one answer per
     * vertex position) gets the flags of the current mode; the others keep theirs.
     */
    method UpdateSelection(inSelection: seq<bool>)
      requires Valid() && |inSelection| <= |selectedVertices|
      modifies this`selectedVertices, this`fixedVertices
      ensures Valid()
      ensures |selectedVertices| == |old(selectedVertices)|
      ensures forall i :: 0 <= i < |selectedVertices| ==>
        (selectedVertices[i], fixedVertices[i]) ==
        ModeEffect(selectionMode, i < |inSelection| && inSelection[i], (old(selectedVertices)[i], old(fixedVertices)[i]))
      ensures old(Disjoint(selectedVertices, fixedVertices)) ==> Disjoint(selectedVertices, fixedVertices)
    {
      var i := 0;
      while i < |inSelection|
        invariant 0 <= i <= |inSelection|
        invariant |selectedVertices| == |fixedVertices| == |old(selectedVertices)|
        invariant forall k :: 0 <= k < |selectedVertices| ==>
          (selectedVertices[k], fixedVertices[k]) ==
          ModeEffect(selectionMode, k < i && inSelection[k], (old(selectedVertices)[k], old(fixedVertices)[k]))
      {
        if inSelection[i] {
          if selectionMode == AddMoving {
            selectedVertices := selectedVertices[i := true];
            fixedVertices := fixedVertices[i := false];
          } else if selectionMode == AddFixed {
            selectedVertices := selectedVertices[i := false];
            fixedVertices := fixedVertices[i := true];
          } else if selectionMode == Remove {
            selectedVertices := selectedVertices[i := false];
            fixedVertices := fixedVertices[i := false];
          }
        }
        i := i + 1;
      }
      if old(Disjoint(selectedVertices, fixedVertices)) {
        forall k | 0 <= k < |selectedVertices|
          ensures !(selectedVertices[k] && fixedVertices[k])
        {
          ModeEffectKeepsDisjoint(selectionMode, k < |inSelection| && inSelection[k],
                                  (old(selectedVertices)[k], old(fixedVertices)[k]));
        }
      }
    }

    /** getHandles: one flag per vertex, set exactly for the fixed or selected ones. */
    method GetHandles() returns (handles: seq<bool>)
      requires Valid()
      ensures handles == Handles(selectedVertices, fixedVertices)
    {
      handles := seq(|selectedVertices|, _ => false);
      var i := 0;
      while i < |selectedVertices|
        invariant 0 <= i <= |selectedVertices| == |handles|
        invariant forall k :: 0 <= k < i ==> handles[k] == (fixedVertices[k] || selectedVertices[k])
        invariant forall k :: i <= k < |handles| ==> !handles[k]
      {
        if fixedVertices[i] || selectedVertices[i] {
          handles := handles[i := true];
        }
        i := i + 1;
      }
    }

    /**
     * makeSelecteFixedHandles: every selected vertex becomes fixed and unselected; the
     * handles stay the same vertices.
     */
    method MakeSelecteFixedHandles()
      requires Valid()
      modifies this`selectedVertices, this`fixedVertices
      ensures Valid() && |selectedVertices| == |old(selectedVertices)|
      ensures forall i :: 0 <= i < |selectedVertices| ==>
        !selectedVertices[i] && fixedVertices[i] == (old(fixedVertices)[i] || old(selectedVertices)[i])
      ensures Handles(selectedVertices, fixedVertices) == old(Handles(selectedVertices, fixedVertices))
      ensures Disjoint(selectedVertices, fixedVertices)
    {
      var i := 0;
      while i < |selectedVertices|
        invariant 0 <= i <= |selectedVertices| == |fixedVertices| == |old(selectedVertices)|
        invariant forall k :: 0 <= k < i ==>
          !selectedVertices[k] && fixedVertices[k] == (old(fixedVertices)[k] || old(selectedVertices)[k])
        invariant forall k :: i <= k < |selectedVertices| ==>
          selectedVertices[k] == old(selectedVertices)[k] && fixedVertices[k] == old(fixedVertices)[k]
      {
        if selectedVertices[i] {
          fixedVertices := fixedVertices[i := true];
          selectedVertices := selectedVertices[i := false];
        }
        i := i + 1;
      }
    }

    /**
     * mousePressed: with shift the button picks the selection mode (the press is then
     * passed to the selection tool); with ctrl, the middle button turns the selection into
     * fixed handles, and the left (right) button fixes (selects) the first manipulator at
     * grabbing range, if any.
     */
    method MousePressed(button: Button, shift: bool, ctrl: bool, alt: bool)
      requires Valid()
      modifies this`selectionMode, this`selectedVertices, this`fixedVertices
      ensures Valid() && |selectedVertices| == |old(selectedVertices)|
      ensures shift ==>
        (selectionMode == PressMode(button, ctrl, alt, old(selectionMode))
         && selectedVertices == old(selectedVertices) && fixedVertices == old(fixedVertices))
      ensures !shift ==> selectionMode == old(selectionMode)
      ensures !shift && !ctrl ==> selectedVertices == old(selectedVertices) && fixedVertices == old(fixedVertices)
      ensures !shift && ctrl && button == MidButton ==>
        (forall i :: 0 <= i < |selectedVertices| ==>
           !selectedVertices[i] && fixedVertices[i] == (old(fixedVertices)[i] || old(selectedVertices)[i]))
        && Handles(selectedVertices, fixedVertices) == old(Handles(selectedVertices, fixedVertices))
        && Disjoint(selectedVertices, fixedVertices)
      ensures !shift && ctrl && (button == LeftButton || button == RightButton) ==>
        ((forall i :: 0 <= i < |atRangeForGrab| ==> !atRangeForGrab[i]) ==>
           selectedVertices == old(selectedVertices) && fixedVertices == old(fixedVertices))
        && (forall k :: 0 <= k < |atRangeForGrab| && atRangeForGrab[k] && (forall i :: 0 <= i < k ==> !atRangeForGrab[i]) ==>
              fixedVertices == old(fixedVertices)[k := button == LeftButton]
              && selectedVertices == old(selectedVertices)[k := button == RightButton])
      ensures !shift && ctrl && button != MidButton && button != LeftButton && button != RightButton ==>
        selectedVertices == old(selectedVertices) && fixedVertices == old(fixedVertices)
    {
      if shift {
        selectionMode := PressMode(button, ctrl, alt, selectionMode);
        return;
      }
      if ctrl {
        if button == MidButton {
          MakeSelecteFixedHandles();
          return;
        }
        var idx := FirstAtRange(atRangeForGrab);
        if idx == -1 {
          return;
        }
        if button == LeftButton {
          fixedVertices := fixedVertices[idx := true];
          selectedVertices := selectedVertices[idx := false];
        } else if button == RightButton {
          fixedVertices := fixedVertices[idx := false];
          selectedVertices := selectedVertices[idx := true];
        }
      }
    }

    /**
     * mouseReleased: a modified mesh records one history entry and the flag resets; an
     * active selection (any mode but INACTIVE) goes back to ACTIVE.
     */
    method MouseReleased()
      modifies this`meshIsModified, this`historyLength, this`selectionMode
      ensures !meshIsModified
      ensures historyLength == RecordIfModified(old(historyLength), old(meshIsModified))
      ensures selectionMode == (if old(selectionMode) == Inactive then Inactive else Active)
    {
      if meshIsModified {
        historyLength := historyLength + 1;
        meshIsModified := false;
      }
      if selectionMode == Inactive {
        return;
      }
      selectionMode := Active;
    }
  }

  /** Fixing the selection does not change which vertices the deformation holds. */
  lemma MakeFixedKeepsHandles(selected: seq<bool>, fixed: seq<bool>)
    requires |selected| == |fixed|
    ensures var fixed' := seq(|fixed|, i requires 0 <= i < |fixed| => fixed[i] || selected[i]);
      Handles(seq(|selected|, _ => false), fixed') == Handles(selected, fixed)
  {
  }

  // ---------------------------------------------------------------------------------
  // SliceManipulator

  function Coord(p: Point, axis: nat): real
    requires axis < 3
  {
    if axis == 0 then p.0 else if axis == 1 then p.1 else p.2
  }

  datatype SliceOrientation = X | Y | Z

  class SliceManipulator {
    var selectedVertices: seq<bool>
    var fixedVertices: seq<bool>
    var slicesPositions: Point
    var lastModifiedSlice: nat
    var currentSelectedSlice: SliceOrientation
    var selectionRadius: real
    var selectionRange: real
    var meshIsModified: bool
    var historyLength: nat

    predicate Valid()
      reads this
    {
      |selectedVertices| == |fixedVertices| && lastModifiedSlice < 3
    }

    /**
     * selectSlice: both flag vectors are cleared, then a vertex is selected when its distance
     * `dist(i, j)` to the slice plane of axis j is below the selection radius, and fixed when
     * it is at least the selection range, for the axes j = 0 and 1 (the loop's bound). The
     * orientation argument is not used by the computation.
     */
    method SelectSlice(orientation: SliceOrientation, dist: (nat, nat) -> real)
      requires Valid()
      modifies this`selectedVertices, this`fixedVertices
      ensures Valid() && |selectedVertices| == |old(selectedVertices)|
      ensures forall i :: 0 <= i < |selectedVertices| ==>
        (selectedVertices[i] <==> dist(i, 0) < selectionRadius || dist(i, 1) < selectionRadius)
        && (fixedVertices[i] <==> dist(i, 0) >= selectionRange || dist(i, 1) >= selectionRange)
    {
      var n := |selectedVertices|;
      selectedVertices := seq(n, _ => false);
      fixedVertices := seq(n, _ => false);
      var i := 0;
      while i < n
        invariant 0 <= i <= n == |selectedVertices| == |fixedVertices|
        invariant forall k :: 0 <= k < i ==>
          (selectedVertices[k] <==> dist(k, 0) < selectionRadius || dist(k, 1) < selectionRadius)
          && (fixedVertices[k] <==> dist(k, 0) >= selectionRange || dist(k, 1) >= selectionRange)
        invariant forall k :: i <= k < n ==> !selectedVertices[k] && !fixedVertices[k]
      {
        FlagVertex(i, dist);
        i := i + 1;
      }
    }

    /** The two-axis inner loop of selectSlice for vertex i, whose flags start lowered. */
    method FlagVertex(i: nat, dist: (nat, nat) -> real)
      requires i < |selectedVertices| == |fixedVertices|
      requires !selectedVertices[i] && !fixedVertices[i]
      modifies this`selectedVertices, this`fixedVertices
      ensures selectedVertices == old(selectedVertices)[i := dist(i, 0) < selectionRadius || dist(i, 1) < selectionRadius]
      ensures fixedVertices == old(fixedVertices)[i := dist(i, 0) >= selectionRange || dist(i, 1) >= selectionRange]
    {
      var j := 0;
      while j < 2
        invariant 0 <= j <= 2
        invariant selectedVertices ==
          old(selectedVertices)[i := (j > 0 && dist(i, 0) < selectionRadius) || (j > 1 && dist(i, 1) < selectionRadius)]
        invariant fixedVertices ==
          old(fixedVertices)[i := (j > 0 && dist(i, 0) >= selectionRange) || (j > 1 && dist(i, 1) >= selectionRange)]
      {
        if dist(i, j) < selectionRadius {
          selectedVertices := selectedVertices[i := true];
        }
        if dist(i, j) >= selectionRange {
          fixedVertices := fixedVertices[i := true];
        }
        j := j + 1;
      }
    }

    /** updateSliceToSelect: remember the orientation and recompute the flags. */
    method UpdateSliceToSelect(orientation: SliceOrientation, dist: (nat, nat) -> real)
      requires Valid()
      modifies this`currentSelectedSlice, this`selectedVertices, this`fixedVertices
      ensures Valid() && currentSelectedSlice == orientation && |selectedVertices| == |old(selectedVertices)|
      ensures forall i :: 0 <= i < |selectedVertices| ==>
        (selectedVertices[i] <==> dist(i, 0) < selectionRadius || dist(i, 1) < selectionRadius)
        && (fixedVertices[i] <==> dist(i, 0) >= selectionRange || dist(i, 1) >= selectionRange)
    {
      currentSelectedSlice := orientation;
      SelectSlice(currentSelectedSlice, dist);
    }

    /**
     * movePlanes: the last modified slice becomes the highest axis whose plane moved (it
     * is kept when none moved), the planes take their new positions and the flags are
     * recomputed against them (`dist`).
     */
    method MovePlanes(planesPosition: Point, dist: (nat, nat) -> real)
      requires Valid()
      modifies this`lastModifiedSlice, this`slicesPositions, this`selectedVertices, this`fixedVertices
      ensures Valid() && slicesPositions == planesPosition
      ensures planesPosition == old(slicesPositions) ==> lastModifiedSlice == old(lastModifiedSlice)
      ensures planesPosition != old(slicesPositions) ==>
        Coord(planesPosition, lastModifiedSlice) != Coord(old(slicesPositions), lastModifiedSlice)
      ensures forall a :: lastModifiedSlice < a < 3 ==> Coord(planesPosition, a) == Coord(old(slicesPositions), a)
      ensures |selectedVertices| == |old(selectedVertices)|
      ensures forall i :: 0 <= i < |selectedVertices| ==>
        (selectedVertices[i] <==> dist(i, 0) < selectionRadius || dist(i, 1) < selectionRadius)
        && (fixedVertices[i] <==> dist(i, 0) >= selectionRange || dist(i, 1) >= selectionRange)
    {
      var a := 0;
      var moved := false;
      while a < 3
        invariant 0 <= a <= 3 && lastModifiedSlice < 3
        invariant slicesPositions == old(slicesPositions)
        invariant selectedVertices == old(selectedVertices) && fixedVertices == old(fixedVertices)
        invariant !moved ==> lastModifiedSlice == old(lastModifiedSlice)
        invariant moved ==>
          (lastModifiedSlice < a
           && Coord(planesPosition, lastModifiedSlice) != Coord(slicesPositions, lastModifiedSlice)
           && forall b :: lastModifiedSlice < b < a ==> Coord(planesPosition, b) == Coord(slicesPositions, b))
        invariant !moved ==> forall b :: 0 <= b < a ==> Coord(planesPosition, b) == Coord(slicesPositions, b)
      {
        if Coord(planesPosition, a) - Coord(slicesPositions, a) != 0.0 {
          lastModifiedSlice := a;
          moved := true;
        }
        a := a + 1;
      }
      if !moved {
        assert planesPosition == slicesPositions by {
          assert Coord(planesPosition, 0) == Coord(slicesPositions, 0);
          assert Coord(planesPosition, 1) == Coord(slicesPositions, 1);
          assert Coord(planesPosition, 2) == Coord(slicesPositions, 2);
        }
      }
      slicesPositions := planesPosition;
      SelectSlice(currentSelectedSlice, dist);
    }

    /** mouseReleased: a modified mesh records one history entry, then the flag resets. */
    method MouseReleased()
      modifies this`meshIsModified, this`historyLength
      ensures !meshIsModified
      ensures historyLength == RecordIfModified(old(historyLength), old(meshIsModified))
    {
      if meshIsModified {
        historyLength := historyLength + 1;
        meshIsModified := false;
      }
    }
  }

  // ---------------------------------------------------------------------------------
  // MarkerManipulator

  datatype Step = SelectVerticeOnMesh | PlaceMarker

  /** An association: a mesh vertex and the index of its marker (-1 while the marker is being placed). */
  type Link = (int, int)

  function RemoveAt<T>(s: seq<T>, k: nat): (r: seq<T>)
    requires k < |s|
    ensures |r| == |s| - 1
  {
    s[..k] + s[k + 1..]
  }

  lemma RemoveAtIndex<T>(s: seq<T>, k: nat, j: nat)
    requires k < |s| && j < |s| - 1
    ensures RemoveAt(s, k)[j] == s[if j < k then j else j + 1]
  {
  }

  /** vector::pop_back (never reached on an empty vector while the associations are linked). */
  function PopBack<T>(s: seq<T>): (r: seq<T>)
    ensures |s| > 0 ==> r == s[..|s| - 1]
  {
    if |s| == 0 then s else s[..|s| - 1]
  }

  /**
   * The completed associations and the markers are in one-to-one correspondence: one
   * association per marker, each naming a distinct marker, each for a distinct vertex
   * of the mesh.
   */
  predicate Linked(done: seq<Link>, markers: seq<Point>, meshCount: nat)
  {
    |done| == |markers|
    && (forall k :: 0 <= k < |done| ==> 0 <= done[k].1 < |markers| && 0 <= done[k].0 < meshCount)
    && (forall a, b :: 0 <= a < b < |done| ==> done[a].1 != done[b].1)
    && (forall a, b :: 0 <= a < b < |done| ==> done[a].0 != done[b].0)
  }

  /** The moves applyDeformation makes, in order: each vertex to its marker's position. */
  function Targets(done: seq<Link>, markers: seq<Point>): (t: seq<(int, Point)>)
    requires forall k :: 0 <= k < |done| ==> 0 <= done[k].1 < |markers|
    ensures |t| == |done|
  {
    seq(|done|, k requires 0 <= k < |done| => (done[k].0, markers[done[k].1]))
  }

  /** The moves without those of vertex v, the others in their order. */
  function Without(t: seq<(int, Point)>, v: int): (r: seq<(int, Point)>)
    ensures |r| <= |t|
  {
    if |t| == 0 then []
    else Without(t[..|t| - 1], v) + (if t[|t| - 1].0 == v then [] else [t[|t| - 1]])
  }

  lemma {:induction false} WithoutAbsent(t: seq<(int, Point)>, v: int)
    requires forall j :: 0 <= j < |t| ==> t[j].0 != v
    ensures Without(t, v) == t
  {
    if |t| > 0 {
      WithoutAbsent(t[..|t| - 1], v);
      assert t[..|t| - 1] + [t[|t| - 1]] == t;
    }
  }

  /** Removing the one move of v is filtering v out. */
  lemma {:induction false} RemoveAtIsWithout(t: seq<(int, Point)>, k: nat, v: int)
    requires k < |t| && t[k].0 == v
    requires forall j :: 0 <= j < |t| && j != k ==> t[j].0 != v
    ensures RemoveAt(t, k) == Without(t, v)
  {
    var n := |t| - 1;
    if k == n {
      WithoutAbsent(t[..n], v);
      assert RemoveAt(t, k) == t[..n];
    } else {
      RemoveAtIsWithout(t[..n], k, v);
      assert RemoveAt(t, k) == RemoveAt(t[..n], k) + [t[n]];
    }
  }

  function ShiftDown(x: int, removed: int): int
  {
    if x > removed then x - 1 else x
  }

  /**
   * The associations once association k and its marker are removed: the others keep their
   * order, and the marker indices above the removed one move down by one.
   */
  function Relinked(done: seq<Link>, k: nat): (r: seq<Link>)
    requires k < |done|
    ensures |r| == |done| - 1
  {
    seq(|done| - 1, j requires 0 <= j < |done| - 1 =>
      (done[if j < k then j else j + 1].0, ShiftDown(done[if j < k then j else j + 1].1, done[k].1)))
  }

  lemma RelinkedAt(done: seq<Link>, k: nat, j: nat)
    requires k < |done| && j < |done| - 1
    ensures var j' := if j < k then j else j + 1;
      Relinked(done, k)[j] == (done[j'].0, ShiftDown(done[j'].1, done[k].1))
  {
  }

  /** Removing an association with its marker keeps the rest linked, without the removed vertex. */
  lemma RelinkKeepsLinked(done: seq<Link>, markers: seq<Point>, meshCount: nat, k: nat)
    requires Linked(done, markers, meshCount) && k < |done|
    ensures Linked(Relinked(done, k), RemoveAt(markers, done[k].1), meshCount)
    ensures forall j :: 0 <= j < |done| - 1 ==> Relinked(done, k)[j].0 != done[k].0
  {
    var idx := done[k].1;
    var r := Relinked(done, k);
    forall j | 0 <= j < |r|
      ensures 0 <= r[j].1 < |markers| - 1 && 0 <= r[j].0 < meshCount && r[j].0 != done[k].0
    {
      RelinkedAt(done, k, j);
    }
    forall a, b | 0 <= a < b < |r|
      ensures r[a].1 != r[b].1 && r[a].0 != r[b].0
    {
      var a', b' := if a < k then a else a + 1, if b < k then b else b + 1;
      RelinkedAt(done, k, a);
      RelinkedAt(done, k, b);
      assert done[a'].1 != done[b'].1 && done[a'].1 != idx && done[b'].1 != idx;
    }
  }

  /** ... and every other vertex keeps its marker position. */
  lemma RelinkKeepsTargets(done: seq<Link>, markers: seq<Point>, meshCount: nat, k: nat)
    requires Linked(done, markers, meshCount) && k < |done|
    ensures forall j :: 0 <= j < |done| - 1 ==> 0 <= Relinked(done, k)[j].1 < |markers| - 1
    ensures Targets(Relinked(done, k), RemoveAt(markers, done[k].1)) == RemoveAt(Targets(done, markers), k)
  {
    var idx := done[k].1;
    var r := Relinked(done, k);
    var m := RemoveAt(markers, idx);
    forall j | 0 <= j < |r|
      ensures 0 <= r[j].1 < |m|
    {
      RelinkedAt(done, k, j);
    }
    forall j | 0 <= j < |r|
      ensures Targets(r, m)[j] == RemoveAt(Targets(done, markers), k)[j]
    {
      var j' := if j < k then j else j + 1;
      RelinkedAt(done, k, j);
      assert done[j'].1 != idx;
      RemoveAtIndex(markers, idx, ShiftDown(done[j'].1, idx));
      RemoveAtIndex(Targets(done, markers), k, j);
    }
  }

  /** A vertex without association gets one to a new marker at the end. */
  lemma AppendLink(done: seq<Link>, markers: seq<Point>, meshCount: nat, v: int, p: Point)
    requires Linked(done, markers, meshCount) && 0 <= v < meshCount
    requires forall j :: 0 <= j < |done| ==> done[j].0 != v
    ensures Linked(done + [(v, |markers|)], markers + [p], meshCount)
    ensures Targets(done + [(v, |markers|)], markers + [p]) == Targets(done, markers) + [(v, p)]
  {
  }

  /**
   * The associations and markers once vertex v's marker is placed at p: its earlier
   * association k (-1 for none) is removed with its marker, then the new one is appended.
   */
  function Placed(done: seq<Link>, markers: seq<Point>, k: int, v: int, p: Point): (seq<Link>, seq<Point>)
    requires -1 <= k < |done|
    requires k >= 0 ==> 0 <= done[k].1 < |markers|
  {
    if k < 0 then (done + [(v, |markers|)], markers + [p])
    else (Relinked(done, k) + [(v, |markers| - 1)], RemoveAt(markers, done[k].1) + [p])
  }

  /** Placing keeps the associations linked; v's moves become the one to p, the others are kept. */
  lemma PlacedIsLinked(done: seq<Link>, markers: seq<Point>, meshCount: nat, k: int, v: int, p: Point)
    requires Linked(done, markers, meshCount) && 0 <= v < meshCount && -1 <= k < |done|
    requires k < 0 ==> forall j :: 0 <= j < |done| ==> done[j].0 != v
    requires k >= 0 ==> done[k].0 == v
    ensures Linked(Placed(done, markers, k, v, p).0, Placed(done, markers, k, v, p).1, meshCount)
    ensures Targets(Placed(done, markers, k, v, p).0, Placed(done, markers, k, v, p).1)
      == Without(Targets(done, markers), v) + [(v, p)]
  {
    var t := Targets(done, markers);
    if k < 0 {
      WithoutAbsent(t, v);
      AppendLink(done, markers, meshCount, v, p);
    } else {
      RelinkKeepsLinked(done, markers, meshCount, k);
      RelinkKeepsTargets(done, markers, meshCount, k);
      RemoveAtIsWithout(t, k, v);
      AppendLink(Relinked(done, k), RemoveAt(markers, done[k].1), meshCount, v, p);
    }
  }

  /** The position of vertex v's association, or -1 when it has none. */
  method FindVertex(done: seq<Link>, v: int) returns (k: int)
    ensures -1 <= k < |done|
    ensures k < 0 ==> forall j :: 0 <= j < |done| ==> done[j].0 != v
    ensures k >= 0 ==> done[k].0 == v
  {
    var i := 0;
    while i < |done|
      invariant 0 <= i <= |done|
      invariant forall j :: 0 <= j < i ==> done[j].0 != v
    {
      if done[i].0 == v {
        return i;
      }
      i := i + 1;
    }
    return -1;
  }

  /** The keys a key press can carry. */
  datatype Key = KeyQ | KeyEscape | OtherKey

  class MarkerManipulator {
    var step: Step
    /** manipulator_association: (mesh vertex, marker index) pairs. */
    var assoc: seq<Link>
    /** marker_manipulators, by position. */
    var markers: seq<Point>
    /** Whether the mesh vertices' manipulators are enabled (all of them share the state). */
    var meshEnabled: bool
    var meshCount: nat

    /** The associations whose marker is placed. */
    function Done(): seq<Link>
      reads this
    {
      if step == PlaceMarker && |assoc| > 0 then assoc[..|assoc| - 1] else assoc
    }

    /**
     * While selecting, every association is complete and linked; while placing, the last
     * one is the vertex waiting for its marker (-1) and the others are linked.
     */
    predicate Valid()
      reads this
    {
      match step
      case SelectVerticeOnMesh => Linked(assoc, markers, meshCount)
      case PlaceMarker =>
        |assoc| > 0 && assoc[|assoc| - 1].1 == -1 && 0 <= assoc[|assoc| - 1].0 < meshCount
        && Linked(assoc[..|assoc| - 1], markers, meshCount)
    }

    /** A new marker tool: selecting, with no association and no marker. */
    constructor (meshCount: nat)
      ensures Valid() && step == SelectVerticeOnMesh && assoc == [] && markers == []
      ensures this.meshCount == meshCount
    {
      step := SelectVerticeOnMesh;
      assoc := [];
      markers := [];
      meshEnabled := true;
      this.meshCount := meshCount;
    }

    /** switchToPlaceMarkerStep: the vertex waits for a marker and the mesh manipulators are disabled. */
    method SwitchToPlaceMarkerStep(id: nat)
      requires Valid() && step == SelectVerticeOnMesh && id < meshCount
      modifies this`assoc, this`step, this`meshEnabled
      ensures Valid() && step == PlaceMarker && !meshEnabled
      ensures assoc == old(assoc) + [(id, -1)] && Done() == old(assoc)
    {
      assoc := assoc + [(id, -1)];
      step := PlaceMarker;
      meshEnabled := false;
      assert assoc[..|assoc| - 1] == old(assoc);
    }

    /** selectManipulator: a right-click on a vertex starts placing its marker, but only while selecting. */
    method SelectManipulator(index: nat)
      requires Valid() && index < meshCount
      modifies this`assoc, this`step, this`meshEnabled
      ensures Valid() && step == PlaceMarker
      ensures old(step) == SelectVerticeOnMesh ==> assoc == old(assoc) + [(index, -1)] && !meshEnabled
      ensures old(step) == PlaceMarker ==> assoc == old(assoc) && meshEnabled == old(meshEnabled)
    {
      if step == SelectVerticeOnMesh {
        SwitchToPlaceMarkerStep(index);
      }
    }

    /** undoSwitchToPlaceMarkerStep: the waiting association is dropped and selection resumes. */
    method UndoSwitchToPlaceMarkerStep()
      requires Valid() && step == PlaceMarker
      modifies this`assoc, this`step, this`meshEnabled
      ensures Valid() && step == SelectVerticeOnMesh && meshEnabled
      ensures assoc == old(assoc)[..|old(assoc)| - 1] && markers == old(markers)
    {
      assoc := assoc[..|assoc| - 1];
      step := SelectVerticeOnMesh;
      meshEnabled := true;
    }

    /**
     * switchToSelectManipulatorStep, with the duplicate's own marker removed: the vertex
     * loses its earlier association and marker (if it had one), gets a new marker at the
     * placed position, and selection resumes. Every other vertex keeps its marker position.
     */
    method SwitchToSelectManipulatorStep(markerPlaced: Point)
      requires Valid() && step == PlaceMarker
      modifies this`assoc, this`markers, this`step, this`meshEnabled
      ensures Valid() && step == SelectVerticeOnMesh && meshEnabled
      ensures var v := old(assoc)[|old(assoc)| - 1].0;
        Targets(assoc, markers) == Without(old(Targets(assoc[..|assoc| - 1], markers)), v) + [(v, markerPlaced)]
    {
      var v := assoc[|assoc| - 1].0;
      var done := assoc[..|assoc| - 1];
      var k := FindVertex(done, v);
      PlacedIsLinked(done, markers, meshCount, k, v, markerPlaced);
      var placed := Placed(done, markers, k, v, markerPlaced);
      assoc, markers := placed.0, placed.1;
      step := SelectVerticeOnMesh;
      meshEnabled := true;
    }

    /** placeManipulator: a ray that hits the grid places the marker; a miss changes nothing. */
    method PlaceManipulator(found: bool, position: Point)
      requires Valid() && step == PlaceMarker
      modifies this`assoc, this`markers, this`step, this`meshEnabled
      ensures Valid()
      ensures !found ==> step == PlaceMarker && assoc == old(assoc) && markers == old(markers)
      ensures found ==> step == SelectVerticeOnMesh
      ensures found ==>
        var v := old(assoc)[|old(assoc)| - 1].0;
        Targets(assoc, markers) == Without(old(Targets(assoc[..|assoc| - 1], markers)), v) + [(v, position)]
    {
      if found {
        SwitchToSelectManipulatorStep(position);
      }
    }

    /** keyPressed: while placing, Q asks for the ray to be cast and Escape cancels. */
    method KeyPressed(key: Key, autoRepeat: bool) returns (castRay: bool)
      requires Valid()
      modifies this`assoc, this`step, this`meshEnabled
      ensures Valid() && markers == old(markers)
      ensures castRay <==> key == KeyQ && !autoRepeat && old(step) == PlaceMarker
      ensures key == KeyEscape && old(step) == PlaceMarker ==>
        step == SelectVerticeOnMesh && assoc == old(assoc)[..|old(assoc)| - 1]
      ensures key != KeyEscape || old(step) == SelectVerticeOnMesh ==> step == old(step) && assoc == old(assoc)
    {
      castRay := key == KeyQ && !autoRepeat && step == PlaceMarker;
      if key == KeyEscape && step == PlaceMarker {
        UndoSwitchToPlaceMarkerStep();
      }
    }
  }

  /** Right-clicking a vertex and then pressing Escape gives back the associations. */
  method SelectThenUndoRestores(m: MarkerManipulator, index: nat)
    requires m.Valid() && m.step == SelectVerticeOnMesh && index < m.meshCount
    modifies m
    ensures m.Valid() && m.step == SelectVerticeOnMesh && m.assoc == old(m.assoc) && m.markers == old(m.markers)
  {
    m.SelectManipulator(index);
    var castRay := m.KeyPressed(KeyEscape, false);
  }

  // The loop of switchToSelectManipulatorStep as written: a duplicate of the waiting vertex
  // pops the LAST marker and erases the duplicate's association, whatever its marker was.

  function EraseDuplicatesAsWritten(assoc: seq<Link>, markers: seq<Point>, i: nat): (r: (seq<Link>, seq<Point>))
    requires |assoc| > 0
    ensures |r.0| > 0 && r.0[|r.0| - 1] == assoc[|assoc| - 1]
    decreases |assoc| - i
  {
    if i >= |assoc| - 1 then (assoc, markers)
    else if assoc[i].0 == assoc[|assoc| - 1].0 then
      EraseDuplicatesAsWritten(RemoveAt(assoc, i), PopBack(markers), i + 1)
    else EraseDuplicatesAsWritten(assoc, markers, i + 1)
  }

  /** switchToSelectManipulatorStep as written, on the associations and the markers. */
  function SwitchAsWritten(assoc: seq<Link>, markers: seq<Point>, markerPlaced: Point): (r: (seq<Link>, seq<Point>))
    requires |assoc| > 0
    ensures |r.0| == |EraseDuplicatesAsWritten(assoc, markers, 0).0| && |r.1| == |EraseDuplicatesAsWritten(assoc, markers, 0).1| + 1
  {
    var (a, m) := EraseDuplicatesAsWritten(assoc, markers, 0);
    (a[..|a| - 1] + [(a[|a| - 1].0, |m|)], m + [markerPlaced])
  }

  const MarkerA: Point := (0.0, 0.0, 0.0)
  const MarkerB: Point := (1.0, 0.0, 0.0)
  const Placement: Point := (2.0, 0.0, 0.0)

  /**
   * Vertex 5 has marker 0 (at MarkerA) and vertex 7 marker 1 (at MarkerB). Placing a new
   * marker for 5 as written erases 5's old association but pops marker 1 ...
   */
  lemma ReplacedMarkerPopsTheLast()
    ensures Linked([(5, 0), (7, 1)], [MarkerA, MarkerB], 8)
    ensures SwitchAsWritten([(5, 0), (7, 1), (5, -1)], [MarkerA, MarkerB], Placement)
      == ([(7, 1), (5, 1)], [MarkerA, Placement])
  {
    var s: seq<Link> := [(5, 0), (7, 1), (5, -1)];
    var x: seq<Link> := [(7, 1), (5, -1)];
    assert RemoveAt(s, 0) == x;
    assert PopBack([MarkerA, MarkerB]) == [MarkerA];
    assert EraseDuplicatesAsWritten(x, [MarkerA], 1) == (x, [MarkerA]);
    assert EraseDuplicatesAsWritten(s, [MarkerA, MarkerB], 0) == (x, [MarkerA]);
    assert x[..1] + [(5, 1)] == [(7, 1), (5, 1)];
    assert [MarkerA] + [Placement] == [MarkerA, Placement];
    assert SwitchAsWritten(s, [MarkerA, MarkerB], Placement) == (x[..1] + [(x[1].0, |[MarkerA]|)], [MarkerA] + [Placement]);
  }

  /**
   * ... so both vertices now name marker 1: vertex 7 is moved to the new placement, and
   * 5's old marker stays without association.
   */
  lemma ReplacedMarkerMovesAnotherVertex()
    ensures !Linked([(7, 1), (5, 1)], [MarkerA, Placement], 8)
    ensures Targets([(7, 1), (5, 1)], [MarkerA, Placement]) == [(7, Placement), (5, Placement)]
  {
    var links: seq<Link> := [(7, 1), (5, 1)];
    assert links[0].1 == links[1].1;
  }

  /** Removing 5's own marker instead keeps vertex 7 at its marker. */
  lemma ReplacedMarkerKeepsOthers()
    ensures Without(Targets([(5, 0), (7, 1)], [MarkerA, MarkerB]), 5) + [(5, Placement)]
      == [(7, MarkerB), (5, Placement)]
  {
    var t := Targets([(5, 0), (7, 1)], [MarkerA, MarkerB]);
    assert t == [(5, MarkerA), (7, MarkerB)];
    assert t[..1] == [(5, MarkerA)];
    assert Without(t[..1], 5) == [] by {
      assert t[..1][..0] == [];
    }
  }
}
