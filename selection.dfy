/**
 * The rectangle selection tool of the mesh manipulators: the user presses in selection
 * mode, drags a screen rectangle from corner `screenP0` to corner `screenP1`, and the
 * vertices whose projection falls strictly inside it (and that are not hidden behind the
 * surface) are selected.
 *
 * The camera's projection of a vertex to integer screen coordinates and the visibility
 * test (a surface point found under the pixel lying farther than 0.01 from the vertex) are
 * parameters: `project` and `hidden`. The world-space corners p0..p3 that are drawn,
 * the colour and the signals' payloads are not modelled; the signals are.
 */
module SelectionTool {
  type Pixel = (int, int)

  /** x lies strictly between a and b, whichever of the two is smaller. */
  predicate StrictlyBetween(x: int, a: int, b: int)
  {
    (a < x < b) || (b < x < a)
  }

  function Min(a: int, b: int): int
  {
    if a <= b then a else b
  }

  function Max(a: int, b: int): int
  {
    if a <= b then b else a
  }

  /**
   * isInScreenSelection: strict containment in the box spanned by the two corners, both
   * coordinates compared against their minimum and maximum.
   */
  function InScreenRectangle(c0: Pixel, c1: Pixel, p: Pixel): (r: bool)
    ensures r <==> StrictlyBetween(p.0, c0.0, c1.0) && StrictlyBetween(p.1, c0.1, c1.1)
  {
    p.0 > Min(c0.0, c1.0) && p.1 > Min(c0.1, c1.1) && p.0 < Max(c0.0, c1.0) && p.1 < Max(c0.1, c1.1)
  }

  /** The two corners play the same part. */
  lemma InScreenRectangleSymmetric(c0: Pixel, c1: Pixel, p: Pixel)
    ensures InScreenRectangle(c0, c1, p) == InScreenRectangle(c1, c0, p)
  {
  }

  /** A rectangle with no width or no height contains nothing, in particular one whose corners coincide. */
  lemma FlatRectangleIsEmpty(c0: Pixel, c1: Pixel, p: Pixel)
    requires c0.0 == c1.0 || c0.1 == c1.1
    ensures !InScreenRectangle(c0, c1, p)
  {
  }

  /** The corners themselves are never inside (the containment is strict). */
  lemma CornersAreOutside(c0: Pixel, c1: Pixel)
    ensures !InScreenRectangle(c0, c1, c0) && !InScreenRectangle(c0, c1, c1)
  {
  }

  /** What the tool emits. */
  datatype Signal = RedrawCleared | RedrawRectangle | BeginSelection | EndSelection | IsSelecting

  class Selection {
    var screenP0: Pixel
    var screenP1: Pixel
    var isActive: bool
    var isInSelectionMode: bool
    var isSelected: bool
    var grabsMouse: bool

    /** A new tool: active, not in selection mode, both corners at the screen origin. */
    constructor ()
      ensures isActive && !isInSelectionMode
      ensures screenP0 == (0, 0) && screenP1 == (0, 0)
    {
      screenP0 := (0, 0);
      screenP1 := (0, 0);
      isActive := true;
      isInSelectionMode := false;
      isSelected := false;
      grabsMouse := false;
    }

    /** isInScreenSelection on the current corners. */
    function IsInScreenSelection(p: Pixel): (r: bool)
      reads this
      ensures r <==> StrictlyBetween(p.0, screenP0.0, screenP1.0) && StrictlyBetween(p.1, screenP0.1, screenP1.1)
    {
      InScreenRectangle(screenP0, screenP1, p)
    }

    /** isInSelection: visible and projected strictly inside the rectangle. */
    function IsInSelection(screen: Pixel, hidden: bool): (r: bool)
      reads this
      ensures r <==> !hidden && IsInScreenSelection(screen)
    {
      if hidden then false else IsInScreenSelection(screen)
    }

    /** areInSelection: one answer per position, in order. */
    method AreInSelection<P>(positions: seq<P>, project: P -> Pixel, hidden: P -> bool) returns (res: seq<bool>)
      ensures |res| == |positions|
      ensures forall i :: 0 <= i < |positions| ==>
        (res[i] <==> !hidden(positions[i]) && IsInScreenSelection(project(positions[i])))
    {
      res := [];
      var i := 0;
      while i < |positions|
        invariant 0 <= i <= |positions| && |res| == i
        invariant forall k :: 0 <= k < i ==>
          (res[k] <==> !hidden(positions[k]) && IsInScreenSelection(project(positions[k])))
      {
        res := res + [IsInSelection(project(positions[i]), hidden(positions[i]))];
        i := i + 1;
      }
    }

    method Activate()
      modifies this`isActive
      ensures isActive
    {
      isActive := true;
    }

    method Deactivate()
      modifies this`isActive
      ensures !isActive
    {
      isActive := false;
    }

    /** enterSelectionMode: only an active tool enters selection mode; an inactive one is left as it is. */
    method EnterSelectionMode()
      modifies this`isInSelectionMode
      ensures isInSelectionMode == (old(isInSelectionMode) || isActive)
      ensures !isActive ==> isInSelectionMode == old(isInSelectionMode)
    {
      if !isActive {
        return;
      }
      isInSelectionMode := true;
    }

    /** exitSelectionMode: out of selection mode, nothing selected, the drawn rectangle cleared. */
    method ExitSelectionMode() returns (emitted: seq<Signal>)
      modifies this`isInSelectionMode, this`isSelected
      ensures !isInSelectionMode && !isSelected
      ensures emitted == [RedrawCleared, EndSelection]
    {
      isInSelectionMode := false;
      isSelected := false;
      emitted := [RedrawCleared, EndSelection];
    }

    /** mousePressEvent: a press starts a selection only in selection mode. */
    method MousePressEvent() returns (emitted: seq<Signal>)
      modifies this`isSelected
      ensures isSelected == (old(isSelected) || isInSelectionMode)
      ensures emitted == (if isInSelectionMode then [BeginSelection] else [])
    {
      emitted := [];
      if isInSelectionMode {
        isSelected := true;
        emitted := [BeginSelection];
      }
    }

    /** mouseReleaseEvent: the selection ends, whatever the mode. */
    method MouseReleaseEvent() returns (emitted: seq<Signal>)
      modifies this`isSelected
      ensures !isSelected
      ensures emitted == [RedrawCleared, EndSelection]
    {
      isSelected := false;
      emitted := [RedrawCleared, EndSelection];
    }

    /** mouseMoveEvent: a drag in progress reports that it is selecting. */
    function MouseMoveEvent(): (emitted: seq<Signal>)
      reads this
      ensures emitted != [] <==> isInSelectionMode && isSelected
    {
      if isInSelectionMode && isSelected then [IsSelecting] else []
    }

    /**
     * checkIfGrabsMouse at pixel (x, y): while nothing is selected both corners follow the
     * cursor; during a selection the second corner does and the rectangle is redrawn; the
     * tool grabs the mouse exactly in selection mode.
     */
    method CheckIfGrabsMouse(x: int, y: int) returns (emitted: seq<Signal>)
      modifies this`screenP0, this`screenP1, this`grabsMouse
      ensures grabsMouse <==> isInSelectionMode
      ensures !isSelected ==> screenP0 == (x, y) && screenP1 == (x, y)
      ensures isSelected ==> screenP0 == old(screenP0)
      ensures isSelected && isInSelectionMode ==> screenP1 == (x, y)
      ensures isSelected && !isInSelectionMode ==> screenP1 == old(screenP1)
      ensures emitted == (if isSelected && isInSelectionMode then [RedrawRectangle] else [])
    {
      emitted := [];
      if !isSelected {
        screenP0 := (x, y);
        screenP1 := (x, y);
      }
      if isInSelectionMode && isSelected {
        screenP1 := (x, y);
        emitted := [RedrawRectangle];
      }
      grabsMouse := isInSelectionMode;
    }
  }

  /**
   * A whole drag in selection mode: press, move the cursor to `to`, and the rectangle is the
   * one between the pixel where the press happened and `to`.
   */
  method DragSelects(s: Selection, from: Pixel, to: Pixel, p: Pixel) returns (inside: bool)
    requires s.isInSelectionMode && !s.isSelected
    modifies s
    ensures inside == InScreenRectangle(from, to, p)
    ensures s.grabsMouse && s.isSelected
  {
    var e := s.CheckIfGrabsMouse(from.0, from.1);
    e := s.MousePressEvent();
    e := s.CheckIfGrabsMouse(to.0, to.1);
    inside := s.IsInScreenSelection(p);
  }
}
