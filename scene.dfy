/**
 * The scene's bookkeeping that is not drawing: looking objects up by name, the three
 * cutting planes (direction and whether each is shown), the colour function of the first
 * two grids with the channel it shows, and the value ranges of the active grid.
 *
 * Objects are known by their names; a mesh, graph or grid pointer is modelled by its kind
 * and its index in the scene's lists. Each grid's three parallel range lists are held here
 * as a value; rebuilding a grid's maps from them is DrawableGrid.UpdateMinMaxDisplayValues.
 */
module SceneModel {
  import opened Wrappers
  import DrawableGridModel

  datatype ColorFunction = SingleChannel | HistologyHandE | HSV2RGB | ColorMagnitude

  /** The colour-scale index a colour function is stored as (its enumeration value). */
  function ScaleIndex(c: ColorFunction): nat
  {
    match c
    case SingleChannel => 0
    case HistologyHandE => 1
    case HSV2RGB => 2
    case ColorMagnitude => 3
  }

  datatype Direction = X | Y | Z | XYZ

  datatype Vec3 = Vec3(x: real, y: real, z: real)

  /** The coordinate given to a plane that is not shown, to push it out of sight. */
  const HiddenPlane: real := -1000000.0

  /** What getBaseMesh finds: a surface mesh, a graph or a grid, by its index in its list. */
  datatype BaseMesh = Mesh(i: nat) | Graph(i: nat) | Grid(i: nat)

  /** The three parallel range lists of one grid. */
  datatype GridRanges = GridRanges(ranges: seq<DrawableGridModel.Range>, colors: seq<DrawableGridModel.Color>, shown: seq<bool>)
  {
    predicate Parallel()
    {
      |colors| == |ranges| && |shown| == |ranges|
    }
  }

  const NoRanges := GridRanges([], [], [])

  /**
   * The search loop of getMeshIdx and getGridIdx: the first index holding name, or -1 when
   * there is none.
   */
  method FindName(names: seq<string>, name: string) returns (r: int)
    ensures -1 <= r < |names|
    ensures r == -1 <==> name !in names
    ensures r >= 0 ==> names[r] == name && name !in names[..r]
  {
    var i := 0;
    while i < |names|
      invariant 0 <= i <= |names| && name !in names[..i]
    {
      if names[i] == name {
        return i;
      }
      assert names[..i + 1] == names[..i] + [names[i]];
      i := i + 1;
    }
    assert names[..i] == names;
    return -1;
  }

  /** computePlanePositionsWithActivation: a plane that is not shown is moved to HiddenPlane. */
  function PlanePositionsWithActivation(positions: Vec3, activation: Vec3): (p: Vec3)
    ensures p.x == (if activation.x == 0.0 then HiddenPlane else positions.x)
    ensures p.y == (if activation.y == 0.0 then HiddenPlane else positions.y)
    ensures p.z == (if activation.z == 0.0 then HiddenPlane else positions.z)
  {
    Vec3(if activation.x == 0.0 then HiddenPlane else positions.x,
         if activation.y == 0.0 then HiddenPlane else positions.y,
         if activation.z == 0.0 then HiddenPlane else positions.z)
  }

  /** The plane direction after one toggle: one axis negated, or all three for XYZ. */
  function Toggled(v: Vec3, d: Direction): Vec3
  {
    match d
    case X => v.(x := -v.x)
    case Y => v.(y := -v.y)
    case Z => v.(z := -v.z)
    case XYZ => Vec3(-v.x, -v.y, -v.z)
  }

  /** Toggling a plane direction twice restores it. */
  lemma ToggleTwiceRestores(v: Vec3, d: Direction)
    ensures Toggled(Toggled(v, d), d) == v
  {
  }

  /** Toggling changes the sign of exactly the axes the direction names. */
  lemma ToggleNegatesNamedAxes(v: Vec3, d: Direction)
    ensures Toggled(v, d).x == (if d == X || d == XYZ then -v.x else v.x)
    ensures Toggled(v, d).y == (if d == Y || d == XYZ then -v.y else v.y)
    ensures Toggled(v, d).z == (if d == Z || d == XYZ then -v.z else v.z)
  {
  }

  class Scene {
    /** The names of the surface meshes, of the graphs and of the grids, in insertion order. */
    var meshNames: seq<string>
    var graphNames: seq<string>
    var gridNames: seq<string>
    /** Per grid, its range lists (grids and gridNames are parallel). */
    var grids: seq<GridRanges>
    var gridsToDraw: seq<nat>
    /** The grid the range setters act on, or -1. */
    var activeGrid: int
    var planeDirection: Vec3
    var planeActivation: Vec3
    var channelsR: ColorFunction
    var channelsG: ColorFunction
    var selectedChannelR: nat
    var selectedChannelG: nat
    /** Per grid, the colour scale of its two channels. */
    var colorScales: seq<(nat, nat)>
    var needUpdateMinMaxDisplayValues: bool

    /** The lists of grids agree, the active grid is one of them, and a shown channel is 0 or 1. */
    predicate Valid()
      reads this
    {
      |grids| == |gridNames| && |colorScales| == |grids|
      && (activeGrid == -1 || 0 <= activeGrid < |grids|)
      && (forall g :: 0 <= g < |grids| ==> grids[g].Parallel())
      && selectedChannelR < 2 && selectedChannelG < 2
    }

    /** getMeshIdx: the first mesh with this name, or -1. */
    method GetMeshIdx(name: string) returns (r: int)
      ensures -1 <= r < |meshNames|
      ensures r == -1 <==> name !in meshNames
      ensures r >= 0 ==> meshNames[r] == name && name !in meshNames[..r]
    {
      r := FindName(meshNames, name);
    }

    /** getGridIdx: the first grid with this name, or -1. */
    method GetGridIdx(name: string) returns (r: int)
      ensures -1 <= r < |gridNames|
      ensures r == -1 <==> name !in gridNames
      ensures r >= 0 ==> gridNames[r] == name && name !in gridNames[..r]
    {
      r := FindName(gridNames, name);
    }

    /**
     * getBaseMesh: the first surface mesh with this name; failing that the first graph;
     * failing that the first grid; None (a null pointer) when no object has the name.
     */
    method GetBaseMesh(name: string) returns (r: Option<BaseMesh>)
      ensures r.None? <==> name !in meshNames && name !in graphNames && name !in gridNames
      ensures r.Some? && r.value.Mesh? ==>
        r.value.i < |meshNames| && meshNames[r.value.i] == name && name !in meshNames[..r.value.i]
      ensures r.Some? && r.value.Graph? ==>
        name !in meshNames && r.value.i < |graphNames| && graphNames[r.value.i] == name && name !in graphNames[..r.value.i]
      ensures r.Some? && r.value.Grid? ==>
        name !in meshNames && name !in graphNames
        && r.value.i < |gridNames| && gridNames[r.value.i] == name && name !in gridNames[..r.value.i]
    {
      var i := FindName(meshNames, name);
      if i >= 0 {
        return Some(Mesh(i));
      }
      i := FindName(graphNames, name);
      if i >= 0 {
        return Some(Graph(i));
      }
      i := FindName(gridNames, name);
      if i >= 0 {
        return Some(Grid(i));
      }
      return None;
    }

    /** slotTogglePlaneDirection. */
    method TogglePlaneDirection(d: Direction)
      modifies this`planeDirection
      ensures planeDirection == Toggled(old(planeDirection), d)
    {
      match d
      case X => planeDirection := planeDirection.(x := -planeDirection.x);
      case Y => planeDirection := planeDirection.(y := -planeDirection.y);
      case Z => planeDirection := planeDirection.(z := -planeDirection.z);
      case XYZ => planeDirection := Vec3(-planeDirection.x, -planeDirection.y, -planeDirection.z);
    }

    /**
     * slotToggleDisplayPlane: the named plane (all three for XYZ) gets activation 1 when
     * shown and 0 when hidden; the other planes keep theirs.
     */
    method ToggleDisplayPlane(d: Direction, display: bool)
      modifies this`planeActivation
      ensures var value := if display then 1.0 else 0.0;
        planeActivation.x == (if d == X || d == XYZ then value else old(planeActivation.x))
        && planeActivation.y == (if d == Y || d == XYZ then value else old(planeActivation.y))
        && planeActivation.z == (if d == Z || d == XYZ then value else old(planeActivation.z))
    {
      var value := 0.0;
      if display {
        value := 1.0;
      }
      match d
      case X => planeActivation := planeActivation.(x := value);
      case Y => planeActivation := planeActivation.(y := value);
      case Z => planeActivation := planeActivation.(z := value);
      case XYZ => planeActivation := Vec3(value, value, value);
    }

    /**
     * setColorFunction_r: choosing SingleChannel again switches to the other channel,
     * choosing it from another function starts at channel 0; the first grid's two channels
     * get the function's colour scale, with ColorMagnitude stored as HSV2RGB and HSV2RGB
     * as HistologyHandE.
     */
    method SetColorFunctionR(c: ColorFunction)
      requires Valid()
      modifies this`selectedChannelR, this`channelsR, this`colorScales, this`needUpdateMinMaxDisplayValues
      ensures Valid() && channelsR == c && needUpdateMinMaxDisplayValues
      ensures selectedChannelR == (if c != SingleChannel then old(selectedChannelR)
        else if old(channelsR) == SingleChannel then (old(selectedChannelR) + 1) % 2 else 0)
      ensures var s := ScaleIndex(if c == ColorMagnitude then HSV2RGB else if c == HSV2RGB then HistologyHandE else c);
        colorScales == if |old(colorScales)| > 0 then old(colorScales)[0 := (s, s)] else old(colorScales)
    {
      if c == SingleChannel && channelsR != SingleChannel {
        selectedChannelR := 0;
      }
      if c == SingleChannel && channelsR == SingleChannel {
        selectedChannelR := (selectedChannelR + 1) % 2;
      }
      channelsR := c;
      var stored := c;
      if stored == ColorMagnitude {
        stored := HSV2RGB;
      } else if stored == HSV2RGB {
        stored := HistologyHandE;
      }
      if |grids| > 0 {
        colorScales := colorScales[0 := (ScaleIndex(stored), ScaleIndex(stored))];
      }
      needUpdateMinMaxDisplayValues := true;
    }

    /**
     * setColorFunction_g: as for the first grid, for the second; only HSV2RGB is stored
     * differently (as HistologyHandE).
     */
    method SetColorFunctionG(c: ColorFunction)
      requires Valid()
      modifies this`selectedChannelG, this`channelsG, this`colorScales, this`needUpdateMinMaxDisplayValues
      ensures Valid() && channelsG == c && needUpdateMinMaxDisplayValues
      ensures selectedChannelG == (if c != SingleChannel then old(selectedChannelG)
        else if old(channelsG) == SingleChannel then (old(selectedChannelG) + 1) % 2 else 0)
      ensures var s := ScaleIndex(if c == HSV2RGB then HistologyHandE else c);
        colorScales == if |old(colorScales)| > 1 then old(colorScales)[1 := (s, s)] else old(colorScales)
    {
      if c == SingleChannel && channelsG != SingleChannel {
        selectedChannelG := 0;
      }
      if c == SingleChannel && channelsG == SingleChannel {
        selectedChannelG := (selectedChannelG + 1) % 2;
      }
      channelsG := c;
      var stored := c;
      if stored == HSV2RGB {
        stored := HistologyHandE;
      }
      if |grids| > 1 {
        colorScales := colorScales[1 := (ScaleIndex(stored), ScaleIndex(stored))];
      }
      needUpdateMinMaxDisplayValues := true;
    }

    /** updateMinMaxDisplayValues: with at least one grid, the pending-update flag is cleared. */
    method UpdateMinMaxDisplayValues()
      modifies this`needUpdateMinMaxDisplayValues
      ensures needUpdateMinMaxDisplayValues == (|grids| == 0 && old(needUpdateMinMaxDisplayValues))
    {
      if |grids| == 0 {
        return;
      }
      needUpdateMinMaxDisplayValues := false;
    }

    /** resetRanges: the active grid's three lists emptied; nothing happens without an active grid. */
    method ResetRanges()
      requires Valid()
      modifies this`grids, this`needUpdateMinMaxDisplayValues
      ensures Valid()
      ensures activeGrid == -1 ==> grids == old(grids) && needUpdateMinMaxDisplayValues == old(needUpdateMinMaxDisplayValues)
      ensures activeGrid != -1 ==> grids == old(grids)[activeGrid := NoRanges] && !needUpdateMinMaxDisplayValues
    {
      if activeGrid == -1 {
        return;
      }
      grids := grids[activeGrid := NoRanges];
      UpdateMinMaxDisplayValues();
    }

    /**
     * addRange: a range, its colour and whether it is shown appended to the active grid's
     * three lists; nothing happens without an active grid.
     */
    method AddRange(min: nat, max: nat, color: DrawableGridModel.Color, visible: bool, updateUBO: bool)
      requires Valid()
      modifies this`grids, this`needUpdateMinMaxDisplayValues
      ensures Valid()
      ensures activeGrid == -1 ==> grids == old(grids) && needUpdateMinMaxDisplayValues == old(needUpdateMinMaxDisplayValues)
      ensures activeGrid != -1 ==>
        var g := old(grids)[activeGrid];
        grids == old(grids)[activeGrid := GridRanges(g.ranges + [(min, max)], g.colors + [color], g.shown + [visible])]
        && needUpdateMinMaxDisplayValues == (old(needUpdateMinMaxDisplayValues) && !updateUBO)
    {
      if activeGrid == -1 {
        return;
      }
      var g := grids[activeGrid];
      grids := grids[activeGrid := GridRanges(g.ranges + [(min, max)], g.colors + [color], g.shown + [visible])];
      if updateUBO {
        UpdateMinMaxDisplayValues();
      }
    }

    /** clear: every list emptied and no active grid. */
    method Clear()
      requires Valid()
      modifies this`gridNames, this`grids, this`meshNames, this`graphNames, this`gridsToDraw, this`activeGrid, this`colorScales
      ensures Valid()
      ensures gridNames == [] && grids == [] && meshNames == [] && graphNames == [] && gridsToDraw == []
      ensures activeGrid == -1
    {
      gridNames, grids, colorScales := [], [], [];
      meshNames, graphNames, gridsToDraw := [], [], [];
      activeGrid := -1;
    }
  }

  /** Choosing SingleChannel twice in a row shows the other channel, and a third time the first again. */
  method SingleChannelAlternates(s: Scene) returns (first: nat, second: nat, third: nat)
    requires s.Valid()
    modifies s
    ensures second == 1 - first && third == first
  {
    s.SetColorFunctionR(SingleChannel);
    first := s.selectedChannelR;
    s.SetColorFunctionR(SingleChannel);
    second := s.selectedChannelR;
    s.SetColorFunctionR(SingleChannel);
    third := s.selectedChannelR;
  }

  /** Hiding a plane sends it to HiddenPlane in the activated positions; the other planes keep theirs. */
  method HidePlane(s: Scene, d: Direction, positions: Vec3) returns (p: Vec3)
    modifies s
    ensures p == PlanePositionsWithActivation(positions, s.planeActivation)
    ensures (d == X || d == XYZ) ==> p.x == HiddenPlane
    ensures (d == Y || d == XYZ) ==> p.y == HiddenPlane
    ensures (d == Z || d == XYZ) ==> p.z == HiddenPlane
    ensures d != X && d != XYZ ==> p.x == PlanePositionsWithActivation(positions, old(s.planeActivation)).x
    ensures d != Y && d != XYZ ==> p.y == PlanePositionsWithActivation(positions, old(s.planeActivation)).y
    ensures d != Z && d != XYZ ==> p.z == PlanePositionsWithActivation(positions, old(s.planeActivation)).z
  {
    s.ToggleDisplayPlane(d, false);
    p := PlanePositionsWithActivation(positions, s.planeActivation);
  }

  /** After resetRanges, addRange leaves the active grid with exactly the range just added. */
  method ResetThenAdd(s: Scene, min: nat, max: nat, color: DrawableGridModel.Color, visible: bool)
    requires s.Valid() && s.activeGrid != -1
    modifies s
    ensures s.Valid() && s.activeGrid == old(s.activeGrid) && |s.grids| == |old(s.grids)|
    ensures s.grids[s.activeGrid] == GridRanges([(min, max)], [color], [visible])
    ensures forall g :: 0 <= g < |s.grids| && g != s.activeGrid ==> s.grids[g] == old(s.grids[g])
  {
    s.ResetRanges();
    s.AddRange(min, max, color, visible, true);
  }

  /** After clear, no name is found and range edits do nothing. */
  method ClearThenLookUp(s: Scene, name: string) returns (r: Option<BaseMesh>)
    requires s.Valid()
    modifies s
    ensures r.None? && s.grids == []
  {
    s.Clear();
    r := s.GetBaseMesh(name);
    s.AddRange(0, 0, DrawableGridModel.Black, true, false);
  }
}
