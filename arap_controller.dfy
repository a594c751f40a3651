/**
 * The ARAP deformation tool's controller: it walks through a small ladder of states
 * (nothing, mesh, mesh with constraints, curve, image, deformed) that decides which
 * buttons are usable, and it keeps the two lists of constraints the deformation pairs
 * up: mesh vertex indices and image positions, with a counter naming the mesh
 * constraint whose image counterpart is expected next.
 *
 * File dialogs, the scene, the viewer and the labels are outside the model; what a file
 * holds reaches it as parameters. The deformation itself (the ARAP solve) is the
 * parameter `deformed`: the vertex positions the mesh interface hands back.
 */
module ARAPControl {
  type Point = (real, real, real)

  // ---------------------------------------------------------------------------------
  // The state ladder and the buttons

  datatype State = Initialized | MeshLoaded | MeshLoadedWithConstraints | CurveLoaded | ImageLoaded | Deformed

  /** The enumerators' values. */
  function Rank(s: State): nat
  {
    match s
    case Initialized => 0
    case MeshLoaded => 1
    case MeshLoadedWithConstraints => 2
    case CurveLoaded => 3
    case ImageLoaded => 4
    case Deformed => 5
  }

  datatype Button =
    | LoadMesh | LoadConstraints | LoadCurve | LoadImage | LoadSecondCurve
    | AlignArap | ScaleArap | StartArap
    | SaveMesh | SaveCurve | SaveImage | SaveJson
    | ManipSelectAll | ManipSelectNone
    | EnableDeformation

  /** The lowest state at which a button is usable; None for the manipulator buttons, which this ladder never enables. */
  function Threshold(b: Button): Option
  {
    match b
    case LoadMesh => Some(Initialized)
    case LoadConstraints => Some(MeshLoaded)
    case SaveMesh => Some(MeshLoaded)
    case LoadCurve => Some(MeshLoaded)
    case EnableDeformation => Some(MeshLoaded)
    case SaveCurve => Some(CurveLoaded)
    case LoadImage => Some(CurveLoaded)
    case AlignArap => Some(ImageLoaded)
    case ScaleArap => Some(ImageLoaded)
    case StartArap => Some(ImageLoaded)
    case SaveImage => Some(ImageLoaded)
    case LoadSecondCurve => Some(Deformed)
    case SaveJson => Some(Deformed)
    case ManipSelectAll => None
    case ManipSelectNone => None
  }

  datatype Option = None | Some(state: State)

  /** Whether button b is usable in state s. */
  predicate EnabledIn(s: State, b: Button)
  {
    Threshold(b).Some? && Rank(s) >= Rank(Threshold(b).state)
  }

  /** The buttons usable in state s, listed rung by rung. */
  function ButtonsFrom(s: State): set<Button>
  {
    {LoadMesh}
    + (if Rank(s) >= Rank(MeshLoaded) then {LoadConstraints, SaveMesh, LoadCurve, EnableDeformation} else {})
    + (if Rank(s) >= Rank(CurveLoaded) then {SaveCurve, LoadImage} else {})
    + (if Rank(s) >= Rank(ImageLoaded) then {AlignArap, ScaleArap, StartArap, SaveImage} else {})
    + (if Rank(s) >= Rank(Deformed) then {LoadSecondCurve, SaveJson} else {})
  }

  /** The rung-by-rung list holds exactly the buttons whose threshold the state reaches. */
  lemma ButtonsFromThreshold(s: State, b: Button)
    ensures b in ButtonsFrom(s) <==> EnabledIn(s, b)
  {
  }

  /** Climbing the ladder never disables a button. */
  lemma EnabledMonotone(s: State, t: State, b: Button)
    requires Rank(s) <= Rank(t) && EnabledIn(s, b)
    ensures EnabledIn(t, b)
  {
  }

  /** Loading a mesh is possible in every state. */
  lemma LoadMeshAlwaysEnabled(s: State)
    ensures EnabledIn(s, LoadMesh)
  {
  }

  // ---------------------------------------------------------------------------------
  // Constraints

  /** The compounded constraints: the mesh constraints' vertex positions, then the image constraints. */
  function Compound(vertices: seq<Point>, mesh: seq<nat>, image: seq<Point>): (c: seq<Point>)
    requires forall i :: 0 <= i < |mesh| ==> mesh[i] < |vertices|
    ensures |c| == |mesh| + |image|
  {
    seq(|mesh|, i requires 0 <= i < |mesh| => vertices[mesh[i]]) + image
  }

  /** The compounded list starts with the vertex of each mesh constraint and ends with the image constraints. */
  lemma CompoundLayout(vertices: seq<Point>, mesh: seq<nat>, image: seq<Point>, i: nat)
    requires forall k :: 0 <= k < |mesh| ==> mesh[k] < |vertices|
    ensures i < |mesh| ==> Compound(vertices, mesh, image)[i] == vertices[mesh[i]]
    ensures i < |image| ==> Compound(vertices, mesh, image)[|mesh| + i] == image[i]
    ensures Compound(vertices, mesh, image)[|mesh|..] == image
  {
  }

  /**
   * The counter after one image constraint: unchanged at 0 (no mesh constraint), otherwise
   * one further, but never past size + 1.
   */
  function NextEdited(counter: nat, meshCount: nat): (c: nat)
    ensures c == 0 <==> counter == 0
    ensures c <= meshCount + 1
    ensures 0 < counter <= meshCount ==> c == counter + 1
  {
    if counter == 0 then 0
    else if counter + 1 > meshCount then meshCount + 1
    else counter + 1
  }

  /** The counter after k image constraints. */
  function EditedAfter(counter: nat, meshCount: nat, k: nat): nat
  {
    if k == 0 then counter else NextEdited(EditedAfter(counter, meshCount, k - 1), meshCount)
  }

  /** getCurrentlyEditedConstraint: the counter, or 0 once it is past the mesh constraints. */
  function CurrentlyEdited(counter: nat, meshCount: nat): (c: nat)
    ensures c <= meshCount
    ensures c == 0 <==> counter == 0 || counter > meshCount
  {
    if counter > meshCount then 0 else counter
  }

  /**
   * Starting at the first mesh constraint, after k image constraints the constraint edited
   * is number k + 1 (1-based) while there is one, and none (0) once every mesh constraint
   * has its image counterpart.
   */
  lemma {:induction false} EditedFollowsImages(meshCount: nat, k: nat)
    requires meshCount > 0
    ensures EditedAfter(1, meshCount, k) == (if k < meshCount then k + 1 else meshCount + 1)
    ensures CurrentlyEdited(EditedAfter(1, meshCount, k), meshCount) == (if k < meshCount then k + 1 else 0)
  {
    if k > 0 {
      EditedFollowsImages(meshCount, k - 1);
    }
  }

  class ARAPController {
    var state: State
    /** The buttons currently enabled. */
    var enabled: set<Button>
    var deformationChecked: bool
    var viewerDeformation: bool

    var hasMesh: bool
    var hasImage: bool
    /** The loaded mesh's vertex positions. */
    var vertices: seq<Point>
    var meshConstraints: seq<nat>
    var imageConstraints: seq<Point>
    var compoundedConstraints: seq<Point>
    var currentlyEditedConstraint: nat

    /**
     * The counter is 0 exactly when there is no mesh constraint and is at most one past
     * them; constraints exist only with a mesh, an image only with a mesh, and the
     * compounded list is up to date.
     */
    predicate Valid()
      reads this
    {
      (currentlyEditedConstraint == 0 <==> |meshConstraints| == 0)
      && currentlyEditedConstraint <= |meshConstraints| + 1
      && (hasImage ==> hasMesh)
      && (!hasMesh ==> meshConstraints == [] && imageConstraints == [] && compoundedConstraints == [])
      && (forall i :: 0 <= i < |meshConstraints| ==> meshConstraints[i] < |vertices|)
      && compoundedConstraints == Compound(vertices, meshConstraints, imageConstraints)
    }

    /** A new controller: no data, no constraint, the counter at 0. */
    constructor ()
      ensures Valid() && !hasMesh && !hasImage && currentlyEditedConstraint == 0
    {
      state := Initialized;
      enabled := {};
      deformationChecked := false;
      viewerDeformation := false;
      hasMesh := false;
      hasImage := false;
      vertices := [];
      meshConstraints := [];
      imageConstraints := [];
      compoundedConstraints := [];
      currentlyEditedConstraint := 0;
    }

    /**
     * updateButtonsActivated: everything is disabled and the deformation box unchecked, then
     * each button whose threshold the state reaches is enabled again; the viewer deforms
     * from MeshLoaded on.
     */
    method UpdateButtonsActivated()
      modifies this`enabled, this`deformationChecked, this`viewerDeformation
      ensures forall b :: b in enabled <==> EnabledIn(state, b)
      ensures !deformationChecked
      ensures viewerDeformation <==> Rank(state) >= Rank(MeshLoaded)
    {
      forall b {
        ButtonsFromThreshold(state, b);
      }
      enabled := {};
      deformationChecked := false;
      viewerDeformation := false;
      enabled := enabled + {LoadMesh};
      if Rank(state) >= Rank(MeshLoaded) {
        enabled := enabled + {LoadConstraints, SaveMesh, LoadCurve, EnableDeformation};
        viewerDeformation := true;
      }
      if Rank(state) >= Rank(CurveLoaded) {
        enabled := enabled + {SaveCurve, LoadImage};
      }
      if Rank(state) >= Rank(ImageLoaded) {
        enabled := enabled + {AlignArap, ScaleArap, StartArap, SaveImage};
      }
      if Rank(state) >= Rank(Deformed) {
        enabled := enabled + {LoadSecondCurve, SaveJson};
      }
      assert enabled == ButtonsFrom(state);
    }

    /** setDeformationButtonsState: the new state, and the buttons it allows. */
    method SetDeformationButtonsState(newState: State)
      modifies this`state, this`enabled, this`deformationChecked, this`viewerDeformation
      ensures state == newState
      ensures forall b :: b in enabled <==> EnabledIn(newState, b)
      ensures !deformationChecked
    {
      state := newState;
      UpdateButtonsActivated();
    }

    /** getCurrentlyEditedConstraint. */
    function GetCurrentlyEditedConstraint(): (c: nat)
      reads this
      ensures c <= |meshConstraints|
      ensures c == CurrentlyEdited(currentlyEditedConstraint, |meshConstraints|)
    {
      if currentlyEditedConstraint > |meshConstraints| then 0 else currentlyEditedConstraint
    }

    /**
     * getMeshConstraintsAsPositions: nothing if either list is empty, else the first
     * |mesh constraints| compounded constraints, which are the constrained vertices' positions.
     */
    function GetMeshConstraintsAsPositions(): (p: seq<Point>)
      reads this
      requires Valid()
      ensures meshConstraints == [] || compoundedConstraints == [] ==> p == []
      ensures meshConstraints != [] ==> |p| == |meshConstraints|
      ensures forall i :: 0 <= i < |p| ==> p[i] == vertices[meshConstraints[i]]
    {
      if |meshConstraints| == 0 || |compoundedConstraints| == 0 then []
      else compoundedConstraints[..|meshConstraints|]
    }

    /**
     * updateCompoundedConstraints: the list is resized (new entries are zero), the mesh
     * constraints' vertex positions are written at the front, then the image constraints
     * are copied after them.
     */
    method UpdateCompoundedConstraints()
      requires forall i :: 0 <= i < |meshConstraints| ==> meshConstraints[i] < |vertices|
      modifies this`compoundedConstraints
      ensures compoundedConstraints == Compound(vertices, meshConstraints, imageConstraints)
    {
      var n := |imageConstraints| + |meshConstraints|;
      if |compoundedConstraints| >= n {
        compoundedConstraints := compoundedConstraints[..n];
      } else {
        compoundedConstraints := compoundedConstraints + seq(n - |compoundedConstraints|, _ => (0.0, 0.0, 0.0));
      }
      var i := 0;
      while i < |meshConstraints|
        invariant 0 <= i <= |meshConstraints| && |compoundedConstraints| == n
        invariant forall k :: 0 <= k < i ==> compoundedConstraints[k] == vertices[meshConstraints[k]]
      {
        compoundedConstraints := compoundedConstraints[i := vertices[meshConstraints[i]]];
        i := i + 1;
      }
      var j := 0;
      while j < |imageConstraints|
        invariant 0 <= j <= |imageConstraints| && |compoundedConstraints| == n
        invariant forall k :: 0 <= k < |meshConstraints| ==> compoundedConstraints[k] == vertices[meshConstraints[k]]
        invariant forall k :: 0 <= k < j ==> compoundedConstraints[|meshConstraints| + k] == imageConstraints[k]
      {
        compoundedConstraints := compoundedConstraints[|meshConstraints| + j := imageConstraints[j]];
        j := j + 1;
      }
      var m, vs, ms := |meshConstraints|, vertices, meshConstraints;
      assert compoundedConstraints[..m] == seq(m, k requires 0 <= k < m => vs[ms[k]]);
      assert compoundedConstraints[m..] == imageConstraints;
      assert compoundedConstraints == compoundedConstraints[..m] + compoundedConstraints[m..];
    }

    /**
     * addImageConstraint: without an image nothing happens; otherwise the position is
     * appended and the counter moves to the next mesh constraint (see NextEdited).
     */
    method AddImageConstraint(position: Point)
      requires Valid()
      modifies this`imageConstraints, this`currentlyEditedConstraint, this`compoundedConstraints
      ensures Valid()
      ensures !hasImage ==>
        (imageConstraints == old(imageConstraints) && currentlyEditedConstraint == old(currentlyEditedConstraint))
      ensures hasImage ==>
        (imageConstraints == old(imageConstraints) + [position]
         && currentlyEditedConstraint == NextEdited(old(currentlyEditedConstraint), |meshConstraints|))
      ensures compoundedConstraints == Compound(vertices, meshConstraints, imageConstraints)
    {
      if !hasImage {
        return;
      }
      imageConstraints := imageConstraints + [position];
      if currentlyEditedConstraint != 0 {
        currentlyEditedConstraint := currentlyEditedConstraint + 1;
        if currentlyEditedConstraint > |meshConstraints| {
          currentlyEditedConstraint := |meshConstraints| + 1;
        }
      }
      UpdateCompoundedConstraints();
    }

    /** addMeshConstraint: the vertex is appended; the first one starts the editing at 1. */
    method AddMeshConstraint(vertex: nat)
      requires Valid() && hasMesh && vertex < |vertices|
      modifies this`meshConstraints, this`currentlyEditedConstraint, this`compoundedConstraints
      ensures Valid()
      ensures meshConstraints == old(meshConstraints) + [vertex]
      ensures currentlyEditedConstraint == (if old(meshConstraints) == [] then 1 else old(currentlyEditedConstraint))
    {
      if |meshConstraints| == 0 {
        currentlyEditedConstraint := 1;
      }
      meshConstraints := meshConstraints + [vertex];
      UpdateCompoundedConstraints();
    }

    /**
     * loadConstraintDataFromFile: a file that does not open changes nothing; otherwise the
     * numbers read are appended, and a non-empty list restarts the editing at 1.
     */
    method LoadConstraintData(opens: bool, values: seq<nat>)
      requires Valid() && hasMesh
      requires forall i :: 0 <= i < |values| ==> values[i] < |vertices|
      modifies this`meshConstraints, this`currentlyEditedConstraint, this`compoundedConstraints
      ensures Valid()
      ensures !opens ==>
        (meshConstraints == old(meshConstraints) && currentlyEditedConstraint == old(currentlyEditedConstraint))
      ensures opens ==>
        (meshConstraints == old(meshConstraints) + values
         && currentlyEditedConstraint == (if meshConstraints == [] then 0 else 1))
    {
      if !opens {
        return;
      }
      var i := 0;
      while i < |values|
        invariant 0 <= i <= |values|
        invariant meshConstraints == old(meshConstraints) + values[..i]
        invariant compoundedConstraints == old(compoundedConstraints)
        invariant currentlyEditedConstraint == old(currentlyEditedConstraint)
      {
        meshConstraints := meshConstraints + [values[i]];
        i := i + 1;
      }
      assert values[..|values|] == values;
      if |meshConstraints| > 0 {
        currentlyEditedConstraint := 1;
      }
      UpdateCompoundedConstraints();
    }

    /** deleteMeshData: no constraint of any kind, the counter at 0, no mesh. */
    method DeleteMeshData()
      modifies this`compoundedConstraints, this`meshConstraints, this`imageConstraints,
        this`currentlyEditedConstraint, this`hasMesh, this`hasImage
      ensures Valid() && !hasMesh
      ensures compoundedConstraints == [] && meshConstraints == [] && imageConstraints == []
      ensures currentlyEditedConstraint == 0
    {
      compoundedConstraints := [];
      meshConstraints := [];
      imageConstraints := [];
      currentlyEditedConstraint := 0;
      hasMesh := false;
      // the image cannot outlive the mesh in this model (a new mesh also deletes the grid)
      hasImage := false;
    }

    /**
     * loadMeshFromFile: any previous data is deleted and the ladder goes back to the start;
     * then the mesh is loaded, and a constraint file found beside it (`found`) is read. The
     * state is MeshLoadedWithConstraints when such a file was found, MeshLoaded otherwise.
     */
    method LoadMeshFromFile(newVertices: seq<Point>, found: bool, opens: bool, values: seq<nat>)
      requires Valid()
      requires forall i :: 0 <= i < |values| ==> values[i] < |newVertices|
      modifies this
      ensures Valid() && hasMesh && !hasImage && vertices == newVertices
      ensures imageConstraints == []
      ensures meshConstraints == (if found && opens then values else [])
      ensures state == (if found then MeshLoadedWithConstraints else MeshLoaded)
      ensures forall b :: b in enabled <==> EnabledIn(state, b)
    {
      if hasMesh {
        DeleteMeshData();
        SetDeformationButtonsState(Initialized);
      }
      hasMesh := true;
      vertices := newVertices;
      if found {
        LoadConstraintData(opens, values);
      }
      if found {
        SetDeformationButtonsState(MeshLoadedWithConstraints);
      } else {
        SetDeformationButtonsState(MeshLoaded);
      }
    }

    /**
     * arap_computeDeformation: nothing without a mesh or without mesh constraints, and it
     * aborts when the two constraint lists differ in length. Otherwise each mesh constraint
     * is paired with the image constraint of the same rank, the mesh takes the deformed
     * positions, and the state becomes Deformed.
     */
    method ComputeDeformation(deformed: seq<Point>) returns (handles: seq<(nat, Point)>, ran: bool)
      requires Valid() && (hasMesh ==> |deformed| == |vertices|)
      modifies this
      ensures Valid()
      ensures ran <==> old(hasMesh) && old(meshConstraints) != [] && |old(meshConstraints)| == |old(imageConstraints)|
      ensures meshConstraints == old(meshConstraints) && imageConstraints == old(imageConstraints)
      ensures ran ==>
        (|handles| == |meshConstraints|
         && (forall i :: 0 <= i < |handles| ==> handles[i] == (meshConstraints[i], imageConstraints[i]))
         && vertices == deformed && state == Deformed)
      ensures !ran ==> vertices == old(vertices) && state == old(state)
    {
      handles := [];
      if !hasMesh || |meshConstraints| == 0 {
        return handles, false;
      }
      UpdateCompoundedConstraints();
      if |meshConstraints| != |imageConstraints| {
        return handles, false;
      }
      var i := 0;
      while i < |meshConstraints|
        invariant 0 <= i <= |meshConstraints| && |handles| == i
        invariant forall k :: 0 <= k < i ==> handles[k] == (meshConstraints[k], imageConstraints[k])
      {
        handles := handles + [(meshConstraints[i], imageConstraints[i])];
        i := i + 1;
      }
      vertices := deformed;
      UpdateCompoundedConstraints();
      SetDeformationButtonsState(Deformed);
      ran := true;
    }
  }
}
