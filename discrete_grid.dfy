/**
 * The discrete grid: a box of voxels stored in one row-major vector, with a bounding box
 * in grid space and per-axis voxel sizes. Modifying setters do nothing on a grid that is
 * not modifiable; an offline grid keeps its samples in its reader rather than in memory.
 *
 * Positions and sizes are exact reals here (float rounding is not modelled); samples are
 * integers.
 */
module DiscreteGridModel {
  import opened Wrappers
  import Lattice

  type Dims = (nat, nat, nat)
  type Vec3 = (real, real, real)

  datatype BBox = BBox(lo: Vec3, hi: Vec3)

  function Diagonal(b: BBox): Vec3
  {
    (b.hi.0 - b.lo.0, b.hi.1 - b.lo.1, b.hi.2 - b.lo.2)
  }

  predicate InGrid(dims: Dims, x: nat, y: nat, z: nat)
  {
    x < dims.0 && y < dims.1 && z < dims.2
  }

  /** The position of voxel (x, y, z) in the data vector. */
  function Index(dims: Dims, x: nat, y: nat, z: nat): nat
  {
    Lattice.LinearIndex(dims.0, dims.1, x, y, z)
  }

  /**
   * getPixel as written, on in-memory data: `None` stands for the read past the end of
   * the vector that the guard `data.size() < index` lets through when index == size.
   */
  function PixelAsWritten(dims: Dims, data: seq<int>, x: nat, y: nat, z: nat): (r: Option<int>)
    ensures r.None? <==> InGrid(dims, x, y, z) && Index(dims, x, y, z) == |data|
  {
    var index := Index(dims, x, y, z);
    if !InGrid(dims, x, y, z) then Some(0)
    else if |data| < index then Some(0)
    else if index < |data| then Some(data[index])
    else None
  }

  /** A 1×1×1 grid whose data was never filled: the guard lets the read of data[0] through. */
  lemma EmptyDataIsReadPastEnd()
    ensures PixelAsWritten((1, 1, 1), [], 0, 0, 0) == None
  {
  }

  /**
   * getPixel on in-memory data, with the guard corrected to `data.size() <= index`: zero
   * outside the grid or past the data, otherwise the sample at the voxel's index.
   */
  function PixelAt(dims: Dims, data: seq<int>, x: nat, y: nat, z: nat): (r: int)
    ensures !InGrid(dims, x, y, z) ==> r == 0
    ensures InGrid(dims, x, y, z) && Index(dims, x, y, z) < |data| ==> r == data[Index(dims, x, y, z)]
    ensures Index(dims, x, y, z) >= |data| ==> r == 0
  {
    var index := Index(dims, x, y, z);
    if !InGrid(dims, x, y, z) then 0
    else if |data| <= index then 0
    else data[index]
  }

  /** The corrected lookup agrees with the code as written wherever the latter reads inside the data. */
  lemma PixelAsWrittenAgrees(dims: Dims, data: seq<int>, x: nat, y: nat, z: nat)
    requires PixelAsWritten(dims, data, x, y, z).Some?
    ensures PixelAsWritten(dims, data, x, y, z).value == PixelAt(dims, data, x, y, z)
  {
  }

  /** Writing one voxel changes what that voxel reads and no other voxel of the grid. */
  lemma PixelAfterWrite(dims: Dims, data: seq<int>, x: nat, y: nat, z: nat, v: int, x': nat, y': nat, z': nat)
    requires InGrid(dims, x, y, z) && Index(dims, x, y, z) < |data|
    ensures PixelAt(dims, data[Index(dims, x, y, z) := v], x', y', z') ==
      if (x', y', z') == (x, y, z) then v else PixelAt(dims, data, x', y', z')
  {
    if InGrid(dims, x', y', z') && (x', y', z') != (x, y, z) && Index(dims, x, y, z) == Index(dims, x', y', z') {
      Lattice.Injective(dims.0, dims.1, x, y, z, x', y', z');
    }
  }

  /**
   * updateVoxelDimensions: with every dimension set, each voxel size is the bounding box's
   * extent over the resolution on that axis; otherwise the sizes stay as they are.
   */
  function VoxelSizes(bb: BBox, dims: Dims, current: Vec3): (v: Vec3)
    ensures dims.0 == 0 || dims.1 == 0 || dims.2 == 0 ==> v == current
    ensures dims.0 > 0 && dims.1 > 0 && dims.2 > 0 ==>
      v.0 * dims.0 as real == Diagonal(bb).0 && v.1 * dims.1 as real == Diagonal(bb).1
      && v.2 * dims.2 as real == Diagonal(bb).2
  {
    if dims.0 == 0 || dims.1 == 0 || dims.2 == 0 then current
    else
      var diag := Diagonal(bb);
      (diag.0 / dims.0 as real, diag.1 / dims.1 as real, diag.2 / dims.2 as real)
  }

  class DiscreteGrid {
    var modifiable: bool
    var isOffline: bool
    /** The attached reader downsamples: an offline grid then asks it for its pixels. */
    var readerDownsamples: bool
    var gridDimensions: Dims
    var data: seq<int>
    var voxelDimensions: Vec3
    var boundingBox: BBox

    constructor (isModifiable: bool)
      ensures modifiable == isModifiable && !isOffline && !readerDownsamples
      ensures gridDimensions == (0, 0, 0) && data == [] && voxelDimensions == (1.0, 1.0, 1.0)
    {
      modifiable := isModifiable;
      isOffline := false;
      readerDownsamples := false;
      gridDimensions := (0, 0, 0);
      data := [];
      voxelDimensions := (1.0, 1.0, 1.0);
      boundingBox := BBox((0.0, 0.0, 0.0), (0.0, 0.0, 0.0));
    }

    /**
     * getPixel: zero outside the grid; the reader's answer (`readerPixel`) for an offline
     * grid whose reader downsamples; otherwise the in-memory lookup.
     */
    function GetPixel(x: nat, y: nat, z: nat, readerPixel: int): (r: int)
      reads this
      ensures !InGrid(gridDimensions, x, y, z) ==> r == 0
      ensures !(isOffline && readerDownsamples) ==> r == PixelAt(gridDimensions, data, x, y, z)
    {
      if !InGrid(gridDimensions, x, y, z) then 0
      else if isOffline && readerDownsamples then readerPixel
      else PixelAt(gridDimensions, data, x, y, z)
    }

    /**
     * setPixel: a no-op on a grid that is not modifiable or outside the grid, otherwise
     * the one sample at the voxel's index changes. The source indexes the vector unchecked,
     * so the voxel must lie inside the data.
     */
    method SetPixel(x: nat, y: nat, z: nat, value: int)
      requires modifiable && InGrid(gridDimensions, x, y, z) ==> Index(gridDimensions, x, y, z) < |data|
      modifies this`data
      ensures data == if modifiable && InGrid(gridDimensions, x, y, z)
        then old(data)[Index(gridDimensions, x, y, z) := value] else old(data)
    {
      if !modifiable {
        return;
      }
      if x >= gridDimensions.0 || y >= gridDimensions.1 || z >= gridDimensions.2 {
        return;
      }
      data := data[Index(gridDimensions, x, y, z) := value];
    }

    /** hasData: an offline grid has none; otherwise whether the vector was filled. */
    predicate HasData()
      reads this
    {
      !isOffline && |data| != 0
    }

    /** getDataPtr: nothing (a null pointer) when offline, otherwise the samples. */
    function DataPtr(): (r: Option<seq<int>>)
      reads this
      ensures r.None? <==> isOffline
      ensures r.Some? ==> r.value == data
    {
      if isOffline then None else Some(data)
    }

    /** setData: the grid's samples become a copy of the given ones. */
    method SetData(samples: seq<int>)
      modifies this`data
      ensures data == samples
    {
      data := samples;
    }

    method SetModifiable(m: bool)
      modifies this`modifiable
      ensures modifiable == m
    {
      modifiable := m;
    }

    method SetOffline(off: bool)
      modifies this`isOffline
      ensures isOffline == off
    {
      isOffline := off;
    }

    /** updateVoxelDimensions */
    method UpdateVoxelDimensions()
      modifies this`voxelDimensions
      ensures voxelDimensions == VoxelSizes(boundingBox, gridDimensions, old(voxelDimensions))
    {
      if gridDimensions.0 == 0 || gridDimensions.1 == 0 || gridDimensions.2 == 0 {
        return;
      }
      var diag := Diagonal(boundingBox);
      voxelDimensions := (diag.0 / gridDimensions.0 as real, diag.1 / gridDimensions.1 as real,
                          diag.2 / gridDimensions.2 as real);
    }

    /** setResolution: nothing on a grid that is not modifiable; otherwise new dimensions and voxel sizes. */
    method SetResolution(dims: Dims)
      modifies this`gridDimensions, this`voxelDimensions
      ensures !modifiable ==> gridDimensions == old(gridDimensions) && voxelDimensions == old(voxelDimensions)
      ensures modifiable ==>
        gridDimensions == dims && voxelDimensions == VoxelSizes(boundingBox, dims, old(voxelDimensions))
    {
      if !modifiable {
        return;
      }
      gridDimensions := dims;
      UpdateVoxelDimensions();
    }

    /** setBoundingBox: nothing on a grid that is not modifiable; otherwise a new box and voxel sizes. */
    method SetBoundingBox(renderWindow: BBox)
      modifies this`boundingBox, this`voxelDimensions
      ensures !modifiable ==> boundingBox == old(boundingBox) && voxelDimensions == old(voxelDimensions)
      ensures modifiable ==>
        boundingBox == renderWindow && voxelDimensions == VoxelSizes(renderWindow, gridDimensions, old(voxelDimensions))
    {
      if !modifiable {
        return;
      }
      boundingBox := renderWindow;
      UpdateVoxelDimensions();
    }
  }

  /** A grid reports data only when its samples are in memory and not empty. */
  lemma HasDataMeansSamples(g: DiscreteGrid)
    requires g.HasData()
    ensures g.DataPtr().Some? && |g.DataPtr().value| > 0
  {
  }
}
