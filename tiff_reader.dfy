/**
 * The templated TIFF reader: a stack of slices, each made of one TIFF frame per channel
 * stack. Loading a slice interleaves the channel planes sample by sample; reading a
 * sub-region copies the part of each source line that lies inside the stack into a
 * zero-filled target, clipping at the stack's edges; parsing checks the user's stacks of
 * file names and builds the list of frames.
 *
 * libtiff is not modelled. `contents(frame)` stands for the samples decoded from the
 * frame's strips, `dirCount(file)` for the number of directories of a file, and
 * `compatible(frame)` for the metadata comparison with the reference frame, and `spp(frame)`
 * for its samples per pixel. A slice has one frame per channel stack; the voxel dimension
 * is the sum of the samples per pixel of the first slice's frames, which is the number of
 * frames only when every frame holds a single sample.
 */
module TiffReader {
  import opened Wrappers
  import CInt
  import Lattice

  type Dims = (nat, nat, nat)

  /** A directory of a TIFF file: one plane of one slice. */
  datatype Frame = Frame(file: string, directory: nat)

  // ---------------------------------------------------------------------------------
  // Channel interleaving (loadSlice)

  /** Position of sample p of channel c in a slice that interleaves `dim` channels. */
  function Slot(dim: nat, c: nat, p: nat): nat
  {
    c + dim * p
  }

  lemma SlotInRange(dim: nat, n: nat, c: nat, p: nat)
    requires c < dim && p < n
    ensures Slot(dim, c, p) < n * dim
  {
    Lattice.InRange(dim, n, 1, c, p, 0);
  }

  /** A slot gives back its channel as the remainder and its pixel as the quotient. */
  lemma SlotSplits(dim: nat, c: nat, p: nat)
    requires c < dim
    ensures Slot(dim, c, p) % dim == c && Slot(dim, c, p) / dim == p
  {
    CInt.DivModUnique(Slot(dim, c, p), dim, p, c);
  }

  predicate PlanesShaped(planes: seq<seq<int>>, dim: nat, n: nat)
  {
    |planes| == dim && forall c :: 0 <= c < dim ==> |planes[c]| == n
  }

  function InterleavedSample(planes: seq<seq<int>>, dim: nat, n: nat, t: nat): int
    requires PlanesShaped(planes, dim, n) && dim > 0 && t < n * dim
  {
    assert t / dim < n by {
      CInt.EuclideanBounds(t, dim);
      if t / dim >= n {
        CInt.MulMonotone(dim, n, t / dim);
      }
    }
    planes[t % dim][t / dim]
  }

  /** A slice as loadSlice leaves it: entry t is pixel t / dim of channel t % dim. */
  function Interleaved(planes: seq<seq<int>>, dim: nat, n: nat): (r: seq<int>)
    requires PlanesShaped(planes, dim, n)
    ensures |r| == n * dim
  {
    if dim == 0 then []
    else seq(n * dim, t requires 0 <= t < n * dim => InterleavedSample(planes, dim, n, t))
  }

  /** Pixel p of channel c sits at p·dim + c of the interleaved slice. */
  lemma InterleavedAt(planes: seq<seq<int>>, dim: nat, n: nat, c: nat, p: nat)
    requires PlanesShaped(planes, dim, n) && c < dim && p < n
    ensures Slot(dim, c, p) < n * dim && Interleaved(planes, dim, n)[Slot(dim, c, p)] == planes[c][p]
  {
    SlotInRange(dim, n, c, p);
    SlotSplits(dim, c, p);
  }

  /** The slice under construction: planes before i, and the first q pixels of plane i, are in place. */
  ghost predicate Filled(full: seq<int>, planes: seq<seq<int>>, dim: nat, n: nat, i: nat, q: nat)
  {
    PlanesShaped(planes, dim, n) && |full| == n * dim &&
    forall c, p :: 0 <= c < dim && 0 <= p < n ==>
      Slot(dim, c, p) < |full| &&
      full[Slot(dim, c, p)] == if c < i || (c == i && p < q) then planes[c][p] else 0
  }

  lemma FilledStart(planes: seq<seq<int>>, dim: nat, n: nat)
    requires PlanesShaped(planes, dim, n)
    ensures Filled(seq(n * dim, _ => 0), planes, dim, n, 0, 0)
  {
    forall c, p | 0 <= c < dim && 0 <= p < n
      ensures Slot(dim, c, p) < n * dim
    {
      SlotInRange(dim, n, c, p);
    }
  }

  lemma FilledStep(full: seq<int>, planes: seq<seq<int>>, dim: nat, n: nat, i: nat, q: nat)
    requires PlanesShaped(planes, dim, n) && i < dim && q < n
    requires Filled(full, planes, dim, n, i, q)
    ensures Filled(full[Slot(dim, i, q) := planes[i][q]], planes, dim, n, i, q + 1)
  {
    SlotInRange(dim, n, i, q);
    SlotSplits(dim, i, q);
    forall c, p | 0 <= c < dim && 0 <= p < n && (c, p) != (i, q)
      ensures Slot(dim, c, p) != Slot(dim, i, q)
    {
      SlotSplits(dim, c, p);
    }
  }

  lemma FilledNextPlane(full: seq<int>, planes: seq<seq<int>>, dim: nat, n: nat, i: nat)
    requires Filled(full, planes, dim, n, i, n)
    ensures Filled(full, planes, dim, n, i + 1, 0)
  {
  }

  lemma FilledDone(full: seq<int>, planes: seq<seq<int>>, dim: nat, n: nat)
    requires PlanesShaped(planes, dim, n) && Filled(full, planes, dim, n, dim, 0)
    ensures full == Interleaved(planes, dim, n)
  {
    if dim > 0 {
      forall t | 0 <= t < n * dim
        ensures full[t] == Interleaved(planes, dim, n)[t]
      {
        var c, p := t % dim, t / dim;
        assert t == Slot(dim, c, p);
        assert p < n by {
          CInt.EuclideanBounds(t, dim);
          if p >= n {
            CInt.MulMonotone(dim, n, p);
          }
        }
        InterleavedAt(planes, dim, n, c, p);
      }
    }
  }

  /**
   * framedata: the n-value buffer the strips of one frame are read into, holding the frame's
   * decoded samples and zero past them.
   */
  function FrameBuffer(data: seq<int>, n: nat): (b: seq<int>)
    ensures |b| == n
    ensures forall p :: 0 <= p < n ==> b[p] == (if p < |data| then data[p] else 0)
  {
    seq(n, p requires 0 <= p < n => if p < |data| then data[p] else 0)
  }

  /**
   * The planes loadSlice combines for one slice: the buffer of frame c for each of the dim
   * planes. A plane past the slice's frames is never read (loadSlice stops there first) and
   * stands at zeros.
   */
  function SlicePlanes(image: seq<Frame>, dim: nat, n: nat, contents: Frame -> seq<int>): (planes: seq<seq<int>>)
    ensures PlanesShaped(planes, dim, n)
    ensures forall c :: 0 <= c < dim && c < |image| ==> planes[c] == FrameBuffer(contents(image[c]), n)
  {
    seq(dim, c requires 0 <= c < dim => if c < |image| then FrameBuffer(contents(image[c]), n) else seq(n, _ => 0))
  }

  /** The whole stack, read through `contents`. */
  function StackPlanes(images: seq<seq<Frame>>, dim: nat, n: nat, contents: Frame -> seq<int>): (st: seq<seq<seq<int>>>)
    ensures |st| == |images| && StackShaped(st, dim, n)
    ensures forall s :: 0 <= s < |images| ==> st[s] == SlicePlanes(images[s], dim, n, contents)
  {
    seq(|images|, s requires 0 <= s < |images| => SlicePlanes(images[s], dim, n, contents))
  }

  /** Whether every slice read from originZ on has a frame for each of the dim planes. */
  predicate ReadSlicesHaveFrames(images: seq<seq<Frame>>, dim: nat, originZ: nat, slices: nat)
  {
    forall s :: originZ <= s < originZ + slices && s < |images| ==> dim <= |images[s]|
  }

  /** Every slice has one plane per channel, each of the resolution's size. */
  predicate StackShaped(st: seq<seq<seq<int>>>, dim: nat, n: nat)
  {
    forall s :: 0 <= s < |st| ==> PlanesShaped(st[s], dim, n)
  }

  // ---------------------------------------------------------------------------------
  // Sub-region clipping (template_tiff_read_sub_region)

  const TWO_POW_64: int := 0x1_0000_0000_0000_0000

  /** The slices that exist from originZ on, at most sizeZ of them. */
  function SlicesReadable(originZ: nat, sizeZ: nat, depth: nat): (r: nat)
    requires originZ < depth
    ensures r <= sizeZ && originZ + r <= depth && (r == sizeZ || originZ + r == depth)
  {
    (if originZ + sizeZ >= depth then depth else originZ + sizeZ) - originZ
  }

  /** The number of lines read as written: the end is already relative, and origin.y is subtracted once more. */
  function LinesReadableAsWritten(originY: nat, sizeY: nat, resY: nat): (r: nat)
    requires originY < resY
    ensures r < TWO_POW_64
  {
    ((if originY + sizeY >= resY then resY - originY else sizeY) - originY) % TWO_POW_64
  }

  /** The lines that exist from originY on, at most sizeY of them. */
  function LinesReadable(originY: nat, sizeY: nat, resY: nat): (r: nat)
    requires originY < resY
    ensures r <= sizeY && originY + r <= resY && (r == sizeY || originY + r == resY)
  {
    if originY + sizeY >= resY then resY - originY else sizeY
  }

  /** A region two lines high starting at line 1: the code as written copies one line. */
  lemma LinesDroppedAsWritten()
    ensures LinesReadableAsWritten(1, 2, 10) == 1
    ensures LinesReadable(1, 2, 10) == 2
  {
  }

  /** A region starting below its own height: the unsigned count wraps and the copy runs past the slice. */
  lemma LinesWrapAsWritten()
    ensures LinesReadableAsWritten(3, 2, 10) == TWO_POW_64 - 1
    ensures LinesReadable(3, 2, 10) == 2
  {
  }

  /** From the stack's first line the two counts agree. */
  lemma LinesAgreeFromTop(sizeY: nat, resY: nat)
    requires 0 < resY && sizeY < TWO_POW_64
    ensures LinesReadableAsWritten(0, sizeY, resY) == LinesReadable(0, sizeY, resY)
  {
  }

  /** The values of a source line that exist from origin.x on, at most sizeX pixels' worth. */
  function ValuesPerLine(originX: nat, sizeX: nat, resX: nat, dim: nat): (r: nat)
    requires originX < resX
    ensures r <= sizeX * dim && originX * dim + r <= resX * dim
    ensures r == sizeX * dim || originX * dim + r == resX * dim
  {
    var lineSize, lineBegin := resX * dim, originX * dim;
    CInt.MulMonotone(dim, originX, resX);
    (if lineBegin + sizeX * dim >= lineSize then lineSize else lineBegin + sizeX * dim) - lineBegin
  }

  /** The region's origin lies outside the stack on some axis. */
  predicate OriginOutside(resX: nat, resY: nat, depth: nat, origin: Dims)
  {
    origin.0 >= resX || origin.1 >= resY || origin.2 >= depth
  }

  /** Where value x of line y of slice z of the region sits in the output. */
  function TargetIndex(size: Dims, dim: nat, x: nat, y: nat, z: nat): nat
  {
    Lattice.LinearIndex(size.0 * dim, size.1, x, y, z)
  }

  function RegionLength(size: Dims, dim: nat): nat
  {
    size.0 * dim * size.1 * size.2
  }

  /** The source position of value x of line y of the region, in the interleaved slice. */
  function SourceIndex(resX: nat, dim: nat, origin: Dims, x: nat, y: nat): nat
  {
    Lattice.LinearIndex(resX * dim, 1, origin.0 * dim + x, origin.1 + y, 0)
  }

  lemma SourceInRange(resX: nat, resY: nat, dim: nat, origin: Dims, x: nat, y: nat)
    requires origin.0 * dim + x < resX * dim && origin.1 + y < resY
    ensures SourceIndex(resX, dim, origin, x, y) < (resX * resY) * dim
  {
    Lattice.InRange(resX * dim, resY, 1, origin.0 * dim + x, origin.1 + y, 0);
    assert resX * dim * resY * 1 == (resX * resY) * dim;
  }

  /**
   * The value the sub-region read leaves at (x, y, z) of the region: the interleaved source
   * value when the position lies inside the stack, zero otherwise.
   */
  function RegionValue(st: seq<seq<seq<int>>>, resX: nat, resY: nat, dim: nat, origin: Dims, size: Dims,
                       x: nat, y: nat, z: nat): int
    requires StackShaped(st, dim, resX * resY)
  {
    if OriginOutside(resX, resY, |st|, origin) then 0
    else if z < SlicesReadable(origin.2, size.2, |st|) && y < LinesReadable(origin.1, size.1, resY)
            && x < ValuesPerLine(origin.0, size.0, resX, dim) then
      SourceInRange(resX, resY, dim, origin, x, y);
      Interleaved(st[origin.2 + z], dim, resX * resY)[SourceIndex(resX, dim, origin, x, y)]
    else 0
  }

  /** Positions of the region visited before (xc, yc, zc) in the copy's order. */
  predicate Before(x: nat, y: nat, z: nat, xc: nat, yc: nat, zc: nat)
  {
    z < zc || (z == zc && (y < yc || (y == yc && x < xc)))
  }

  /** The output so far: positions visited hold their region value, the rest is still zero. */
  ghost predicate Copied(values: seq<int>, st: seq<seq<seq<int>>>, resX: nat, resY: nat, dim: nat,
                         origin: Dims, size: Dims, xc: nat, yc: nat, zc: nat)
    requires StackShaped(st, dim, resX * resY)
  {
    |values| == RegionLength(size, dim) &&
    forall x, y, z :: 0 <= x < size.0 * dim && 0 <= y < size.1 && 0 <= z < size.2 ==>
      TargetIndex(size, dim, x, y, z) < |values| &&
      values[TargetIndex(size, dim, x, y, z)] ==
        if Before(x, y, z, xc, yc, zc) then RegionValue(st, resX, resY, dim, origin, size, x, y, z) else 0
  }

  lemma TargetInRange(size: Dims, dim: nat, x: nat, y: nat, z: nat)
    requires x < size.0 * dim && y < size.1 && z < size.2
    ensures TargetIndex(size, dim, x, y, z) < RegionLength(size, dim)
  {
    Lattice.InRange(size.0 * dim, size.1, size.2, x, y, z);
  }

  lemma CopiedStart(st: seq<seq<seq<int>>>, resX: nat, resY: nat, dim: nat, origin: Dims, size: Dims)
    requires StackShaped(st, dim, resX * resY)
    ensures Copied(seq(RegionLength(size, dim), _ => 0), st, resX, resY, dim, origin, size, 0, 0, 0)
  {
    forall x, y, z | 0 <= x < size.0 * dim && 0 <= y < size.1 && 0 <= z < size.2
      ensures TargetIndex(size, dim, x, y, z) < RegionLength(size, dim)
    {
      TargetInRange(size, dim, x, y, z);
    }
  }

  /** With the origin outside, the zero-filled output is already the whole answer. */
  lemma CopiedOutside(values: seq<int>, st: seq<seq<seq<int>>>, resX: nat, resY: nat, dim: nat,
                      origin: Dims, size: Dims)
    requires StackShaped(st, dim, resX * resY) && OriginOutside(resX, resY, |st|, origin)
    requires Copied(values, st, resX, resY, dim, origin, size, 0, 0, 0)
    ensures Copied(values, st, resX, resY, dim, origin, size, 0, 0, size.2)
  {
  }

  lemma CopiedStep(values: seq<int>, st: seq<seq<seq<int>>>, resX: nat, resY: nat, dim: nat,
                   origin: Dims, size: Dims, x: nat, y: nat, z: nat)
    requires StackShaped(st, dim, resX * resY) && !OriginOutside(resX, resY, |st|, origin)
    requires z < SlicesReadable(origin.2, size.2, |st|) && y < LinesReadable(origin.1, size.1, resY)
    requires x < ValuesPerLine(origin.0, size.0, resX, dim)
    requires Copied(values, st, resX, resY, dim, origin, size, x, y, z)
    ensures TargetIndex(size, dim, x, y, z) < |values|
    ensures Copied(values[TargetIndex(size, dim, x, y, z) := RegionValue(st, resX, resY, dim, origin, size, x, y, z)],
                   st, resX, resY, dim, origin, size, x + 1, y, z)
  {
    TargetInRange(size, dim, x, y, z);
    forall x', y', z' | 0 <= x' < size.0 * dim && 0 <= y' < size.1 && 0 <= z' < size.2 && (x', y', z') != (x, y, z)
      ensures TargetIndex(size, dim, x', y', z') != TargetIndex(size, dim, x, y, z)
    {
      if TargetIndex(size, dim, x', y', z') == TargetIndex(size, dim, x, y, z) {
        Lattice.Injective(size.0 * dim, size.1, x, y, z, x', y', z');
      }
    }
  }

  lemma CopiedLineDone(values: seq<int>, st: seq<seq<seq<int>>>, resX: nat, resY: nat, dim: nat,
                       origin: Dims, size: Dims, y: nat, z: nat)
    requires StackShaped(st, dim, resX * resY) && !OriginOutside(resX, resY, |st|, origin)
    requires Copied(values, st, resX, resY, dim, origin, size, ValuesPerLine(origin.0, size.0, resX, dim), y, z)
    ensures Copied(values, st, resX, resY, dim, origin, size, 0, y + 1, z)
  {
  }

  lemma CopiedSliceDone(values: seq<int>, st: seq<seq<seq<int>>>, resX: nat, resY: nat, dim: nat,
                        origin: Dims, size: Dims, z: nat)
    requires StackShaped(st, dim, resX * resY) && !OriginOutside(resX, resY, |st|, origin)
    requires Copied(values, st, resX, resY, dim, origin, size, 0, LinesReadable(origin.1, size.1, resY), z)
    ensures Copied(values, st, resX, resY, dim, origin, size, 0, 0, z + 1)
  {
  }

  lemma CopiedDone(values: seq<int>, st: seq<seq<seq<int>>>, resX: nat, resY: nat, dim: nat,
                   origin: Dims, size: Dims)
    requires StackShaped(st, dim, resX * resY) && !OriginOutside(resX, resY, |st|, origin)
    requires Copied(values, st, resX, resY, dim, origin, size, 0, 0, SlicesReadable(origin.2, size.2, |st|))
    ensures Copied(values, st, resX, resY, dim, origin, size, 0, 0, size.2)
  {
  }

  /** An origin outside the stack gives an all-zero region. */
  lemma OutsideRegionIsZero(st: seq<seq<seq<int>>>, resX: nat, resY: nat, dim: nat, origin: Dims, size: Dims,
                            x: nat, y: nat, z: nat)
    requires StackShaped(st, dim, resX * resY) && OriginOutside(resX, resY, |st|, origin)
    ensures RegionValue(st, resX, resY, dim, origin, size, x, y, z) == 0
  {
  }

  /** Slices of the region past the end of the stack stay zero. */
  lemma SlicesPastEndAreZero(st: seq<seq<seq<int>>>, resX: nat, resY: nat, dim: nat, origin: Dims, size: Dims,
                             x: nat, y: nat, z: nat)
    requires StackShaped(st, dim, resX * resY) && origin.2 + z >= |st|
    ensures RegionValue(st, resX, resY, dim, origin, size, x, y, z) == 0
  {
  }

  /** Lines of the region past the last line of the images stay zero. */
  lemma LinesPastEndAreZero(st: seq<seq<seq<int>>>, resX: nat, resY: nat, dim: nat, origin: Dims, size: Dims,
                            x: nat, y: nat, z: nat)
    requires StackShaped(st, dim, resX * resY) && origin.1 + y >= resY
    ensures RegionValue(st, resX, resY, dim, origin, size, x, y, z) == 0
  {
    if !OriginOutside(resX, resY, |st|, origin) {
      assert y >= LinesReadable(origin.1, size.1, resY);
    }
  }

  /** Values of a region line past the end of the source line stay zero. */
  lemma ColumnsPastEndAreZero(st: seq<seq<seq<int>>>, resX: nat, resY: nat, dim: nat, origin: Dims, size: Dims,
                              x: nat, y: nat, z: nat)
    requires StackShaped(st, dim, resX * resY) && origin.0 * dim + x >= resX * dim
    ensures RegionValue(st, resX, resY, dim, origin, size, x, y, z) == 0
  {
    if !OriginOutside(resX, resY, |st|, origin) {
      assert x >= ValuesPerLine(origin.0, size.0, resX, dim);
    }
  }

  /** Pixel (px, py) of a plane, row by row. */
  function PixelIndex(resX: nat, resY: nat, px: nat, py: nat): (p: nat)
    requires px < resX && py < resY
    ensures p < resX * resY && p == Lattice.LinearIndex(resX, 1, px, py, 0)
  {
    Lattice.InRange(resX, resY, 1, px, py, 0);
    Lattice.LinearIndex(resX, 1, px, py, 0)
  }

  /** Value x of a line is channel x % dim of pixel origin.x + x / dim of that line. */
  lemma SourceIsSlot(resX: nat, dim: nat, origin: Dims, x: nat, y: nat)
    requires dim > 0
    ensures SourceIndex(resX, dim, origin, x, y) ==
      Slot(dim, x % dim, Lattice.LinearIndex(resX, 1, origin.0 + x / dim, origin.1 + y, 0))
  {
    var q, c, py := x / dim, x % dim, origin.1 + y;
    assert x == dim * q + c;
    assert dim * (origin.0 + q) == dim * origin.0 + dim * q;
    assert dim * (origin.0 + q + resX * py) == dim * (origin.0 + q) + dim * (resX * py);
    assert dim * (resX * py) == resX * dim * py;
  }

  /** A pixel inside a line gives a value inside the line. */
  lemma LineOffsetInRange(resX: nat, dim: nat, originX: nat, x: nat)
    requires dim > 0 && originX + x / dim < resX
    ensures originX * dim + x < resX * dim
  {
    var q, c := x / dim, x % dim;
    assert x == q * dim + c;
    CInt.MulDistributes(originX, q, dim);
    CInt.MulMonotone(dim, originX + q + 1, resX);
    CInt.MulSucc(dim, originX + q);
  }

  /** Inside the stack, the region reads channel x % dim of pixel (origin.x + x / dim, origin.y + y) of slice origin.z + z. */
  lemma RegionReadsPixel(st: seq<seq<seq<int>>>, resX: nat, resY: nat, dim: nat, origin: Dims, size: Dims,
                         x: nat, y: nat, z: nat)
    requires StackShaped(st, dim, resX * resY) && dim > 0
    requires x < size.0 * dim && y < size.1 && z < size.2
    requires origin.0 + x / dim < resX && origin.1 + y < resY && origin.2 + z < |st|
    ensures RegionValue(st, resX, resY, dim, origin, size, x, y, z) ==
      st[origin.2 + z][x % dim][PixelIndex(resX, resY, origin.0 + x / dim, origin.1 + y)]
  {
    var p := PixelIndex(resX, resY, origin.0 + x / dim, origin.1 + y);
    LineOffsetInRange(resX, dim, origin.0, x);
    assert !OriginOutside(resX, resY, |st|, origin);
    assert x < ValuesPerLine(origin.0, size.0, resX, dim);
    assert y < LinesReadable(origin.1, size.1, resY);
    assert z < SlicesReadable(origin.2, size.2, |st|);
    Lattice.InRange(resX, resY, 1, origin.0 + x / dim, origin.1 + y, 0);
    SourceIsSlot(resX, dim, origin, x, y);
    assert PlanesShaped(st[origin.2 + z], dim, resX * resY);
    InterleavedAt(st[origin.2 + z], dim, resX * resY, x % dim, p);
  }

  // ---------------------------------------------------------------------------------
  // Parsing the stacks of file names

  /** Every stack of file names has as many files as the first. */
  predicate SameFileCounts(f: seq<seq<string>>)
  {
    forall c :: 0 <= c < |f| ==> |f[c]| == |f[0]|
  }

  /** One slice: directory `dir` of file `fi` of every channel stack, in stack order. */
  function Row(f: seq<seq<string>>, fi: nat, dir: nat): (image: seq<Frame>)
    requires |f| > 0 && SameFileCounts(f) && fi < |f[0]|
    ensures |image| == |f|
  {
    seq(|f|, c requires 0 <= c < |f| => Frame(f[c][fi], dir))
  }

  /** The slices of file `fi`: one per directory of the first stack's file. */
  function Block(f: seq<seq<string>>, dirCount: string -> nat, fi: nat): (block: seq<seq<Frame>>)
    requires |f| > 0 && SameFileCounts(f) && fi < |f[0]|
    ensures |block| == dirCount(f[0][fi])
  {
    seq(dirCount(f[0][fi]), dir requires 0 <= dir => Row(f, fi, dir))
  }

  /** The slices of the first k files, in file order. */
  function FramesOf(f: seq<seq<string>>, dirCount: string -> nat, k: nat): seq<seq<Frame>>
    requires |f| > 0 && SameFileCounts(f) && k <= |f[0]|
  {
    if k == 0 then [] else FramesOf(f, dirCount, k - 1) + Block(f, dirCount, k - 1)
  }

  /** The total of the directory counts of the first stack's first k files. */
  function DirTotal(f: seq<seq<string>>, dirCount: string -> nat, k: nat): nat
    requires |f| > 0 && k <= |f[0]|
  {
    if k == 0 then 0 else DirTotal(f, dirCount, k - 1) + dirCount(f[0][k - 1])
  }

  /** The stack has one slice per directory, each made of one frame per channel stack. */
  lemma {:induction false} FramesOfShape(f: seq<seq<string>>, dirCount: string -> nat, k: nat)
    requires |f| > 0 && SameFileCounts(f) && k <= |f[0]|
    ensures |FramesOf(f, dirCount, k)| == DirTotal(f, dirCount, k)
    ensures forall s :: 0 <= s < |FramesOf(f, dirCount, k)| ==> |FramesOf(f, dirCount, k)[s]| == |f|
  {
    if k > 0 {
      FramesOfShape(f, dirCount, k - 1);
    }
  }

  predicate DirCountsAgree(f: seq<seq<string>>, dirCount: string -> nat, fi: nat)
    requires |f| > 0 && SameFileCounts(f) && fi < |f[0]|
  {
    forall c :: 0 <= c < |f| ==> dirCount(f[c][fi]) == dirCount(f[0][fi])
  }

  predicate BlockCompatible(f: seq<seq<string>>, dirCount: string -> nat, compatible: Frame -> bool, fi: nat)
    requires |f| > 0 && SameFileCounts(f) && fi < |f[0]|
  {
    forall dir, c :: 0 <= dir < dirCount(f[0][fi]) && 0 <= c < |f| ==> compatible(Frame(f[c][fi], dir))
  }

  /**
   * The parse succeeds when there is at least one stack, no stack is empty, the reference
   * frame (directory 0 of the first file) exists and matches the backend, every stack has
   * as many files, and for every file index all stacks' files have as many directories,
   * each compatible with the reference frame.
   */
  predicate ParseSucceeds(f: seq<seq<string>>, referenceOk: bool, dirCount: string -> nat, compatible: Frame -> bool)
  {
    |f| > 0 && (forall c :: 0 <= c < |f| ==> |f[c]| > 0) && referenceOk && dirCount(f[0][0]) > 0 && SameFileCounts(f)
    && forall fi :: 0 <= fi < |f[0]| ==>
         DirCountsAgree(f, dirCount, fi) && BlockCompatible(f, dirCount, compatible, fi)
  }

  /** The samples of a voxel of a slice: the samples per pixel of its frames, summed over the channel stacks. */
  function SlotSamples(image: seq<Frame>, spp: Frame -> nat): nat
  {
    if image == [] then 0 else SlotSamples(image[..|image| - 1], spp) + spp(image[|image| - 1])
  }

  /** With one sample per frame, a slice has as many samples per voxel as it has frames. */
  lemma {:induction false} SingleSampleFramesCountChannels(image: seq<Frame>, spp: Frame -> nat)
    requires forall fr :: spp(fr) == 1
    ensures SlotSamples(image, spp) == |image|
  {
    if image != [] {
      SingleSampleFramesCountChannels(image[..|image| - 1], spp);
    }
  }

  /** An RGB frame counts three samples: one three-sample channel stack gives a dimensionality of 3. */
  lemma RgbStackCountsThree(fr: Frame, spp: Frame -> nat)
    requires spp(fr) == 3
    ensures SlotSamples([fr], spp) == 3
  {
    assert [fr][..0] == [];
  }

  /**
   * Frames of at least one sample give at least one sample per frame, and a single
   * multi-sample frame (RGB) gives more samples than frames: the dimensionality the parse
   * sets then exceeds the slice's frame count, and loadSlice reads past the frames.
   */
  lemma {:induction false} MultiSampleSliceIsShort(image: seq<Frame>, spp: Frame -> nat)
    requires forall i :: 0 <= i < |image| ==> spp(image[i]) >= 1
    ensures SlotSamples(image, spp) >= |image|
    ensures (exists i :: 0 <= i < |image| && spp(image[i]) > 1) ==> SlotSamples(image, spp) > |image|
  {
    if image != [] {
      var init := image[..|image| - 1];
      assert forall i :: 0 <= i < |init| ==> init[i] == image[i];
      MultiSampleSliceIsShort(init, spp);
      if exists i :: 0 <= i < |image| && spp(image[i]) > 1 {
        var i :| 0 <= i < |image| && spp(image[i]) > 1;
        if i < |init| {
          assert spp(init[i]) > 1;
        }
      }
    }
  }

  /** The first slice a successful parse appends is directory 0 of every stack's first file. */
  lemma FirstParsedSlice(f: seq<seq<string>>, referenceOk: bool, dirCount: string -> nat, compatible: Frame -> bool)
    requires ParseSucceeds(f, referenceOk, dirCount, compatible)
    ensures |FramesOf(f, dirCount, |f[0]|)| > 0
    ensures FramesOf(f, dirCount, |f[0]|)[0] == Row(f, 0, 0)
  {
    FramesOfPrefix(f, dirCount, |f[0]|);
    var b := Block(f, dirCount, 0);
    var all := FramesOf(f, dirCount, |f[0]|);
    assert |b| > 0;
    assert all[0] == all[..|b|][0] == b[0];
  }

  /** Past the first file, the slices begin with the first file's block. */
  lemma {:induction false} FramesOfPrefix(f: seq<seq<string>>, dirCount: string -> nat, k: nat)
    requires |f| > 0 && SameFileCounts(f) && 0 < k <= |f[0]|
    ensures |FramesOf(f, dirCount, k)| >= |Block(f, dirCount, 0)|
    ensures FramesOf(f, dirCount, k)[..|Block(f, dirCount, 0)|] == Block(f, dirCount, 0)
  {
    if k > 1 {
      FramesOfPrefix(f, dirCount, k - 1);
      var b := Block(f, dirCount, 0);
      var prev := FramesOf(f, dirCount, k - 1);
      assert FramesOf(f, dirCount, k) == prev + Block(f, dirCount, k - 1);
      assert (prev + Block(f, dirCount, k - 1))[..|b|] == prev[..|b|];
    } else {
      assert FramesOf(f, dirCount, 1) == [] + Block(f, dirCount, 0);
    }
  }

  /** The check that all stacks' files at index fi have as many directories as the first. */
  method CheckDirCounts(f: seq<seq<string>>, dirCount: string -> nat, fi: nat) returns (ok: bool)
    requires |f| > 0 && SameFileCounts(f) && fi < |f[0]|
    ensures ok <==> DirCountsAgree(f, dirCount, fi)
  {
    var count := dirCount(f[0][fi]);
    var c := 1;
    while c < |f|
      invariant 1 <= c <= |f|
      invariant forall c' :: 0 <= c' < c ==> dirCount(f[c'][fi]) == count
    {
      if dirCount(f[c][fi]) != count {
        return false;
      }
      c := c + 1;
    }
    return true;
  }

  /** One slice of frames, failing at the first frame not compatible with the reference. */
  method ReadRow(f: seq<seq<string>>, compatible: Frame -> bool, fi: nat, dir: nat) returns (ok: bool, image: seq<Frame>)
    requires |f| > 0 && SameFileCounts(f) && fi < |f[0]|
    ensures ok <==> forall c :: 0 <= c < |f| ==> compatible(Frame(f[c][fi], dir))
    ensures ok ==> image == Row(f, fi, dir)
  {
    image := [];
    var c := 0;
    while c < |f|
      invariant 0 <= c <= |f|
      invariant image == Row(f, fi, dir)[..c]
      invariant forall c' :: 0 <= c' < c ==> compatible(Frame(f[c'][fi], dir))
    {
      if !compatible(Frame(f[c][fi], dir)) {
        return false, image;
      }
      image := image + [Frame(f[c][fi], dir)];
      c := c + 1;
    }
    return true, image;
  }

  /** The slices of file fi, one per directory. */
  method ReadBlock(f: seq<seq<string>>, dirCount: string -> nat, compatible: Frame -> bool, fi: nat)
    returns (ok: bool, block: seq<seq<Frame>>)
    requires |f| > 0 && SameFileCounts(f) && fi < |f[0]|
    ensures ok <==> BlockCompatible(f, dirCount, compatible, fi)
    ensures ok ==> block == Block(f, dirCount, fi)
  {
    var count := dirCount(f[0][fi]);
    block := [];
    var dir := 0;
    while dir < count
      invariant 0 <= dir <= count
      invariant block == Block(f, dirCount, fi)[..dir]
      invariant forall d, c :: 0 <= d < dir && 0 <= c < |f| ==> compatible(Frame(f[c][fi], d))
    {
      var rowOk, image := ReadRow(f, compatible, fi, dir);
      if !rowOk {
        return false, block;
      }
      block := block + [image];
      dir := dir + 1;
    }
    return true, block;
  }

  /** The first stack of file names that does not have as many files as the first one, if any. */
  method CheckFileCounts(f: seq<seq<string>>) returns (ok: bool)
    requires |f| > 0
    ensures ok <==> SameFileCounts(f)
  {
    var i := 1;
    ok := true;
    while i < |f|
      invariant 1 <= i <= |f|
      invariant ok <==> forall c :: 0 <= c < i ==> |f[c]| == |f[0]|
    {
      if |f[i]| != |f[0]| {
        ok := false;
      }
      i := i + 1;
    }
  }

  /** The check that no stack of file names is empty. */
  method CheckNoEmptyStack(f: seq<seq<string>>) returns (ok: bool)
    ensures ok <==> forall c :: 0 <= c < |f| ==> |f[c]| > 0
  {
    ok := true;
    var i := 0;
    while i < |f|
      invariant 0 <= i <= |f|
      invariant ok <==> forall c :: 0 <= c < i ==> |f[c]| > 0
    {
      if |f[i]| == 0 {
        ok := false;
      }
      i := i + 1;
    }
  }

  // ---------------------------------------------------------------------------------
  // The reader

  class TiffStackReader {
    var resX: nat
    var resY: nat
    /** voxel_dimensionality: the samples of a voxel, one per channel stack. */
    var dim: nat
    /** images: slice s holds one frame per channel stack. */
    var images: seq<seq<Frame>>
    /** value_ranges: the (min, max) of each channel. */
    var valueRanges: seq<(int, int)>

    constructor (w: nat, h: nat, d: nat)
      ensures resX == w && resY == h && dim == d && images == [] && valueRanges == []
    {
      resX, resY, dim := w, h, d;
      images := [];
      valueRanges := [];
    }

    /** cleanResources: no frames, and a zero resolution and dimensionality. */
    method CleanResources()
      modifies this`images, this`resX, this`resY, this`dim
      ensures images == [] && resX == 0 && resY == 0 && dim == 0
    {
      images := [];
      resX, resY, dim := 0, 0, 0;
    }

    /**
     * loadSlice: nothing (the exception) past the last slice; otherwise the slice with its
     * channel planes interleaved, full[p·dim + i] = plane_i[p]. The plane loop runs to dim
     * and indexes the slice's frames with i: on a slice with fewer frames than dim (a stack
     * of multi-sample frames) that index leaves the frames, and the load fails there (None).
     */
    method LoadSlice(s: nat, contents: Frame -> seq<int>) returns (r: Option<seq<int>>)
      ensures r.None? <==> s >= |images| || |images[s]| < dim
      ensures r.Some? ==> r.value == Interleaved(SlicePlanes(images[s], dim, resX * resY, contents), dim, resX * resY)
    {
      if s >= |images| {
        return None;
      }
      var n := resX * resY;
      ghost var planes := SlicePlanes(images[s], dim, n, contents);
      var full := seq(n * dim, _ => 0);
      FilledStart(planes, dim, n);
      var i := 0;
      while i < dim
        invariant 0 <= i <= dim && i <= |images[s]|
        invariant Filled(full, planes, dim, n, i, 0)
      {
        if i >= |images[s]| {
          return None;
        }
        var frameData := FrameBuffer(contents(images[s][i]), n);
        var p := 0;
        while p < n
          invariant 0 <= p <= n
          invariant Filled(full, planes, dim, n, i, p)
        {
          FilledStep(full, planes, dim, n, i, p);
          full := full[Slot(dim, i, p) := frameData[p]];
          p := p + 1;
        }
        FilledNextPlane(full, planes, dim, n, i);
        i := i + 1;
      }
      FilledDone(full, planes, dim, n);
      return Some(full);
    }

    /** One line of the region: the readable part of source line origin.y + y goes to target line y of slice z. */
    method CopyLine(values0: seq<int>, slice: seq<int>, ghost st: seq<seq<seq<int>>>, origin: Dims, size: Dims,
                    y: nat, z: nat) returns (values: seq<int>)
      requires StackShaped(st, dim, resX * resY) && !OriginOutside(resX, resY, |st|, origin)
      requires z < SlicesReadable(origin.2, size.2, |st|) && y < LinesReadable(origin.1, size.1, resY)
      requires slice == Interleaved(st[origin.2 + z], dim, resX * resY)
      requires Copied(values0, st, resX, resY, dim, origin, size, 0, y, z)
      ensures Copied(values, st, resX, resY, dim, origin, size, 0, y + 1, z)
    {
      values := values0;
      var count := ValuesPerLine(origin.0, size.0, resX, dim);
      var x := 0;
      while x < count
        invariant 0 <= x <= count
        invariant Copied(values, st, resX, resY, dim, origin, size, x, y, z)
      {
        CopiedStep(values, st, resX, resY, dim, origin, size, x, y, z);
        SourceInRange(resX, resY, dim, origin, x, y);
        values := values[TargetIndex(size, dim, x, y, z) := slice[SourceIndex(resX, dim, origin, x, y)]];
        x := x + 1;
      }
      CopiedLineDone(values, st, resX, resY, dim, origin, size, y, z);
    }

    /** One slice of the region: every readable line of source slice origin.z + z goes to target slice z. */
    method CopySlice(values0: seq<int>, slice: seq<int>, ghost st: seq<seq<seq<int>>>, origin: Dims, size: Dims,
                     z: nat) returns (values: seq<int>)
      requires StackShaped(st, dim, resX * resY) && !OriginOutside(resX, resY, |st|, origin)
      requires z < SlicesReadable(origin.2, size.2, |st|)
      requires slice == Interleaved(st[origin.2 + z], dim, resX * resY)
      requires Copied(values0, st, resX, resY, dim, origin, size, 0, 0, z)
      ensures Copied(values, st, resX, resY, dim, origin, size, 0, 0, z + 1)
    {
      values := values0;
      var lines := LinesReadable(origin.1, size.1, resY);
      var y := 0;
      while y < lines
        invariant 0 <= y <= lines
        invariant Copied(values, st, resX, resY, dim, origin, size, 0, y, z)
      {
        values := CopyLine(values, slice, st, origin, size, y, z);
        y := y + 1;
      }
      CopiedSliceDone(values, st, resX, resY, dim, origin, size, z);
    }

    /**
     * template_tiff_read_sub_region, with the readable line count min(size.y, resY − origin.y):
     * the output holds size.x·size.y·size.z·dim values, and each is its region value —
     * the stack's sample where the position lies inside the stack, zero elsewhere. The read
     * fails (not ok) exactly when a slice it loads has fewer frames than dim.
     */
    method ReadSubRegion(origin: Dims, size: Dims, contents: Frame -> seq<int>) returns (ok: bool, values: seq<int>)
      ensures |values| == size.0 * size.1 * size.2 * dim
      ensures ok <==> OriginOutside(resX, resY, |images|, origin)
                      || ReadSlicesHaveFrames(images, dim, origin.2, SlicesReadable(origin.2, size.2, |images|))
      ensures ok ==> forall x, y, z :: 0 <= x < size.0 * dim && 0 <= y < size.1 && 0 <= z < size.2 ==>
        TargetIndex(size, dim, x, y, z) < |values| &&
        values[TargetIndex(size, dim, x, y, z)] ==
          RegionValue(StackPlanes(images, dim, resX * resY, contents), resX, resY, dim, origin, size, x, y, z)
    {
      ghost var st := StackPlanes(images, dim, resX * resY, contents);
      values := seq(RegionLength(size, dim), _ => 0);
      CopiedStart(st, resX, resY, dim, origin, size);
      if OriginOutside(resX, resY, |images|, origin) {
        CopiedOutside(values, st, resX, resY, dim, origin, size);
        return true, values;
      }
      var slices := SlicesReadable(origin.2, size.2, |images|);
      var z := 0;
      while z < slices
        invariant 0 <= z <= slices
        invariant ReadSlicesHaveFrames(images, dim, origin.2, z)
        invariant Copied(values, st, resX, resY, dim, origin, size, 0, 0, z)
      {
        var slice := LoadSlice(origin.2 + z, contents);
        if slice.None? {
          assert |images[origin.2 + z]| < dim;
          return false, values;
        }
        assert slice.value == Interleaved(st[origin.2 + z], dim, resX * resY);
        values := CopySlice(values, slice.value, st, origin, size, z);
        z := z + 1;
      }
      CopiedDone(values, st, resX, resY, dim, origin, size);
      return true, values;
    }

    /** get_sub_range_values: nothing for a channel past the dimensionality, else its range. */
    method GetSubRangeValues(channel: nat) returns (r: Option<(int, int)>)
      requires channel < dim ==> channel < |valueRanges|
      ensures r.None? <==> channel >= dim
      ensures r.Some? ==> r.value == valueRanges[channel]
    {
      if channel >= dim {
        return None;
      }
      return Some(valueRanges[channel]);
    }

    /**
     * parse_info_in_separate_thread: on success the frames of every file, directory by
     * directory, are appended to the stack and the dimensionality becomes the samples per
     * pixel of the stack's first slice, summed over its channel frames (`spp` gives a
     * frame's samples per pixel); on any failure after the first check the reader is cleaned.
     */
    method ParseInfo(f: seq<seq<string>>, referenceOk: bool, dirCount: string -> nat, compatible: Frame -> bool,
                     spp: Frame -> nat)
      returns (ok: bool)
      modifies this`images, this`resX, this`resY, this`dim
      ensures ok <==> ParseSucceeds(f, referenceOk, dirCount, compatible)
      ensures |f| == 0 ==> images == old(images) && resX == old(resX) && resY == old(resY) && dim == old(dim)
      ensures |f| > 0 && !ok ==> images == [] && resX == 0 && resY == 0 && dim == 0
      ensures ok ==> images == old(images) + FramesOf(f, dirCount, |f[0]|)
                     && resX == old(resX) && resY == old(resY)
                     && |images| > 0 && dim == SlotSamples(images[0], spp)
      ensures ok && old(images) == [] ==> dim == SlotSamples(Row(f, 0, 0), spp)
    {
      if |f| == 0 {
        return false;
      }
      var nonEmpty := CheckNoEmptyStack(f);
      if !nonEmpty || !referenceOk || dirCount(f[0][0]) == 0 {
        CleanResources();
        return false;
      }
      var sameCounts := CheckFileCounts(f);
      if !sameCounts {
        CleanResources();
        return false;
      }
      var fi := 0;
      while fi < |f[0]|
        invariant 0 <= fi <= |f[0]|
        invariant images == old(images) + FramesOf(f, dirCount, fi)
        invariant resX == old(resX) && resY == old(resY)
        invariant forall i :: 0 <= i < fi ==> DirCountsAgree(f, dirCount, i) && BlockCompatible(f, dirCount, compatible, i)
      {
        var countsOk := CheckDirCounts(f, dirCount, fi);
        if !countsOk {
          CleanResources();
          return false;
        }
        var blockOk, block := ReadBlock(f, dirCount, compatible, fi);
        if !blockOk {
          CleanResources();
          return false;
        }
        images := images + block;
        fi := fi + 1;
      }
      FirstParsedSlice(f, referenceOk, dirCount, compatible);
      dim := SlotSamples(images[0], spp);
      return true;
    }
  }

  /** After a successful parse of a fresh reader, every slice has one frame per channel. */
  lemma ParsedSlicesHaveAllChannels(f: seq<seq<string>>, referenceOk: bool, dirCount: string -> nat,
                                    compatible: Frame -> bool)
    requires ParseSucceeds(f, referenceOk, dirCount, compatible)
    ensures |FramesOf(f, dirCount, |f[0]|)| == DirTotal(f, dirCount, |f[0]|)
    ensures forall s :: 0 <= s < |FramesOf(f, dirCount, |f[0]|)| ==> |FramesOf(f, dirCount, |f[0]|)[s]| == |f|
  {
    FramesOfShape(f, dirCount, |f[0]|);
  }
}
