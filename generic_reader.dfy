/**
 * The generic image reader API: reading a pixel, a line or a slice is a sub-region read
 * whose origin and size are derived from the request and the image resolution. The
 * regions are given meaning here through the TIFF backend's sub-region semantics
 * (`TiffReader.RegionValue`), the one backend of the API in this model. The lemmas
 * hold for any stack of dim planes per slice; `TiffReader.StackPlanes` gives one for
 * every TIFF stack, and the reads they describe are those that succeed.
 */
module GenericReader {
  import CInt
  import TiffReader
  import TiffBackend

  type Dims = (nat, nat, nat)

  /** The origin and size handed to internal_readSubRegion. */
  datatype Region = Region(origin: Dims, size: Dims)

  /** readPixel: a 1×1×1 region at the pixel's index. */
  function PixelRegion(index: Dims): Region
  {
    Region(index, (1, 1, 1))
  }

  /** readLine: the whole width of line `line.0` of slice `line.1`. */
  function LineRegion(resolution: Dims, line: (nat, nat)): Region
  {
    Region((0, line.0, line.1), (resolution.0, 1, 1))
  }

  /** readSlice: the whole width and height of slice `s`. */
  function SliceRegion(resolution: Dims, s: nat): Region
  {
    Region((0, 0, s), (resolution.0, resolution.1, 1))
  }

  lemma QuotientBelow(x: nat, dim: nat, bound: nat)
    requires dim > 0 && x < bound * dim
    ensures x / dim < bound && x % dim < dim
  {
    CInt.EuclideanBounds(x, dim);
    if x / dim >= bound {
      CInt.MulMonotone(dim, bound, x / dim);
    }
  }

  /** A pixel read returns the pixel's dim channels, channel c at position c. */
  lemma ReadPixelReadsChannels(st: seq<seq<seq<int>>>, resX: nat, resY: nat, dim: nat,
                                index: Dims, c: nat)
    requires TiffReader.StackShaped(st, dim, resX * resY)
    requires index.0 < resX && index.1 < resY && index.2 < |st| && c < dim
    ensures var r := PixelRegion(index);
      TiffReader.RegionLength(r.size, dim) == dim
      && TiffReader.RegionValue(st, resX, resY, dim, r.origin, r.size, c, 0, 0) ==
         st[index.2][c][TiffReader.PixelIndex(resX, resY, index.0, index.1)]
  {
    CInt.DivModUnique(c, dim, 0, c);
    TiffReader.RegionReadsPixel(st, resX, resY, dim, index, (1, 1, 1), c, 0, 0);
  }

  /** A pixel read outside the image gives zeros. */
  lemma ReadPixelOutsideIsZero(st: seq<seq<seq<int>>>, resX: nat, resY: nat, dim: nat, index: Dims, c: nat)
    requires TiffReader.StackShaped(st, dim, resX * resY)
    requires index.0 >= resX || index.1 >= resY || index.2 >= |st|
    ensures var r := PixelRegion(index);
      TiffReader.RegionValue(st, resX, resY, dim, r.origin, r.size, c, 0, 0) == 0
  {
  }

  /** A line read returns every channel of every pixel of that line, in pixel-major order. */
  lemma ReadLineReadsLine(st: seq<seq<seq<int>>>, resX: nat, resY: nat, dim: nat, line: (nat, nat), x: nat)
    requires TiffReader.StackShaped(st, dim, resX * resY) && dim > 0
    requires line.0 < resY && line.1 < |st| && x < resX * dim
    ensures var r := LineRegion((resX, resY, |st|), line);
      TiffReader.RegionLength(r.size, dim) == resX * dim
      && TiffReader.RegionValue(st, resX, resY, dim, r.origin, r.size, x, 0, 0) ==
         st[line.1][x % dim][TiffReader.PixelIndex(resX, resY, x / dim, line.0)]
  {
    QuotientBelow(x, dim, resX);
    TiffReader.RegionReadsPixel(st, resX, resY, dim, (0, line.0, line.1), (resX, 1, 1), x, 0, 0);
  }

  /** A slice read returns the whole slice: value x of line y is channel x % dim of pixel (x / dim, y). */
  lemma ReadSliceReadsSlice(st: seq<seq<seq<int>>>, resX: nat, resY: nat, dim: nat, s: nat, x: nat, y: nat)
    requires TiffReader.StackShaped(st, dim, resX * resY) && dim > 0
    requires s < |st| && x < resX * dim && y < resY
    ensures var r := SliceRegion((resX, resY, |st|), s);
      TiffReader.RegionLength(r.size, dim) == resX * dim * resY
      && TiffReader.RegionValue(st, resX, resY, dim, r.origin, r.size, x, y, 0) ==
         st[s][x % dim][TiffReader.PixelIndex(resX, resY, x / dim, y)]
  {
    QuotientBelow(x, dim, resX);
    TiffReader.RegionReadsPixel(st, resX, resY, dim, (0, 0, s), (resX, resY, 1), x, y, 0);
  }

  /** A slice index past the stack's end reads a slice of zeros. */
  lemma ReadSlicePastEndIsZero(st: seq<seq<seq<int>>>, resX: nat, resY: nat, dim: nat, s: nat, x: nat, y: nat)
    requires TiffReader.StackShaped(st, dim, resX * resY) && s >= |st|
    ensures var r := SliceRegion((resX, resY, |st|), s);
      TiffReader.RegionValue(st, resX, resY, dim, r.origin, r.size, x, y, 0) == 0
  {
  }

  /** The API object: only its internal data type is state of its own. */
  class GenericImageReader {
    var internalType: TiffBackend.InternalType

    /** A new reader does not know its data type yet. */
    constructor ()
      ensures internalType == TiffBackend.Unknown
    {
      internalType := TiffBackend.Unknown;
    }
  }
}
