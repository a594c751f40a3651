/**
 * The templated TIFF writer: a grid is written slice by slice, one single-channel TIFF file
 * per channel, each holding the channel's samples picked out of the interleaved slice.
 *
 * libtiff is not modelled: whether a file opened (`fileOpens(slice, channel)`), the default
 * strip size libtiff suggests (`defaultStrip`), whether the line buffer was allocated and
 * whether each scanline was written are parameters. The grid is `None` for a null pointer.
 */
module TiffWriter {
  import opened Wrappers
  import CInt
  import TiffReader

  // ---------------------------------------------------------------------------------
  // Sample types

  /** libtiff's SAMPLEFORMAT values; `Unrecognized` is any other code. */
  datatype SampleFormat = Void | UInt | Int | IEEEFP | ComplexInt | ComplexIEEEFP | Unrecognized

  /** The element types the writer and reader are instantiated with. */
  datatype ElementType = U8 | U16 | U32 | U64 | I8 | I16 | I32 | I64 | F32 | F64

  /** The width of an element type, in bits. */
  function BitWidth(t: ElementType): (bits: nat)
    ensures bits == 8 || bits == 16 || bits == 32 || bits == 64
  {
    match t
    case U8 => 8
    case I8 => 8
    case U16 => 16
    case I16 => 16
    case U32 => 32
    case I32 => 32
    case F32 => 32
    case U64 => 64
    case I64 => 64
    case F64 => 64
  }

  /**
   * The writer's constructors: the sample format follows the element type's kind and the
   * bits per sample its width.
   */
  function WriterTags(t: ElementType): (tags: (SampleFormat, nat))
    ensures tags.1 == BitWidth(t)
    ensures tags.0 == UInt || tags.0 == Int || tags.0 == IEEEFP
    ensures tags.0 == IEEEFP ==> tags.1 == 32 || tags.1 == 64
  {
    match t
    case U8 => (UInt, 8)
    case U16 => (UInt, 16)
    case U32 => (UInt, 32)
    case U64 => (UInt, 64)
    case I8 => (Int, 8)
    case I16 => (Int, 16)
    case I32 => (Int, 32)
    case I64 => (Int, 64)
    case F32 => (IEEEFP, 32)
    case F64 => (IEEEFP, 64)
  }

  /** Distinct element types are written with distinct tags. */
  lemma WriterTagsInjective(t: ElementType, t': ElementType)
    requires WriterTags(t) == WriterTags(t')
    ensures t == t'
  {
  }

  // ---------------------------------------------------------------------------------
  // Picking one channel out of an interleaved slice (read_subpixels_from_slice)

  /** The number of iterations of a loop from beg, by steps of `samples`, while below size. */
  function StridedReads(beg: nat, size: nat, samples: nat): nat
    requires samples > 0
    decreases size - beg
  {
    if beg >= size then 0 else 1 + StridedReads(beg + samples, size, samples)
  }

  lemma {:induction false} StridedReadsShift(beg: nat, size: nat, samples: nat)
    requires samples > 0 && size >= samples
    ensures StridedReads(beg + samples, size, samples) == StridedReads(beg, size - samples, samples)
    decreases size - beg
  {
    if beg + samples < size {
      StridedReadsShift(beg + samples, size, samples);
    }
  }

  /** With size = q·samples + r, the loop runs q times, plus once more when beg < r. */
  lemma {:induction false} StridedReadsCount(beg: nat, samples: nat, q: nat, r: nat)
    requires beg < samples && r < samples
    ensures StridedReads(beg, q * samples + r, samples) == q + (if beg < r then 1 else 0)
  {
    if q == 0 {
      if beg < r {
        assert StridedReads(beg + samples, r, samples) == 0;
      }
    } else {
      var size := q * samples + r;
      assert size == (q - 1) * samples + r + samples;
      StridedReadsShift(beg, size, samples);
      StridedReadsCount(beg, samples, q - 1, r);
    }
  }

  /**
   * read_subpixels_from_slice as written sizes its output to size / samples but stores one
   * value per loop iteration: it writes past the output exactly when size % samples > beg.
   */
  lemma SubpixelWritesOverrunIff(size: nat, samples: nat, beg: nat)
    requires 0 < samples && beg < samples
    ensures StridedReads(beg, size, samples) == size / samples + (if beg < size % samples then 1 else 0)
    ensures StridedReads(beg, size, samples) > size / samples <==> size % samples > beg
  {
    var q, r := size / samples, size % samples;
    assert size == q * samples + r;
    StridedReadsCount(beg, samples, q, r);
  }

  /** Three samples of a two-channel slice: the loop stores two values into a one-element vector. */
  lemma OddSliceOverruns()
    ensures StridedReads(0, 3, 2) == 2 && 3 / 2 == 1
  {
    SubpixelWritesOverrunIff(3, 2, 0);
  }

  lemma StrideInRange(beg: nat, k: nat, samples: nat, size: nat)
    requires beg < samples && k < size / samples
    ensures beg + k * samples < size
  {
    CInt.EuclideanBounds(size, samples);
    CInt.MulMonotone(samples, k + 1, size / samples);
    CInt.MulSucc(samples, k);
  }

  /** One channel of an interleaved slice: value beg of every complete pixel. */
  function Subpixels(src: seq<int>, samples: nat, beg: nat): (out: seq<int>)
    requires samples > 0
  {
    if beg >= samples then []
    else
      seq(|src| / samples, k requires 0 <= k < |src| / samples =>
        StrideInRange(beg, k, samples, |src|);
        src[beg + k * samples])
  }

  /** Nothing for a channel past the samples; otherwise one value per complete pixel, the pixel's value `beg`. */
  lemma SubpixelsAt(src: seq<int>, samples: nat, beg: nat)
    requires samples > 0
    ensures beg >= samples ==> Subpixels(src, samples, beg) == []
    ensures beg < samples ==> |Subpixels(src, samples, beg)| == |src| / samples
    ensures beg < samples ==> forall k :: 0 <= k < |src| / samples ==>
      beg + k * samples < |src| && Subpixels(src, samples, beg)[k] == src[beg + k * samples]
  {
    if beg < samples {
      forall k | 0 <= k < |src| / samples
        ensures beg + k * samples < |src|
      {
        StrideInRange(beg, k, samples, |src|);
      }
    }
  }

  /** Picking a channel out of the slice the reader interleaved gives back that channel's plane. */
  lemma SubpixelsOfInterleaved(planes: seq<seq<int>>, dim: nat, n: nat, c: nat)
    requires TiffReader.PlanesShaped(planes, dim, n) && c < dim
    ensures Subpixels(TiffReader.Interleaved(planes, dim, n), dim, c) == planes[c]
  {
    var full := TiffReader.Interleaved(planes, dim, n);
    assert |full| / dim == n by {
      CInt.DivModUnique(|full|, dim, n, 0);
    }
    SubpixelsAt(full, dim, c);
    forall k | 0 <= k < n
      ensures Subpixels(full, dim, c)[k] == planes[c][k]
    {
      TiffReader.InterleavedAt(planes, dim, n, c, k);
      assert TiffReader.Slot(dim, c, k) == c + k * dim;
    }
  }

  /**
   * read_subpixels_from_slice with the loop stopped at the last complete pixel: nothing for
   * a channel past the samples, otherwise channel `beg` of every complete pixel.
   */
  method ReadSubpixels(src: seq<int>, samples: nat, beg: nat) returns (out: seq<int>)
    requires samples > 0
    ensures out == Subpixels(src, samples, beg)
  {
    if beg >= samples {
      return [];
    }
    var pixelCount := |src| / samples;
    out := seq(pixelCount, _ => 0);
    var srcIter := beg;
    var k := 0;
    while k < pixelCount
      invariant 0 <= k <= pixelCount && |out| == pixelCount
      invariant srcIter == beg + k * samples
      invariant forall j :: 0 <= j < k ==> out[j] == Subpixels(src, samples, beg)[j]
    {
      StrideInRange(beg, k, samples, |src|);
      out := out[k := src[srcIter]];
      srcIter := srcIter + samples;
      k := k + 1;
    }
  }

  // ---------------------------------------------------------------------------------
  // Writing slices and grids

  type Dims = (nat, nat, nat)

  /** What the writer asks of a grid: its resolution and voxel dimensionality. */
  datatype GridInfo = GridInfo(resolution: Dims, dim: nat)

  /** write_tiff_tags: 0 for an unopened file or a start past the samples, else libtiff's strip size. */
  function WriteTiffTags(fileOpen: bool, start: nat, dim: nat, defaultStrip: nat): (rows: nat)
    ensures rows == 0 <== !fileOpen || start >= dim
    ensures fileOpen && start < dim ==> rows == defaultStrip
  {
    if !fileOpen then 0 else if start >= dim then 0 else defaultStrip
  }

  /** writeSlice's guards: a grid, no zero dimension, a slice inside it and at least one channel. */
  predicate SliceWritable(grid: Option<GridInfo>, slice: nat)
  {
    grid.Some? && grid.value.resolution.0 > 0 && grid.value.resolution.1 > 0 && grid.value.resolution.2 > 0
    && slice < grid.value.resolution.2 && grid.value.dim > 0
  }

  /** writeSlice succeeds: the guards pass and every channel's file got its tags. */
  predicate SliceWritten(grid: Option<GridInfo>, slice: nat, fileOpens: (nat, nat) -> bool, defaultStrip: nat)
  {
    SliceWritable(grid, slice) &&
    forall ch :: 0 <= ch < grid.value.dim ==> WriteTiffTags(fileOpens(slice, ch), ch, grid.value.dim, defaultStrip) > 0
  }

  /** The file of one channel of a slice: nothing when its tags failed, else the channel's samples. */
  function ChannelFile(grid: GridInfo, slice: nat, values: seq<int>, fileOpens: (nat, nat) -> bool,
                       defaultStrip: nat, ch: nat): Option<seq<int>>
    requires grid.dim > 0
  {
    if WriteTiffTags(fileOpens(slice, ch), ch, grid.dim, defaultStrip) == 0 then None
    else Some(Subpixels(values, grid.dim, ch))
  }

  /**
   * writeSlice: false with no file for a failed guard; otherwise every channel is tried,
   * `files[ch]` is what was handed to its file, and the result is true iff every
   * channel got its tags.
   */
  method WriteSlice(grid: Option<GridInfo>, slice: nat, values: seq<int>, fileOpens: (nat, nat) -> bool,
                    defaultStrip: nat) returns (ok: bool, files: seq<Option<seq<int>>>)
    ensures ok <==> SliceWritten(grid, slice, fileOpens, defaultStrip)
    ensures !SliceWritable(grid, slice) ==> files == []
    ensures SliceWritable(grid, slice) ==> |files| == grid.value.dim
    ensures SliceWritable(grid, slice) ==> forall ch :: 0 <= ch < grid.value.dim ==>
      files[ch] == ChannelFile(grid.value, slice, values, fileOpens, defaultStrip, ch)
  {
    if grid.None? {
      return false, [];
    }
    var res := grid.value.resolution;
    if res.2 == 0 || res.1 == 0 || res.0 == 0 {
      return false, [];
    }
    if slice >= res.2 {
      return false, [];
    }
    var dim := grid.value.dim;
    if dim == 0 {
      return false, [];
    }
    ok := true;
    files := [];
    var channel := 0;
    while channel < dim
      invariant 0 <= channel <= dim && |files| == channel
      invariant forall ch :: 0 <= ch < channel ==> files[ch] == ChannelFile(grid.value, slice, values, fileOpens, defaultStrip, ch)
      invariant ok <==> forall ch :: 0 <= ch < channel ==> WriteTiffTags(fileOpens(slice, ch), ch, dim, defaultStrip) > 0
    {
      var stripSize := WriteTiffTags(fileOpens(slice, channel), channel, dim, defaultStrip);
      if stripSize == 0 {
        ok := false;
        files := files + [None];
      } else {
        var current := ReadSubpixels(values, dim, channel);
        files := files + [Some(current)];
      }
      channel := channel + 1;
    }
  }

  /** writeGrid: false for no grid or no slices; otherwise every slice is written and the results are and-ed. */
  method WriteGrid(grid: Option<GridInfo>, sliceValues: nat -> seq<int>, fileOpens: (nat, nat) -> bool, defaultStrip: nat)
    returns (ok: bool)
    ensures ok <==> (grid.Some? && grid.value.resolution.2 > 0 &&
                     forall s :: 0 <= s < grid.value.resolution.2 ==> SliceWritten(grid, s, fileOpens, defaultStrip))
  {
    if grid.None? {
      return false;
    }
    var depth := grid.value.resolution.2;
    if depth == 0 {
      return false;
    }
    ok := true;
    var slice := 0;
    while slice < depth
      invariant 0 <= slice <= depth
      invariant ok <==> forall s :: 0 <= s < slice ==> SliceWritten(grid, s, fileOpens, defaultStrip)
    {
      var written, _ := WriteSlice(grid, slice, sliceValues(slice), fileOpens, defaultStrip);
      if !written {
        ok := false;
      }
      slice := slice + 1;
    }
  }

  /**
   * A grid is written in full exactly when it has no zero dimension, at least one channel,
   * a non-zero strip size, and a file opens for every slice and channel.
   */
  lemma GridWrittenIff(grid: Option<GridInfo>, fileOpens: (nat, nat) -> bool, defaultStrip: nat)
    requires grid.Some? && grid.value.resolution.2 > 0
    ensures (forall s :: 0 <= s < grid.value.resolution.2 ==> SliceWritten(grid, s, fileOpens, defaultStrip)) <==>
      (grid.value.resolution.0 > 0 && grid.value.resolution.1 > 0 && grid.value.dim > 0 && defaultStrip > 0 &&
       forall s, ch :: 0 <= s < grid.value.resolution.2 && 0 <= ch < grid.value.dim ==> fileOpens(s, ch))
  {
    var g := grid.value;
    if forall s :: 0 <= s < g.resolution.2 ==> SliceWritten(grid, s, fileOpens, defaultStrip) {
      assert SliceWritten(grid, 0, fileOpens, defaultStrip);
      assert WriteTiffTags(fileOpens(0, 0), 0, g.dim, defaultStrip) > 0;
      forall s, ch | 0 <= s < g.resolution.2 && 0 <= ch < g.dim
        ensures fileOpens(s, ch)
      {
        assert SliceWritten(grid, s, fileOpens, defaultStrip);
        assert WriteTiffTags(fileOpens(s, ch), ch, g.dim, defaultStrip) > 0;
      }
    }
  }

  /**
   * write_tiff_strips: false for an unopened file, no data or no line buffer; otherwise
   * the first height·width values go out line by line, and the result is true iff every
   * scanline was written.
   */
  method WriteTiffStrips(fileOpen: bool, data: seq<int>, width: nat, height: nat, bufferAllocated: bool,
                         scanlineWritten: nat -> bool) returns (ok: bool, written: seq<int>)
    requires fileOpen && |data| > 0 ==> width > 0 && (bufferAllocated ==> height * width <= |data|)
    ensures !fileOpen || |data| == 0 || !bufferAllocated ==> !ok && written == []
    ensures fileOpen && |data| > 0 && bufferAllocated ==>
      written == data[..height * width] && (ok <==> forall r :: 0 <= r < height ==> scanlineWritten(r))
  {
    if !fileOpen {
      return false, [];
    }
    if |data| == 0 {
      return false, [];
    }
    if !bufferAllocated {
      return false, [];
    }
    ok := true;
    written := [];
    var row := 0;
    while row < height
      invariant 0 <= row <= height
      invariant row * width <= height * width && written == data[..row * width]
      invariant ok <==> forall r :: 0 <= r < row ==> scanlineWritten(r)
    {
      CInt.MulSucc(row, width);
      CInt.MulMonotone(width, row + 1, height);
      assert (row + 1) * width == row * width + width;
      written := written + data[row * width..row * width + width];
      if !scanlineWritten(row) {
        ok := false;
      }
      row := row + 1;
    }
  }
}
