/**
 * Helpers of the generic grid reader: the basename and extension string functions used to
 * find the .dim/.ima pair of a DIM image, the downsampling rules, storage pre-allocation
 * and the running intensity limits of the loaded samples.
 *
 * C strings are sequences of characters without the terminating NUL; a null pointer is
 * `None`. Sizes are unsigned in the source, so their divisions are Euclidean here.
 */
module ReaderHelpers {
  import opened Wrappers
  import CInt

  // ---------------------------------------------------------------------------------
  // File names

  /** strrchr: the position of the last c in s, or -1. */
  function LastIndexOf(s: string, c: char): (r: int)
    ensures -1 <= r < |s|
    ensures r >= 0 ==> s[r] == c && forall i :: r < i < |s| ==> s[i] != c
    ensures r == -1 ==> forall i :: 0 <= i < |s| ==> s[i] != c
  {
    if |s| == 0 then -1
    else if s[|s| - 1] == c then |s| - 1
    else LastIndexOf(s[..|s| - 1], c)
  }

  /**
   * FileBaseName as written: nothing without a '.', otherwise everything before the last
   * '.'. Its guard against a '.' that belongs to a directory compares an unsigned
   * difference with 0 and never fires.
   */
  function FileBaseName(filename: string): (r: Option<string>)
    ensures r.None? <==> '.' !in filename
    ensures r.Some? ==> |r.value| < |filename| && filename[..|r.value|] == r.value && filename[|r.value|] == '.'
                        && '.' !in filename[|r.value| + 1..]
  {
    var dot := LastIndexOf(filename, '.');
    if dot < 0 then None else Some(filename[..dot])
  }

  /** FileBaseName as its comment intends: a last '.' before the last '/' is not an extension. */
  function FileBaseNameChecked(filename: string): (r: Option<string>)
    ensures r.None? <==> ('.' !in filename || LastIndexOf(filename, '.') < LastIndexOf(filename, '/'))
    ensures r.Some? ==> |r.value| < |filename| && filename[..|r.value|] == r.value && filename[|r.value|] == '.'
                        && '.' !in filename[|r.value| + 1..] && '/' !in filename[|r.value| + 1..]
  {
    var dot, slash := LastIndexOf(filename, '.'), LastIndexOf(filename, '/');
    if dot < 0 || dot < slash then None else Some(filename[..dot])
  }

  /** A relative path without an extension: the source takes ".." for its basename. */
  lemma RelativePathHasNoBaseName()
    ensures FileBaseName("../data") == Some(".")
    ensures FileBaseNameChecked("../data") == None
  {
    var s := "../data";
    assert s[1] == '.' && s[2] == '/';
    assert forall i :: 2 <= i < |s| ==> s[i] != '.';
    assert forall i :: 3 <= i < |s| ==> s[i] != '/';
    assert LastIndexOf(s, '.') == 1 && LastIndexOf(s, '/') == 2;
    assert s[..1] == ".";
  }

  /**
   * AppendExtension: nothing for a missing name or extension or an empty name; the name
   * itself for an empty extension; otherwise name + "." + extension.
   */
  function AppendExtension(basename: Option<string>, extension: Option<string>): (r: Option<string>)
    ensures r.None? <==> basename.None? || extension.None? || |basename.value| == 0
  {
    if basename.None? || extension.None? then None
    else if |basename.value| == 0 then None
    else if |extension.value| == 0 then basename
    else Some(basename.value + "." + extension.value)
  }

  /** Appending an extension without '.' or '/' and taking the basename gives the name back. */
  lemma BaseNameOfAppended(base: string, ext: string)
    requires |base| > 0 && |ext| > 0 && '.' !in ext && '/' !in ext
    ensures AppendExtension(Some(base), Some(ext)).Some?
    ensures FileBaseName(AppendExtension(Some(base), Some(ext)).value) == Some(base)
    ensures FileBaseNameChecked(AppendExtension(Some(base), Some(ext)).value) == Some(base)
  {
    var s := base + "." + ext;
    assert s[|base|] == '.';
    assert s[|base| + 1..] == ext;
    assert s[..|base|] == base;
    assert forall i :: |base| < i < |s| ==> s[i] == ext[i - |base| - 1];
  }

  /** The extension of a DIM image's companion files keeps the base and adds the extension after a '.'. */
  lemma AppendedExtensionEnds(base: string, ext: string)
    requires |base| > 0 && |ext| > 0
    ensures var r := AppendExtension(Some(base), Some(ext));
      r.Some? && |r.value| == |base| + |ext| + 1 && r.value[..|base|] == base && r.value[|base|] == '.'
      && r.value[|base| + 1..] == ext
  {
    var s := base + "." + ext;
    assert s[|base| + 1..] == ext;
    assert s[..|base|] == base;
  }

  // ---------------------------------------------------------------------------------
  // Downsampling

  datatype DownsamplingLevel = Original | Low | Lower | Lowest

  /** The edge of the cube of voxels merged into one at each level. */
  function Divider(level: DownsamplingLevel): (d: nat)
    ensures d == 1 || d == 2 || d == 4 || d == 8
  {
    match level
    case Original => 1
    case Low => 2
    case Lower => 4
    case Lowest => 8
  }

  type Dims = (nat, nat, nat)

  function DivDims(d: Dims, k: nat): Dims
    requires k > 0
  {
    (d.0 / k, d.1 / k, d.2 / k)
  }

  /** A multiple of m smaller than m in absolute value is zero. */
  lemma SmallMultiple(m: int, d: int)
    requires m > 0 && -m < m * d < m
    ensures d == 0
  {
  }

  /** A quotient is determined by any decomposition with a remainder in range. */
  lemma QuotientOf(a: int, m: int, h: int, s: int)
    requires m > 0 && 0 <= s < m && a == m * h + s
    ensures a / m == h
  {
    var q := a / m;
    assert a == m * q + a % m;
    assert m * (h - q) == m * h - m * q;
    SmallMultiple(m, h - q);
  }

  /** Halving a quotient by x is dividing by 2 * x. */
  lemma HalveQuotient(a: nat, x: nat)
    requires x > 0
    ensures (a / x) / 2 == a / (2 * x)
  {
    var q, r := a / x, a % x;
    var h := q / 2;
    assert a == x * q + r;
    if q % 2 == 0 {
      assert q == 2 * h;
      assert x * q == (2 * x) * h;
      QuotientOf(a, 2 * x, h, r);
    } else {
      assert q == 2 * h + 1;
      assert x * q == (2 * x) * h + x;
      QuotientOf(a, 2 * x, h, x + r);
    }
  }

  /** Each downsampling level halves, along every axis, the grid of the level before. */
  lemma LevelsHalveTheGrid(d: Dims)
    ensures DivDims(DivDims(d, Divider(Original)), 2) == DivDims(d, Divider(Low))
    ensures DivDims(DivDims(d, Divider(Low)), 2) == DivDims(d, Divider(Lower))
    ensures DivDims(DivDims(d, Divider(Lower)), 2) == DivDims(d, Divider(Lowest))
  {
    HalveQuotient(d.0, 2); HalveQuotient(d.1, 2); HalveQuotient(d.2, 2);
    HalveQuotient(d.0, 4); HalveQuotient(d.1, 4); HalveQuotient(d.2, 4);
  }

  function Volume(d: Dims): nat
  {
    d.0 * d.1 * d.2
  }

  /** std::vector::resize: keeps the first n elements, zero-filling any new ones. */
  function Resize(data: seq<int>, n: nat): (r: seq<int>)
    ensures |r| == n
    ensures forall i :: 0 <= i < n ==> r[i] == if i < |data| then data[i] else 0
  {
    if n <= |data| then data[..n] else data + seq(n - |data|, _ => 0)
  }

  /** The largest sample value of the 16-bit configuration, where the intensity limits start. */
  const SampleMax: int := 0xFFFF

  class GenericGridReader {
    var downsampleLevel: DownsamplingLevel
    var voxelMultiplier: nat
    var imageDimensions: Dims
    var gridDimensions: Dims
    var data: seq<int>
    var textureMin: int
    var textureMax: int

    constructor ()
      ensures downsampleLevel == Original && voxelMultiplier == 1
      ensures gridDimensions == (0, 0, 0) && data == []
      ensures textureMin == SampleMax && textureMax == 0
    {
      downsampleLevel := Original;
      voxelMultiplier := 1;
      imageDimensions := (0, 0, 0);
      gridDimensions := (0, 0, 0);
      data := [];
      textureMin := SampleMax;
      textureMax := 0;
    }

    /** enableDownsampling: the voxels grow by the level's divider on every axis. */
    method EnableDownsampling(level: DownsamplingLevel)
      modifies this`downsampleLevel, this`voxelMultiplier
      ensures downsampleLevel == level && voxelMultiplier == Divider(level)
    {
      downsampleLevel := level;
      match level {
        case Original => voxelMultiplier := 1;
        case Low => voxelMultiplier := 2;
        case Lower => voxelMultiplier := 4;
        case Lowest => voxelMultiplier := 8;
      }
    }

    /**
     * getGridDimensions: the image dimensions divided by the divider when downsampling,
     * otherwise the stored grid dimensions.
     */
    function GetGridDimensions(): (d: Dims)
      reads this
      ensures downsampleLevel != Original ==>
        forall a :: 0 <= a < 3 ==>
          DimAt(d, a) * Divider(downsampleLevel) <= DimAt(imageDimensions, a) < (DimAt(d, a) + 1) * Divider(downsampleLevel)
    {
      DivDimsBounds(imageDimensions, Divider(downsampleLevel));
      if downsampleLevel == Original then gridDimensions else DivDims(imageDimensions, Divider(downsampleLevel))
    }

    /** getGridSizeBytes: the image's byte size divided by the number of voxels merged into one. */
    function GetGridSizeBytes(sampleBytes: nat): (b: nat)
      reads this
      ensures var k := Divider(downsampleLevel);
        b * (k * k * k) <= Volume(imageDimensions) * sampleBytes < b * (k * k * k) + k * k * k
    {
      var k := Divider(downsampleLevel);
      var total := Volume(imageDimensions) * sampleBytes;
      CInt.MulNonNegative(Volume(imageDimensions), sampleBytes);
      CInt.EuclideanBounds(total, k * k * k);
      total / (k * k * k)
    }

    /**
     * preAllocateStorage: the grid becomes the image divided by the level's divider and
     * the data vector is resized to hold it.
     */
    method PreAllocateStorage()
      modifies this`gridDimensions, this`data
      ensures gridDimensions == DivDims(imageDimensions, Divider(downsampleLevel))
      ensures data == Resize(old(data), Volume(gridDimensions))
      ensures GetGridDimensions() == gridDimensions
    {
      var divider := 1;
      if downsampleLevel == Low { divider := 2; }
      if downsampleLevel == Lower { divider := 4; }
      if downsampleLevel == Lowest { divider := 8; }
      gridDimensions := DivDims(imageDimensions, divider);
      data := Resize(data, Volume(gridDimensions));
    }

    /**
     * The intensity-limit update of loadSlice: the limits widen to cover every value of
     * the slice just read, and move only to values of that slice.
     */
    method UpdateTextureLimits(slice: seq<int>)
      modifies this`textureMin, this`textureMax
      ensures textureMin <= old(textureMin) && textureMax >= old(textureMax)
      ensures forall i :: 0 <= i < |slice| ==> textureMin <= slice[i] <= textureMax
      ensures textureMin == old(textureMin) || textureMin in slice
      ensures textureMax == old(textureMax) || textureMax in slice
    {
      var i := 0;
      while i < |slice|
        invariant 0 <= i <= |slice|
        invariant textureMin <= old(textureMin) && textureMax >= old(textureMax)
        invariant forall j :: 0 <= j < i ==> textureMin <= slice[j] <= textureMax
        invariant textureMin == old(textureMin) || textureMin in slice[..i]
        invariant textureMax == old(textureMax) || textureMax in slice[..i]
      {
        assert slice[..i + 1] == slice[..i] + [slice[i]];
        textureMin := if slice[i] < textureMin then slice[i] else textureMin;
        textureMax := if slice[i] > textureMax then slice[i] else textureMax;
        i := i + 1;
      }
      assert slice[..i] == slice;
    }
  }

  function DimAt(d: Dims, a: int): nat
    requires 0 <= a < 3
  {
    if a == 0 then d.0 else if a == 1 then d.1 else d.2
  }

  /** Each divided dimension is the largest whose multiple fits in the original. */
  lemma DivDimsBounds(d: Dims, k: nat)
    requires k > 0
    ensures forall a :: 0 <= a < 3 ==> DimAt(DivDims(d, k), a) * k <= DimAt(d, a) < (DimAt(DivDims(d, k), a) + 1) * k
  {
    CInt.EuclideanBounds(d.0, k);
    CInt.EuclideanBounds(d.1, k);
    CInt.EuclideanBounds(d.2, k);
  }
}
