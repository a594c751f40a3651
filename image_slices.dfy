/**
 * Sample conversion and slice extraction of the image readers: the strided cast-and-append
 * of one row of samples into a 16-bit result, the type dispatch that decides whether a
 * signed sample is shifted to offset binary, the DIM/IMA reader's slice extraction and
 * the choice of reader from a file name.
 *
 * Sample buffers are sequences of integers (a float sample is given by its integer
 * conversion); the width of each type is explicit, and a cast to an unsigned width is a
 * reduction modulo 2^width.
 */
module ImageSlices {
  import opened Wrappers
  import CInt
  import Lattice
  import ReaderHelpers

  function Pow2(n: nat): (r: nat)
    ensures r >= 1
  {
    if n == 0 then 1 else 2 * Pow2(n - 1)
  }

  /** More bits hold at least as many values. */
  lemma {:induction false} Pow2Monotone(m: nat, n: nat)
    requires m <= n
    ensures Pow2(m) <= Pow2(n)
    decreases n - m
  {
    if m < n {
      Pow2Monotone(m, n - 1);
    }
  }

  function Repeat(c: int, n: nat): (r: seq<int>)
    ensures |r| == n && forall k :: 0 <= k < n ==> r[k] == c
  {
    seq(n, _ => c)
  }

  // ---------------------------------------------------------------------------------
  // Sample conversion

  /**
   * A w-bit bitset built from v with its top bit flipped: the low w bits of v, moved by
   * half the range (flipping the top bit and adding 2^(w-1) modulo 2^w are the same).
   */
  function FlipTopBit(v: int, w: nat): (r: int)
    requires w > 0
    ensures 0 <= r < Pow2(w)
  {
    (v % Pow2(w) + Pow2(w - 1)) % Pow2(w)
  }

  /** On the signed range of w bits, the flip is offset binary: v + 2^(w-1). */
  lemma FlipTopBitIsOffsetBinary(v: int, w: nat)
    requires w > 0 && -(Pow2(w - 1) as int) <= v < Pow2(w - 1)
    ensures FlipTopBit(v, w) == v + Pow2(w - 1)
  {
    var p, half := Pow2(w), Pow2(w - 1);
    assert p == 2 * half;
    if v >= 0 {
      CInt.DivModUnique(v, p, 0, v);
      CInt.DivModUnique(v + half, p, 0, v + half);
    } else {
      CInt.DivModUnique(v, p, -1, v + p);
      CInt.DivModUnique(v + p + half, p, 1, v + half);
    }
  }

  /** Offset binary keeps the order of signed samples, so intensity comparisons survive the cast. */
  lemma FlipTopBitMonotone(v: int, v': int, w: nat)
    requires w > 0 && -(Pow2(w - 1) as int) <= v <= v' < Pow2(w - 1)
    ensures FlipTopBit(v, w) <= FlipTopBit(v', w)
  {
    FlipTopBitIsOffsetBinary(v, w);
    FlipTopBitIsOffsetBinary(v', w);
  }

  /** One converted sample: flipped when inversion is asked for, then cast to `outBits` bits. */
  function CastSample(v: int, inBits: nat, outBits: nat, invert: bool): (r: int)
    requires inBits > 0
    ensures 0 <= r < Pow2(outBits)
    ensures !invert && 0 <= v < Pow2(outBits) ==> r == v
    ensures invert && inBits <= outBits && -(Pow2(inBits - 1) as int) <= v < Pow2(inBits - 1) ==>
      r == v + Pow2(inBits - 1)
  {
    var p := Pow2(outBits);
    var u := if invert then FlipTopBit(v, inBits) else v;
    assert invert && inBits <= outBits && -(Pow2(inBits - 1) as int) <= v < Pow2(inBits - 1) ==>
      u == v + Pow2(inBits - 1) && 0 <= u < p by {
      if invert && inBits <= outBits && -(Pow2(inBits - 1) as int) <= v < Pow2(inBits - 1) {
        FlipTopBitIsOffsetBinary(v, inBits);
        Pow2Monotone(inBits, outBits);
      }
    }
    assert 0 <= u < p ==> u % p == u by {
      if 0 <= u < p {
        CInt.DivModUnique(u, p, 0, u);
      }
    }
    u % p
  }

  /** The number of indices lo, lo+step, ... below hi. */
  function StridedCount(lo: int, hi: int, step: nat): (n: nat)
    requires step > 0
    decreases hi - lo
  {
    if lo >= hi then 0 else 1 + StridedCount(lo + step, hi, step)
  }

  /** The strided walk stops at the first index not below hi. */
  lemma {:induction false} StridedCountCloses(lo: int, hi: int, step: nat)
    requires step > 0
    ensures lo + StridedCount(lo, hi, step) * step >= hi
    ensures StridedCount(lo, hi, step) > 0 ==> lo + (StridedCount(lo, hi, step) - 1) * step < hi
    decreases hi - lo
  {
    if lo < hi {
      StridedCountCloses(lo + step, hi, step);
      var n := StridedCount(lo + step, hi, step);
      CInt.MulSucc(step, n);
      if n > 0 {
        CInt.MulSucc(step, n - 1);
      }
    }
  }

  /** What castToUintAndInsert2 appends: `copies` converted copies of each strided sample. */
  function StridedCast(values: seq<int>, lo: int, hi: int, step: nat, copies: nat,
                       inBits: nat, outBits: nat, invert: bool): (r: seq<int>)
    requires step > 0 && inBits > 0
    requires lo >= hi || (0 <= lo && hi <= |values|)
    decreases hi - lo
  {
    if lo >= hi then []
    else Repeat(CastSample(values[lo], inBits, outBits, invert), copies)
         + StridedCast(values, lo + step, hi, step, copies, inBits, outBits, invert)
  }

  /** Each strided index contributes exactly `copies` entries. */
  lemma {:induction false} StridedCastLength(values: seq<int>, lo: int, hi: int, step: nat, copies: nat,
                                             inBits: nat, outBits: nat, invert: bool)
    requires step > 0 && inBits > 0
    requires lo >= hi || (0 <= lo && hi <= |values|)
    ensures |StridedCast(values, lo, hi, step, copies, inBits, outBits, invert)| == StridedCount(lo, hi, step) * copies
    decreases hi - lo
  {
    if lo < hi {
      StridedCastLength(values, lo + step, hi, step, copies, inBits, outBits, invert);
      CInt.MulDistributes(1, StridedCount(lo + step, hi, step), copies);
    }
  }

  /** Entry n·copies + j is the n-th strided sample, converted. */
  lemma {:induction false} StridedCastElement(values: seq<int>, lo: int, hi: int, step: nat, copies: nat,
                                              inBits: nat, outBits: nat, invert: bool, n: nat, j: nat)
    requires step > 0 && inBits > 0
    requires lo >= hi || (0 <= lo && hi <= |values|)
    requires n < StridedCount(lo, hi, step) && j < copies
    ensures 0 <= lo + n * step < |values|
    ensures var r := StridedCast(values, lo, hi, step, copies, inBits, outBits, invert);
      n * copies + j < |r| && r[n * copies + j] == CastSample(values[lo + n * step], inBits, outBits, invert)
    decreases hi - lo
  {
    var r := StridedCast(values, lo, hi, step, copies, inBits, outBits, invert);
    var c := CastSample(values[lo], inBits, outBits, invert);
    var rest := StridedCast(values, lo + step, hi, step, copies, inBits, outBits, invert);
    assert r == Repeat(c, copies) + rest;
    if n == 0 {
      assert r[j] == c;
    } else {
      StridedCastElement(values, lo + step, hi, step, copies, inBits, outBits, invert, n - 1, j);
      var m := (n - 1) * copies + j;
      assert n * copies + j == copies + m by {
        CInt.MulSucc(copies, n - 1);
      }
      assert lo + step + (n - 1) * step == lo + n * step by {
        CInt.MulSucc(step, n - 1);
      }
      assert r[copies + m] == rest[m];
    }
  }

  /**
   * castToUintAndInsert2: for i = lo, lo+step, ... below hi, appends `duplicate` copies of
   * sample i converted (a negative count appends none). The source reads the buffer
   * unchecked and only advances for a positive step.
   */
  method CastToUintAndInsert(values: seq<int>, res0: seq<int>, duplicate: int, step: int, lo: int, hi: int,
                             inBits: nat, outBits: nat, invert: bool) returns (res: seq<int>)
    requires step > 0 && inBits > 0
    requires lo >= hi || (0 <= lo && hi <= |values|)
    ensures res == res0 + StridedCast(values, lo, hi, step, if duplicate < 0 then 0 else duplicate,
                                      inBits, outBits, invert)
  {
    var copies: nat := if duplicate < 0 then 0 else duplicate;
    ghost var all := StridedCast(values, lo, hi, step, copies, inBits, outBits, invert);
    res := res0;
    var i := lo;
    while i < hi
      invariant i >= hi || (0 <= i && hi <= |values|)
      invariant res + StridedCast(values, i, hi, step, copies, inBits, outBits, invert) == res0 + all
      decreases hi - i
    {
      var c := CastSample(values[i], inBits, outBits, invert);
      ghost var before := res;
      res := PushCopies(res, c, duplicate);
      ghost var rest := StridedCast(values, i + step, hi, step, copies, inBits, outBits, invert);
      AppendStep(before, res, Repeat(c, copies), rest);
      i := i + step;
    }
  }

  /** Appending the head of a remainder moves it from the remainder to the accumulator. */
  lemma AppendStep(acc0: seq<int>, acc: seq<int>, head: seq<int>, tail: seq<int>)
    requires acc == acc0 + head
    ensures acc0 + (head + tail) == acc + tail
  {
  }

  /** The push_back loop `for (j = 0; j < n; ++j)`: n copies of c, none for n <= 0. */
  method PushCopies(res0: seq<int>, c: int, n: int) returns (res: seq<int>)
    ensures res == res0 + Repeat(c, if n < 0 then 0 else n)
  {
    res := res0;
    var j := 0;
    while j < n
      invariant 0 <= j <= (if n < 0 then 0 else n)
      invariant res == res0 + Repeat(c, j)
    {
      res := res + [c];
      j := j + 1;
    }
  }

  datatype Kind = Unsigned | Signed | Floating

  /** An image sample type: its kind and its width in bits. */
  datatype ImageDataType = ImageDataType(kind: Kind, bits: nat)

  /**
   * The dispatch of castToLowPrecision2: the buffer width and whether to invert, for the
   * ten types it knows; nothing for any other.
   */
  function Conversion(t: ImageDataType): (r: Option<(nat, bool)>)
    ensures r.Some? <==> (t.bits in {8, 16, 32, 64} && t.kind != Floating) || (t.kind == Floating && t.bits in {32, 64})
    ensures r.Some? ==> r.value.0 == t.bits && (r.value.1 <==> t.kind == Signed)
  {
    match t.kind
    case Unsigned => if t.bits in {8, 16, 32, 64} then Some((t.bits, false)) else None
    case Signed => if t.bits in {8, 16, 32, 64} then Some((t.bits, true)) else None
    case Floating => if t.bits in {32, 64} then Some((t.bits, false)) else None
  }

  /** castToLowPrecision2: the strided cast with the dispatched width and inversion; nothing for an unknown type. */
  method CastToLowPrecision(t: ImageDataType, values: seq<int>, res0: seq<int>, duplicate: int, step: int,
                            lo: int, hi: int, outBits: nat) returns (res: seq<int>)
    requires step > 0
    requires lo >= hi || (0 <= lo && hi <= |values|)
    ensures Conversion(t).None? ==> res == res0
    ensures Conversion(t).Some? ==>
      res == res0 + StridedCast(values, lo, hi, step, if duplicate < 0 then 0 else duplicate,
                                t.bits, outBits, t.kind == Signed)
  {
    var conv := Conversion(t);
    if conv.None? {
      return res0;
    }
    res := CastToUintAndInsert(values, res0, duplicate, step, lo, hi, t.bits, outBits, t.kind == Signed);
  }

  // ---------------------------------------------------------------------------------
  // DIM/IMA reader

  /**
   * The header's sample type as the DIM loader holds it: the statement that would read it
   * is commented out, so the string it tests stays empty.
   */
  const DimTypeAsRead: string := ""

  /** The byte count of the loader's type tests: two bytes per sample for S16, four for FLOAT. */
  function TypedInputBytes(n: (nat, nat, nat), sampleType: string): nat
  {
    var size := n.0 * n.1 * n.2;
    var sizeIn := if Contains(sampleType, "S16") then size * 2 else size;
    if Contains(sampleType, "FLOAT") then size * 4 else sizeIn
  }

  /** The byte count read from a .ima file: one byte per voxel, whatever type the header names. */
  function DimInputBytes(n: (nat, nat, nat)): (b: nat)
    ensures b == n.0 * n.1 * n.2
  {
    TypedInputBytes(n, DimTypeAsRead)
  }

  /** std::string::find(t) != npos */
  predicate Contains(s: string, t: string)
    decreases |s|
  {
    |t| <= |s| && (s[..|t|] == t || (|s| > 0 && Contains(s[1..], t)))
  }

  /** from3DTo1D of the DIM reader, on any coordinates. */
  function DimIndex(w: nat, h: nat, i: int, j: int, k: int): int
  {
    i + w * j + w * h * k
  }

  /** One strided row of getSlice as written: nbChannel copies of each voxel's index, as a 16-bit value. */
  function RowIndices(w: nat, h: nat, k: int, j: int, lo: int, hi: int, step: nat, nb: nat): seq<int>
    requires step > 0
    decreases hi - lo
  {
    if lo >= hi then []
    else Repeat(DimIndex(w, h, lo, j, k) % 0x1_0000, nb) + RowIndices(w, h, k, j, lo + step, hi, step, nb)
  }

  /** The rows of getSlice as written, j = loJ, loJ+stepJ, ... below hiJ. */
  function SliceIndices(w: nat, h: nat, k: int, loJ: int, hiJ: int, stepJ: nat,
                        loI: int, hiI: int, stepI: nat, nb: nat): seq<int>
    requires stepI > 0 && stepJ > 0
    decreases hiJ - loJ
  {
    if loJ >= hiJ then []
    else RowIndices(w, h, k, loJ, loI, hiI, stepI, nb) + SliceIndices(w, h, k, loJ + stepJ, hiJ, stepJ, loI, hiI, stepI, nb)
  }

  /** A box [loI,hiI) × [loJ,hiJ) of slice k inside the image. */
  predicate InImage(res: (nat, nat, nat), k: int, loI: int, hiI: int, loJ: int, hiJ: int)
  {
    0 <= loI && hiI <= res.0 && 0 <= loJ && hiJ <= res.1 && 0 <= k < res.2
  }

  /** One strided row of the samples themselves. */
  function RowValues(res: (nat, nat, nat), data: seq<int>, k: int, j: int, lo: int, hi: int, step: nat, nb: nat): seq<int>
    requires step > 0 && |data| == res.0 * res.1 * res.2
    requires lo < hi ==> InImage(res, k, lo, hi, j, j + 1)
    decreases hi - lo
  {
    if lo >= hi then []
    else
      Lattice.InRange(res.0, res.1, res.2, lo, j, k);
      Repeat(data[Lattice.LinearIndex(res.0, res.1, lo, j, k)], nb) + RowValues(res, data, k, j, lo + step, hi, step, nb)
  }

  /** The rows of samples, j = loJ, loJ+stepJ, ... below hiJ. */
  function SliceValues(res: (nat, nat, nat), data: seq<int>, k: int, loJ: int, hiJ: int, stepJ: nat,
                       loI: int, hiI: int, stepI: nat, nb: nat): seq<int>
    requires stepI > 0 && stepJ > 0 && |data| == res.0 * res.1 * res.2
    requires loJ < hiJ && loI < hiI ==> InImage(res, k, loI, hiI, loJ, hiJ)
    decreases hiJ - loJ
  {
    if loJ >= hiJ then []
    else RowValues(res, data, k, loJ, loI, hiI, stepI, nb)
         + SliceValues(res, data, k, loJ + stepJ, hiJ, stepJ, loI, hiI, stepI, nb)
  }

  class DimReader {
    var imgResolution: (nat, nat, nat)
    var data: seq<int>

    /** The reader as the .dim/.ima parse leaves it: a resolution and one 16-bit sample per voxel. */
    constructor (res: (nat, nat, nat), samples: seq<int>)
      requires |samples| == res.0 * res.1 * res.2
      ensures imgResolution == res && data == samples
    {
      imgResolution := res;
      data := samples;
    }

    /** getValue: the sample of voxel (i, j, k). */
    function GetValue(i: nat, j: nat, k: nat): (v: int)
      reads this
      requires |data| == imgResolution.0 * imgResolution.1 * imgResolution.2
      requires i < imgResolution.0 && j < imgResolution.1 && k < imgResolution.2
      ensures 0 <= DimIndex(imgResolution.0, imgResolution.1, i, j, k) < |data|
      ensures v == data[DimIndex(imgResolution.0, imgResolution.1, i, j, k)]
    {
      var (w, h, d) := imgResolution;
      Lattice.InRange(w, h, d, i, j, k);
      data[Lattice.LinearIndex(w, h, i, j, k)]
    }

    /** The column loop of getSlice as written, for row j. */
    method PushRowIndices(result0: seq<int>, sliceIdx: int, j: int, nbChannel: int, stepI: int, loI: int, hiI: int)
      returns (result: seq<int>)
      requires stepI > 0
      ensures result == result0 + RowIndices(imgResolution.0, imgResolution.1, sliceIdx, j, loI, hiI, stepI,
                                             if nbChannel < 0 then 0 else nbChannel)
    {
      var w, h := imgResolution.0, imgResolution.1;
      var nb: nat := if nbChannel < 0 then 0 else nbChannel;
      result := result0;
      var i := loI;
      while i < hiI
        invariant result + RowIndices(w, h, sliceIdx, j, i, hiI, stepI, nb)
               == result0 + RowIndices(w, h, sliceIdx, j, loI, hiI, stepI, nb)
        decreases hiI - i
      {
        var c := DimIndex(w, h, i, j, sliceIdx) % 0x1_0000;
        ghost var rest := RowIndices(w, h, sliceIdx, j, i + stepI, hiI, stepI, nb);
        ghost var cell := result;
        result := PushCopies(result, c, nbChannel);
        AppendStep(cell, result, Repeat(c, nb), rest);
        i := i + stepI;
      }
    }

    /**
     * getSlice as written: clears the result, then for each strided row j and strided
     * column i pushes nbChannel copies of the voxel's index (not its sample).
     */
    method GetSlice(sliceIdx: int, nbChannel: int, stepI: int, stepJ: int, loI: int, hiI: int, loJ: int, hiJ: int)
      returns (result: seq<int>)
      requires stepI > 0 && stepJ > 0
      ensures result == SliceIndices(imgResolution.0, imgResolution.1, sliceIdx, loJ, hiJ, stepJ, loI, hiI, stepI,
                                     if nbChannel < 0 then 0 else nbChannel)
    {
      var w, h := imgResolution.0, imgResolution.1;
      var nb: nat := if nbChannel < 0 then 0 else nbChannel;
      ghost var all := SliceIndices(w, h, sliceIdx, loJ, hiJ, stepJ, loI, hiI, stepI, nb);
      result := [];
      var j := loJ;
      while j < hiJ
        invariant result + SliceIndices(w, h, sliceIdx, j, hiJ, stepJ, loI, hiI, stepI, nb) == all
        decreases hiJ - j
      {
        ghost var before := result;
        ghost var row := RowIndices(w, h, sliceIdx, j, loI, hiI, stepI, nb);
        ghost var later := SliceIndices(w, h, sliceIdx, j + stepJ, hiJ, stepJ, loI, hiI, stepI, nb);
        result := PushRowIndices(result, sliceIdx, j, nbChannel, stepI, loI, hiI);
        AppendStep(before, result, row, later);
        j := j + stepJ;
      }
    }

    /** The column loop of the intended getSlice, for row j. */
    method PushRowValues(result0: seq<int>, sliceIdx: int, j: int, nbChannel: int, stepI: int, loI: int, hiI: int)
      returns (result: seq<int>)
      requires stepI > 0 && |data| == imgResolution.0 * imgResolution.1 * imgResolution.2
      requires loI < hiI ==> InImage(imgResolution, sliceIdx, loI, hiI, j, j + 1)
      ensures result == result0 + RowValues(imgResolution, data, sliceIdx, j, loI, hiI, stepI,
                                            if nbChannel < 0 then 0 else nbChannel)
    {
      var nb: nat := if nbChannel < 0 then 0 else nbChannel;
      result := result0;
      var i := loI;
      while i < hiI
        invariant i < hiI ==> loI <= i
        invariant result + RowValues(imgResolution, data, sliceIdx, j, i, hiI, stepI, nb)
               == result0 + RowValues(imgResolution, data, sliceIdx, j, loI, hiI, stepI, nb)
        decreases hiI - i
      {
        var c := GetValue(i, j, sliceIdx);
        ghost var rest := RowValues(imgResolution, data, sliceIdx, j, i + stepI, hiI, stepI, nb);
        ghost var cell := result;
        result := PushCopies(result, c, nbChannel);
        AppendStep(cell, result, Repeat(c, nb), rest);
        i := i + stepI;
      }
    }

    /** getSlice as evidently intended: the same walk, pushing the voxels' samples. */
    method GetSliceValues(sliceIdx: int, nbChannel: int, stepI: int, stepJ: int, loI: int, hiI: int, loJ: int, hiJ: int)
      returns (result: seq<int>)
      requires stepI > 0 && stepJ > 0 && |data| == imgResolution.0 * imgResolution.1 * imgResolution.2
      requires loJ < hiJ && loI < hiI ==> InImage(imgResolution, sliceIdx, loI, hiI, loJ, hiJ)
      ensures result == SliceValues(imgResolution, data, sliceIdx, loJ, hiJ, stepJ, loI, hiI, stepI,
                                    if nbChannel < 0 then 0 else nbChannel)
    {
      var nb: nat := if nbChannel < 0 then 0 else nbChannel;
      ghost var all := SliceValues(imgResolution, data, sliceIdx, loJ, hiJ, stepJ, loI, hiI, stepI, nb);
      result := [];
      var j := loJ;
      while j < hiJ
        invariant j < hiJ && loI < hiI ==> loJ <= j
        invariant result + SliceValues(imgResolution, data, sliceIdx, j, hiJ, stepJ, loI, hiI, stepI, nb) == all
        decreases hiJ - j
      {
        ghost var before := result;
        ghost var row := RowValues(imgResolution, data, sliceIdx, j, loI, hiI, stepI, nb);
        ghost var later := SliceValues(imgResolution, data, sliceIdx, j + stepJ, hiJ, stepJ, loI, hiI, stepI, nb);
        result := PushRowValues(result, sliceIdx, j, nbChannel, stepI, loI, hiI);
        AppendStep(before, result, row, later);
        j := j + stepJ;
      }
    }
  }

  /** A window one voxel wide and one row high yields that voxel's entries only. */
  lemma SingleVoxelWindow(w: nat, h: nat, k: int, i: int, j: int, nb: nat)
    ensures SliceIndices(w, h, k, j, j + 1, 1, i, i + 1, 1, nb) == Repeat(DimIndex(w, h, i, j, k) % 0x1_0000, nb)
  {
    assert RowIndices(w, h, k, j, i + 1, i + 1, 1, nb) == [];
    assert SliceIndices(w, h, k, j + 1, j + 1, 1, i, i + 1, 1, nb) == [];
    var row := RowIndices(w, h, k, j, i, i + 1, 1, nb);
    assert row == Repeat(DimIndex(w, h, i, j, k) % 0x1_0000, nb) + [];
  }

  /** The intended slice of a one-voxel window holds that voxel's sample. */
  lemma SingleVoxelWindowValues(res: (nat, nat, nat), data: seq<int>, k: nat, i: nat, j: nat, nb: nat)
    requires |data| == res.0 * res.1 * res.2 && i < res.0 && j < res.1 && k < res.2
    ensures 0 <= Lattice.LinearIndex(res.0, res.1, i, j, k) < |data|
    ensures SliceValues(res, data, k, j, j + 1, 1, i, i + 1, 1, nb) == Repeat(data[Lattice.LinearIndex(res.0, res.1, i, j, k)], nb)
  {
    Lattice.InRange(res.0, res.1, res.2, i, j, k);
    assert RowValues(res, data, k, j, i + 1, i + 1, 1, nb) == [];
    assert SliceValues(res, data, k, j + 1, j + 1, 1, i, i + 1, 1, nb) == [];
    var row := RowValues(res, data, k, j, i, i + 1, 1, nb);
    assert row == Repeat(data[Lattice.LinearIndex(res.0, res.1, i, j, k)], nb) + [];
  }

  /**
   * On a one-voxel image, the slice as written yields the voxel's index 0 whatever the
   * sample v, where the intended slice yields v.
   */
  lemma SliceGivesIndicesNotSamples(v: int)
    ensures SliceIndices(1, 1, 0, 0, 1, 1, 0, 1, 1, 1) == [0]
    ensures SliceValues((1, 1, 1), [v], 0, 0, 1, 1, 0, 1, 1, 1) == [v]
  {
    SingleVoxelWindow(1, 1, 0, 0, 0, 1);
    SingleVoxelWindowValues((1, 1, 1), [v], 0, 0, 0, 1);
  }

  /** Each strided column of a row as written contributes nb entries. */
  lemma {:induction false} RowIndicesLength(w: nat, h: nat, k: int, j: int, lo: int, hi: int, step: nat, nb: nat)
    requires step > 0
    ensures |RowIndices(w, h, k, j, lo, hi, step, nb)| == StridedCount(lo, hi, step) * nb
    decreases hi - lo
  {
    if lo < hi {
      RowIndicesLength(w, h, k, j, lo + step, hi, step, nb);
      CInt.MulDistributes(1, StridedCount(lo + step, hi, step), nb);
    }
  }

  /** Past the nb copies of the first voxel, entry n·nb + t is entry (n - 1)·nb + t of the rest. */
  lemma RepeatStep(v: int, rest: seq<int>, nb: nat, n: nat, t: nat)
    requires n > 0 && t < nb && (n - 1) * nb + t < |rest|
    ensures n * nb + t < |Repeat(v, nb) + rest|
    ensures (Repeat(v, nb) + rest)[n * nb + t] == rest[(n - 1) * nb + t]
  {
    CInt.MulSucc(nb, n - 1);
  }

  /** Entry n·nb + t of a row as written is the 16-bit index of its n-th strided voxel. */
  lemma {:induction false} RowIndicesElement(w: nat, h: nat, k: int, j: int, lo: int, hi: int, step: nat, nb: nat,
                                             n: nat, t: nat)
    requires step > 0 && n < StridedCount(lo, hi, step) && t < nb
    ensures lo + n * step < hi
    ensures var r := RowIndices(w, h, k, j, lo, hi, step, nb);
      n * nb + t < |r| && r[n * nb + t] == DimIndex(w, h, lo + n * step, j, k) % 0x1_0000
    decreases hi - lo
  {
    var r := RowIndices(w, h, k, j, lo, hi, step, nb);
    var rest := RowIndices(w, h, k, j, lo + step, hi, step, nb);
    assert r == Repeat(DimIndex(w, h, lo, j, k) % 0x1_0000, nb) + rest;
    if n == 0 {
      assert r[t] == DimIndex(w, h, lo, j, k) % 0x1_0000;
    } else {
      RowIndicesElement(w, h, k, j, lo + step, hi, step, nb, n - 1, t);
      RepeatStep(DimIndex(w, h, lo, j, k) % 0x1_0000, rest, nb, n, t);
      StridedShift(lo, step, n);
    }
  }

  /** The slice as written holds rows × columns × nbChannel entries. */
  lemma {:induction false} SliceIndicesLength(w: nat, h: nat, k: int, loJ: int, hiJ: int, stepJ: nat,
                                              loI: int, hiI: int, stepI: nat, nb: nat)
    requires stepI > 0 && stepJ > 0
    ensures |SliceIndices(w, h, k, loJ, hiJ, stepJ, loI, hiI, stepI, nb)|
         == StridedCount(loJ, hiJ, stepJ) * StridedCount(loI, hiI, stepI) * nb
    decreases hiJ - loJ
  {
    if loJ < hiJ {
      var rows, cols := StridedCount(loJ + stepJ, hiJ, stepJ), StridedCount(loI, hiI, stepI);
      RowIndicesLength(w, h, k, loJ, loI, hiI, stepI, nb);
      SliceIndicesLength(w, h, k, loJ + stepJ, hiJ, stepJ, loI, hiI, stepI, nb);
      assert (1 + rows) * cols * nb == cols * nb + rows * cols * nb by {
        CInt.MulDistributes(1, rows, cols);
        CInt.MulDistributes(cols, rows * cols, nb);
      }
    }
  }

  /** In row-major order, entry (r, c, t) with r > 0 lies in the rows after the first. */
  lemma RowMajorStep(first: seq<int>, rest: seq<int>, r: nat, cols: nat, c: nat, nb: nat, t: nat)
    requires r > 0 && |first| == cols * nb && ((r - 1) * cols + c) * nb + t < |rest|
    ensures (r * cols + c) * nb + t < |first + rest|
    ensures (first + rest)[(r * cols + c) * nb + t] == rest[((r - 1) * cols + c) * nb + t]
  {
    CInt.MulSucc(cols, r - 1);
    CInt.MulDistributes(cols, (r - 1) * cols + c, nb);
  }

  /** Strided row r > 0 from lo is strided row r - 1 from lo + step. */
  lemma StridedShift(lo: int, step: nat, r: nat)
    requires r > 0
    ensures lo + step + (r - 1) * step == lo + r * step
  {
    CInt.MulSucc(step, r - 1);
  }

  /** In row-major order, entry (0, c, t) lies in the first row. */
  lemma RowMajorFirst(first: seq<int>, rest: seq<int>, cols: nat, c: nat, nb: nat, t: nat)
    requires c < cols && t < nb && |first| == cols * nb
    ensures (0 * cols + c) * nb + t < |first|
    ensures (first + rest)[(0 * cols + c) * nb + t] == first[c * nb + t]
  {
    CInt.MulSucc(nb, c);
    CInt.MulMonotone(nb, c + 1, cols);
  }

  /**
   * Entry (r·cols + c)·nb + t of the slice as written is the 16-bit index of the voxel in
   * strided row r and strided column c, whatever the samples.
   */
  lemma {:induction false} SliceIndicesElement(w: nat, h: nat, k: int, loJ: int, hiJ: int, stepJ: nat,
                                               loI: int, hiI: int, stepI: nat, nb: nat, r: nat, c: nat, t: nat)
    requires stepI > 0 && stepJ > 0
    requires r < StridedCount(loJ, hiJ, stepJ) && c < StridedCount(loI, hiI, stepI) && t < nb
    ensures loI + c * stepI < hiI && loJ + r * stepJ < hiJ
    ensures var s := SliceIndices(w, h, k, loJ, hiJ, stepJ, loI, hiI, stepI, nb);
      var cols := StridedCount(loI, hiI, stepI);
      (r * cols + c) * nb + t < |s|
      && s[(r * cols + c) * nb + t] == DimIndex(w, h, loI + c * stepI, loJ + r * stepJ, k) % 0x1_0000
    decreases hiJ - loJ
  {
    var cols := StridedCount(loI, hiI, stepI);
    var s := SliceIndices(w, h, k, loJ, hiJ, stepJ, loI, hiI, stepI, nb);
    var row := RowIndices(w, h, k, loJ, loI, hiI, stepI, nb);
    var rest := SliceIndices(w, h, k, loJ + stepJ, hiJ, stepJ, loI, hiI, stepI, nb);
    assert s == row + rest;
    RowIndicesLength(w, h, k, loJ, loI, hiI, stepI, nb);
    RowIndicesElement(w, h, k, loJ, loI, hiI, stepI, nb, c, t);
    if r == 0 {
      RowMajorFirst(row, rest, cols, c, nb, t);
    } else {
      SliceIndicesElement(w, h, k, loJ + stepJ, hiJ, stepJ, loI, hiI, stepI, nb, r - 1, c, t);
      RowMajorStep(row, rest, r, cols, c, nb, t);
      StridedShift(loJ, stepJ, r);
    }
  }

  /** Each strided column of a row of samples contributes nb entries. */
  lemma {:induction false} RowValuesLength(res: (nat, nat, nat), data: seq<int>, k: int, j: int, lo: int, hi: int,
                                           step: nat, nb: nat)
    requires step > 0 && |data| == res.0 * res.1 * res.2
    requires lo < hi ==> InImage(res, k, lo, hi, j, j + 1)
    ensures |RowValues(res, data, k, j, lo, hi, step, nb)| == StridedCount(lo, hi, step) * nb
    decreases hi - lo
  {
    if lo < hi {
      RowValuesLength(res, data, k, j, lo + step, hi, step, nb);
      CInt.MulDistributes(1, StridedCount(lo + step, hi, step), nb);
    }
  }

  /** Entry n·nb + t of a row of samples is the sample of its n-th strided voxel. */
  lemma {:induction false} RowValuesElement(res: (nat, nat, nat), data: seq<int>, k: int, j: int, lo: int, hi: int,
                                            step: nat, nb: nat, n: nat, t: nat)
    requires step > 0 && |data| == res.0 * res.1 * res.2
    requires lo < hi ==> InImage(res, k, lo, hi, j, j + 1)
    requires n < StridedCount(lo, hi, step) && t < nb
    ensures InImage(res, k, lo, hi, j, j + 1) && lo + n * step < hi
    ensures Lattice.LinearIndex(res.0, res.1, lo + n * step, j, k) < |data|
    ensures var r := RowValues(res, data, k, j, lo, hi, step, nb);
      n * nb + t < |r| && r[n * nb + t] == data[Lattice.LinearIndex(res.0, res.1, lo + n * step, j, k)]
    decreases hi - lo
  {
    Lattice.InRange(res.0, res.1, res.2, lo, j, k);
    var v := data[Lattice.LinearIndex(res.0, res.1, lo, j, k)];
    var r := RowValues(res, data, k, j, lo, hi, step, nb);
    var rest := RowValues(res, data, k, j, lo + step, hi, step, nb);
    assert r == Repeat(v, nb) + rest;
    if n == 0 {
      assert r[t] == v;
    } else {
      RowValuesElement(res, data, k, j, lo + step, hi, step, nb, n - 1, t);
      RepeatStep(v, rest, nb, n, t);
      StridedShift(lo, step, n);
    }
  }

  /** The corrected slice holds rows × columns × nbChannel entries. */
  lemma {:induction false} SliceValuesLength(res: (nat, nat, nat), data: seq<int>, k: int, loJ: int, hiJ: int,
                                             stepJ: nat, loI: int, hiI: int, stepI: nat, nb: nat)
    requires stepI > 0 && stepJ > 0 && |data| == res.0 * res.1 * res.2
    requires loJ < hiJ && loI < hiI ==> InImage(res, k, loI, hiI, loJ, hiJ)
    ensures |SliceValues(res, data, k, loJ, hiJ, stepJ, loI, hiI, stepI, nb)|
         == StridedCount(loJ, hiJ, stepJ) * StridedCount(loI, hiI, stepI) * nb
    decreases hiJ - loJ
  {
    if loJ < hiJ {
      var rows, cols := StridedCount(loJ + stepJ, hiJ, stepJ), StridedCount(loI, hiI, stepI);
      RowValuesLength(res, data, k, loJ, loI, hiI, stepI, nb);
      SliceValuesLength(res, data, k, loJ + stepJ, hiJ, stepJ, loI, hiI, stepI, nb);
      assert (1 + rows) * cols * nb == cols * nb + rows * cols * nb by {
        CInt.MulDistributes(1, rows, cols);
        CInt.MulDistributes(cols, rows * cols, nb);
      }
    }
  }

  /**
   * Entry (r·cols + c)·nb + t of the corrected slice is the sample of the voxel in strided
   * row r and strided column c of slice k.
   */
  lemma {:induction false} SliceValuesElement(res: (nat, nat, nat), data: seq<int>, k: int, loJ: int, hiJ: int,
                                              stepJ: nat, loI: int, hiI: int, stepI: nat, nb: nat,
                                              r: nat, c: nat, t: nat)
    requires stepI > 0 && stepJ > 0 && |data| == res.0 * res.1 * res.2
    requires loJ < hiJ && loI < hiI ==> InImage(res, k, loI, hiI, loJ, hiJ)
    requires r < StridedCount(loJ, hiJ, stepJ) && c < StridedCount(loI, hiI, stepI) && t < nb
    ensures InImage(res, k, loI, hiI, loJ, hiJ) && loI + c * stepI < hiI && loJ <= loJ + r * stepJ < hiJ
    ensures Lattice.LinearIndex(res.0, res.1, loI + c * stepI, loJ + r * stepJ, k) < |data|
    ensures var s := SliceValues(res, data, k, loJ, hiJ, stepJ, loI, hiI, stepI, nb);
      var cols := StridedCount(loI, hiI, stepI);
      (r * cols + c) * nb + t < |s|
      && s[(r * cols + c) * nb + t] == data[Lattice.LinearIndex(res.0, res.1, loI + c * stepI, loJ + r * stepJ, k)]
    decreases hiJ - loJ
  {
    var cols := StridedCount(loI, hiI, stepI);
    var s := SliceValues(res, data, k, loJ, hiJ, stepJ, loI, hiI, stepI, nb);
    var row := RowValues(res, data, k, loJ, loI, hiI, stepI, nb);
    var rest := SliceValues(res, data, k, loJ + stepJ, hiJ, stepJ, loI, hiI, stepI, nb);
    assert s == row + rest;
    RowValuesLength(res, data, k, loJ, loI, hiI, stepI, nb);
    RowValuesElement(res, data, k, loJ, loI, hiI, stepI, nb, c, t);
    if r == 0 {
      RowMajorFirst(row, rest, cols, c, nb, t);
    } else {
      SliceValuesElement(res, data, k, loJ + stepJ, hiJ, stepJ, loI, hiI, stepI, nb, r - 1, c, t);
      RowMajorStep(row, rest, r, cols, c, nb, t);
      StridedShift(loJ, stepJ, r);
    }
  }

  // ---------------------------------------------------------------------------------
  // Reader selection

  datatype ImageFormat = TIFF | OME_TIFF | DIM_IMA

  /** find_first_of: the position of the first c, or -1. */
  function FirstIndexOf(s: string, c: char): (r: int)
    ensures -1 <= r < |s|
    ensures r >= 0 ==> s[r] == c && forall i :: 0 <= i < r ==> s[i] != c
    ensures r == -1 ==> forall i :: 0 <= i < |s| ==> s[i] != c
  {
    if |s| == 0 then -1
    else if s[0] == c then 0
    else
      var r := FirstIndexOf(s[1..], c);
      if r == -1 then -1 else r + 1
  }

  /** The text after the last '.' (the whole name when there is none: npos + 1 wraps to 0). */
  function Extension(name: string): string
  {
    name[ReaderHelpers.LastIndexOf(name, '.') + 1..]
  }

  /** "ome" appears after the first '.' (anywhere, when there is none). */
  predicate NamesOmeTiff(name: string)
  {
    Contains(name[FirstIndexOf(name, '.') + 1..], "ome")
  }

  /**
   * The ImageReader constructor as written: its first test `size > 0 || ext is tif/tiff`
   * holds for every non-empty list, so a DIM/IMA name is opened as TIFF.
   */
  function SelectFormatAsWritten(filenames: seq<string>): (f: ImageFormat)
    requires |filenames| > 0
    ensures f != DIM_IMA
    ensures f == OME_TIFF <==> NamesOmeTiff(filenames[0])
  {
    if NamesOmeTiff(filenames[0]) then OME_TIFF else TIFF
  }

  /**
   * The selection the constructor evidently intends (`&&`): TIFF or OME-TIFF for a
   * .tif/.tiff name, DIM/IMA for a .dim/.ima name, nothing for any other.
   */
  function SelectFormat(filenames: seq<string>): (f: Option<ImageFormat>)
    requires |filenames| > 0
    ensures f == Some(DIM_IMA) <==> Extension(filenames[0]) in {"dim", "ima"}
    ensures f.Some? && f.value != DIM_IMA <==> Extension(filenames[0]) in {"tif", "tiff"}
    ensures f.Some? && f.value != DIM_IMA ==> (f.value == OME_TIFF <==> NamesOmeTiff(filenames[0]))
  {
    var ext := Extension(filenames[0]);
    if ext == "tif" || ext == "tiff" then Some(if NamesOmeTiff(filenames[0]) then OME_TIFF else TIFF)
    else if ext == "dim" || ext == "ima" then Some(DIM_IMA)
    else None
  }

  /** "a.dim" is opened as TIFF by the constructor as written, as DIM/IMA by the intended selection. */
  lemma DimNameOpenedAsTiff()
    ensures SelectFormatAsWritten(["a.dim"]) == TIFF
    ensures SelectFormat(["a.dim"]) == Some(DIM_IMA)
  {
    var s := "a.dim";
    assert s[1] == '.' && forall i :: 2 <= i < |s| ==> s[i] != '.';
    assert ReaderHelpers.LastIndexOf(s, '.') == 1;
    assert FirstIndexOf(s, '.') == 1;
    assert s[2..] == "dim";
    assert !Contains("im", "ome");
    assert !Contains("dim", "ome");
  }
}
