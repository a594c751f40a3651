/**
 * The TIFF backend of the generic image API: it accepts .tif/.tiff names, validates the
 * stacks of file names before parsing, and picks the templated reader that matches the
 * reference frame's sample format and bits per sample. Without a reader (a null `pImpl`)
 * it reports an unknown type, nothing on disk, and fails every read.
 *
 * The TIFF directory counts of the files are the parameter `dirCount`; whether the first
 * frame of a file parses is the parameter `frameParses`.
 */
module TiffBackend {
  import opened Wrappers
  import ReaderHelpers
  import TiffReader
  import TiffWriter

  // ---------------------------------------------------------------------------------
  // canReadImage

  predicate EndsWith(s: string, suffix: string)
  {
    |suffix| <= |s| && s[|s| - |suffix|..] == suffix
  }

  /** canReadImage: the text from the last '.' on is ".tif" or ".tiff", and the first frame parses. */
  function CanReadImage(name: string, frameParses: bool): (r: bool)
    ensures r ==> frameParses && (EndsWith(name, ".tif") || EndsWith(name, ".tiff"))
  {
    var extPos := ReaderHelpers.LastIndexOf(name, '.');
    if extPos < 0 then false
    else
      var ext := name[extPos..];
      if ext == ".tif" || ext == ".tiff" then frameParses else false
  }

  /** The last '.' of a name ending with an extension free of '.' starts that extension. */
  lemma LastDotStartsSuffix(name: string, suffix: string)
    requires EndsWith(name, suffix) && |suffix| > 0 && suffix[0] == '.' && '.' !in suffix[1..]
    ensures ReaderHelpers.LastIndexOf(name, '.') == |name| - |suffix|
  {
    var k := |name| - |suffix|;
    assert name[k] == suffix[0];
    forall i | k < i < |name|
      ensures name[i] != '.'
    {
      assert name[i] == suffix[1..][i - k - 1];
    }
  }

  /** A name is accepted exactly when it ends with ".tif" or ".tiff" and its first frame parses. */
  lemma CanReadImageIff(name: string, frameParses: bool)
    ensures CanReadImage(name, frameParses) <==> frameParses && (EndsWith(name, ".tif") || EndsWith(name, ".tiff"))
  {
    var extPos := ReaderHelpers.LastIndexOf(name, '.');
    if EndsWith(name, ".tif") {
      LastDotStartsSuffix(name, ".tif");
    } else if EndsWith(name, ".tiff") {
      LastDotStartsSuffix(name, ".tiff");
    } else if extPos >= 0 {
      assert name[extPos..] != ".tif" && name[extPos..] != ".tiff";
    }
  }

  /** A name without any '.' is never accepted. */
  lemma NoDotIsRejected(name: string, frameParses: bool)
    requires '.' !in name
    ensures !CanReadImage(name, frameParses)
  {
  }

  // ---------------------------------------------------------------------------------
  // createTiffBackend

  /** createTiffBackend's dispatch: the reader's element type, or nothing where the source throws. */
  function BackendType(format: TiffWriter.SampleFormat, bps: nat): (t: Option<TiffWriter.ElementType>)
    ensures t.Some? <==>
      ((format == TiffWriter.UInt || format == TiffWriter.Int) && (bps == 8 || bps == 16 || bps == 32 || bps == 64))
      || (format == TiffWriter.IEEEFP && (bps == 32 || bps == 64))
    ensures t.Some? ==> TiffWriter.BitWidth(t.value) == bps
  {
    match format
    case UInt =>
      if bps == 8 then Some(TiffWriter.U8) else if bps == 16 then Some(TiffWriter.U16)
      else if bps == 32 then Some(TiffWriter.U32) else if bps == 64 then Some(TiffWriter.U64) else None
    case Int =>
      if bps == 8 then Some(TiffWriter.I8) else if bps == 16 then Some(TiffWriter.I16)
      else if bps == 32 then Some(TiffWriter.I32) else if bps == 64 then Some(TiffWriter.I64) else None
    case IEEEFP =>
      if bps == 32 then Some(TiffWriter.F32) else if bps == 64 then Some(TiffWriter.F64) else None
    case Void => None
    case ComplexInt => None
    case ComplexIEEEFP => None
    case Unrecognized => None
  }

  /** A file written by the writer of some element type is read back with a reader of that type. */
  lemma WrittenTypeIsReadBack(t: TiffWriter.ElementType)
    ensures BackendType(TiffWriter.WriterTags(t).0, TiffWriter.WriterTags(t).1) == Some(t)
  {
  }

  // ---------------------------------------------------------------------------------
  // checkFilenamesAreValid

  /** The inner loop: the directory counts of every stack's file fi, added up as the source does. */
  method CountDirectoriesAt(f: seq<seq<string>>, dirCount: string -> nat, fi: nat, total0: nat)
    returns (ok: bool, total: nat)
    requires |f| > 0 && TiffReader.SameFileCounts(f) && fi < |f[0]|
    ensures ok <==> TiffReader.DirCountsAgree(f, dirCount, fi)
    ensures ok ==> total == total0 + |f| * dirCount(f[0][fi])
  {
    var reference := dirCount(f[0][fi]);
    total := total0;
    var j := 0;
    while j < |f|
      invariant 0 <= j <= |f|
      invariant forall c :: 0 <= c < j ==> dirCount(f[c][fi]) == reference
      invariant total == total0 + j * reference
    {
      if dirCount(f[j][fi]) != reference {
        return false, total;
      }
      total := total + reference;
      j := j + 1;
    }
    return true, total;
  }

  /**
   * checkFilenamesAreValid as written: every stack must have as many files as the first and,
   * file by file, as many directories; the step count it sets adds the reference directory
   * count once per channel stack.
   */
  method CheckFilenamesAreValid(f: seq<seq<string>>, dirCount: string -> nat) returns (ok: bool, steps: nat)
    requires |f| > 0
    ensures ok <==> (TiffReader.SameFileCounts(f) &&
                     forall fi :: 0 <= fi < |f[0]| ==> TiffReader.DirCountsAgree(f, dirCount, fi))
    ensures ok ==> steps == |f| * TiffReader.DirTotal(f, dirCount, |f[0]|)
  {
    var refCount := |f[0]|;
    var i := 0;
    while i < |f|
      invariant 0 <= i <= |f|
      invariant forall c :: 0 <= c < i ==> |f[c]| == refCount
    {
      if |f[i]| != refCount {
        return false, 0;
      }
      i := i + 1;
    }
    var total := 0;
    var fi := 0;
    while fi < |f[0]|
      invariant 0 <= fi <= |f[0]|
      invariant forall k :: 0 <= k < fi ==> TiffReader.DirCountsAgree(f, dirCount, k)
      invariant total == |f| * TiffReader.DirTotal(f, dirCount, fi)
    {
      var agree: bool;
      agree, total := CountDirectoriesAt(f, dirCount, fi, total);
      if !agree {
        return false, 0;
      }
      fi := fi + 1;
    }
    return true, total;
  }

  /**
   * The depth parseImageInfo_thread gives the image as written: the step count, which is the
   * number of slices times the number of channel stacks.
   */
  lemma DepthAsWrittenCountsChannels(f: seq<seq<string>>, dirCount: string -> nat)
    requires |f| > 0 && TiffReader.SameFileCounts(f)
    ensures |f| * TiffReader.DirTotal(f, dirCount, |f[0]|) == |f| * |TiffReader.FramesOf(f, dirCount, |f[0]|)|
  {
    TiffReader.FramesOfShape(f, dirCount, |f[0]|);
  }

  /** Two channel stacks of one three-directory file: three slices, but a depth of six. */
  lemma TwoChannelDepthDoubled()
    ensures var f := [["a.tif"], ["b.tif"]];
      var dirCount := (file: string) => 3;
      TiffReader.SameFileCounts(f) && |TiffReader.FramesOf(f, dirCount, 1)| == 3
      && |f| * TiffReader.DirTotal(f, dirCount, 1) == 6
  {
    var f := [["a.tif"], ["b.tif"]];
    var dirCount := (file: string) => 3;
    assert TiffReader.SameFileCounts(f);
    TiffReader.FramesOfShape(f, dirCount, 1);
  }

  /** The depth as the comment intends: the number of slices the parse creates. */
  function ImageDepth(f: seq<seq<string>>, dirCount: string -> nat): (depth: nat)
    requires |f| > 0 && TiffReader.SameFileCounts(f)
    ensures depth == |TiffReader.FramesOf(f, dirCount, |f[0]|)|
  {
    TiffReader.FramesOfShape(f, dirCount, |f[0]|);
    TiffReader.DirTotal(f, dirCount, |f[0]|)
  }

  // ---------------------------------------------------------------------------------
  // The backend object

  /** The internal data type: Unknown, or the element type of the reader in use. */
  datatype InternalType = Unknown | Known(t: TiffWriter.ElementType)

  type Dims = (nat, nat, nat)
  type Vec3 = (real, real, real)

  class TiffBackendImpl {
    /** pImpl: the element type of the templated reader, or nothing for a null pointer. */
    var impl: Option<TiffWriter.ElementType>
    var imageResolution: Dims
    var voxelDimensions: Vec3
    var internalType: InternalType

    constructor ()
      ensures impl.None? && internalType == Unknown
    {
      impl := None;
      imageResolution := (0, 0, 0);
      voxelDimensions := (1.0, 1.0, 1.0);
      internalType := Unknown;
    }

    /** getInternalDataType: Unknown without a reader, else the reader's type. */
    function GetInternalDataType(): (t: InternalType)
      reads this
      ensures t == Unknown <==> impl.None?
      ensures impl.Some? ==> t == Known(impl.value)
    {
      if impl.Some? then Known(impl.value) else Unknown
    }

    /** presentOnDisk: whether a reader exists. */
    predicate PresentOnDisk()
      reads this
    {
      impl.Some?
    }

    /**
     * internal_readSubRegion: false without a reader, otherwise what the reader returns
     * (`readerResult`).
     */
    function ReadSubRegion(readerResult: bool): (ok: bool)
      reads this
      ensures !PresentOnDisk() ==> !ok
      ensures PresentOnDisk() ==> ok == readerResult
    {
      if impl.Some? then readerResult else false
    }

    /** createTiffBackend: a reader of the dispatched type, or false (the exception) with nothing changed. */
    method CreateTiffBackend(format: TiffWriter.SampleFormat, bps: nat) returns (created: bool)
      modifies this`impl
      ensures created <==> BackendType(format, bps).Some?
      ensures created ==> impl == BackendType(format, bps)
      ensures !created ==> impl == old(impl)
    {
      var t := BackendType(format, bps);
      if t.None? {
        return false;
      }
      impl := t;
      return true;
    }

    /** internal_cleanup_after_error: no reader, an unknown type, a zero resolution and voxel sizes of -1. */
    method InternalCleanupAfterError()
      modifies this
      ensures impl.None? && internalType == Unknown && imageResolution == (0, 0, 0)
      ensures voxelDimensions == (-1.0, -1.0, -1.0)
      ensures !PresentOnDisk() && GetInternalDataType() == Unknown
    {
      voxelDimensions := (-1.0, -1.0, -1.0);
      imageResolution := (0, 0, 0);
      internalType := Unknown;
      impl := None;
    }
  }
}
