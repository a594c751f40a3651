/**
 * The planar viewer's image cache. A Raw3DImage keeps, per slice of a 3D image, the raw
 * 16-bit values and a rendered picture with an "up to date" flag: changing a slice's data
 * marks that picture stale, and asking for the picture renders it again only when it is
 * stale. The viewer keeps one such flag per (image, slice) and refills the stale slices
 * it is about to show.
 *
 * A rendered picture is modelled by the slice data it was rendered from (the colour
 * mapping through the grid's maps is not modelled); the scene's resampling that produces
 * a slice's values is outside the model.
 */
module Image3DViewerModel {
  /** A slice's values, row by row. */
  type Slice = seq<nat>

  /** max_element of one slice; an empty slice counts as 0. */
  function SliceMax(s: Slice): (m: nat)
    ensures forall i :: 0 <= i < |s| ==> s[i] <= m
    ensures |s| > 0 ==> m in s
    ensures |s| == 0 ==> m == 0
  {
    if |s| == 0 then 0
    else
      var rest := SliceMax(s[1..]);
      assert forall i :: 1 <= i < |s| ==> s[i] == s[1..][i - 1];
      if s[0] >= rest then s[0] else rest
  }

  /** The largest value over the first n slices, 0 when there is none. */
  function MaxOf(data: seq<Slice>, n: nat): nat
    requires n <= |data|
  {
    if n == 0 then 0
    else
      var m := MaxOf(data, n - 1);
      if SliceMax(data[n - 1]) > m then SliceMax(data[n - 1]) else m
  }

  /** MaxOf bounds every value of the first n slices. */
  lemma {:induction false} MaxOfBounds(data: seq<Slice>, n: nat, k: nat, i: nat)
    requires n <= |data| && k < n && i < |data[k]|
    ensures data[k][i] <= MaxOf(data, n)
  {
    if k < n - 1 {
      MaxOfBounds(data, n - 1, k, i);
    }
  }

  /** MaxOf is one of the values, unless it is 0. */
  lemma {:induction false} MaxOfAttained(data: seq<Slice>, n: nat)
    requires n <= |data|
    ensures MaxOf(data, n) == 0 || exists k, i :: 0 <= k < n && 0 <= i < |data[k]| && data[k][i] == MaxOf(data, n)
  {
    if n > 0 {
      MaxOfAttained(data, n - 1);
      if SliceMax(data[n - 1]) > MaxOf(data, n - 1) {
        var s := data[n - 1];
        var i :| 0 <= i < |s| && s[i] == SliceMax(s);
        assert data[n - 1][i] == MaxOf(data, n);
      }
    }
  }

  class Raw3DImage {
    var width: nat
    var height: nat
    var depth: nat
    var data: seq<Slice>
    /** The largest value of the image, as last computed. */
    var max: nat
    /** Per slice, the data its picture was rendered from ([] before the first rendering). */
    var rendered: seq<Slice>
    var upToDate: seq<bool>

    /** One flag and one picture per slice; an up-to-date picture shows the slice's current data. */
    predicate Valid()
      reads this
    {
      |upToDate| == depth && |rendered| == depth && |data| == depth
      && forall k :: 0 <= k < depth && upToDate[k] ==> rendered[k] == data[k]
    }

    /** A new image: depth slices of width × height zeros, all pictures stale, maximum 0. */
    constructor (w: nat, h: nat, d: nat)
      ensures Valid() && width == w && height == h && depth == d && max == 0
      ensures forall k :: 0 <= k < d ==> data[k] == seq(w * h, _ => 0) && !upToDate[k]
    {
      var slices: seq<Slice>, pictures: seq<Slice>, flags: seq<bool> := [], [], [];
      var k := 0;
      while k < d
        invariant 0 <= k <= d && |slices| == k && |pictures| == k && |flags| == k
        invariant forall j :: 0 <= j < k ==> slices[j] == seq(w * h, _ => 0) && !flags[j]
      {
        slices := slices + [seq(w * h, _ => 0)];
        pictures := pictures + [[]];
        flags := flags + [false];
        k := k + 1;
      }
      width, height, depth := w, h, d;
      max := 0;
      data, rendered, upToDate := slices, pictures, flags;
    }

    /** updateMaxValue: the maximum over all slices of each slice's maximum. */
    method UpdateMaxValue()
      modifies this`max
      ensures max == MaxOf(data, |data|)
    {
      max := 0;
      var i := 0;
      while i < |data|
        invariant 0 <= i <= |data| && max == MaxOf(data, i)
      {
        var currentMax := SliceMax(data[i]);
        if currentMax > max {
          max := currentMax;
        }
        i := i + 1;
      }
    }

    /** setSlice: the slice's data is replaced, the maximum recomputed, and only that slice's picture made stale. */
    method SetSlice(idx: nat, slice: Slice)
      requires Valid() && idx < depth
      modifies this`data, this`max, this`upToDate
      ensures Valid()
      ensures data == old(data)[idx := slice]
      ensures upToDate == old(upToDate)[idx := false]
      ensures max == MaxOf(data, |data|)
    {
      data := data[idx := slice];
      UpdateMaxValue();
      upToDate := upToDate[idx := false];
    }

    /** setImage: all the data replaced, and every picture stale. */
    method SetImage(newData: seq<Slice>)
      requires |newData| == depth
      modifies this`data, this`max, this`upToDate, this`rendered
      ensures Valid() && data == newData && max == MaxOf(newData, |newData|)
      ensures forall k :: 0 <= k < depth ==> !upToDate[k]
    {
      data := newData;
      UpdateMaxValue();
      rendered := seq(depth, _ => []);
      upToDate := seq(depth, _ => false);
    }

    /**
     * getImage: the picture of a slice, rendered from the current data. It is rendered
     * again (`rendersAgain`) only when it was stale, and is up to date afterwards.
     */
    method GetImage(idx: nat) returns (picture: Slice, rendersAgain: bool)
      requires Valid() && idx < depth
      modifies this`rendered, this`upToDate, this`max
      ensures Valid()
      ensures picture == data[idx]
      ensures rendersAgain <==> !old(upToDate[idx])
      ensures upToDate == old(upToDate)[idx := true]
      ensures !rendersAgain ==> rendered == old(rendered) && max == old(max)
      ensures rendersAgain ==> rendered == old(rendered)[idx := data[idx]] && max == MaxOf(data, |data|)
    {
      rendersAgain := !upToDate[idx];
      if rendersAgain {
        // convertDataToImg recomputes the maximum before rendering
        UpdateMaxValue();
        rendered := rendered[idx := data[idx]];
        upToDate := upToDate[idx := true];
      }
      picture := rendered[idx];
    }
  }

  /** Asking twice for the same picture renders it at most once. */
  method GetImageTwiceRendersOnce(img: Raw3DImage, idx: nat) returns (first: bool, second: bool)
    requires img.Valid() && idx < img.depth
    modifies img
    ensures !second
    ensures first <==> !old(img.upToDate[idx])
  {
    var p;
    p, first := img.GetImage(idx);
    p, second := img.GetImage(idx);
  }

  /** Changing a slice's data makes the next request for its picture render it again, from the new data. */
  method SetThenGetRendersNewData(img: Raw3DImage, idx: nat, slice: Slice) returns (picture: Slice, rendersAgain: bool)
    requires img.Valid() && idx < img.depth
    modifies img
    ensures rendersAgain && picture == slice
  {
    img.SetSlice(idx, slice);
    picture, rendersAgain := img.GetImage(idx);
  }

  /** getImagesToDraw: the back image (0) and the front image (1), each when its box is checked, in that order. */
  function GetImagesToDraw(useBack: bool, useFront: bool): (images: seq<nat>)
    ensures (0 in images <==> useBack) && (1 in images <==> useFront)
    ensures forall i :: 0 <= i < |images| ==> images[i] <= 1
    ensures forall i, j :: 0 <= i < j < |images| ==> images[i] < images[j]
  {
    (if useBack then [0] else []) + (if useFront then [1] else [])
  }

  /** The viewer's per-(image, slice) flags, and which images it shows at which slice. */
  class Image3DViewer {
    var upToDate: seq<seq<bool>>
    var imagesToDraw: seq<nat>
    var sliceIdx: nat

    /** Every image shown has a row of flags holding the current slice. */
    predicate Valid()
      reads this
    {
      forall i :: 0 <= i < |imagesToDraw| ==>
        imagesToDraw[i] < |upToDate| && sliceIdx < |upToDate[imagesToDraw[i]]|
    }

    /** reset: every flag of every image cleared, the shape kept. */
    method Reset()
      modifies this`upToDate
      ensures |upToDate| == |old(upToDate)|
      ensures forall g :: 0 <= g < |upToDate| ==> |upToDate[g]| == |old(upToDate)[g]|
      ensures forall g, s :: 0 <= g < |upToDate| && 0 <= s < |upToDate[g]| ==> !upToDate[g][s]
    {
      var g := 0;
      while g < |upToDate|
        invariant 0 <= g <= |upToDate| && |upToDate| == |old(upToDate)|
        invariant forall h :: 0 <= h < |upToDate| ==> |upToDate[h]| == |old(upToDate)[h]|
        invariant forall h, s :: 0 <= h < g && 0 <= s < |upToDate[h]| ==> !upToDate[h][s]
      {
        upToDate := upToDate[g := seq(|upToDate[g]|, _ => false)];
        g := g + 1;
      }
    }

    /**
     * fillCurrentImages: each shown image whose current slice is stale is refilled
     * (listed in `filled`, once) and flagged up to date; nothing else changes.
     */
    method FillCurrentImages() returns (filled: seq<nat>)
      requires Valid()
      modifies this`upToDate
      ensures Valid()
      ensures |upToDate| == |old(upToDate)|
      ensures forall g :: 0 <= g < |upToDate| ==> |upToDate[g]| == |old(upToDate)[g]|
      ensures forall g, s :: 0 <= g < |upToDate| && 0 <= s < |upToDate[g]| ==>
        upToDate[g][s] == (old(upToDate[g][s]) || (s == sliceIdx && g in imagesToDraw))
      ensures forall g :: g in filled <==> g in imagesToDraw && !old(upToDate[g][sliceIdx])
      ensures forall i, j :: 0 <= i < j < |filled| ==> filled[i] != filled[j]
    {
      filled := [];
      var i := 0;
      while i < |imagesToDraw|
        invariant 0 <= i <= |imagesToDraw| && Valid()
        invariant |upToDate| == |old(upToDate)|
        invariant forall g :: 0 <= g < |upToDate| ==> |upToDate[g]| == |old(upToDate)[g]|
        invariant forall g, s :: 0 <= g < |upToDate| && 0 <= s < |upToDate[g]| ==>
          upToDate[g][s] == (old(upToDate[g][s]) || (s == sliceIdx && g in imagesToDraw[..i]))
        invariant forall g :: g in filled <==> g in imagesToDraw[..i] && !old(upToDate[g][sliceIdx])
        invariant forall a, b :: 0 <= a < b < |filled| ==> filled[a] != filled[b]
      {
        var g := imagesToDraw[i];
        assert imagesToDraw[..i + 1] == imagesToDraw[..i] + [g];
        if !upToDate[g][sliceIdx] {
          filled := filled + [g];
          upToDate := upToDate[g := upToDate[g][sliceIdx := true]];
        }
        i := i + 1;
      }
      assert imagesToDraw[..i] == imagesToDraw;
    }
  }
}
