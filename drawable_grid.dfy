/**
 * The drawable grid's value-range bookkeeping: the user segments the grid's values into
 * ranges [first, second], each shown or hidden and with a colour (three parallel lists).
 * From them the grid builds, for every integer value 0 .. ⌊max value⌋, whether it is
 * displayed (the "visibility map", also clipped to the channel's visible window) and the
 * colour it is drawn with. Also here: the flag test on what to send to the GPU and the
 * choice of a near-square texture size for n texels.
 *
 * The GPU uploads themselves are outside the model; the maximum value of the grid is a
 * parameter.
 */
module DrawableGridModel {
  type Color = (real, real, real)

  const Black: Color := (0.0, 0.0, 0.0)

  /** A range of values, as the two uint16 bounds the scene stores. */
  type Range = (nat, nat)

  /**
   * The number of integers i = 0, 1, ... with i <= maxValue: the length of the maps built
   * for a grid whose maximum value is maxValue.
   */
  function MapSize(maxValue: real): (n: nat)
    ensures maxValue < 0.0 ==> n == 0
    ensures maxValue >= 0.0 ==> (n - 1) as real <= maxValue < n as real
  {
    if maxValue < 0.0 then 0 else maxValue.Floor + 1
  }

  /** Index v is in the maps exactly when it is one of the integers 0 .. maxValue. */
  lemma MapSizeCounts(maxValue: real, v: int)
    ensures 0 <= v < MapSize(maxValue) <==> 0 <= v && v as real <= maxValue
  {
  }

  /** Value v lies in a shown range: the reference definition. */
  predicate InShownRange(ranges: seq<Range>, shown: seq<bool>, v: int)
    requires |shown| == |ranges|
  {
    exists i :: 0 <= i < |ranges| && shown[i] && ranges[i].0 <= v <= ranges[i].1
  }

  /** Value v lies in one of the first n ranges that is shown, range by range. */
  predicate Covered(ranges: seq<Range>, shown: seq<bool>, n: nat, v: int)
    requires n <= |ranges| == |shown|
  {
    n > 0 && (Covered(ranges, shown, n - 1, v) || (shown[n - 1] && ranges[n - 1].0 <= v <= ranges[n - 1].1))
  }

  lemma {:induction false} CoveredIff(ranges: seq<Range>, shown: seq<bool>, n: nat, v: int)
    requires n <= |ranges| == |shown|
    ensures Covered(ranges, shown, n, v) <==> exists i :: 0 <= i < n && shown[i] && ranges[i].0 <= v <= ranges[i].1
  {
    if n > 0 {
      CoveredIff(ranges, shown, n - 1, v);
    }
  }

  /** The colour of value v after the first n ranges are painted in order: the last shown range holding v wins. */
  function LastColor(ranges: seq<Range>, shown: seq<bool>, colors: seq<Color>, n: nat, v: int): Color
    requires n <= |ranges| == |shown| == |colors|
  {
    if n == 0 then Black
    else if shown[n - 1] && ranges[n - 1].0 <= v <= ranges[n - 1].1 then colors[n - 1]
    else LastColor(ranges, shown, colors, n - 1, v)
  }

  /** Later ranges override: a shown range holding v gives v its colour unless a later shown range also holds v. */
  lemma {:induction false} LastColorOverrides(ranges: seq<Range>, shown: seq<bool>, colors: seq<Color>, n: nat, i: nat, v: int)
    requires n <= |ranges| == |shown| == |colors|
    requires i < n && shown[i] && ranges[i].0 <= v <= ranges[i].1
    requires forall k :: i < k < n ==> !(shown[k] && ranges[k].0 <= v <= ranges[k].1)
    ensures LastColor(ranges, shown, colors, n, v) == colors[i]
  {
    if n - 1 != i {
      LastColorOverrides(ranges, shown, colors, n - 1, i, v);
    }
  }

  /** A value that no shown range holds stays black; hidden ranges are ignored. */
  lemma {:induction false} UncoveredIsBlack(ranges: seq<Range>, shown: seq<bool>, colors: seq<Color>, n: nat, v: int)
    requires n <= |ranges| == |shown| == |colors|
    requires !Covered(ranges, shown, n, v)
    ensures LastColor(ranges, shown, colors, n, v) == Black
  {
    if n > 0 {
      UncoveredIsBlack(ranges, shown, colors, n - 1, v);
    }
  }

  /**
   * The inner loop of getVisibilityMap for one shown range: every j of [first, second]
   * that is an index of the map and lies in the visible window [lo, hi] is marked.
   */
  method MarkRange(visMap: seq<bool>, first: nat, second: nat, lo: nat, hi: nat) returns (marked: seq<bool>)
    ensures |marked| == |visMap|
    ensures forall v :: 0 <= v < |visMap| ==>
      (marked[v] <==> visMap[v] || (first <= v <= second && lo <= v <= hi))
  {
    marked := visMap;
    var j := first;
    while j <= second
      invariant first <= j <= second + 1 || (j == first && first > second)
      invariant |marked| == |visMap|
      invariant forall v :: 0 <= v < |visMap| ==>
        (marked[v] <==> visMap[v] || (first <= v < j && lo <= v <= hi))
    {
      if j < |marked| && j >= lo && j <= hi {
        marked := marked[j := true];
      }
      j := j + 1;
    }
  }

  /** The inner loop of updateMinMaxDisplayValues for one shown range: every j of [first, second] in the maps is painted. */
  method PaintRange(data: seq<bool>, dataColor: seq<Color>, first: nat, second: nat, c: Color)
    returns (painted: seq<bool>, paintedColor: seq<Color>)
    requires |dataColor| == |data|
    ensures |painted| == |data| && |paintedColor| == |data|
    ensures forall v :: 0 <= v < |data| ==>
      (painted[v] <==> data[v] || first <= v <= second)
    ensures forall v :: 0 <= v < |data| ==>
      paintedColor[v] == (if first <= v <= second then c else dataColor[v])
  {
    painted, paintedColor := data, dataColor;
    var j := first;
    while j <= second
      invariant first <= j <= second + 1 || (j == first && first > second)
      invariant |painted| == |data| && |paintedColor| == |data|
      invariant forall v :: 0 <= v < |data| ==> (painted[v] <==> data[v] || first <= v < j)
      invariant forall v :: 0 <= v < |data| ==> paintedColor[v] == (if first <= v < j then c else dataColor[v])
    {
      if j < |painted| {
        painted := painted[j := true];
        paintedColor := paintedColor[j := c];
      }
      j := j + 1;
    }
  }

  class DrawableGrid {
    /** displayRangeSegmentedData, displaySegmentedData and displayColorSegmentedData. */
    var ranges: seq<Range>
    var shown: seq<bool>
    var rangeColors: seq<Color>
    /** The visible window of the first colour channel (two uint32 bounds). */
    var visibleMin: nat
    var visibleMax: nat
    /** visu_map (white where displayed, here true) and color_map, as last built. */
    var visuMap: seq<bool>
    var colorMap: seq<Color>

    /** The three range lists run in parallel. */
    predicate Valid()
      reads this
    {
      |shown| == |ranges| && |rangeColors| == |ranges|
    }

    /**
     * getVisibilityMap: one entry per value 0 .. ⌊maxValue⌋, true exactly for the values
     * that a shown range holds and that lie in the visible window.
     */
    method GetVisibilityMap(maxValue: real) returns (visMap: seq<bool>)
      requires Valid()
      ensures |visMap| == MapSize(maxValue)
      ensures forall v :: 0 <= v < |visMap| ==>
        (visMap[v] <==> InShownRange(ranges, shown, v) && visibleMin <= v <= visibleMax)
    {
      visMap := [];
      var i := 0;
      while i as real <= maxValue
        invariant 0 <= i && (i > 0 ==> (i - 1) as real <= maxValue)
        invariant |visMap| == i && forall v :: 0 <= v < i ==> !visMap[v]
      {
        visMap := visMap + [false];
        i := i + 1;
      }
      assert |visMap| == MapSize(maxValue);
      var r := 0;
      while r < |ranges|
        invariant 0 <= r <= |ranges| && |visMap| == MapSize(maxValue)
        invariant forall v :: 0 <= v < |visMap| ==>
          (visMap[v] <==> Covered(ranges, shown, r, v) && visibleMin <= v <= visibleMax)
      {
        if shown[r] {
          visMap := MarkRange(visMap, ranges[r].0, ranges[r].1, visibleMin, visibleMax);
        }
        r := r + 1;
      }
      forall v | 0 <= v < |visMap| {
        CoveredIff(ranges, shown, |ranges|, v);
      }
    }

    /**
     * updateMinMaxDisplayValues (the part that builds the maps): one entry per value
     * 0 .. ⌊maxValue⌋; a value is displayed exactly when a shown range holds it, whatever
     * the visible window, and takes the colour of the last shown range that holds it.
     */
    method UpdateMinMaxDisplayValues(maxValue: real)
      requires Valid()
      modifies this`visuMap, this`colorMap
      ensures |visuMap| == MapSize(maxValue) && |colorMap| == MapSize(maxValue)
      ensures forall v :: 0 <= v < |visuMap| ==> (visuMap[v] <==> InShownRange(ranges, shown, v))
      ensures forall v :: 0 <= v < |colorMap| ==> colorMap[v] == LastColor(ranges, shown, rangeColors, |ranges|, v)
    {
      var data: seq<bool> := [];
      var dataColor: seq<Color> := [];
      var i := 0;
      while i as real <= maxValue
        invariant 0 <= i && (i > 0 ==> (i - 1) as real <= maxValue)
        invariant |data| == i && |dataColor| == i
        invariant forall v :: 0 <= v < i ==> !data[v] && dataColor[v] == Black
      {
        data := data + [false];
        dataColor := dataColor + [Black];
        i := i + 1;
      }
      assert |data| == MapSize(maxValue);
      var r := 0;
      while r < |ranges|
        invariant 0 <= r <= |ranges| && |data| == MapSize(maxValue) && |dataColor| == |data|
        invariant forall v :: 0 <= v < |data| ==> (data[v] <==> Covered(ranges, shown, r, v))
        invariant forall v :: 0 <= v < |data| ==> dataColor[v] == LastColor(ranges, shown, rangeColors, r, v)
      {
        if shown[r] {
          data, dataColor := PaintRange(data, dataColor, ranges[r].0, ranges[r].1, rangeColors[r]);
        }
        r := r + 1;
      }
      forall v | 0 <= v < |data| {
        CoveredIff(ranges, shown, |ranges|, v);
      }
      visuMap := data;
      colorMap := dataColor;
    }
  }

  // ---------------------------------------------------------------------------------
  // What to send to the GPU

  /** The InfoToSend flags. */
  const VERTICES: bv8 := 1
  const NORMALS: bv8 := 2
  const TEXCOORD: bv8 := 4
  const NEIGHBORS: bv8 := 8

  /** contain: the two flag sets share a flag. */
  function Contain(value: bv8, c: bv8): bool
  {
    value & c > 0
  }

  /** A set of flags contains a single flag exactly when that flag's bit is set, and a union holds what either part holds. */
  lemma ContainFlag(value: bv8, other: bv8, f: bv8)
    requires f == VERTICES || f == NORMALS || f == TEXCOORD || f == NEIGHBORS
    ensures Contain(value, f) <==> value & f == f
    ensures Contain(value | other, f) <==> Contain(value, f) || Contain(other, f)
    ensures Contain(f, f)
  {
  }

  /** The flag set made of the chosen flags. */
  function FlagMask(v: bool, n: bool, t: bool, g: bool): bv8
  {
    (if v then VERTICES else 0) | (if n then NORMALS else 0) | (if t then TEXCOORD else 0) | (if g then NEIGHBORS else 0)
  }

  /** The four flags are distinct bits: a set built from any choice of them contains exactly the chosen ones. */
  lemma FlagMaskContainsExactly(v: bool, n: bool, t: bool, g: bool)
    ensures Contain(FlagMask(v, n, t, g), VERTICES) <==> v
    ensures Contain(FlagMask(v, n, t, g), NORMALS) <==> n
    ensures Contain(FlagMask(v, n, t, g), TEXCOORD) <==> t
    ensures Contain(FlagMask(v, n, t, g), NEIGHBORS) <==> g
  {
  }

  // ---------------------------------------------------------------------------------
  // Texture size

  /** The integer square root (the truncated sqrtf of the source, taken exactly). */
  function FloorSqrt(n: nat): (r: nat)
    ensures r * r <= n < (r + 1) * (r + 1)
  {
    if n == 0 then 0
    else
      var s := FloorSqrt(n - 1);
      if (s + 1) * (s + 1) <= n then s + 1 else s
  }

  /**
   * __GetTexSize: a width and height for n texels, starting from (root + 1) × root and
   * growing the height, then the width, while the area is short. The area always holds
   * n, the shape is square or one column wider, and the width never passes root + 1
   * (the second growth step never fires).
   */
  function GetTexSize(n: nat): (size: (nat, nat))
    ensures size.0 * size.1 >= n
    ensures size.1 <= size.0 <= size.1 + 1
    ensures size.0 == FloorSqrt(n) + 1
  {
    var root := FloorSqrt(n);
    var width := root + 1;
    var height := if width * root < n then root + 1 else root;
    var width' := if width * height < n then width + 1 else width;
    (width', height)
  }
}
