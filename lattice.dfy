/**
 * Row-major linear indexing of a w × h × d box, x varying fastest: the layout of every
 * voxel buffer of the viewer.
 */
module Lattice {
  import CInt

  function LinearIndex(w: nat, h: nat, x: nat, y: nat, z: nat): nat
  {
    x + w * y + w * h * z
  }

  /** The index splits into the layer z and the position x + w·y inside the layer. */
  lemma Regrouped(w: nat, h: nat, x: nat, y: nat, z: nat)
    requires x < w && y < h
    ensures LinearIndex(w, h, x, y, z) == z * (w * h) + (x + w * y)
    ensures 0 <= x + w * y < w * h
    ensures LinearIndex(w, h, x, y, z) == (y + h * z) * w + x
  {
    CInt.MulMonotone(w, y, h - 1);
    CInt.MulSucc(w, h - 1);
  }

  /** Every point of the box has an index below the box's volume. */
  lemma InRange(w: nat, h: nat, d: nat, x: nat, y: nat, z: nat)
    requires x < w && y < h && z < d
    ensures LinearIndex(w, h, x, y, z) < w * h * d
  {
    Regrouped(w, h, x, y, z);
    CInt.MulMonotone(w * h, z, d - 1);
    CInt.MulSucc(w * h, d - 1);
  }

  /** Distinct points of a layer-wise box have distinct indices. */
  lemma Injective(w: nat, h: nat, x: nat, y: nat, z: nat, x': nat, y': nat, z': nat)
    requires x < w && y < h && x' < w && y' < h
    requires LinearIndex(w, h, x, y, z) == LinearIndex(w, h, x', y', z')
    ensures x == x' && y == y' && z == z'
  {
    var i := LinearIndex(w, h, x, y, z);
    Regrouped(w, h, x, y, z);
    Regrouped(w, h, x', y', z');
    CInt.DivModUnique(i, w * h, z, x + w * y);
    CInt.DivModUnique(i, w * h, z', x' + w * y');
    CInt.DivModUnique(i, w, y + h * z, x);
    CInt.DivModUnique(i, w, y' + h * z', x');
  }
}
