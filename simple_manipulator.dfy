/**
 * The ARAP viewer's simple manipulator: a local frame (origin, three axes, three scales)
 * that remembers, for every mesh vertex index added to it, the vertex's coordinates in
 * that frame. `coordinates` holds (index, local coordinates) pairs in the order the
 * indices were first added; `idpoints` maps an index to its slot plus one, with 0 (or no
 * entry) meaning "not added", exactly as the source's std::map with operator[] does.
 */
module SimpleManipulatorModel {
  import CInt

  type Point = (real, real, real)

  function Sub(a: Point, b: Point): Point
  {
    (a.0 - b.0, a.1 - b.1, a.2 - b.2)
  }

  function Dot(a: Point, b: Point): real
  {
    a.0 * b.0 + a.1 * b.1 + a.2 * b.2
  }

  /** The coordinates of p in the frame (origin, x, y, z): the dot products of p - origin with the axes. */
  function LocalCoordinates(p: Point, origin: Point, x: Point, y: Point, z: Point): Point
  {
    var vr := Sub(p, origin);
    (Dot(vr, x), Dot(vr, y), Dot(vr, z))
  }

  /** With the canonical axes the local coordinates are the offset from the origin. */
  lemma CanonicalFrameIsOffset(p: Point, origin: Point)
    ensures LocalCoordinates(p, origin, (1.0, 0.0, 0.0), (0.0, 1.0, 0.0), (0.0, 0.0, 1.0)) == Sub(p, origin)
  {
  }

  /** The vertex indices added so far: the keys whose slot is not 0. */
  function Added(ids: map<int, int>): set<int>
  {
    set i | i in ids && ids[i] != 0
  }

  /** The slot bookkeeping: every slot is named by its index, every added index names its slot. */
  predicate SlotsValid(coords: seq<(int, Point)>, ids: map<int, int>)
  {
    (forall s :: 0 <= s < |coords| ==> coords[s].0 in ids && ids[coords[s].0] == s + 1)
    && (forall i :: i in ids && ids[i] != 0 ==> 1 <= ids[i] <= |coords| && coords[ids[i] - 1].0 == i)
    && |Added(ids)| == |coords|
  }

  /** A new index appended at the end gets slot |coords| + 1 and joins the added indices. */
  lemma AppendKeepsSlots(coords: seq<(int, Point)>, ids: map<int, int>, i: int, local: Point)
    requires SlotsValid(coords, ids) && i !in Added(ids)
    ensures var ids' := ids[i := |coords| + 1];
      SlotsValid(coords + [(i, local)], ids') && Added(ids') == Added(ids) + {i}
  {
    var ids' := ids[i := |coords| + 1];
    var coords' := coords + [(i, local)];
    assert Added(ids') == Added(ids) + {i};
    forall s | 0 <= s < |coords'|
      ensures coords'[s].0 in ids' && ids'[coords'[s].0] == s + 1
    {
      if s < |coords| {
        assert coords'[s] == coords[s];
        assert coords[s].0 != i;
      }
    }
  }

  /** Overwriting the slot of an added index keeps the bookkeeping and the added indices. */
  lemma OverwriteKeepsSlots(coords: seq<(int, Point)>, ids: map<int, int>, i: int, local: Point)
    requires SlotsValid(coords, ids) && i in Added(ids)
    ensures 1 <= ids[i] <= |coords|
    ensures SlotsValid(coords[ids[i] - 1 := (i, local)], ids)
  {
  }

  class SimpleManipulator {
    var etat: int
    var modeModification: int
    var modeGrabbing: int
    var mouseReleased: bool
    var origine: Point
    var repX: Point
    var repY: Point
    var repZ: Point
    var xScale: real
    var yScale: real
    var zScale: real
    var coordinates: seq<(int, Point)>
    var idpoints: map<int, int>

    /** The vertex indices added so far. */
    function Indices(): set<int>
      reads this
    {
      Added(idpoints)
    }

    predicate Valid()
      reads this
    {
      SlotsValid(coordinates, idpoints)
    }

    /**
     * A new manipulator: canonical axes, unit scales, grabbing mode 1, no modification under
     * way, no point. The state (`etat`) and the origin are left uninitialised by the source.
     */
    constructor ()
      ensures Valid() && coordinates == [] && Indices() == {}
      ensures mouseReleased && modeGrabbing == 1 && modeModification == 0
      ensures repX == (1.0, 0.0, 0.0) && repY == (0.0, 1.0, 0.0) && repZ == (0.0, 0.0, 1.0)
      ensures xScale == 1.0 && yScale == 1.0 && zScale == 1.0
    {
      etat := 0;
      modeModification := 0;
      modeGrabbing := 1;
      mouseReleased := true;
      origine := (0.0, 0.0, 0.0);
      repX := (1.0, 0.0, 0.0);
      repY := (0.0, 1.0, 0.0);
      repZ := (0.0, 0.0, 1.0);
      xScale := 1.0;
      yScale := 1.0;
      zScale := 1.0;
      coordinates := [];
      idpoints := map[];
    }

    method SetEtat(e: int)
      modifies this`etat
      ensures etat == e
    {
      etat := e;
    }

    /** activate: the manipulator is shown and reacts (state 1). */
    method Activate()
      modifies this`etat
      ensures etat == 1
    {
      SetEtat(1);
    }

    /** deactivate: state 0. */
    method Deactivate()
      modifies this`etat
      ensures etat == 0
    {
      SetEtat(0);
    }

    method SetOrigine(p: Point)
      modifies this`origine
      ensures origine == p
    {
      origine := p;
    }

    /** resetScales: all three scales back to 1. */
    method ResetScales()
      modifies this`xScale, this`yScale, this`zScale
      ensures xScale == 1.0 && yScale == 1.0 && zScale == 1.0
    {
      xScale, yScale, zScale := 1.0, 1.0, 1.0;
    }

    /**
     * addPoint: an index not yet added gets a new slot at the end; an index already added
     * has its slot overwritten in place. Either way the slot holds the point's coordinates
     * in the current frame, and the set of added indices gains `i`.
     */
    method AddPoint(i: int, p: Point)
      requires Valid()
      modifies this`coordinates, this`idpoints
      ensures Valid()
      ensures Indices() == old(Indices()) + {i}
      ensures i in old(Indices()) ==>
        (idpoints == old(idpoints) && 1 <= idpoints[i] <= |old(coordinates)|
         && coordinates == old(coordinates)[idpoints[i] - 1 := (i, LocalCoordinates(p, origine, repX, repY, repZ))])
      ensures i !in old(Indices()) ==>
        (idpoints == old(idpoints)[i := |coordinates|]
         && coordinates == old(coordinates) + [(i, LocalCoordinates(p, origine, repX, repY, repZ))])
    {
      // operator[] reads an index it has not seen as 0 (the 0 entry it inserts is overwritten below)
      var slot := if i in idpoints then idpoints[i] else 0;
      var local := LocalCoordinates(p, origine, repX, repY, repZ);
      if slot == 0 {
        AppendKeepsSlots(coordinates, idpoints, i, local);
        coordinates := coordinates + [(i, local)];
        idpoints := idpoints[i := |coordinates|];
      } else {
        OverwriteKeepsSlots(coordinates, idpoints, i, local);
        coordinates := coordinates[slot - 1 := (i, local)];
      }
    }

    /** n_points: the number of slots, which is the number of distinct indices added. */
    function NPoints(): (n: nat)
      reads this
      requires Valid()
      ensures n == |Indices()|
    {
      |coordinates|
    }

    /** clear: no point, no index, state 0. */
    method Clear()
      modifies this`coordinates, this`idpoints, this`etat
      ensures Valid() && coordinates == [] && Indices() == {} && etat == 0
    {
      coordinates := [];
      SetEtat(0);
      idpoints := map[];
    }

    /** wheelEvent: the grabbing mode steps modulo 2 (C++ `%`). */
    method WheelEvent()
      modifies this`modeGrabbing
      ensures modeGrabbing == CInt.TruncMod(old(modeGrabbing) + 1, 2)
      ensures old(modeGrabbing) == 0 ==> modeGrabbing == 1
      ensures old(modeGrabbing) == 1 ==> modeGrabbing == 0
    {
      modeGrabbing := CInt.TruncMod(modeGrabbing + 1, 2);
    }

    /**
     * fakeMouseDoubleClickEvent: while the scale handle of an axis (modification ±7, ±8, ±9
     * for x, y, z) is in use, that axis' scale returns to 1 and `moved` is emitted; otherwise
     * nothing happens.
     */
    method FakeMouseDoubleClickEvent() returns (moved: bool)
      modifies this`xScale, this`yScale, this`zScale
      ensures moved <==> modeModification in {7, -7, 8, -8, 9, -9}
      ensures xScale == (if modeModification in {7, -7} then 1.0 else old(xScale))
      ensures yScale == (if modeModification in {8, -8} then 1.0 else old(yScale))
      ensures zScale == (if modeModification in {9, -9} then 1.0 else old(zScale))
    {
      if modeModification == 7 || modeModification == -7 {
        xScale := 1.0;
        return true;
      }
      if modeModification == 8 || modeModification == -8 {
        yScale := 1.0;
        return true;
      }
      if modeModification == 9 || modeModification == -9 {
        zScale := 1.0;
        return true;
      }
      return false;
    }
  }

  /** Adding the same index twice leaves one slot, holding the second point. */
  method ReAddOverwrites(m: SimpleManipulator, i: int, p: Point, q: Point)
    requires m.Valid()
    modifies m
    ensures m.Valid() && i in m.Indices()
    ensures m.NPoints() == old(m.NPoints()) + (if i in old(m.Indices()) then 0 else 1)
    ensures m.coordinates[m.idpoints[i] - 1] == (i, LocalCoordinates(q, m.origine, m.repX, m.repY, m.repZ))
  {
    m.AddPoint(i, p);
    m.AddPoint(i, q);
  }

  /** Two full wheel turns give back the grabbing mode. */
  method WheelTwiceRestores(m: SimpleManipulator)
    requires m.modeGrabbing == 0 || m.modeGrabbing == 1
    modifies m
    ensures m.modeGrabbing == old(m.modeGrabbing)
  {
    m.WheelEvent();
    m.WheelEvent();
  }
}
