/** Properties of `snap_to_grid`, `size`, `center` and `to_slices`. */
module RoiMeasures {
  import opened Num
  import opened Coordinates
  import opened Rois

  /** The Roi `snap_to_grid` builds from the begin and end counted in voxels:
      on an axis where both counts are defined, begin and end are the counts
      times the voxel size. */
  lemma SnapWithAxis(k: Kind, voxel: Coord, bv: Coord, ev: Coord, i: nat, b: real, e: real, v: real)
    requires |bv| == |ev| == |voxel| && i < |voxel|
    requires WellKinded(k, bv) && WellKinded(k, ev) && WellKinded(k, voxel)
    requires bv[i] == Some(b) && ev[i] == Some(e) && voxel[i] == Some(v)
    ensures SnapWith(k, voxel, bv, ev).offset[i] == Some(Multiple(b, v))
    ensures SnapWith(k, voxel, bv, ev).shape[i] == Some(Multiple(e - b, v))
  {
    var w := e - b;
    var d := Combine(k, Sub, ev, Vec(bv));
    PairAt(k, Sub, ev, bv, i, e, b, w);
    PairAt(k, Mul, bv, voxel, i, b, v, Multiple(b, v));
    PairAt(k, Mul, d, voxel, i, w, v, Multiple(w, v));
    var off, sh := Combine(k, Mul, bv, Vec(voxel)), Combine(k, Mul, d, Vec(voxel));
    MakeRegionAt(k, off, sh, i);
  }

  /** An axis that starts at `b` voxels and is `e - b` voxels long ends at
      `e` voxels. */
  lemma SnapEndAt(k: Kind, s: Region, i: nat, b: real, e: real, v: real)
    requires WellFormed(k, s) && i < RegionDims(s)
    requires s.offset[i] == Some(Multiple(b, v)) && s.shape[i] == Some(Multiple(e - b, v))
    ensures End(k, s)[i] == Some(Multiple(e, v))
  {
    Distribute(b, e, v);
    EndAt(k, s, i, Multiple(b, v), Multiple(e - b, v), Multiple(e, v));
  }

  /** On such an axis the Roi runs from the begin count times the voxel size
      to the end count times the voxel size. */
  lemma SnapWithBounds(k: Kind, voxel: Coord, bv: Coord, ev: Coord, i: nat, b: real, e: real, v: real)
    requires |bv| == |ev| == |voxel| && i < |voxel|
    requires WellKinded(k, bv) && WellKinded(k, ev) && WellKinded(k, voxel)
    requires bv[i] == Some(b) && ev[i] == Some(e) && voxel[i] == Some(v)
    ensures SnapWith(k, voxel, bv, ev).offset[i] == Some(Multiple(b, v))
    ensures End(k, SnapWith(k, voxel, bv, ev))[i] == Some(Multiple(e, v))
  {
    SnapWithAxis(k, voxel, bv, ev, i, b, e, v);
    SnapEndAt(k, SnapWith(k, voxel, bv, ev), i, b, e, v);
  }

  /** `q` voxels of size `v`. */
  function Multiple(q: real, v: real): real {
    q * v
  }

  lemma Distribute(b: real, e: real, v: real)
    ensures Multiple(b, v) + Multiple(e - b, v) == Multiple(e, v)
  {
  }

  /** A whole number of voxels is a multiple of the voxel size. */
  lemma OnGrid(q: real, v: real)
    requires IsWhole(q) && v != 0.0
    ensures PyMod(Multiple(q, v), v) == 0.0
  {
    WholeQuotient(q, v);
  }

  /** Flooring to a multiple of a positive `v` does not go up. */
  lemma FloorMultiple(a: real, v: real)
    requires v > 0.0
    ensures Multiple(FloorDiv(a, v), v) <= a
  {
    QuotientBounds(a, v, FloorDiv(a, v));
  }

  /** On whole numbers, ceiling to a multiple of a positive `v` does not go down. */
  lemma CeilMultiple(a: real, v: real)
    requires IsWhole(a) && IsWhole(v) && v > 0.0
    ensures a <= Multiple(CeilDiv(a, v), v)
  {
  }

  /** What `snap_to_grid` needs of one axis to compute bounds there. */
  predicate SnapAxis(r: Region, voxel: Coord, i: nat) {
    i < |r.offset| && i < |voxel| && r.offset[i].Some? && voxel[i].Some? && voxel[i].value > 0.0
  }

  /** The three modes of `snap_to_grid`, each in terms of `SnapWith`. */
  lemma SnapModes(k: Kind, r: Region, voxel: Coord)
    requires WellFormed(k, r) && WellKinded(k, voxel) && GridFor(r, voxel)
    ensures SnapToGrid(k, r, voxel, "grow") ==
      Success(SnapWith(k, voxel, FloorDivision(k, r.offset, voxel), CeilDivision(k, End(k, r), voxel)))
    ensures SnapToGrid(k, r, voxel, "shrink") ==
      Success(SnapWith(k, voxel, CeilDivision(k, r.offset, voxel), FloorDivision(k, End(k, r), voxel)))
    ensures SnapToGrid(k, r, voxel, "closest") ==
      Success(SnapWith(k, voxel, RoundDivision(k, r.offset, voxel), RoundDivision(k, End(k, r), voxel)))
  {
  }

  /** `snap_to_grid(v, "grow")` on one axis: the begin is floored and the end
      ceiled to a whole number of voxels. */
  lemma SnapGrowAxis(k: Kind, r: Region, voxel: Coord, i: nat)
    requires WellFormed(k, r) && WellKinded(k, voxel) && GridFor(r, voxel)
    requires SnapAxis(r, voxel, i)
    ensures SnapToGrid(k, r, voxel, "grow").Success?
    ensures SnapToGrid(k, r, voxel, "grow").value.offset[i].Some?
    ensures SnapToGrid(k, r, voxel, "grow").value.offset[i].value ==
      Multiple(FloorDiv(r.offset[i].value, voxel[i].value), voxel[i].value)
    ensures End(k, SnapToGrid(k, r, voxel, "grow").value)[i].Some?
    ensures End(k, SnapToGrid(k, r, voxel, "grow").value)[i].value ==
      Multiple(CeilDiv(End(k, r)[i].value, voxel[i].value), voxel[i].value)
  {
    var e := End(k, r);
    assert e[i].Some?;
    var bv, ev := FloorDivision(k, r.offset, voxel), CeilDivision(k, e, voxel);
    FloorDivisionAt(k, r.offset, voxel, i);
    CeilDivisionAt(k, e, voxel, i);
    var s := SnapWith(k, voxel, bv, ev);
    SnapModes(k, r, voxel);
    var lo, hi := FloorDiv(r.offset[i].value, voxel[i].value), CeilDiv(End(k, r)[i].value, voxel[i].value);
    SnapWithBounds(k, voxel, bv, ev, i, lo, hi, voxel[i].value);
    assert SnapToGrid(k, r, voxel, "grow").value == s;
  }

  /** `snap_to_grid(v, "shrink")` on one axis: the begin is ceiled and the end
      floored to a whole number of voxels. */
  lemma SnapShrinkAxis(k: Kind, r: Region, voxel: Coord, i: nat)
    requires WellFormed(k, r) && WellKinded(k, voxel) && GridFor(r, voxel)
    requires SnapAxis(r, voxel, i)
    ensures SnapToGrid(k, r, voxel, "shrink").Success?
    ensures SnapToGrid(k, r, voxel, "shrink").value.offset[i].Some?
    ensures SnapToGrid(k, r, voxel, "shrink").value.offset[i].value ==
      Multiple(CeilDiv(r.offset[i].value, voxel[i].value), voxel[i].value)
    ensures End(k, SnapToGrid(k, r, voxel, "shrink").value)[i].Some?
    ensures End(k, SnapToGrid(k, r, voxel, "shrink").value)[i].value ==
      Multiple(FloorDiv(End(k, r)[i].value, voxel[i].value), voxel[i].value)
  {
    var e := End(k, r);
    assert e[i].Some?;
    var bv, ev := CeilDivision(k, r.offset, voxel), FloorDivision(k, e, voxel);
    CeilDivisionAt(k, r.offset, voxel, i);
    FloorDivisionAt(k, e, voxel, i);
    var s := SnapWith(k, voxel, bv, ev);
    SnapModes(k, r, voxel);
    var lo, hi := CeilDiv(r.offset[i].value, voxel[i].value), FloorDiv(End(k, r)[i].value, voxel[i].value);
    SnapWithBounds(k, voxel, bv, ev, i, lo, hi, voxel[i].value);
    assert SnapToGrid(k, r, voxel, "shrink").value == s;
  }

  /** `snap_to_grid(v, "closest")` on one axis: begin and end are rounded to the
      nearest whole number of voxels. */
  lemma SnapClosestAxis(k: Kind, r: Region, voxel: Coord, i: nat)
    requires WellFormed(k, r) && WellKinded(k, voxel) && GridFor(r, voxel)
    requires SnapAxis(r, voxel, i)
    ensures SnapToGrid(k, r, voxel, "closest").Success?
    ensures SnapToGrid(k, r, voxel, "closest").value.offset[i].Some?
    ensures SnapToGrid(k, r, voxel, "closest").value.offset[i].value ==
      Multiple(RoundDiv(r.offset[i].value, voxel[i].value), voxel[i].value)
    ensures End(k, SnapToGrid(k, r, voxel, "closest").value)[i].Some?
    ensures End(k, SnapToGrid(k, r, voxel, "closest").value)[i].value ==
      Multiple(RoundDiv(End(k, r)[i].value, voxel[i].value), voxel[i].value)
  {
    var e := End(k, r);
    assert e[i].Some?;
    var bv, ev := RoundDivision(k, r.offset, voxel), RoundDivision(k, e, voxel);
    RoundDivisionAt(k, r.offset, voxel, i);
    RoundDivisionAt(k, e, voxel, i);
    var s := SnapWith(k, voxel, bv, ev);
    SnapModes(k, r, voxel);
    var lo, hi := RoundDiv(r.offset[i].value, voxel[i].value), RoundDiv(End(k, r)[i].value, voxel[i].value);
    SnapWithBounds(k, voxel, bv, ev, i, lo, hi, voxel[i].value);
    assert SnapToGrid(k, r, voxel, "closest").value == s;
  }

  /** Grow on one axis of whole numbers: the floored begin `lo` is at or
      before `b`, the ceiled end `hi` at or after `e`, both multiples of `v`. */
  lemma GrowScalar(b: real, e: real, v: real, lo: real, hi: real)
    requires IsWhole(b) && IsWhole(e) && IsWhole(v) && v > 0.0
    requires lo == Multiple(FloorDiv(b, v), v) && hi == Multiple(CeilDiv(e, v), v)
    ensures lo <= b && e <= hi && PyMod(lo, v) == 0.0 && PyMod(hi, v) == 0.0
  {
    FloorMultiple(b, v);
    CeilMultiple(e, v);
    OnGrid(FloorDiv(b, v), v);
    OnGrid(CeilDiv(e, v), v);
  }

  /** Shrink on one axis of whole numbers: the ceiled begin `lo` is at or
      after `b`, the floored end `hi` at or before `e`, both multiples of `v`. */
  lemma ShrinkScalar(b: real, e: real, v: real, lo: real, hi: real)
    requires IsWhole(b) && IsWhole(e) && IsWhole(v) && v > 0.0
    requires lo == Multiple(CeilDiv(b, v), v) && hi == Multiple(FloorDiv(e, v), v)
    ensures b <= lo && hi <= e && PyMod(lo, v) == 0.0 && PyMod(hi, v) == 0.0
  {
    CeilMultiple(b, v);
    FloorMultiple(e, v);
    OnGrid(CeilDiv(b, v), v);
    OnGrid(FloorDiv(e, v), v);
  }

  /** Rounding to the nearest multiple lies between flooring and ceiling,
      and gives a multiple of `v`. */
  lemma ClosestScalar(x: real, v: real, down: real, near: real, up: real)
    requires IsWhole(x) && IsWhole(v) && v > 0.0
    requires down == Multiple(FloorDiv(x, v), v) && near == Multiple(RoundDiv(x, v), v) && up == Multiple(CeilDiv(x, v), v)
    ensures down <= near <= up && PyMod(near, v) == 0.0
  {
    WholeArith(0.0, v);
    DivisionOrder(x, v);
    ScaleOrder(FloorDiv(x, v), RoundDiv(x, v), CeilDiv(x, v), v);
    OnGrid(RoundDiv(x, v), v);
  }

  /** `snap_to_grid(v, "grow")`: on an integer grid with a positive voxel
      size, the new begin is at or before the old one, the new end at or
      after the old one, and both are multiples of the voxel size. */
  lemma {:induction false} SnapGrowCovers(r: Region, voxel: Coord, i: nat)
    requires WellFormed(Integer, r) && WellKinded(Integer, voxel) && GridFor(r, voxel)
    requires SnapAxis(r, voxel, i)
    ensures SnapToGrid(Integer, r, voxel, "grow").Success?
    ensures var s := SnapToGrid(Integer, r, voxel, "grow").value;
      s.offset[i].Some? && End(Integer, s)[i].Some? &&
      s.offset[i].value <= r.offset[i].value && End(Integer, r)[i].value <= End(Integer, s)[i].value &&
      PyMod(s.offset[i].value, voxel[i].value) == 0.0 && PyMod(End(Integer, s)[i].value, voxel[i].value) == 0.0
  {
    SnapGrowAxis(Integer, r, voxel, i);
    var t := SnapToGrid(Integer, r, voxel, "grow").value;
    GrowScalar(r.offset[i].value, End(Integer, r)[i].value, voxel[i].value, t.offset[i].value, End(Integer, t)[i].value);
  }

  /** `snap_to_grid(1.0, "grow")` of the `FloatRoi` `[0, 1.5)` ends at `1.0`,
      before the Roi's own end: off the integer grid `ceil_division` is not a
      ceiling, so `SnapGrowCovers` has no counterpart for `FloatRoi`. */
  lemma FloatGrowFallsShort()
    ensures var r := Region([Some(0.0)], [Some(1.5)]);
      SnapToGrid(Float, r, [Some(1.0)], "grow").Success? &&
      End(Float, SnapToGrid(Float, r, [Some(1.0)], "grow").value)[0] == Some(1.0) &&
      End(Float, r)[0] == Some(1.5)
  {
    var r := Region([Some(0.0)], [Some(1.5)]);
    SnapGrowAxis(Float, r, [Some(1.0)], 0);
    EndAt(Float, r, 0, 0.0, 1.5, 1.5);
    FloorBetween((1.5 + 1.0 - 1.0) / 1.0, 1.0);
  }

  /** With a true ceiling for the end, `grow` covers any real axis: the
      floored begin is at or before `b`, the ceiled end at or after `e`, and
      both are multiples of the voxel size. */
  lemma CeilingGrowCovers(b: real, e: real, v: real)
    requires v > 0.0
    ensures Multiple(FloorDiv(b, v), v) <= b && e <= Multiple(Ceiling(e, v), v)
    ensures PyMod(Multiple(FloorDiv(b, v), v), v) == 0.0 && PyMod(Multiple(Ceiling(e, v), v), v) == 0.0
  {
    FloorMultiple(b, v);
    OnGrid(FloorDiv(b, v), v);
    OnGrid(Ceiling(e, v), v);
  }

  /** `snap_to_grid(v, "shrink")`: on an integer grid with a positive voxel
      size, the new begin is at or after the old one, the new end at or
      before the old one, and both are multiples of the voxel size. */
  lemma {:induction false} SnapShrinkInside(r: Region, voxel: Coord, i: nat)
    requires WellFormed(Integer, r) && WellKinded(Integer, voxel) && GridFor(r, voxel)
    requires SnapAxis(r, voxel, i)
    ensures SnapToGrid(Integer, r, voxel, "shrink").Success?
    ensures var s := SnapToGrid(Integer, r, voxel, "shrink").value;
      s.offset[i].Some? && End(Integer, s)[i].Some? &&
      r.offset[i].value <= s.offset[i].value && End(Integer, s)[i].value <= End(Integer, r)[i].value &&
      PyMod(s.offset[i].value, voxel[i].value) == 0.0 && PyMod(End(Integer, s)[i].value, voxel[i].value) == 0.0
  {
    SnapShrinkAxis(Integer, r, voxel, i);
    var t := SnapToGrid(Integer, r, voxel, "shrink").value;
    ShrinkScalar(r.offset[i].value, End(Integer, r)[i].value, voxel[i].value, t.offset[i].value, End(Integer, t)[i].value);
  }

  /** `snap_to_grid(v, "closest")` puts each bound between the ones `grow`
      and `shrink` choose, on a multiple of the voxel size. */
  lemma {:induction false} SnapClosestBetween(r: Region, voxel: Coord, i: nat)
    requires WellFormed(Integer, r) && WellKinded(Integer, voxel) && GridFor(r, voxel)
    requires SnapAxis(r, voxel, i)
    ensures SnapToGrid(Integer, r, voxel, "closest").Success?
    ensures SnapToGrid(Integer, r, voxel, "grow").Success? && SnapToGrid(Integer, r, voxel, "shrink").Success?
    ensures var s := SnapToGrid(Integer, r, voxel, "closest").value;
      var g := SnapToGrid(Integer, r, voxel, "grow").value;
      var h := SnapToGrid(Integer, r, voxel, "shrink").value;
      s.offset[i].Some? && End(Integer, s)[i].Some? &&
      g.offset[i].value <= s.offset[i].value <= h.offset[i].value &&
      End(Integer, h)[i].value <= End(Integer, s)[i].value <= End(Integer, g)[i].value &&
      PyMod(s.offset[i].value, voxel[i].value) == 0.0 && PyMod(End(Integer, s)[i].value, voxel[i].value) == 0.0
  {
    SnapClosestAxis(Integer, r, voxel, i);
    SnapGrowAxis(Integer, r, voxel, i);
    SnapShrinkAxis(Integer, r, voxel, i);
    var s := SnapToGrid(Integer, r, voxel, "closest").value;
    var g := SnapToGrid(Integer, r, voxel, "grow").value;
    var h := SnapToGrid(Integer, r, voxel, "shrink").value;
    ClosestScalar(r.offset[i].value, voxel[i].value, g.offset[i].value, s.offset[i].value, h.offset[i].value);
    ClosestScalar(End(Integer, r)[i].value, voxel[i].value, End(Integer, h)[i].value, End(Integer, s)[i].value, End(Integer, g)[i].value);
  }

  lemma ScaleOrder(x: real, y: real, z: real, v: real)
    requires x <= y <= z && v > 0.0
    ensures Multiple(x, v) <= Multiple(y, v) <= Multiple(z, v)
  {
    MulLeftMono(v, x, y);
    MulLeftMono(v, y, z);
  }

  /** A product of positive factors is positive. */
  lemma {:induction false} ProductPositive(s: Coord)
    requires AllDefined(s) && forall i :: 0 <= i < |s| ==> s[i].value > 0.0
    ensures Product(s) > 0.0
  {
    if |s| > 0 {
      ProductPositive(s[..|s| - 1]);
      MulLeftStrict(Product(s[..|s| - 1]), 0.0, s[|s| - 1].value);
    }
  }

  /** A product with a zero factor is zero. */
  lemma {:induction false} ProductZero(s: Coord, j: nat)
    requires AllDefined(s) && j < |s| && s[j].value == 0.0
    ensures Product(s) == 0.0
  {
    if j < |s| - 1 {
      ProductZero(s[..|s| - 1], j);
    }
  }

  /** A product of whole numbers is whole. */
  lemma {:induction false} ProductWhole(s: Coord)
    requires AllDefined(s) && WellKinded(Integer, s)
    ensures IsWhole(Product(s))
  {
    if |s| > 0 {
      var p, x := Product(s[..|s| - 1]), s[|s| - 1].value;
      ProductWhole(s[..|s| - 1]);
      WholeArith(p, x);
      assert Product(s) == p * x;
    }
  }

  /** `size` of a bounded, non-empty Roi is positive. */
  lemma {:induction false} SizePositive(r: Region)
    requires !Unbounded(r) && !Empty(r)
    ensures SizeOf(r).Some? && SizeOf(r).value > 0.0
  {
    ProductPositive(r.shape);
  }

  /** `size` of a bounded Roi with a zero-length axis is zero. */
  lemma {:induction false} SizeZero(r: Region, j: nat)
    requires !Unbounded(r) && j < RegionDims(r) && r.shape[j] == Some(0.0)
    ensures SizeOf(r) == Some(0.0)
  {
    ProductZero(r.shape, j);
  }

  /** `size` of a bounded integer Roi is a whole number. */
  lemma {:induction false} SizeWhole(r: Region)
    requires !Unbounded(r) && WellKinded(Integer, r.shape)
    ensures SizeOf(r).Some? && IsWhole(SizeOf(r).value)
  {
    ProductWhole(r.shape);
  }

  /** Half of a positive length, as `center` computes it: `int(s / 2)` for
      `Roi`, `s // 2` for `FloatRoi`; it lies in `[0, s)`. */
  lemma HalfBounds(k: Kind, shape: Coord, i: nat)
    requires WellKinded(k, shape) && i < |shape| && shape[i].Some? && shape[i].value > 0.0
    ensures var half := if k == Integer then Combine(k, TrueDiv, shape, Scalar(2.0))
                        else Combine(k, FloorDivide, shape, Scalar(2.0));
      half[i].Some? && 0.0 <= half[i].value < shape[i].value
  {
    var s := shape[i].value;
    if k == Float {
      var h := FloorDiv(s, 2.0);
      WholeNonNegative(h);
    }
  }

  /** `center` of a non-empty Roi with a defined offset lies inside it. */
  lemma {:induction false} CenterContained(k: Kind, r: Region)
    requires WellFormed(k, r) && !Empty(r) && AllDefined(r.offset)
    ensures ContainsPoint(k, r, Center(k, r))
  {
    var c, e := Center(k, r), End(k, r);
    var half := if k == Integer then Combine(k, TrueDiv, r.shape, Scalar(2.0))
                else Combine(k, FloorDivide, r.shape, Scalar(2.0));
    forall i | 0 <= i < RegionDims(r) ensures AxisContains(c[i], r.offset[i], e[i]) {
      HalfBounds(k, r.shape, i);
      ExactAt(k, Add, r.offset, Vec(half), i);
      ExactAt(k, Add, r.offset, Vec(r.shape), i);
    }
  }

  /** For an integer Roi with defined offsets and positive shapes,
      `to_slices` succeeds and its ranges hold exactly the points the Roi
      contains. */
  lemma {:induction false} SlicesMatchContainment(r: Region, p: Coord)
    requires WellFormed(Integer, r) && AllDefined(r.offset) && |p| >= RegionDims(r)
    requires forall i :: 0 <= i < RegionDims(r) ==> r.shape[i].Some? && r.shape[i].value > 0.0
    ensures RegionSlices(r).Success?
    ensures var sl := RegionSlices(r).value;
      ContainsPoint(Integer, r, p) <==>
        forall i :: 0 <= i < RegionDims(r) ==>
          p[i].Some? && sl[i].start.Some? && sl[i].stop.Some? &&
          sl[i].start.value as real <= p[i].value < sl[i].stop.value as real
  {
    var e := End(Integer, r);
    forall i | 0 <= i < RegionDims(r)
      ensures AxisSlice(r.offset[i], r.shape[i]) == Success(Slice(Some(Trunc(r.offset[i].value)), Some(Trunc(e[i].value))))
      ensures Trunc(r.offset[i].value) as real == r.offset[i].value && Trunc(e[i].value) as real == e[i].value
    {
      ExactAt(Integer, Add, r.offset, Vec(r.shape), i);
    }
  }
}
