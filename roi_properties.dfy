/** What the Roi operations promise: the bounds of `intersect` and `union`,
    their effect on containment, symmetry, the shifts and scalings that undo
    each other, where `grow` and `snap_to_grid` put the bounds, `size`,
    `center` and `to_slices`. */
module RoiProperties {
  import opened Num
  import opened Coordinates
  import opened Rois

  /** In a consolidated Roi an axis has a defined begin exactly when it has a
      defined end. */
  lemma BeginDefinedIffEnd(k: Kind, r: Region, i: nat)
    requires Consolidated(r) && i < RegionDims(r)
    ensures r.offset[i].Some? <==> End(k, r)[i].Some?
  {
  }

  /** On one axis, the intersected bounds contain exactly the values both
      pairs of bounds contain. */
  lemma AxisIntersect(p: Option<real>, ba: Option<real>, ea: Option<real>, bb: Option<real>, eb: Option<real>)
    requires (ba.Some? <==> ea.Some?) && (bb.Some? <==> eb.Some?)
    ensures AxisContains(p, LeftMax(ba, bb), RightMin(ea, eb)) <==>
      AxisContains(p, ba, ea) && AxisContains(p, bb, eb)
  {
  }

  /** `Roi(begin, end - begin)` has exactly the given bounds on an axis where
      both are defined or both are not. */
  lemma SpanningBounds(k: Kind, begin: Coord, end: Coord, i: nat)
    requires |begin| == |end| && WellKinded(k, begin) && WellKinded(k, end) && i < |begin|
    requires begin[i].Some? <==> end[i].Some?
    ensures Spanning(k, begin, end).offset[i] == begin[i]
    ensures End(k, Spanning(k, begin, end))[i] == end[i]
  {
    if begin[i].Some? {
      var lo, hi := begin[i].value, end[i].value;
      SpanningAxis(k, begin, end, i, lo, hi);
      EndAt(k, Spanning(k, begin, end), i, lo, hi - lo, hi);
    }
  }

  lemma SpanningAxis(k: Kind, begin: Coord, end: Coord, i: nat, lo: real, hi: real)
    requires |begin| == |end| && WellKinded(k, begin) && WellKinded(k, end) && i < |begin|
    requires begin[i] == Some(lo) && end[i] == Some(hi)
    ensures Spanning(k, begin, end).offset[i] == Some(lo)
    ensures Spanning(k, begin, end).shape[i] == Some(hi - lo)
  {
    PairAt(k, Sub, end, begin, i, hi, lo, hi - lo);
    ApplyFits(k, Sub, hi, lo);
    MakeRegionAt(k, begin, Combine(k, Sub, end, Vec(begin)), i);
  }

  /** `intersect` of intersecting Roi: begin is `__left_max` of the begins
      and end is `__right_min` of the ends, axis by axis. */
  lemma {:induction false} IntersectBounds(k: Kind, a: Region, b: Region, i: nat)
    requires WellFormed(k, a) && WellFormed(k, b) && RegionDims(a) == RegionDims(b)
    requires Intersects(k, a, b) && i < RegionDims(a)
    ensures Intersect(k, a, b).offset[i] == LeftMax(a.offset[i], b.offset[i])
    ensures End(k, Intersect(k, a, b))[i] == RightMin(End(k, a)[i], End(k, b)[i])
  {
    var bs, es := Zip(LeftMax, a.offset, b.offset), Zip(RightMin, End(k, a), End(k, b));
    assert Make(k, bs) == bs;
    assert Make(k, es) == es;
    BeginDefinedIffEnd(k, a, i);
    BeginDefinedIffEnd(k, b, i);
    SpanningBounds(k, bs, es, i);
  }

  /** `union` of two non-empty Roi: begin is `__left_min` of the begins and
      end is `__right_max` of the ends, axis by axis. */
  lemma {:induction false} UnionBounds(k: Kind, a: Region, b: Region, i: nat)
    requires WellFormed(k, a) && WellFormed(k, b)
    requires !Empty(a) && !Empty(b) && i < Min(RegionDims(a), RegionDims(b))
    ensures Union(k, a, b).offset[i] == LeftMin(a.offset[i], b.offset[i])
    ensures End(k, Union(k, a, b))[i] == RightMax(End(k, a)[i], End(k, b)[i])
  {
    var bs, es := Zip(LeftMin, a.offset, b.offset), Zip(RightMax, End(k, a), End(k, b));
    assert Make(k, bs) == bs;
    assert Make(k, es) == es;
    BeginDefinedIffEnd(k, a, i);
    BeginDefinedIffEnd(k, b, i);
    SpanningBounds(k, bs, es, i);
  }

  /** A point lies in the intersection of two intersecting Roi exactly when
      it lies in both. */
  lemma {:induction false} IntersectContains(k: Kind, a: Region, b: Region, p: Coord)
    requires WellFormed(k, a) && WellFormed(k, b) && RegionDims(a) == RegionDims(b)
    requires Intersects(k, a, b)
    ensures ContainsPoint(k, Intersect(k, a, b), p) <==> ContainsPoint(k, a, p) && ContainsPoint(k, b, p)
  {
    var r := Intersect(k, a, b);
    var ea, eb, er := End(k, a), End(k, b), End(k, r);
    if |p| >= RegionDims(a) {
      forall i | 0 <= i < RegionDims(a)
        ensures AxisContains(p[i], r.offset[i], er[i]) <==>
          AxisContains(p[i], a.offset[i], ea[i]) && AxisContains(p[i], b.offset[i], eb[i])
      {
        IntersectBounds(k, a, b, i);
        BeginDefinedIffEnd(k, a, i);
        BeginDefinedIffEnd(k, b, i);
        AxisIntersect(p[i], a.offset[i], ea[i], b.offset[i], eb[i]);
      }
    }
  }

  /** The union of two non-empty Roi contains every point of either. */
  lemma {:induction false} UnionCovers(k: Kind, a: Region, b: Region, p: Coord)
    requires WellFormed(k, a) && WellFormed(k, b)
    requires !Empty(a) && !Empty(b)
    requires ContainsPoint(k, a, p) || ContainsPoint(k, b, p)
    ensures ContainsPoint(k, Union(k, a, b), p)
  {
    var r := Union(k, a, b);
    var ea, eb, er := End(k, a), End(k, b), End(k, r);
    forall i | 0 <= i < RegionDims(r) ensures AxisContains(p[i], r.offset[i], er[i]) {
      UnionBounds(k, a, b, i);
      BeginDefinedIffEnd(k, a, i);
      BeginDefinedIffEnd(k, b, i);
    }
  }

  /** `intersects` does not depend on the order of its operands. */
  lemma {:induction false} IntersectsSymmetric(k: Kind, a: Region, b: Region)
    requires Consolidated(a) && Consolidated(b) && RegionDims(a) == RegionDims(b)
    ensures Intersects(k, a, b) <==> Intersects(k, b, a)
  {
    var ea, eb := End(k, a), End(k, b);
    forall i | 0 <= i < RegionDims(a)
      ensures Separated(a.offset[i], b.offset[i], ea[i], eb[i]) <==> Separated(b.offset[i], a.offset[i], eb[i], ea[i])
    {
    }
  }

  /** `a.intersect(b) == b.intersect(a)`. */
  lemma {:induction false} IntersectCommutes(k: Kind, a: Region, b: Region)
    requires WellFormed(k, a) && WellFormed(k, b) && RegionDims(a) == RegionDims(b)
    ensures Intersect(k, a, b) == Intersect(k, b, a)
  {
    IntersectsSymmetric(k, a, b);
    if Intersects(k, a, b) {
      BoundsCommute(a.offset, b.offset);
      BoundsCommute(End(k, a), End(k, b));
    }
  }

  /** `a.union(b) == b.union(a)` unless both are empty: then the result is
      whichever operand came second. */
  lemma {:induction false} UnionCommutes(k: Kind, a: Region, b: Region)
    requires WellFormed(k, a) && WellFormed(k, b)
    requires !Empty(a) || !Empty(b)
    ensures Union(k, a, b) == Union(k, b, a)
  {
    if !Empty(a) && !Empty(b) {
      BoundsCommute(a.offset, b.offset);
      BoundsCommute(End(k, a), End(k, b));
    }
  }

  /** The four bound combinators do not depend on the order of their operands. */
  lemma BoundsCommute(x: Coord, y: Coord)
    ensures Zip(LeftMax, x, y) == Zip(LeftMax, y, x) && Zip(RightMin, x, y) == Zip(RightMin, y, x)
    ensures Zip(LeftMin, x, y) == Zip(LeftMin, y, x) && Zip(RightMax, x, y) == Zip(RightMax, y, x)
  {
    forall i | 0 <= i < Min(|x|, |y|)
      ensures LeftMax(x[i], y[i]) == LeftMax(y[i], x[i]) && RightMin(x[i], y[i]) == RightMin(y[i], x[i])
      ensures LeftMin(x[i], y[i]) == LeftMin(y[i], x[i]) && RightMax(x[i], y[i]) == RightMax(y[i], x[i])
    {
    }
  }

  /** Two empty Roi with different offsets: their union depends on the order. */
  lemma UnionOfEmptiesDependsOnOrder()
    ensures Union(Integer, Region([None], [Some(0.0)]), Region([Some(1.0)], [Some(0.0)])) == Region([Some(1.0)], [Some(0.0)])
    ensures Union(Integer, Region([Some(1.0)], [Some(0.0)]), Region([None], [Some(0.0)])) == Region([None], [Some(0.0)])
  {
    var a, b := Region([None], [Some(0.0)]), Region([Some(1.0)], [Some(0.0)]);
    assert a.shape[0] == Some(0.0) && b.shape[0] == Some(0.0);
    assert IsWhole(1.0) && IsWhole(0.0);
  }

  /** `union` has no `dims` check: a 2-D and a 1-D Roi, both non-empty,
      give the 1-D Roi spanning both first axes. */
  lemma UnionOfDifferentDims()
    ensures Union(Integer, Region([Some(0.0), Some(0.0)], [Some(2.0), Some(2.0)]), Region([Some(1.0)], [Some(3.0)]))
      == Region([Some(0.0)], [Some(4.0)])
  {
    var a, b := Region([Some(0.0), Some(0.0)], [Some(2.0), Some(2.0)]), Region([Some(1.0)], [Some(3.0)]);
    assert IsWhole(0.0) && IsWhole(1.0) && IsWhole(2.0) && IsWhole(3.0) && IsWhole(4.0);
    assert a.shape[0] == Some(2.0) && b.shape[0] == Some(3.0) && a.shape[1] == Some(2.0);
    assert WellFormed(Integer, a) && WellFormed(Integer, b) && !Empty(a) && !Empty(b);
    EndAt(Integer, a, 0, 0.0, 2.0, 2.0);
    EndAt(Integer, b, 0, 1.0, 3.0, 4.0);
    UnionSpans(a, b, [Some(0.0)], [Some(4.0)]);
  }

  /** One step of `UnionOfDifferentDims`: a union with the begins `bs` and
      the ends `es` spans them. */
  lemma UnionSpans(a: Region, b: Region, bs: Coord, es: Coord)
    requires WellFormed(Integer, a) && WellFormed(Integer, b) && !Empty(a) && !Empty(b)
    requires bs == Zip(LeftMin, a.offset, b.offset) && es == Zip(RightMax, End(Integer, a), End(Integer, b))
    requires bs == [Some(0.0)] && es == [Some(4.0)]
    ensures Union(Integer, a, b) == Region([Some(0.0)], [Some(4.0)])
  {
    assert IsWhole(0.0) && IsWhole(4.0);
    assert Make(Integer, bs) == bs && Make(Integer, es) == es;
    var sh := Combine(Integer, Sub, es, Vec(bs));
    CombineAt(Integer, Sub, es, Vec(bs), 0, 4.0);
    assert sh == [Some(4.0)];
    assert WellFormed(Integer, Region(bs, sh));
  }

  /** The empty Roi that `intersect` returns has no defined bound, so it
      contains every point with enough components. */
  lemma {:induction false} DisjointIntersectionContainsAll(k: Kind, a: Region, b: Region, p: Coord)
    requires WellFormed(k, a) && WellFormed(k, b) && RegionDims(a) == RegionDims(b)
    requires !Intersects(k, a, b) && |p| >= RegionDims(a)
    ensures RegionDims(a) > 0 ==> Empty(Intersect(k, a, b))
    ensures ContainsPoint(k, Intersect(k, a, b), p)
  {
    var r := Intersect(k, a, b);
    var e := End(k, r);
    forall i | 0 <= i < RegionDims(a) ensures r.offset[i].None? && e[i].None? {
      assert r.shape[i] == Some(0.0);
    }
  }

  /** One axis of `contains(roi)` on the integer grid: if the other Roi's begin
      and `end - 1` lie within the bounds, so does every whole point of it. */
  lemma AxisSound(p: Option<real>, bo: Option<real>, eo: Option<real>, last: Option<real>, br: Option<real>, er: Option<real>)
    requires bo.Some? <==> eo.Some?
    requires last.Some? <==> eo.Some?
    requires eo.Some? ==> IsWhole(eo.value) && last.value == eo.value - 1.0
    requires p.Some? ==> IsWhole(p.value)
    requires AxisContains(bo, br, er) && AxisContains(last, br, er) && AxisContains(p, bo, eo)
    ensures AxisContains(p, br, er)
  {
    if p.Some? && eo.Some? {
      WholeArith(p.value, eo.value);
    }
  }

  /** `contains(roi)` is sound on the integer grid: a non-empty Roi that is
      contained has all its whole points inside. */
  lemma {:induction false} ContainsRegionSound(r: Region, o: Region, p: Coord)
    requires WellFormed(Integer, r) && WellFormed(Integer, o) && !Empty(o)
    requires ContainsRegion(Integer, r, o)
    requires WellKinded(Integer, p) && ContainsPoint(Integer, o, p)
    ensures ContainsPoint(Integer, r, p)
  {
    var eo, er := End(Integer, o), End(Integer, r);
    var last := Combine(Integer, Sub, eo, Scalar(1.0));
    forall i | 0 <= i < RegionDims(r) ensures AxisContains(p[i], r.offset[i], er[i]) {
      BeginDefinedIffEnd(Integer, o, i);
      if eo[i].Some? {
        WholeArith(eo[i].value, 1.0);
      }
      AxisSound(p[i], o.offset[i], eo[i], last[i], r.offset[i], er[i]);
    }
  }

  /** `(roi + c) - c == roi` for a fully defined shift `c`. */
  lemma {:induction false} ShiftRoundTrip(k: Kind, r: Region, c: Coord)
    requires WellFormed(k, r) && WellKinded(k, c) && AllDefined(c) && |c| == RegionDims(r)
    ensures Minus(k, Shift(k, r, Vec(c)), Vec(c)) == r
  {
    var moved := Combine(k, Add, r.offset, Vec(c));
    assert WellFormed(k, Region(moved, r.shape));
    var s := Shift(k, r, Vec(c));
    assert s == Region(moved, r.shape);
    var n := Negate(k, c);
    var back := Combine(k, Add, moved, Vec(n));
    forall i | 0 <= i < |c| && r.offset[i].Some? ensures back[i] == r.offset[i] {
      ShiftBackAt(k, r.offset, c, i, r.offset[i].value, c[i].value);
    }
    assert back == r.offset;
    assert WellFormed(k, Region(back, r.shape));
  }

  /** `(o + c) + (-c)` on one axis where both are defined. */
  lemma ShiftBackAt(k: Kind, o: Coord, c: Coord, i: nat, x: real, y: real)
    requires WellKinded(k, o) && WellKinded(k, c) && |o| == |c| && i < |o|
    requires o[i] == Some(x) && c[i] == Some(y)
    ensures Combine(k, Add, Combine(k, Add, o, Vec(c)), Vec(Negate(k, c)))[i] == Some(x)
  {
    var moved := Combine(k, Add, o, Vec(c));
    var n := Negate(k, c);
    NegateAt(k, c, i, y);
    PairAt(k, Add, o, c, i, x, y, x + y);
    PairAt(k, Add, moved, n, i, x + y, -y, x);
  }

  /** `(roi * v) / v == roi` for a fully defined, nonzero `v`. */
  lemma {:induction false} ScaleRoundTrip(k: Kind, r: Region, v: Coord)
    requires WellFormed(k, r) && WellKinded(k, v) && AllDefined(v) && |v| == RegionDims(r)
    requires forall i :: 0 <= i < |v| ==> v[i].value != 0.0
    ensures Scale(k, TrueDiv, Scale(k, Mul, r, Vec(v)), Vec(v)) == r
  {
    var o, s := Combine(k, Mul, r.offset, Vec(v)), Combine(k, Mul, r.shape, Vec(v));
    assert WellFormed(k, Region(o, s));
    assert Scale(k, Mul, r, Vec(v)) == Region(o, s);
    var o2, s2 := Combine(k, TrueDiv, o, Vec(v)), Combine(k, TrueDiv, s, Vec(v));
    forall i | 0 <= i < |v| ensures o2[i] == r.offset[i] && s2[i] == r.shape[i] {
      var y := v[i].value;
      if r.offset[i].Some? {
        MulDivCancel(k, r.offset, v, o, o2, i, r.offset[i].value, y);
      }
      if r.shape[i].Some? {
        MulDivCancel(k, r.shape, v, s, s2, i, r.shape[i].value, y);
      }
    }
    assert o2 == r.offset && s2 == r.shape;
  }

  lemma MulDivCancel(k: Kind, a: Coord, v: Coord, m: Coord, d: Coord, i: nat, x: real, y: real)
    requires WellKinded(k, a) && WellKinded(k, v) && |a| == |v| && i < |a|
    requires a[i] == Some(x) && v[i] == Some(y) && y != 0.0
    requires m == Combine(k, Mul, a, Vec(v))
    requires DivisorsNonZero(TrueDiv, m, Vec(v))
    requires d == Combine(k, TrueDiv, m, Vec(v))
    ensures d[i] == a[i]
  {
    PairAt(k, Mul, a, v, i, x, y, x * y);
    MulDivExact(x, y, x * y);
    CombineAt(k, TrueDiv, m, Vec(v), i, x);
  }

  lemma MulDivExact(x: real, y: real, xy: real)
    requires y != 0.0 && xy == x * y
    ensures xy / y == x
  {
  }

  /** `grow(neg, pos)` on one axis where the Roi and both amounts are
      defined (with values `o`, `s`, `n`, `p`): offset `o - n`, shape
      `s + n + p`. */
  lemma GrowAxis(k: Kind, r: Region, neg: Operand, pos: Operand, i: nat, o: real, s: real, n: real, p: real)
    requires WellFormed(k, r) && Compatible(r.shape, neg) && Compatible(r.shape, pos)
    requires i < RegionDims(r) && r.offset[i] == Some(o) && r.shape[i] == Some(s)
    requires Other(neg, i) == Some(n) && Other(pos, i) == Some(p)
    requires OperandFits(k, neg) && OperandFits(k, pos)
    ensures Grow(k, r, neg, pos).offset[i] == Some(o - n)
    ensures Grow(k, r, neg, pos).shape[i] == Some(s + n + p)
  {
    OtherFits(k, neg, i);
    OtherFits(k, pos, i);
    var off := Combine(k, Sub, r.offset, neg);
    var sh := Combine(k, Add, Combine(k, Add, r.shape, neg), pos);
    GrownOffsetAt(k, r.offset, neg, i, o, n);
    GrownShapeAt(k, r.shape, neg, pos, i, s, n, p);
    MakeRegionAt(k, off, sh, i);
  }

  lemma GrownOffsetAt(k: Kind, a: Coord, neg: Operand, i: nat, o: real, n: real)
    requires Compatible(a, neg) && i < |a| && a[i] == Some(o) && Other(neg, i) == Some(n)
    requires Fits(k, o) && Fits(k, n)
    ensures Combine(k, Sub, a, neg)[i] == Some(o - n)
  {
    ApplyFits(k, Sub, o, n);
    CombineAt(k, Sub, a, neg, i, o - n);
  }

  lemma GrownShapeAt(k: Kind, a: Coord, neg: Operand, pos: Operand, i: nat, s: real, n: real, p: real)
    requires Compatible(a, neg) && Compatible(a, pos) && i < |a| && a[i] == Some(s)
    requires Other(neg, i) == Some(n) && Other(pos, i) == Some(p)
    requires Fits(k, s) && Fits(k, n) && Fits(k, p)
    ensures Combine(k, Add, Combine(k, Add, a, neg), pos)[i] == Some(s + n + p)
  {
    var wide := Combine(k, Add, a, neg);
    ApplyFits(k, Add, s, n);
    CombineAt(k, Add, a, neg, i, s + n);
    ApplyFits(k, Add, s + n, p);
    CombineAt(k, Add, wide, pos, i, s + n + p);
  }

  /** A defined component of an operand of the variant fits the variant. */
  lemma OtherFits(k: Kind, y: Operand, i: nat)
    requires OperandFits(k, y) && (y.Vec? ==> i < |y.c|) && Other(y, i).Some?
    ensures Fits(k, Other(y, i).value)
  {
  }

  /** `grow` leaves an unbounded axis unbounded, whatever the amounts. */
  lemma GrowKeepsUnbounded(k: Kind, r: Region, neg: Operand, pos: Operand, i: nat)
    requires WellFormed(k, r) && Compatible(r.shape, neg) && Compatible(r.shape, pos)
    requires i < RegionDims(r) && r.shape[i].None?
    ensures Grow(k, r, neg, pos).shape[i].None? && Grow(k, r, neg, pos).offset[i].None?
  {
  }

  /** `grow(neg, pos)` moves the end `o + s` up by `p` on every axis where
      the Roi and both amounts are defined. */
  lemma GrowBounds(k: Kind, r: Region, neg: Operand, pos: Operand, i: nat, o: real, s: real, n: real, p: real)
    requires WellFormed(k, r) && Compatible(r.shape, neg) && Compatible(r.shape, pos)
    requires i < RegionDims(r) && r.offset[i] == Some(o) && r.shape[i] == Some(s)
    requires Other(neg, i) == Some(n) && Other(pos, i) == Some(p)
    requires OperandFits(k, neg) && OperandFits(k, pos)
    ensures End(k, Grow(k, r, neg, pos))[i] == Some(o + s + p)
  {
    GrowAxis(k, r, neg, pos, i, o, s, n, p);
    GrownEndAt(k, Grow(k, r, neg, pos), i, o, s, n, p);
  }

  lemma GrownEndAt(k: Kind, g: Region, i: nat, o: real, s: real, n: real, p: real)
    requires WellFormed(k, g) && i < RegionDims(g)
    requires g.offset[i] == Some(o - n) && g.shape[i] == Some(s + n + p)
    ensures End(k, g)[i] == Some(o + s + p)
  {
    EndAt(k, g, i, o - n, s + n + p, o + s + p);
  }
}
