/** `Roi` and `FloatRoi`: an axis-aligned box given by an offset Coordinate
    and a shape Coordinate. An undefined (`None`) begin stands for minus
    infinity and an undefined end for plus infinity. The `Region` datatype is
    the value of a Roi and carries the algebra; the class `Roi` models the
    object whose `offset` and `shape` setters change it in place. */
module Rois {
  import opened Num
  import opened Coordinates

  /** The two Coordinates of a Roi. */
  datatype Region = Region(offset: Coord, shape: Coord)

  /** The consolidation invariant: equal `dims`, and no offset on an axis
      whose shape is undefined. */
  predicate Consolidated(r: Region) {
    |r.offset| == |r.shape| &&
    forall i :: 0 <= i < |r.shape| && r.shape[i].None? ==> r.offset[i].None?
  }

  /** A value a Roi of the given variant can hold. */
  predicate WellFormed(k: Kind, r: Region) {
    Consolidated(r) && WellKinded(k, r.offset) && WellKinded(k, r.shape)
  }

  /** `__consolidate_offset`: the offset is rebuilt with `None` wherever the
      shape is `None`; the source asserts that the `dims` agree. */
  function ConsolidateOffset(k: Kind, o: Coord, s: Coord): (r: Coord)
    requires |o| == |s| && WellKinded(k, o)
    ensures Consolidated(Region(r, s)) && WellKinded(k, r)
    ensures forall i :: 0 <= i < |s| && s[i].Some? ==> r[i] == o[i]
    ensures Consolidated(Region(o, s)) ==> r == o
  {
    Make(k, seq(|o|, i requires 0 <= i < |o| => if s[i].Some? then o[i] else None))
  }

  /** `Roi(offset, shape)`: both arguments go through the variant's
      constructor, then the offset is consolidated. */
  function MakeRegion(k: Kind, o: seq<Option<real>>, s: seq<Option<real>>): (r: Region)
    requires |o| == |s|
    ensures WellFormed(k, r) && r.shape == Make(k, s)
    ensures forall i :: 0 <= i < |s| && s[i].Some? ==> r.offset[i] == CoerceOpt(k, o[i])
    ensures WellFormed(k, Region(o, s)) ==> r == Region(o, s)
  {
    var sh := Make(k, s);
    Region(ConsolidateOffset(k, Make(k, o), sh), sh)
  }

  /** On an axis where both values are defined and fit the variant,
      `Roi(offset, shape)` keeps them. */
  lemma MakeRegionAt(k: Kind, o: Coord, s: Coord, i: nat)
    requires |o| == |s| && i < |o| && o[i].Some? && s[i].Some?
    requires Fits(k, o[i].value) && Fits(k, s[i].value)
    ensures MakeRegion(k, o, s).offset[i] == o[i] && MakeRegion(k, o, s).shape[i] == s[i]
  {
  }

  /** The single argument handed to `Coordinate(...)` by the constructor and
      the setters: an iterable is unpacked, a lone number or `None` becomes a
      one-dimensional Coordinate. */
  function FromValue(k: Kind, x: Arg): (c: Coord)
    ensures FromArgs(k, [x]) == Success(c)
    ensures x.Number? ==> |c| == 1
    ensures x.Items? ==> |c| == |x.xs|
  {
    match x
    case Number(v) =>
      var args := [x];
      assert seq(|args|, i requires 0 <= i < |args| && args[i].Number? => args[i].x) == [v];
      Make(k, [v])
    case Items(xs) => Make(k, xs)
  }

  function RegionDims(r: Region): nat {
    |r.shape|
  }

  /** `end`: `offset + shape`, undefined where either is. */
  function End(k: Kind, r: Region): (e: Coord)
    requires |r.offset| == |r.shape|
    ensures |e| == |r.shape| && WellKinded(k, e)
    ensures forall i :: 0 <= i < |e| ==> (e[i].Some? <==> r.offset[i].Some? && r.shape[i].Some?)
  {
    Combine(k, Add, r.offset, Vec(r.shape))
  }

  /** The end on an axis where offset and shape are both defined. */
  lemma EndAt(k: Kind, r: Region, i: nat, o: real, s: real, e: real)
    requires WellFormed(k, r) && i < |r.offset|
    requires r.offset[i] == Some(o) && r.shape[i] == Some(s) && e == o + s
    ensures End(k, r)[i] == Some(e)
  {
    PairAt(k, Add, r.offset, r.shape, i, o, s, e);
  }

  /** `center`: `offset + shape / 2` for `Roi` (true division, then `int`),
      `offset + shape // 2` for `FloatRoi`. */
  function Center(k: Kind, r: Region): (c: Coord)
    requires |r.offset| == |r.shape|
    ensures |c| == |r.shape| && WellKinded(k, c)
    ensures forall i :: 0 <= i < |c| ==> (c[i].Some? <==> r.offset[i].Some? && r.shape[i].Some?)
  {
    var half := if k == Integer then Combine(k, TrueDiv, r.shape, Scalar(2.0))
                else Combine(k, FloorDivide, r.shape, Scalar(2.0));
    Combine(k, Add, r.offset, Vec(half))
  }

  /** The center on an axis where offset `o` and shape `s` are defined:
      `o + int(s / 2)` for `Roi`, `o + s // 2` for `FloatRoi`. */
  lemma CenterAt(k: Kind, r: Region, i: nat, o: real, s: real)
    requires WellFormed(k, r) && i < |r.offset|
    requires r.offset[i] == Some(o) && r.shape[i] == Some(s)
    ensures Center(k, r)[i] == Some(o + (if k == Integer then Trunc(s / 2.0) as real else FloorDiv(s, 2.0)))
  {
    var half := if k == Integer then Combine(k, TrueDiv, r.shape, Scalar(2.0))
                else Combine(k, FloorDivide, r.shape, Scalar(2.0));
    var h := if k == Integer then Trunc(s / 2.0) as real else FloorDiv(s, 2.0);
    assert half[i] == Some(h);
    PairAt(k, Add, r.offset, half, i, o, h, o + h);
  }

  /** `empty`: some defined shape component is at most zero. */
  predicate Empty(r: Region) {
    exists i :: 0 <= i < |r.shape| && r.shape[i].Some? && r.shape[i].value <= 0.0
  }

  /** `unbounded`: some shape component is `None`. */
  predicate Unbounded(r: Region) {
    exists i :: 0 <= i < |r.shape| && r.shape[i].None?
  }

  /** The product of a fully defined shape, multiplied from the first axis on. */
  function Product(s: Coord): real
    requires AllDefined(s)
  {
    if |s| == 0 then 1.0 else Product(s[..|s| - 1]) * s[|s| - 1].value
  }

  /** `size`: `None` when unbounded, otherwise the product of the shape. */
  function SizeOf(r: Region): (n: Option<real>)
    ensures n.None? <==> Unbounded(r)
  {
    if Unbounded(r) then None else Some(Product(r.shape))
  }

  /** One axis of `contains` on a point: `(b is None or (p is not None and
      p >= b)) and (e is None or (p is not None and p < e))`. */
  predicate AxisContains(p: Option<real>, b: Option<real>, e: Option<real>) {
    (b.None? || (p.Some? && p.value >= b.value)) &&
    (e.None? || (p.Some? && p.value < e.value))
  }

  /** `contains(coordinate)`: `zip` stops at the shorter sequence, so a point
      with fewer components than `dims` is never contained and extra
      components are ignored. */
  predicate ContainsPoint(k: Kind, r: Region, p: Coord)
    requires |r.offset| == |r.shape|
  {
    var e := End(k, r);
    |p| >= |r.shape| && forall i :: 0 <= i < |r.shape| ==> AxisContains(p[i], r.offset[i], e[i])
  }

  /** `contains(roi)`: both the begin and `end - 1` of the other Roi are
      contained; an empty Roi is contained in an empty one, or wherever its
      begin is. */
  predicate ContainsRegion(k: Kind, r: Region, o: Region)
    requires |r.offset| == |r.shape| && |o.offset| == |o.shape|
  {
    if Empty(o) then Empty(r) || ContainsPoint(k, r, o.offset)
    else ContainsPoint(k, r, o.offset) && ContainsPoint(k, r, Combine(k, Sub, End(k, o), Scalar(1.0)))
  }

  /** An axis on which two Roi are apart: all four bounds defined and one
      begins at or after the other's end. */
  predicate Separated(b1: Option<real>, b2: Option<real>, e1: Option<real>, e2: Option<real>) {
    b1.Some? && b2.Some? && e1.Some? && e2.Some? &&
    (b1.value >= e2.value || b2.value >= e1.value)
  }

  /** `intersects`: false if either Roi is empty, otherwise true unless some
      axis is separated. */
  predicate Intersects(k: Kind, a: Region, b: Region)
    requires Consolidated(a) && Consolidated(b) && RegionDims(a) == RegionDims(b)
  {
    var ea, eb := End(k, a), End(k, b);
    !Empty(a) && !Empty(b) &&
    !exists i :: 0 <= i < |a.shape| && Separated(a.offset[i], b.offset[i], ea[i], eb[i])
  }

  /** `__left_min`: `None` is minus infinity, so it absorbs. */
  function LeftMin(x: Option<real>, y: Option<real>): (r: Option<real>)
    ensures r.Some? <==> x.Some? && y.Some?
    ensures r.Some? ==> r.value <= x.value && r.value <= y.value && (r == x || r == y)
  {
    if x.None? || y.None? then None
    else if x.value <= y.value then x else y
  }

  /** `__left_max`: `None` is minus infinity, so the other value wins. */
  function LeftMax(x: Option<real>, y: Option<real>): (r: Option<real>)
    ensures r.Some? <==> x.Some? || y.Some?
    ensures x.Some? ==> r.value >= x.value
    ensures y.Some? ==> r.value >= y.value
    ensures r == x || r == y
  {
    if x.None? then y
    else if y.None? then x
    else if x.value >= y.value then x else y
  }

  /** `__right_min`: `None` is plus infinity, so the other value wins. */
  function RightMin(x: Option<real>, y: Option<real>): (r: Option<real>)
    ensures r.Some? <==> x.Some? || y.Some?
    ensures x.Some? ==> r.value <= x.value
    ensures y.Some? ==> r.value <= y.value
    ensures r == x || r == y
  {
    if x.None? then y
    else if y.None? then x
    else if x.value <= y.value then x else y
  }

  /** `__right_max`: `None` is plus infinity, so it absorbs. */
  function RightMax(x: Option<real>, y: Option<real>): (r: Option<real>)
    ensures r.Some? <==> x.Some? && y.Some?
    ensures r.Some? ==> r.value >= x.value && r.value >= y.value && (r == x || r == y)
  {
    if x.None? || y.None? then None
    else if x.value >= y.value then x else y
  }

  /** The Roi with every offset `None` and every shape `0` that `intersect`
      returns for Roi that do not intersect. */
  function EmptyRegion(k: Kind, n: nat): (r: Region)
    ensures WellFormed(k, r) && RegionDims(r) == n
    ensures n > 0 ==> Empty(r)
  {
    var e := MakeRegion(k, seq(n, i => None), seq(n, i => Some(0.0)));
    assert n > 0 ==> e.shape[0] == Some(0.0);
    e
  }

  /** `__left_min`, `__left_max`, `__right_min` or `__right_max` over zipped
      Coordinates; like `zip`, it stops at the shorter one. */
  function Zip(f: (Option<real>, Option<real>) -> Option<real>, x: Coord, y: Coord): (r: Coord)
    ensures |r| == Min(|x|, |y|) && forall i :: 0 <= i < |r| ==> r[i] == f(x[i], y[i])
  {
    seq(Min(|x|, |y|), i requires 0 <= i < Min(|x|, |y|) => f(x[i], y[i]))
  }

  /** `Roi(begin, end - begin)`. */
  function Spanning(k: Kind, begin: Coord, end: Coord): (r: Region)
    requires |begin| == |end|
    ensures WellFormed(k, r) && RegionDims(r) == |begin|
  {
    MakeRegion(k, begin, Combine(k, Sub, end, Vec(begin)))
  }

  /** `intersect`: begin is the larger begin, end the smaller end. */
  function Intersect(k: Kind, a: Region, b: Region): (r: Region)
    requires WellFormed(k, a) && WellFormed(k, b) && RegionDims(a) == RegionDims(b)
    ensures WellFormed(k, r) && RegionDims(r) == RegionDims(a)
    ensures !Intersects(k, a, b) ==> r == EmptyRegion(k, RegionDims(a))
  {
    if !Intersects(k, a, b) then EmptyRegion(k, RegionDims(a))
    else Spanning(k, Make(k, Zip(LeftMax, a.offset, b.offset)), Make(k, Zip(RightMin, End(k, a), End(k, b))))
  }

  /** `union`: an empty operand yields the other one unchanged; otherwise
      begin is the smaller begin and end the larger end. There is no `dims`
      check: the begins and ends are zipped, so Roi of different `dims`
      give a union with the smaller `dims`. */
  function Union(k: Kind, a: Region, b: Region): (r: Region)
    requires WellFormed(k, a) && WellFormed(k, b)
    ensures WellFormed(k, r)
    ensures !Empty(a) && !Empty(b) ==> RegionDims(r) == Min(RegionDims(a), RegionDims(b))
    ensures Empty(a) ==> r == b
    ensures !Empty(a) && Empty(b) ==> r == a
  {
    if Empty(a) then b
    else if Empty(b) then a
    else Spanning(k, Make(k, Zip(LeftMin, a.offset, b.offset)), Make(k, Zip(RightMax, End(k, a), End(k, b))))
  }

  /** `shift(by)` and `roi + by`: only the offset moves. */
  function Shift(k: Kind, r: Region, amount: Operand): (s: Region)
    requires WellFormed(k, r) && Compatible(r.offset, amount)
    ensures WellFormed(k, s) && s.shape == r.shape
  {
    MakeRegion(k, Combine(k, Add, r.offset, amount), r.shape)
  }

  /** `roi - by`: a shift by `-by`. */
  function Minus(k: Kind, r: Region, amount: Operand): (s: Region)
    requires WellFormed(k, r) && Compatible(r.offset, amount)
    ensures WellFormed(k, s) && s.shape == r.shape
  {
    Shift(k, r, NegateOperand(k, amount))
  }

  /** `roi * y`, `roi / y`, `roi // y`, `roi % y`: offset and shape are
      scaled independently. */
  function Scale(k: Kind, op: Op, r: Region, y: Operand): (s: Region)
    requires op == Mul || op.Divides()
    requires WellFormed(k, r) && Compatible(r.shape, y)
    requires DivisorsNonZero(op, r.offset, y) && DivisorsNonZero(op, r.shape, y)
    ensures WellFormed(k, s) && RegionDims(s) == RegionDims(r)
  {
    MakeRegion(k, Combine(k, op, r.offset, y), Combine(k, op, r.shape, y))
  }

  /** `grow(amount_neg, amount_pos)`: the offset moves down by `amount_neg`
      and the shape grows by both amounts. */
  function Grow(k: Kind, r: Region, neg: Operand, pos: Operand): (s: Region)
    requires WellFormed(k, r) && Compatible(r.shape, neg) && Compatible(r.shape, pos)
    ensures WellFormed(k, s) && RegionDims(s) == RegionDims(r)
  {
    MakeRegion(k, Combine(k, Sub, r.offset, neg), Combine(k, Add, Combine(k, Add, r.shape, neg), pos))
  }

  /** The voxel size `snap_to_grid` accepts: its `dims` match and it holds
      no zero (the two assertions of the source). */
  predicate GridFor(r: Region, voxel: Coord) {
    |voxel| == |r.shape| && forall i :: 0 <= i < |voxel| ==> voxel[i] != Some(0.0)
  }

  /** `snap_to_grid(voxel_size, mode)`: begin and end are divided by the voxel
      size, rounded as the mode says, and multiplied back. */
  function SnapToGrid(k: Kind, r: Region, voxel: Coord, mode: string): (s: Result<Region>)
    requires WellFormed(k, r) && WellKinded(k, voxel) && GridFor(r, voxel)
    ensures s.Failure? <==> mode !in {"closest", "grow", "shrink"}
    ensures s.Failure? ==> s.error == RuntimeError
    ensures s.Success? ==> WellFormed(k, s.value) && RegionDims(s.value) == RegionDims(r)
  {
    var b, e := r.offset, End(k, r);
    if mode == "closest" then
      Success(SnapWith(k, voxel, RoundDivision(k, b, voxel), RoundDivision(k, e, voxel)))
    else if mode == "grow" then
      Success(SnapWith(k, voxel, FloorDivision(k, b, voxel), CeilDivision(k, e, voxel)))
    else if mode == "shrink" then
      Success(SnapWith(k, voxel, CeilDivision(k, b, voxel), FloorDivision(k, e, voxel)))
    else Failure(RuntimeError)
  }

  /** `Roi(begin_in_voxel * voxel_size, (end_in_voxel - begin_in_voxel) * voxel_size)`. */
  function SnapWith(k: Kind, voxel: Coord, bv: Coord, ev: Coord): (s: Region)
    requires |bv| == |ev| == |voxel|
    ensures WellFormed(k, s) && RegionDims(s) == |voxel|
  {
    MakeRegion(k, Combine(k, Mul, bv, Vec(voxel)), Combine(k, Mul, Combine(k, Sub, ev, Vec(bv)), Vec(voxel)))
  }

  /** `squeeze(dim)`: the Roi without axis `dim`. */
  function Squeeze(k: Kind, r: Region, dim: nat): (s: Region)
    requires WellFormed(k, r) && dim < RegionDims(r)
    ensures WellFormed(k, s) && RegionDims(s) == RegionDims(r) - 1
    ensures forall i :: 0 <= i < RegionDims(s) ==>
      var j := if i < dim then i else i + 1;
      s.offset[i] == r.offset[j] && s.shape[i] == r.shape[j]
  {
    var o, sh := DropAxis(r.offset, dim), DropAxis(r.shape, dim);
    assert WellFormed(k, Region(o, sh));
    MakeRegion(k, o, sh)
  }

  /** A Coordinate without its component `dim`. */
  function DropAxis(c: Coord, dim: nat): (d: Coord)
    requires dim < |c|
    ensures |d| == |c| - 1
    ensures forall i :: 0 <= i < |d| ==> d[i] == c[if i < dim then i else i + 1]
  {
    c[..dim] + c[dim + 1..]
  }

  /** A Python `slice(start, stop)` with integer or `None` bounds. */
  datatype Slice = Slice(start: Option<int>, stop: Option<int>)

  /** One axis of `to_slices`: the whole axis for an undefined shape,
      `slice(None, 0)` for a zero shape, otherwise
      `slice(int(offset), int(offset + shape))`; `int(None)` raises a
      TypeError. */
  function AxisSlice(o: Option<real>, s: Option<real>): (r: Result<Slice>)
    ensures r.Failure? <==> s.Some? && s.value != 0.0 && o.None?
    ensures r.Failure? ==> r.error == TypeError
    ensures s.None? ==> r == Success(Slice(None, None))
    ensures s == Some(0.0) ==> r == Success(Slice(None, Some(0)))
    ensures r.Success? && s.Some? && s.value != 0.0 ==>
      r.value == Slice(Some(Trunc(o.value)), Some(Trunc(o.value + s.value)))
  {
    if s.None? then Success(Slice(None, None))
    else if s.value == 0.0 then Success(Slice(None, Some(0)))
    else if o.None? then Failure(TypeError)
    else Success(Slice(Some(Trunc(o.value)), Some(Trunc(o.value + s.value))))
  }

  /** `to_slices`: one slice per axis, or the first TypeError. */
  function RegionSlices(r: Region): (s: Result<seq<Slice>>)
    requires |r.offset| == |r.shape|
    ensures s.Success? <==> forall i :: 0 <= i < |r.shape| ==> AxisSlice(r.offset[i], r.shape[i]).Success?
    ensures s.Success? ==> (|s.value| == |r.shape| &&
      forall i :: 0 <= i < |r.shape| ==> Success(s.value[i]) == AxisSlice(r.offset[i], r.shape[i]))
    ensures s.Failure? ==> s.error == TypeError
  {
    if forall i :: 0 <= i < |r.shape| ==> AxisSlice(r.offset[i], r.shape[i]).Success? then
      Success(seq(|r.shape|, i requires 0 <= i < |r.shape| => AxisSlice(r.offset[i], r.shape[i]).value))
    else Failure(TypeError)
  }

  /** A Roi object: the setters replace one Coordinate and re-run the
      consolidation of the offset. */
  class Roi {
    const kind: Kind
    var offset: Coord
    var shape: Coord

    ghost predicate Valid()
      reads this
    {
      WellFormed(kind, Region(offset, shape))
    }

    function Value(): Region
      reads this
    {
      Region(offset, shape)
    }

    /** `Roi(offset, shape)`. */
    constructor (k: Kind, o: Arg, s: Arg)
      requires |FromValue(k, o)| == |FromValue(k, s)|
      ensures Valid() && kind == k
      ensures Value() == MakeRegion(k, FromValue(k, o), FromValue(k, s))
    {
      kind := k;
      offset := FromValue(k, o);
      shape := FromValue(k, s);
      new;
      Consolidate();
    }

    /** `__consolidate_offset`. */
    method Consolidate()
      requires |offset| == |shape| && WellKinded(kind, offset) && WellKinded(kind, shape)
      modifies this
      ensures Valid() && shape == old(shape)
      ensures offset == ConsolidateOffset(kind, old(offset), shape)
    {
      offset := ConsolidateOffset(kind, offset, shape);
    }

    /** The `offset` setter: an axis whose shape is `None` keeps a `None`
      offset whatever value is given. */
    method SetOffset(x: Arg)
      requires Valid() && |FromValue(kind, x)| == |shape|
      modifies this
      ensures Valid() && shape == old(shape)
      ensures forall i :: 0 <= i < |shape| ==>
        offset[i] == if shape[i].None? then None else FromValue(kind, x)[i]
    {
      offset := FromValue(kind, x);
      Consolidate();
    }

    /** The `shape` setter: the old offset is kept where the new shape is
      defined and dropped where it is `None`. */
    method SetShape(x: Arg)
      requires Valid() && |FromValue(kind, x)| == |offset|
      modifies this
      ensures Valid() && shape == FromValue(kind, x)
      ensures forall i :: 0 <= i < |shape| ==>
        offset[i] == if shape[i].None? then None else old(offset)[i]
    {
      shape := FromValue(kind, x);
      Consolidate();
    }

    /** `size`: the product of the shape, accumulated axis by axis. */
    method Size() returns (n: Option<real>)
      requires Valid()
      ensures n == SizeOf(Value())
    {
      if None in shape {
        assert Unbounded(Value()) by {
          var j :| 0 <= j < |shape| && shape[j] == None;
        }
        return None;
      }
      assert AllDefined(shape);
      var size := 1.0;
      for d := 0 to |shape|
        invariant size == Product(shape[..d])
      {
        assert shape[..d + 1][..d] == shape[..d];
        size := size * shape[d].value;
      }
      assert shape[..|shape|] == shape;
      return Some(size);
    }

    /** `to_slices`: one slice per axis, appended in order. */
    method ToSlices() returns (r: Result<seq<Slice>>)
      requires Valid()
      ensures r == RegionSlices(Value())
    {
      var slices: seq<Slice> := [];
      for d := 0 to |shape|
        invariant |slices| == d
        invariant forall i :: 0 <= i < d ==> Success(slices[i]) == AxisSlice(offset[i], shape[i])
      {
        var s: Slice;
        if shape[d].None? {
          s := Slice(None, None);
        } else if shape[d].value == 0.0 {
          s := Slice(None, Some(0));
        } else if offset[d].None? {
          return Failure(TypeError);
        } else {
          s := Slice(Some(Trunc(offset[d].value)), Some(Trunc(offset[d].value + shape[d].value)));
        }
        slices := slices + [s];
      }
      assert RegionSlices(Value()).Success?;
      assert slices == RegionSlices(Value()).value;
      return Success(slices);
    }
  }
}
