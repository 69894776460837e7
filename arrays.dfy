/** `Array`: a Roi in world units discretised by a voxel size. Locations
    are mapped between world space and pixel space, and turned into indices
    or slices into the pixel grid. Components are exact reals (the
    `FloatCoordinate` arithmetic: `/` is true division). */
module Arrays {
  import opened Num
  import opened Coordinates
  import opened Rois
  import opened RoiProperties

  /** The three attributes `__init__` sets: the world Roi, the voxel size and
      the shape in voxels. */
  datatype Array = Array(roi: Region, voxelSize: Coord, shape: Coord)

  /** A world or pixel location: a Coordinate or a Roi. */
  datatype Location = Point(c: Coord) | Box(r: Region)

  /** What `to_slices` returns: one index per axis for a Coordinate, one
      slice per axis for a Roi. */
  datatype Selection = Indices(at: seq<Option<int>>) | Ranges(slices: seq<Slice>)

  /** A voxel size every axis of which is defined and nonzero. */
  predicate Grid(voxel: Coord) {
    forall i :: 0 <= i < |voxel| ==> voxel[i].Some? && voxel[i].value != 0.0
  }

  /** `roi.shape / voxel_size`: the shape in voxels. */
  function PixelShape(roi: Region, voxel: Coord): (s: Coord)
    requires Divisible(roi.shape, voxel)
    ensures |s| == |roi.shape|
    ensures forall i :: 0 <= i < |s| ==> (s[i].Some? <==> roi.shape[i].Some? && voxel[i].Some?)
    ensures forall i :: 0 <= i < |s| && s[i].Some? ==> s[i].value == roi.shape[i].value / voxel[i].value
  {
    Combine(Float, TrueDiv, roi.shape, Vec(voxel))
  }

  /** The check of `__init__`, axis by axis in order: `int(None)` raises a
      TypeError, and a component that `int` changes raises a ValueError. */
  function ShapeError(s: Coord): (e: Option<Error>)
    ensures e.None? <==> forall i :: 0 <= i < |s| ==> s[i].Some? && IsWhole(s[i].value)
    ensures e.Some? ==> e.value == TypeError || e.value == ValueError
    decreases |s|
  {
    if |s| == 0 then None
    else if s[0].None? then Some(TypeError)
    else if !IsWhole(s[0].value) then Some(ValueError)
    else
      var e := ShapeError(s[1..]);
      assert forall i :: 1 <= i < |s| ==> s[i] == s[1..][i - 1];
      e
  }

  /** The error `__init__` raises is the one of the first axis that fails. */
  lemma {:induction false} ShapeErrorFirst(s: Coord, j: nat)
    requires j < |s| && !(s[j].Some? && IsWhole(s[j].value))
    requires forall i :: 0 <= i < j ==> s[i].Some? && IsWhole(s[i].value)
    ensures ShapeError(s) == Some(if s[j].None? then TypeError else ValueError)
    decreases j
  {
    if j > 0 {
      assert forall i :: 0 <= i < j - 1 ==> s[1..][i] == s[i + 1];
      ShapeErrorFirst(s[1..], j - 1);
    }
  }

  /** The loop of `__init__`: each axis of the pixel shape must survive `int`
      unchanged. */
  method CheckShape(shape: Coord) returns (e: Option<Error>)
    ensures e == ShapeError(shape)
  {
    for d := 0 to |shape|
      invariant ShapeError(shape) == ShapeError(shape[d..])
    {
      assert shape[d..][1..] == shape[d + 1..];
      if shape[d].None? {
        return Some(TypeError);
      }
      if Trunc(shape[d].value) as real != shape[d].value {
        return Some(ValueError);
      }
    }
    return None;
  }

  /** The attributes of an Array that `__init__` accepted. */
  predicate Valid(a: Array) {
    WellFormed(Float, a.roi) && Divisible(a.roi.shape, a.voxelSize) &&
    AllDefined(a.roi.shape) && Grid(a.voxelSize) &&
    a.shape == PixelShape(a.roi, a.voxelSize) && ShapeError(a.shape).None?
  }

  /** `Array(world_roi, voxel_size)`: the shape in voxels, or the exception
      of the first axis that is undefined or not a whole number of voxels. */
  function Construct(roi: Region, voxel: Coord): (r: Result<Array>)
    requires WellFormed(Float, roi) && Divisible(roi.shape, voxel)
    ensures r.Success? <==> forall i :: 0 <= i < |roi.shape| ==>
      roi.shape[i].Some? && voxel[i].Some? && IsWhole(roi.shape[i].value / voxel[i].value)
    ensures r.Failure? ==> Some(r.error) == ShapeError(PixelShape(roi, voxel))
    ensures r.Success? ==> Valid(r.value) && r.value.roi == roi && r.value.voxelSize == voxel
  {
    var s := PixelShape(roi, voxel);
    match ShapeError(s)
    case Some(e) => Failure(e)
    case None => Success(Array(roi, voxel, s))
  }

  /** `__init__`. */
  method Create(roi: Region, voxel: Coord) returns (r: Result<Array>)
    requires WellFormed(Float, roi) && Divisible(roi.shape, voxel)
    ensures r == Construct(roi, voxel)
  {
    var shape := PixelShape(roi, voxel);
    var e := CheckShape(shape);
    if e.Some? {
      return Failure(e.value);
    }
    return Success(Array(roi, voxel, shape));
  }

  /** `from_world(world_offset, world_shape, voxel_size)`: the Roi is built
      (and consolidated) first. */
  function FromWorld(offset: Coord, shape: Coord, voxel: Coord): (r: Result<Array>)
    requires |offset| == |shape| && Divisible(shape, voxel)
    ensures r.Success? <==> forall i :: 0 <= i < |shape| ==>
      shape[i].Some? && voxel[i].Some? && IsWhole(shape[i].value / voxel[i].value)
    ensures r.Success? ==> r.value.roi == Region(offset, shape) && r.value.voxelSize == voxel
  {
    assert AllDefined(shape) ==> Consolidated(Region(offset, shape));
    Construct(MakeRegion(Float, offset, shape), voxel)
  }

  /** The world offset `from_pixels` chooses: the given one, else the pixel
      offset times the voxel size, else zero on every axis. */
  function WorldOffset(voxel: Coord, worldOffset: Option<Coord>, pixelOffset: Option<Coord>): (o: Coord)
    requires worldOffset.Some? ==> |worldOffset.value| == |voxel|
    requires worldOffset.None? && pixelOffset.Some? ==> |pixelOffset.value| == |voxel|
    ensures |o| == |voxel|
    ensures worldOffset.Some? ==> o == worldOffset.value
    ensures worldOffset.None? && pixelOffset.Some? ==> forall i :: 0 <= i < |o| ==>
      (o[i].Some? <==> pixelOffset.value[i].Some? && voxel[i].Some?) &&
      (o[i].Some? ==> o[i].value == pixelOffset.value[i].value * voxel[i].value)
    ensures worldOffset.None? && pixelOffset.None? ==> forall i :: 0 <= i < |o| ==> o[i] == Some(0.0)
  {
    if worldOffset.Some? then worldOffset.value
    else if pixelOffset.Some? then Combine(Float, Mul, pixelOffset.value, Vec(voxel))
    else seq(|voxel|, i => Some(0.0))
  }

  /** No axis of the voxel size is zero. */
  predicate NoZero(voxel: Coord) {
    forall i :: 0 <= i < |voxel| ==> voxel[i] != Some(0.0)
  }

  /** `from_pixels(pixel_shape, voxel_size, world_offset, pixel_offset)`:
      the world shape is `pixel_shape * voxel_size`. */
  function FromPixels(pixelShape: Coord, voxel: Coord, worldOffset: Option<Coord>, pixelOffset: Option<Coord>): (r: Result<Array>)
    requires |pixelShape| == |voxel| && NoZero(voxel)
    requires worldOffset.Some? ==> |worldOffset.value| == |voxel|
    requires worldOffset.None? && pixelOffset.Some? ==> |pixelOffset.value| == |voxel|
  {
    var shape := Combine(Float, Mul, pixelShape, Vec(voxel));
    Construct(MakeRegion(Float, WorldOffset(voxel, worldOffset, pixelOffset), shape), voxel)
  }

  /** `from_pixels` succeeds exactly when the voxel size is defined and the
      pixel shape is defined and whole, and then the Array's shape is the
      pixel shape it was given. */
  lemma {:induction false} FromPixelsShape(pixelShape: Coord, voxel: Coord, worldOffset: Option<Coord>, pixelOffset: Option<Coord>)
    requires |pixelShape| == |voxel| && NoZero(voxel)
    requires worldOffset.Some? ==> |worldOffset.value| == |voxel|
    requires worldOffset.None? && pixelOffset.Some? ==> |pixelOffset.value| == |voxel|
    ensures FromPixels(pixelShape, voxel, worldOffset, pixelOffset).Success? <==>
      AllDefined(voxel) && ShapeError(pixelShape).None?
    ensures FromPixels(pixelShape, voxel, worldOffset, pixelOffset).Success? ==>
      FromPixels(pixelShape, voxel, worldOffset, pixelOffset).value.shape == pixelShape
  {
    var shape := Combine(Float, Mul, pixelShape, Vec(voxel));
    var roi := MakeRegion(Float, WorldOffset(voxel, worldOffset, pixelOffset), shape);
    PixelShapeOfProduct(pixelShape, voxel, roi);
    ConstructOfProduct(pixelShape, voxel, roi);
  }

  /** `__init__` on a Roi whose pixel shape is `pixel_shape` wherever the
      voxel size is defined. */
  lemma {:induction false} ConstructOfProduct(pixelShape: Coord, voxel: Coord, roi: Region)
    requires |pixelShape| == |voxel| && WellFormed(Float, roi) && Divisible(roi.shape, voxel)
    requires forall i :: 0 <= i < |voxel| ==>
      PixelShape(roi, voxel)[i] == if voxel[i].Some? then pixelShape[i] else None
    ensures Construct(roi, voxel).Success? <==> AllDefined(voxel) && ShapeError(pixelShape).None?
    ensures Construct(roi, voxel).Success? ==> Construct(roi, voxel).value.shape == pixelShape
  {
    var ps := PixelShape(roi, voxel);
    if AllDefined(voxel) && ShapeError(pixelShape).None? {
      assert ps == pixelShape;
    } else if !AllDefined(voxel) {
      var j :| 0 <= j < |voxel| && voxel[j].None?;
      assert ps[j].None?;
    } else {
      var j :| 0 <= j < |pixelShape| && !(pixelShape[j].Some? && IsWhole(pixelShape[j].value));
      assert ps[j] == pixelShape[j];
    }
  }

  /** The pixel shape of a Roi whose shape is `pixel_shape * voxel_size` is
      `pixel_shape` wherever the voxel size is defined. */
  lemma {:induction false} PixelShapeOfProduct(pixelShape: Coord, voxel: Coord, roi: Region)
    requires |pixelShape| == |voxel| && NoZero(voxel)
    requires roi.shape == Combine(Float, Mul, pixelShape, Vec(voxel))
    ensures Divisible(roi.shape, voxel)
    ensures forall i :: 0 <= i < |voxel| ==>
      PixelShape(roi, voxel)[i] == if voxel[i].Some? then pixelShape[i] else None
  {
    var ps := PixelShape(roi, voxel);
    forall i | 0 <= i < |voxel| ensures ps[i] == if voxel[i].Some? then pixelShape[i] else None {
      if voxel[i].Some? && pixelShape[i].Some? {
        MulDivCancel(Float, pixelShape, voxel, roi.shape, ps, i, pixelShape[i].value, voxel[i].value);
      }
    }
  }

  /** One world component in pixel units: `(w - offset) / voxel_size`. */
  function PixelOf(w: real, o: real, v: real): real
    requires v != 0.0
  {
    (w - o) / v
  }

  /** One pixel component in world units: `p * voxel_size + offset`. */
  function WorldOf(p: real, o: real, v: real): real {
    p * v + o
  }

  /** The two component maps are inverse to each other. */
  lemma PixelWorldInverse(x: real, o: real, v: real)
    requires v != 0.0
    ensures WorldOf(PixelOf(x, o, v), o, v) == x
    ensures PixelOf(WorldOf(x, o, v), o, v) == x
  {
    MulDivExact(x, v, x * v);
  }

  /** The number of dimensions of a location. */
  function LocationDims(loc: Location): nat {
    match loc
    case Point(c) => |c|
    case Box(r) => RegionDims(r)
  }

  /** A Roi location is a Roi of the real variant: consolidated. */
  predicate Admissible(loc: Location) {
    loc.Box? ==> WellFormed(Float, loc.r)
  }

  /** `self.roi.contains(world_loc)`. */
  predicate Contains(a: Array, loc: Location)
    requires Valid(a) && Admissible(loc)
  {
    match loc
    case Point(c) => ContainsPoint(Float, a.roi, c)
    case Box(r) => ContainsRegion(Float, a.roi, r)
  }

  /** `(world_loc - self.roi.offset) / self.voxel_size` on a Coordinate. */
  function PixelPoint(a: Array, w: Coord): (q: Coord)
    requires Valid(a) && |w| == RegionDims(a.roi)
    ensures |q| == |w|
    ensures forall i :: 0 <= i < |w| ==> (q[i].Some? <==> w[i].Some? && a.roi.offset[i].Some?)
  {
    Combine(Float, TrueDiv, Combine(Float, Sub, w, Vec(a.roi.offset)), Vec(a.voxelSize))
  }

  /** `(world_loc - self.roi.offset) / self.voxel_size` on a Roi: a shift by
      the negated offset, then both Coordinates divided. */
  function PixelBox(a: Array, b: Region): (p: Region)
    requires Valid(a) && WellFormed(Float, b) && RegionDims(b) == RegionDims(a.roi)
    ensures WellFormed(Float, p) && RegionDims(p) == RegionDims(b)
  {
    Scale(Float, TrueDiv, Minus(Float, b, Vec(a.roi.offset)), Vec(a.voxelSize))
  }

  /** `pixel_loc * self.voxel_size + self.roi.offset` on a Coordinate. */
  function WorldPoint(a: Array, q: Coord): (w: Coord)
    requires Valid(a) && |q| == RegionDims(a.roi)
    ensures |w| == |q|
    ensures forall i :: 0 <= i < |q| ==> (w[i].Some? <==> q[i].Some? && a.roi.offset[i].Some?)
  {
    Combine(Float, Add, Combine(Float, Mul, q, Vec(a.voxelSize)), Vec(a.roi.offset))
  }

  /** `pixel_loc * self.voxel_size + self.roi.offset` on a Roi: both
      Coordinates multiplied, then a shift by the offset. */
  function WorldBox(a: Array, p: Region): (b: Region)
    requires Valid(a) && WellFormed(Float, p) && RegionDims(p) == RegionDims(a.roi)
    ensures WellFormed(Float, b) && RegionDims(b) == RegionDims(p)
  {
    Shift(Float, Scale(Float, Mul, p, Vec(a.voxelSize)), Vec(a.roi.offset))
  }

  /** `to_pixel_space(world_loc)`: a ValueError for a location the world Roi
      does not contain; the subtraction asserts equal `dims`. */
  function ToPixelSpace(a: Array, loc: Location): (p: Result<Location>)
    requires Valid(a) && Admissible(loc)
    ensures p.Failure? <==> !Contains(a, loc) || LocationDims(loc) != RegionDims(a.roi)
    ensures p.Failure? ==> p.error == if Contains(a, loc) then AssertionError else ValueError
    ensures p.Success? ==>
      p.value.Point? == loc.Point? && Admissible(p.value) && LocationDims(p.value) == LocationDims(loc)
  {
    if !Contains(a, loc) then Failure(ValueError)
    else if LocationDims(loc) != RegionDims(a.roi) then Failure(AssertionError)
    else match loc
      case Point(w) => Success(Point(PixelPoint(a, w)))
      case Box(b) => Success(Box(PixelBox(a, b)))
  }

  /** `to_world_space(pixel_loc)`: no containment check; the arithmetic
      asserts equal `dims`. */
  function ToWorldSpace(a: Array, loc: Location): (w: Result<Location>)
    requires Valid(a) && Admissible(loc)
    ensures w.Failure? <==> LocationDims(loc) != RegionDims(a.roi)
    ensures w.Failure? ==> w.error == AssertionError
    ensures w.Success? ==>
      w.value.Point? == loc.Point? && Admissible(w.value) && LocationDims(w.value) == LocationDims(loc)
  {
    if LocationDims(loc) != RegionDims(a.roi) then Failure(AssertionError)
    else match loc
      case Point(q) => Success(Point(WorldPoint(a, q)))
      case Box(p) => Success(Box(WorldBox(a, p)))
  }

  /** One axis of `to_pixel_space` on a Coordinate. */
  lemma PixelPointAt(a: Array, w: Coord, i: nat)
    requires Valid(a) && |w| == RegionDims(a.roi) && i < |w|
    requires w[i].Some? && a.roi.offset[i].Some?
    ensures PixelPoint(a, w)[i] == Some(PixelOf(w[i].value, a.roi.offset[i].value, a.voxelSize[i].value))
  {
    var x, o, v := w[i].value, a.roi.offset[i].value, a.voxelSize[i].value;
    var d := Combine(Float, Sub, w, Vec(a.roi.offset));
    CombineAt(Float, Sub, w, Vec(a.roi.offset), i, x - o);
    CombineAt(Float, TrueDiv, d, Vec(a.voxelSize), i, PixelOf(x, o, v));
  }

  /** One axis of `to_world_space` on a Coordinate. */
  lemma WorldPointAt(a: Array, q: Coord, i: nat)
    requires Valid(a) && |q| == RegionDims(a.roi) && i < |q|
    requires q[i].Some? && a.roi.offset[i].Some?
    ensures WorldPoint(a, q)[i] == Some(WorldOf(q[i].value, a.roi.offset[i].value, a.voxelSize[i].value))
  {
    var x, o, v := q[i].value, a.roi.offset[i].value, a.voxelSize[i].value;
    var m := Combine(Float, Mul, q, Vec(a.voxelSize));
    CombineAt(Float, Mul, q, Vec(a.voxelSize), i, x * v);
    CombineAt(Float, Add, m, Vec(a.roi.offset), i, WorldOf(x, o, v));
  }

  /** A world Coordinate the Array contains, mapped to pixel space and back,
      is itself again (the Array's offset being defined). */
  lemma {:induction false} WorldPixelPoint(a: Array, w: Coord)
    requires Valid(a) && AllDefined(a.roi.offset)
    requires ToPixelSpace(a, Point(w)).Success?
    ensures ToWorldSpace(a, ToPixelSpace(a, Point(w)).value) == Success(Point(w))
  {
    var q := PixelPoint(a, w);
    assert ToPixelSpace(a, Point(w)).value == Point(q);
    var back := WorldPoint(a, q);
    forall i | 0 <= i < |w| ensures back[i] == w[i] {
      assert AxisContains(w[i], a.roi.offset[i], End(Float, a.roi)[i]);
      var x, o, v := w[i].value, a.roi.offset[i].value, a.voxelSize[i].value;
      PixelPointAt(a, w, i);
      WorldPointAt(a, q, i);
      PixelWorldInverse(x, o, v);
    }
    assert back == w;
  }

  /** A defined pixel Coordinate whose world image the Array contains, mapped
      to world space and back, is itself again. */
  lemma {:induction false} PixelWorldPoint(a: Array, q: Coord)
    requires Valid(a) && AllDefined(a.roi.offset) && AllDefined(q) && |q| == RegionDims(a.roi)
    requires Contains(a, Point(WorldPoint(a, q)))
    ensures ToWorldSpace(a, Point(q)) == Success(Point(WorldPoint(a, q)))
    ensures ToPixelSpace(a, Point(WorldPoint(a, q))) == Success(Point(q))
  {
    var w := WorldPoint(a, q);
    var back := PixelPoint(a, w);
    forall i | 0 <= i < |q| ensures back[i] == q[i] {
      var x, o, v := q[i].value, a.roi.offset[i].value, a.voxelSize[i].value;
      WorldPointAt(a, q, i);
      PixelPointAt(a, w, i);
      PixelWorldInverse(x, o, v);
    }
    assert back == q;
  }

  /** Where the shifted world component of a contained point lies: a
      positive voxel size maps `[offset, offset + length)` onto
      `[0, length / voxel_size)`. */
  lemma PixelBounds(x: real, o: real, v: real, len: real)
    requires v > 0.0 && o <= x < o + len
    ensures 0.0 <= PixelOf(x, o, v) < len / v
  {
    var q, l := PixelOf(x, o, v), len / v;
    assert q * v == x - o && l * v == len;
    if q < 0.0 {
      MulLeftStrict(v, q, 0.0);
    }
    if l <= q {
      MulLeftMono(v, l, q);
    }
  }

  /** A world length in pixels, exactly: `(l / v) * v == l`. */
  lemma DivMulExact(x: real, y: real, q: real)
    requires y != 0.0 && q == x / y
    ensures q * y == x
  {
  }

  /** `(roi / v) * v == roi` for a fully defined, nonzero `v` (exact reals). */
  lemma {:induction false} ScaleInverse(r: Region, v: Coord)
    requires WellFormed(Float, r) && |v| == RegionDims(r) && Grid(v)
    ensures Scale(Float, Mul, Scale(Float, TrueDiv, r, Vec(v)), Vec(v)) == r
  {
    var o, s := Combine(Float, TrueDiv, r.offset, Vec(v)), Combine(Float, TrueDiv, r.shape, Vec(v));
    assert WellFormed(Float, Region(o, s));
    assert Scale(Float, TrueDiv, r, Vec(v)) == Region(o, s);
    var o2, s2 := Combine(Float, Mul, o, Vec(v)), Combine(Float, Mul, s, Vec(v));
    forall i | 0 <= i < |v| ensures o2[i] == r.offset[i] && s2[i] == r.shape[i] {
      if r.offset[i].Some? {
        DivMulAt(r.offset, v, i, r.offset[i].value, v[i].value);
      }
      if r.shape[i].Some? {
        DivMulAt(r.shape, v, i, r.shape[i].value, v[i].value);
      }
    }
    assert o2 == r.offset && s2 == r.shape;
  }

  /** `(a / v) * v` on one axis where both are defined. */
  lemma DivMulAt(a: Coord, v: Coord, i: nat, x: real, y: real)
    requires |a| == |v| && Grid(v) && i < |a| && a[i] == Some(x) && v[i] == Some(y)
    ensures Combine(Float, Mul, Combine(Float, TrueDiv, a, Vec(v)), Vec(v))[i] == Some(x)
  {
    var q := Combine(Float, TrueDiv, a, Vec(v));
    CombineAt(Float, TrueDiv, a, Vec(v), i, x / y);
    DivMulExact(x, y, x / y);
    CombineAt(Float, Mul, q, Vec(v), i, x);
  }

  /** `(roi - c) + c == roi` for a fully defined shift `c` (exact reals). */
  lemma {:induction false} ShiftInverse(r: Region, c: Coord)
    requires WellFormed(Float, r) && AllDefined(c) && |c| == RegionDims(r)
    ensures Shift(Float, Minus(Float, r, Vec(c)), Vec(c)) == r
  {
    var n := Negate(Float, c);
    NegateInvolution(Float, c);
    ShiftRoundTrip(Float, r, n);
    assert Minus(Float, r, Vec(c)) == Shift(Float, r, Vec(n));
    assert Minus(Float, Shift(Float, r, Vec(n)), Vec(n)) == Shift(Float, Shift(Float, r, Vec(n)), Vec(c));
  }

  /** A world Roi the Array contains, mapped to pixel space and back, is
      itself again (the Array's offset being defined). */
  lemma {:induction false} WorldPixelBox(a: Array, b: Region)
    requires Valid(a) && AllDefined(a.roi.offset) && WellFormed(Float, b)
    requires ToPixelSpace(a, Box(b)).Success?
    ensures ToWorldSpace(a, ToPixelSpace(a, Box(b)).value) == Success(Box(b))
  {
    var m := Minus(Float, b, Vec(a.roi.offset));
    ScaleInverse(m, a.voxelSize);
    ShiftInverse(b, a.roi.offset);
    assert ToPixelSpace(a, Box(b)).value == Box(PixelBox(a, b));
  }

  /** A pixel Roi whose world image the Array contains, mapped to world
      space and back, is itself again. */
  lemma {:induction false} PixelWorldBox(a: Array, p: Region)
    requires Valid(a) && AllDefined(a.roi.offset) && WellFormed(Float, p) && RegionDims(p) == RegionDims(a.roi)
    requires Contains(a, Box(WorldBox(a, p)))
    ensures ToWorldSpace(a, Box(p)) == Success(Box(WorldBox(a, p)))
    ensures ToPixelSpace(a, Box(WorldBox(a, p))) == Success(Box(p))
  {
    var m := Scale(Float, Mul, p, Vec(a.voxelSize));
    ShiftRoundTrip(Float, m, a.roi.offset);
    ScaleRoundTrip(Float, p, a.voxelSize);
  }

  /** One axis of `to_slices` on a pixel Roi: the offset must survive `int`
      (`int(None)` raises a TypeError); an undefined shape selects the whole
      axis, a zero shape nothing, and any other shape must be whole. */
  function PixelSlice(o: Option<real>, s: Option<real>): (r: Result<Slice>)
    ensures r.Failure? <==> o.None? || !IsWhole(o.value) || (s.Some? && s.value != 0.0 && !IsWhole(s.value))
    ensures r.Failure? ==> r.error == if o.None? then TypeError else ValueError
    ensures r.Success? && s.None? ==> r.value == Slice(None, None)
    ensures r.Success? && s == Some(0.0) ==> r.value == Slice(None, Some(0))
    ensures r.Success? && s.Some? && s.value != 0.0 ==>
      r.value.start.Some? && r.value.stop.Some? && r.value.start.value as real == o.value &&
      (r.value.stop.value - r.value.start.value) as real == s.value
  {
    if o.None? then Failure(TypeError)
    else if !IsWhole(o.value) then Failure(ValueError)
    else if s.None? then Success(Slice(None, None))
    else if s.value == 0.0 then Success(Slice(None, Some(0)))
    else if !IsWhole(s.value) then Failure(ValueError)
    else Success(Slice(Some(Trunc(o.value)), Some(Trunc(o.value) + Trunc(s.value))))
  }

  /** `to_slices` on a pixel Roi, axis by axis in order: the slices, or the
      exception of the first axis that cannot be converted. */
  function BoxSlices(o: Coord, s: Coord): (r: Result<seq<Slice>>)
    requires |o| == |s|
    ensures r.Success? <==> forall i :: 0 <= i < |o| ==> PixelSlice(o[i], s[i]).Success?
    ensures r.Success? ==>
      |r.value| == |o| && forall i :: 0 <= i < |o| ==> PixelSlice(o[i], s[i]) == Success(r.value[i])
    decreases |o|
  {
    if |o| == 0 then Success([])
    else
      var rest := BoxSlices(o[1..], s[1..]);
      assert forall i :: 1 <= i < |o| ==> o[i] == o[1..][i - 1] && s[i] == s[1..][i - 1];
      match PixelSlice(o[0], s[0])
      case Failure(e) => Failure(e)
      case Success(h) => if rest.Failure? then rest else Success([h] + rest.value)
  }

  /** The exception `to_slices` raises on a pixel Roi is the one of the
      first axis that cannot be converted. */
  lemma {:induction false} BoxSlicesFirstError(o: Coord, s: Coord, j: nat)
    requires |o| == |s| && j < |o| && PixelSlice(o[j], s[j]).Failure?
    requires forall i :: 0 <= i < j ==> PixelSlice(o[i], s[i]).Success?
    ensures BoxSlices(o, s) == Failure(PixelSlice(o[j], s[j]).error)
    decreases j
  {
    if j > 0 {
      assert forall i :: 0 <= i < j - 1 ==> o[1..][i] == o[i + 1] && s[1..][i] == s[i + 1];
      BoxSlicesFirstError(o[1..], s[1..], j - 1);
    }
  }

  /** `int` of one pixel component, `None` staying `None`. */
  function PixelIndex(x: Option<real>): Option<int> {
    if x.None? then None else Some(Trunc(x.value))
  }

  /** `to_slices(world_loc)`: the location is mapped to pixel space (with its
      errors), then a Coordinate gives one index per axis and a Roi one slice
      per axis. */
  function SlicesOf(a: Array, loc: Location): (r: Result<Selection>)
    requires Valid(a) && Admissible(loc)
    ensures ToPixelSpace(a, loc).Failure? ==> r == Failure(ToPixelSpace(a, loc).error)
    ensures loc.Point? ==> (r.Success? <==> ToPixelSpace(a, loc).Success?)
    ensures loc.Point? && r.Success? ==>
      r.value.Indices? && |r.value.at| == |loc.c| && forall i :: 0 <= i < |loc.c| ==> (r.value.at[i].None? <==> loc.c[i].None? || a.roi.offset[i].None?)
    ensures loc.Box? && r.Success? ==> r.value.Ranges? && |r.value.slices| == RegionDims(loc.r)
  {
    match ToPixelSpace(a, loc)
    case Failure(e) => Failure(e)
    case Success(Point(q)) => Success(Indices(seq(|q|, i requires 0 <= i < |q| => PixelIndex(q[i]))))
    case Success(Box(p)) =>
      match BoxSlices(p.offset, p.shape)
      case Failure(e) => Failure(e)
      case Success(sl) => Success(Ranges(sl))
  }

  /** The loop of `to_slices` over a pixel Coordinate: `int` of each
      component, `None` staying `None`. */
  method PointIndices(q: Coord) returns (at: seq<Option<int>>)
    ensures |at| == |q|
    ensures forall i :: 0 <= i < |q| ==> at[i] == PixelIndex(q[i])
  {
    at := [];
    for d := 0 to |q|
      invariant |at| == d && forall i :: 0 <= i < d ==> at[i] == PixelIndex(q[i])
    {
      var s: Option<int>;
      if q[d].None? {
        s := None;
      } else {
        s := Some(Trunc(q[d].value));
      }
      at := at + [s];
    }
  }

  /** The slices of the axes already done, in front of the outcome of the
      remaining ones. */
  function AfterPrefix(done: seq<Slice>, rest: Result<seq<Slice>>): Result<seq<Slice>> {
    if rest.Failure? then rest else Success(done + rest.value)
  }

  /** Unfolding `BoxSlices` at axis `d` of its arguments. */
  lemma BoxSlicesStep(o: Coord, s: Coord, d: nat)
    requires |o| == |s| && d < |o|
    ensures BoxSlices(o[d..], s[d..]) ==
      if PixelSlice(o[d], s[d]).Failure? then Failure(PixelSlice(o[d], s[d]).error)
      else AfterPrefix([PixelSlice(o[d], s[d]).value], BoxSlices(o[d + 1..], s[d + 1..]))
  {
    assert o[d..][1..] == o[d + 1..] && s[d..][1..] == s[d + 1..];
    assert o[d..][0] == o[d] && s[d..][0] == s[d];
  }

  /** The body of the loop of `to_slices` over a pixel Roi: one axis. */
  method AxisRange(offset: Option<real>, shape: Option<real>) returns (r: Result<Slice>)
    ensures r == PixelSlice(offset, shape)
  {
    if offset.None? {
      return Failure(TypeError);
    }
    var intOffset := Trunc(offset.value);
    if intOffset as real != offset.value {
      return Failure(ValueError);
    }
    if shape.None? {
      return Success(Slice(None, None));
    } else if shape.value == 0.0 {
      return Success(Slice(None, Some(0)));
    }
    var intShape := Trunc(shape.value);
    if intShape as real != shape.value {
      return Failure(ValueError);
    }
    return Success(Slice(Some(intOffset), Some(intOffset + intShape)));
  }

  /** The loop of `to_slices` over a pixel Roi. */
  method BoxRanges(p: Region) returns (r: Result<seq<Slice>>)
    requires |p.offset| == |p.shape|
    ensures r == BoxSlices(p.offset, p.shape)
  {
    var slices: seq<Slice> := [];
    AfterPrefixStart(p.offset, p.shape);
    for d := 0 to |p.shape|
      invariant |slices| == d
      invariant BoxSlices(p.offset, p.shape) == AfterPrefix(slices, BoxSlices(p.offset[d..], p.shape[d..]))
    {
      BoxSlicesStep(p.offset, p.shape, d);
      var s := AxisRange(p.offset[d], p.shape[d]);
      if s.Failure? {
        return Failure(s.error);
      }
      AfterPrefixAppend(slices, s.value, BoxSlices(p.offset[d + 1..], p.shape[d + 1..]));
      slices := slices + [s.value];
    }
    AfterPrefixEnd(p.offset, p.shape, slices);
    return Success(slices);
  }

  lemma AfterPrefixStart(o: Coord, s: Coord)
    requires |o| == |s|
    ensures BoxSlices(o, s) == AfterPrefix([], BoxSlices(o[0..], s[0..]))
  {
    assert o[0..] == o && s[0..] == s;
    if BoxSlices(o, s).Success? {
      assert [] + BoxSlices(o, s).value == BoxSlices(o, s).value;
    }
  }

  lemma AfterPrefixAppend(done: seq<Slice>, x: Slice, rest: Result<seq<Slice>>)
    ensures AfterPrefix(done, AfterPrefix([x], rest)) == AfterPrefix(done + [x], rest)
  {
    if rest.Success? {
      assert done + ([x] + rest.value) == (done + [x]) + rest.value;
    }
  }

  lemma AfterPrefixEnd(o: Coord, s: Coord, done: seq<Slice>)
    requires |o| == |s|
    ensures AfterPrefix(done, BoxSlices(o[|o|..], s[|o|..])) == Success(done)
  {
    assert o[|o|..] == [] && s[|o|..] == [];
    assert done + [] == done;
  }

  /** `to_slices(world_loc)`. */
  method ToSlices(a: Array, loc: Location) returns (r: Result<Selection>)
    requires Valid(a) && Admissible(loc)
    ensures r == SlicesOf(a, loc)
  {
    var pixel := ToPixelSpace(a, loc);
    if pixel.Failure? {
      return Failure(pixel.error);
    }
    match pixel.value
    case Point(q) =>
      var at := PointIndices(q);
      assert at == seq(|q|, i requires 0 <= i < |q| => PixelIndex(q[i]));
      return Success(Indices(at));
    case Box(p) =>
      var slices := BoxRanges(p);
      if slices.Failure? {
        return Failure(slices.error);
      }
      return Success(Ranges(slices.value));
  }

  /** One defined axis of `to_pixel_space` on a Roi: the offset maps like a
      point and the shape like a displacement from zero. */
  lemma PixelBoxAt(a: Array, b: Region, i: nat)
    requires Valid(a) && WellFormed(Float, b) && RegionDims(b) == RegionDims(a.roi) && i < RegionDims(b)
    requires b.offset[i].Some? && b.shape[i].Some? && a.roi.offset[i].Some?
    ensures PixelBox(a, b).offset[i] == Some(PixelOf(b.offset[i].value, a.roi.offset[i].value, a.voxelSize[i].value))
    ensures PixelBox(a, b).shape[i] == Some(PixelOf(b.shape[i].value, 0.0, a.voxelSize[i].value))
  {
    var x, len, o, v := b.offset[i].value, b.shape[i].value, a.roi.offset[i].value, a.voxelSize[i].value;
    var n := Negate(Float, a.roi.offset);
    var moved := Combine(Float, Add, b.offset, Vec(n));
    CombineAt(Float, Add, b.offset, Vec(n), i, x - o);
    var m := Minus(Float, b, Vec(a.roi.offset));
    assert m == MakeRegion(Float, moved, b.shape);
    MakeRegionAt(Float, moved, b.shape, i);
    var po, ps := Combine(Float, TrueDiv, m.offset, Vec(a.voxelSize)), Combine(Float, TrueDiv, m.shape, Vec(a.voxelSize));
    CombineAt(Float, TrueDiv, m.offset, Vec(a.voxelSize), i, PixelOf(x, o, v));
    CombineAt(Float, TrueDiv, m.shape, Vec(a.voxelSize), i, PixelOf(len, 0.0, v));
    MakeRegionAt(Float, po, ps, i);
  }

  /** `int` of a contained point's pixel component, for a positive voxel
      size: the pixel containing the location, and an index inside the
      Array's shape. */
  lemma {:induction false} PointIndexInRange(a: Array, w: Coord, i: nat)
    requires Valid(a) && ToPixelSpace(a, Point(w)).Success? && i < |w|
    requires a.roi.offset[i].Some? && a.voxelSize[i].value > 0.0
    ensures SlicesOf(a, Point(w)).Success?
    ensures var n := SlicesOf(a, Point(w)).value.at[i];
      n.Some? && 0 <= n.value && n.value as real < a.shape[i].value &&
      n.value as real <= PixelOf(w[i].value, a.roi.offset[i].value, a.voxelSize[i].value) < n.value as real + 1.0
  {
    var o, len, v := a.roi.offset[i].value, a.roi.shape[i].value, a.voxelSize[i].value;
    PairAt(Float, Add, a.roi.offset, a.roi.shape, i, o, len, o + len);
    assert AxisContains(w[i], a.roi.offset[i], End(Float, a.roi)[i]);
    var x := w[i].value;
    PixelBounds(x, o, v, len);
    PixelPointAt(a, w, i);
    assert a.shape[i].value == len / v;
  }

  /** `to_slices` never produces the whole-axis slice `slice(None, None)`:
      a consolidated Roi has no offset where its shape is undefined, and
      `int(None)` raises first. */
  lemma {:induction false} NoWholeAxisSlice(a: Array, b: Region)
    requires Valid(a) && WellFormed(Float, b)
    requires SlicesOf(a, Box(b)).Success?
    ensures forall i :: 0 <= i < RegionDims(b) ==> SlicesOf(a, Box(b)).value.slices[i].stop.Some?
  {
    var p := PixelBox(a, b);
    assert ToPixelSpace(a, Box(b)) == Success(Box(p));
    var sl := BoxSlices(p.offset, p.shape).value;
    forall i | 0 <= i < RegionDims(b) ensures sl[i].stop.Some? {
      assert PixelSlice(p.offset[i], p.shape[i]) == Success(sl[i]);
    }
  }

  /** `to_slices` of the Array's own Roi (when it contains itself) selects
      every voxel: `slice(0, n)` on an axis of `n > 0` voxels and
      `slice(None, 0)` on an empty one. */
  lemma {:induction false} OwnRoiSlices(a: Array)
    requires Valid(a) && AllDefined(a.roi.offset) && Contains(a, Box(a.roi))
    ensures SlicesOf(a, Box(a.roi)).Success?
    ensures forall i :: 0 <= i < RegionDims(a.roi) ==>
      SlicesOf(a, Box(a.roi)).value.slices[i] ==
        if a.shape[i].value == 0.0 then Slice(None, Some(0)) else Slice(Some(0), Some(Trunc(a.shape[i].value)))
  {
    var p := PixelBox(a, a.roi);
    assert ToPixelSpace(a, Box(a.roi)) == Success(Box(p));
    forall i | 0 <= i < RegionDims(a.roi)
      ensures PixelSlice(p.offset[i], p.shape[i]) ==
        Success(if a.shape[i].value == 0.0 then Slice(None, Some(0)) else Slice(Some(0), Some(Trunc(a.shape[i].value))))
    {
      OwnAxisSlice(a, i);
    }
  }

  /** On one axis the Array's own Roi starts at pixel 0 and spans the
      Array's shape. */
  lemma OwnAxisSlice(a: Array, i: nat)
    requires Valid(a) && AllDefined(a.roi.offset) && i < RegionDims(a.roi)
    ensures PixelSlice(PixelBox(a, a.roi).offset[i], PixelBox(a, a.roi).shape[i]) ==
      Success(if a.shape[i].value == 0.0 then Slice(None, Some(0)) else Slice(Some(0), Some(Trunc(a.shape[i].value))))
  {
    PixelBoxAt(a, a.roi, i);
    var o, v := a.roi.offset[i].value, a.voxelSize[i].value;
    assert PixelOf(o, o, v) == 0.0;
    assert PixelOf(a.roi.shape[i].value, 0.0, v) == a.shape[i].value;
  }

  /** A 10-voxel cube at offset (1, -1, 2.5): a voxel size of 2 gives a
      shape of 5 voxels per axis, and a voxel size of 3 on the last axis is
      rejected with a ValueError. */
  lemma {:induction false} ConstructExample()
    ensures var roi := Region([Some(1.0), Some(-1.0), Some(2.5)], [Some(10.0), Some(10.0), Some(10.0)]);
      Construct(roi, [Some(2.0), Some(2.0), Some(2.0)]).Success? &&
      Construct(roi, [Some(2.0), Some(2.0), Some(2.0)]).value.shape == [Some(5.0), Some(5.0), Some(5.0)] &&
      Construct(roi, [Some(2.0), Some(2.0), Some(3.0)]) == Failure(ValueError)
  {
    var roi := Region([Some(1.0), Some(-1.0), Some(2.5)], [Some(10.0), Some(10.0), Some(10.0)]);
    var two, three := [Some(2.0), Some(2.0), Some(2.0)], [Some(2.0), Some(2.0), Some(3.0)];
    var s2, s3 := PixelShape(roi, two), PixelShape(roi, three);
    assert s2 == [Some(5.0), Some(5.0), Some(5.0)];
    assert s3[2].value == 10.0 / 3.0 && !IsWhole(s3[2].value);
    ShapeErrorFirst(s3, 2);
  }
}
