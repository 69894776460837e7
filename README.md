# funlib.geometry in Dafny

A model of the geometry core of `funlib.geometry`:

- **Coordinate** and **FloatCoordinate**: fixed-length tuples whose
  components may be undefined (`None`). They support element-wise `+ - * /
  // %`, negation, `abs`, `is_multiple_of` and the `floor_division`,
  `ceil_division` and `round_division` helpers.
- **Roi** and **FloatRoi**: an axis-aligned box made of an offset and a
  shape Coordinate. An undefined begin stands for minus infinity and an
  undefined end for plus infinity. A Roi keeps the consolidation invariant
  (no offset on an axis whose shape is undefined) and offers `end`,
  `center`, `size`, `empty`, `unbounded`, `contains`, `intersects`,
  `intersect`, `union`, `shift`, `grow`, `snap_to_grid`, `squeeze`,
  `to_slices` and the arithmetic operators.
- **Array**: a world Roi discretised by a voxel size. It maps locations
  between world and pixel space and turns them into indices or slices.

Components are exact `real` numbers tagged by a `Kind`. The `Integer` variant
(Coordinate, Roi) passes every constructed value through Python's `int`,
which truncates toward zero. The `Float` variant (FloatCoordinate, FloatRoi)
keeps values as they are. Python's `//` (floor), `%` (sign of the divisor)
and `int` are written out in `Num` (`FloorDiv`, `PyMod`, `Trunc`), since
Dafny's own integer division is Euclidean.

Exceptions are values of a `Result` datatype: `TypeError`, `ValueError`,
`RuntimeError` and `AssertionError`. Two kinds of check become
preconditions instead: the assertions that two Coordinates have equal
`dims`, and division by zero.

Modules and files:

- `Num` (`num.dfy`): scalar semantics.
- `Coordinates` (`coordinate.dfy`): Coordinate and FloatCoordinate.
- `Rois` (`rois.dfy`): the `Region` value, the Roi operations and the
  class `Roi`, whose setters change it in place.
- `RoiProperties` (`roi_properties.dfy`) and `RoiMeasures`
  (`roi_measures.dfy`): what those operations promise.
- `Arrays` (`arrays.dfy`): the Array.

## Model

| member | source | states |
|---|---|---|
| Num.Trunc | funlib/geometry/coordinate.py:30-35 | `int(x)` truncates toward zero: the result lies in the unit interval toward zero from `x`, and equals `x` exactly when `x` is whole |
| Num.Coerce | src/funlib/geometry/float_coordinate.py:22-25 | the Integer constructor yields a whole value within 1 of its argument; the Float constructor, or any whole argument, keeps the value |
| Num.FloorDiv | funlib/geometry/coordinate.py:192-216 | `a // b` is the whole number `q` with `q <= a/b < q+1` |
| Num.PyMod | funlib/geometry/coordinate.py:218-242 | `a % b` lies in `[0, b)` for positive `b` and in `(b, 0]` for negative `b` |
| Num.FloorDivUnique | funlib/geometry/coordinate.py:192-216 | a whole `q` with `b*q <= a < b*q + b` is the floor quotient |
| Num.FloorDivOfIntegers | funlib/geometry/coordinate.py:192-216 | on whole operands Python's `//` is Euclidean division for a positive divisor and its mirror for a negative one |
| Num.PyModOfIntegers | funlib/geometry/coordinate.py:218-242 | on whole operands Python's `%` is Euclidean `%` for a positive divisor and takes the divisor's sign for a negative one |
| Num.FloorDivMono | funlib/geometry/coordinate.py:52-53 | `//` by a positive divisor is monotone |
| Num.FloorDivShift | funlib/geometry/coordinate.py:52-53 | adding a whole multiple `b*n` moves the floor quotient by exactly `n` |
| Num.CeilDiv | funlib/geometry/coordinate.py:55-56 | `(a+b-1)//b` on whole operands with `b > 0` is the least `r` with `a <= b*r` |
| Num.CeilDivOffGrid | funlib/geometry/coordinate.py:55-56 | off the integer grid `ceil_division(0.3, 0.5)` is `-1`, below `floor_division` (`0`) and the ceiling (`1`) |
| Num.Ceiling | funlib/geometry/coordinate.py:55-56 | the ceiling `ceil_division` is meant to compute: for any real `a` and `b > 0`, the least whole `r` with `a <= b*r` |
| Num.CeilDivIsCeiling | funlib/geometry/coordinate.py:55-56 | on whole operands `(a+b-1)//b` equals that ceiling |
| Num.RoundDiv | funlib/geometry/coordinate.py:46-50 | `(a+(b-1)//2)//b` is a whole number |
| Num.DivisionOrder | funlib/geometry/coordinate.py:46-56 | for a divisor of at least one, floor <= round <= ceil |
| Num.CeilMinusFloor | funlib/geometry/coordinate.py:52-56 | for whole operands and a positive divisor, ceil − floor is 0 when `a % b == 0` and 1 otherwise |
| Num.RoundDivNearest | funlib/geometry/coordinate.py:46-50 | round_division picks the nearest multiple: `-b < 2(a − b*r) <= b` |
| Num.RoundHalfDown | funlib/geometry/coordinate.py:46-50 | an exact half rounds down: `(2n+1)c` over `2c` gives `n` |
| Coordinates.Make | funlib/geometry/coordinate.py:30-35 | the constructor converts each defined component and keeps `None`; values already of the variant are kept |
| Coordinates.FromArgs | funlib/geometry/coordinate.py:30-35 | a single iterable argument is unpacked, otherwise the arguments are the components; for Coordinate an iterable among several arguments raises TypeError (from `int`), and only there |
| Coordinates.IterableOrVarargs | funlib/geometry/coordinate.py:30-35 | one iterable and the same values as separate arguments build the same Coordinate |
| Coordinates.Combine | funlib/geometry/coordinate.py:66-242 | each binary operator works per axis, is undefined exactly where either operand is, and is the constructor's conversion of Python's operator (broadcasting a scalar) |
| Coordinates.CombineAt | funlib/geometry/coordinate.py:66-242 | a computed component that already fits the variant is kept as is |
| Coordinates.ExactAt | funlib/geometry/coordinate.py:66-138 | `+ - *` on values of the variant need no conversion |
| Coordinates.Negate | funlib/geometry/coordinate.py:58-60 | `-a` negates each defined component and keeps `None` |
| Coordinates.Absolute | funlib/geometry/coordinate.py:62-64 | `abs(a)` is the non-negative magnitude of each defined component and keeps `None` |
| Coordinates.NegateOperand | funlib/geometry/roi.py:418-423 | the negated operand `roi - y` shifts by keeps its form and length |
| Coordinates.PairRemainderIsZero | funlib/geometry/coordinate.py:41-44 | one pair of `is_multiple_of`: `x % y == 0`, or a TypeError/ZeroDivisionError when it cannot be computed |
| Coordinates.IsMultipleOf | funlib/geometry/coordinate.py:41-44 | true iff every zipped pair has remainder zero; otherwise the exception of the first pair that cannot be computed |
| Coordinates.FloorDivision | funlib/geometry/coordinate.py:52-53 | `floor_division`: `a // b` on Coordinates of equal dims, per-axis values in `FloorDivisionAt` |
| Coordinates.CeilDivision | funlib/geometry/coordinate.py:55-56 | `ceil_division`: `(a + b - 1) // b`, per-axis values in `CeilDivisionValueAt` |
| Coordinates.RoundDivision | funlib/geometry/coordinate.py:46-50 | `round_division`: `(a + (b - 1) // 2) // b`, per-axis values in `RoundDivisionValueAt` |
| Coordinates.FloorDivisionAt | funlib/geometry/coordinate.py:52-53 | per axis, floor_division is `a // b` |
| Coordinates.CeilDivisionValueAt | funlib/geometry/coordinate.py:55-56 | per axis, ceil_division is `(a+b-1)//b` |
| Coordinates.RoundDivisionValueAt | funlib/geometry/coordinate.py:46-50 | per axis, round_division is `(a+(b-1)//2)//b` |
| Coordinates.DivisionOrdering | funlib/geometry/coordinate.py:46-56 | for divisors of at least one, floor_division <= round_division <= ceil_division on every defined axis |
| Coordinates.CeilFloorGap | funlib/geometry/coordinate.py:46-56 | for Integer Coordinates and positive divisors, ceil − floor is 0 where the axis divides exactly and 1 elsewhere |
| Coordinates.AddSubRoundTrip | funlib/geometry/coordinate.py:66-112 | `(a + b) - b == a` for a fully defined `b` |
| Coordinates.MulFloorDivRoundTrip | funlib/geometry/coordinate.py:114-216 | `(a * b) // b == a` for whole values and a fully defined nonzero `b` |
| Coordinates.AbsOfNegation | funlib/geometry/coordinate.py:58-64 | `abs(-a) == abs(a)` |
| Coordinates.NegateInvolution | funlib/geometry/coordinate.py:58-60 | `-(-a) == a` |
| Rois.ConsolidateOffset | funlib/geometry/roi.py:119-132 | the rebuilt offset is consolidated, keeps every component where the shape is defined, and changes nothing in an already consolidated Roi |
| Rois.MakeRegion | funlib/geometry/roi.py:59-65 | the constructor converts both Coordinates and consolidates; a well-formed pair is kept unchanged |
| Rois.FromValue | funlib/geometry/roi.py:59-65 | the argument is turned into a Coordinate as `Coordinate(x)` does: a number gives one dimension, an iterable its length |
| Rois.End | funlib/geometry/roi.py:142-146 | `end` is defined on an axis exactly when offset and shape are |
| Rois.EndAt | funlib/geometry/roi.py:142-146 | on an axis where offset `o` and shape `s` are defined, `end` is `o + s` |
| Rois.Center | src/funlib/geometry/float_roi.py:15-18 | `center` (`int(shape/2)` for Roi, `shape//2` for FloatRoi, plus the offset) is defined exactly where offset and shape are |
| Rois.CenterAt | funlib/geometry/roi.py:151-154 | on an axis with offset `o` and shape `s`, the center is `o + int(s/2)` for Roi and `o + s//2` for FloatRoi |
| Rois.Empty | funlib/geometry/roi.py:203-207 | `empty`: some defined shape component is at most zero |
| Rois.Unbounded | funlib/geometry/roi.py:209-213 | `unbounded`: some shape component is `None` |
| Rois.Product | funlib/geometry/roi.py:195-198 | the product the `size` loop accumulates, first axis first |
| Rois.SizeOf | funlib/geometry/roi.py:187-198 | `size` is `None` exactly when the Roi is unbounded |
| Rois.ContainsPoint | funlib/geometry/roi.py:226-233 | `contains(point)`: on every axis the point is at or after a defined begin and before a defined end; a point with fewer components than `dims` is not contained |
| Rois.ContainsRegion | funlib/geometry/roi.py:219-225 | `contains(roi)`: begin and `end - 1` contained; an empty Roi is contained in an empty one or where its begin is |
| Rois.Intersects | funlib/geometry/roi.py:239-264 | false if either Roi is empty, otherwise true unless some axis has all four bounds defined and one begins at or after the other's end |
| Rois.LeftMin | funlib/geometry/roi.py:375-381 | `None` absorbs; otherwise the smaller value |
| Rois.LeftMax | funlib/geometry/roi.py:383-391 | `None` is minus infinity: the larger defined value |
| Rois.RightMin | funlib/geometry/roi.py:393-401 | `None` is plus infinity: the smaller defined value |
| Rois.RightMax | funlib/geometry/roi.py:403-409 | `None` absorbs; otherwise the larger value |
| Rois.EmptyRegion | funlib/geometry/roi.py:269-270 | the result of a failed intersection is well formed and empty |
| Rois.Spanning | funlib/geometry/roi.py:279 | `Roi(begin, end - begin)` is well formed |
| Rois.Intersect | funlib/geometry/roi.py:266-279 | non-intersecting Roi give the all-`None`, zero-shape Roi |
| Rois.Union | funlib/geometry/roi.py:281-297 | an empty operand yields the other operand unchanged, whatever the dims; otherwise the begins and ends are zipped, so the union has the smaller of the two dims |
| Rois.Shift | funlib/geometry/roi.py:299-302 | `shift` and `+` keep the shape |
| Rois.Minus | funlib/geometry/roi.py:418-423 | `-` keeps the shape |
| Rois.Scale | funlib/geometry/roi.py:425-458 | `* / // %` give a well-formed Roi of the same dims |
| Rois.Grow | funlib/geometry/roi.py:344-369 | `grow` gives a well-formed Roi of the same dims |
| Rois.SnapToGrid | funlib/geometry/roi.py:304-342 | fails with a RuntimeError exactly on an unknown mode; otherwise a well-formed Roi of the same dims |
| Rois.SnapWith | funlib/geometry/roi.py:340-342 | the snapped Roi built from voxel counts is well formed |
| Rois.Squeeze | funlib/geometry/roi.py:67-68 | `squeeze(dim)` removes axis `dim` from offset and shape and keeps the rest in order |
| Rois.DropAxis | funlib/geometry/roi.py:67-68 | dropping component `dim` shifts the later ones down by one |
| Rois.AxisSlice | funlib/geometry/roi.py:159-174 | one axis of `to_slices`: full slice for `None`, `slice(None, 0)` for 0, a TypeError for an undefined offset with a nonzero shape, else `slice(int(o), int(o + s))` |
| Rois.RegionSlices | funlib/geometry/roi.py:159-174 | the slices are the per-axis slices, or a TypeError if any axis raises |
| Rois.Roi.constructor | funlib/geometry/roi.py:59-65 | the new Roi holds the consolidated value of its arguments |
| Rois.Roi.Consolidate | funlib/geometry/roi.py:119-132 | consolidation re-establishes the invariant and keeps the shape |
| Rois.Roi.SetOffset | funlib/geometry/roi.py:74-86 | the offset setter takes the new offset except on axes with an undefined shape, which keep `None` |
| Rois.Roi.SetShape | funlib/geometry/roi.py:98-111 | the shape setter replaces the shape and keeps the old offset only where the new shape is defined |
| Rois.Roi.Size | funlib/geometry/roi.py:187-198 | the loop computes `size`: `None` when unbounded, else the product of the shape |
| Rois.Roi.ToSlices | funlib/geometry/roi.py:159-174 | the loop builds the slices of `to_slices`, or the TypeError |
| RoiProperties.BeginDefinedIffEnd | funlib/geometry/roi.py:134-146 | in a consolidated Roi the begin is defined exactly where the end is |
| RoiProperties.AxisIntersect | funlib/geometry/roi.py:383-401 | on one axis, the bounds `left_max`/`right_min` contain exactly the values both axes contain |
| RoiProperties.SpanningBounds | funlib/geometry/roi.py:272-279 | `Roi(begin, end - begin)` has begin `begin` and end `end` on every axis where begin is defined |
| RoiProperties.IntersectBounds | funlib/geometry/roi.py:266-279 | for intersecting Roi, begin is `left_max` of the begins and end `right_min` of the ends |
| RoiProperties.UnionBounds | funlib/geometry/roi.py:281-297 | for non-empty Roi, on every axis both have, begin is `left_min` of the begins and end `right_max` of the ends |
| RoiProperties.IntersectContains | funlib/geometry/roi.py:215-279 | a point is in the intersection of intersecting Roi iff it is in both |
| RoiProperties.UnionCovers | funlib/geometry/roi.py:215-297 | the union of non-empty Roi contains every point of either |
| RoiProperties.IntersectsSymmetric | funlib/geometry/roi.py:239-264 | `a.intersects(b) == b.intersects(a)` |
| RoiProperties.IntersectCommutes | funlib/geometry/roi.py:266-279 | `a.intersect(b) == b.intersect(a)` |
| RoiProperties.UnionCommutes | funlib/geometry/roi.py:281-297 | `a.union(b) == b.union(a)` unless both are empty |
| RoiProperties.BoundsCommute | funlib/geometry/roi.py:375-409 | the four bound helpers are symmetric |
| RoiProperties.UnionOfDifferentDims | funlib/geometry/roi.py:281-297 | `union` has no dims check: a non-empty 2-D and 1-D Roi give the 1-D Roi spanning both first axes |
| RoiProperties.UnionOfEmptiesDependsOnOrder | funlib/geometry/roi.py:281-289 | two empty Roi with different offsets: the union returns the second operand, so the order matters |
| RoiProperties.DisjointIntersectionContainsAll | funlib/geometry/roi.py:215-279 | the empty Roi returned by a failed `intersect` has no defined bound, so `contains` accepts every point |
| RoiProperties.ContainsRegionSound | funlib/geometry/roi.py:215-237 | on the integer grid, every point of a non-empty Roi that `contains(roi)` accepts lies in the containing Roi |
| RoiProperties.ShiftRoundTrip | funlib/geometry/roi.py:299-302 | `(roi + c) - c == roi` for a fully defined shift |
| RoiProperties.ScaleRoundTrip | funlib/geometry/roi.py:425-444 | `(roi * v) / v == roi` for whole values and a fully defined nonzero `v` |
| RoiProperties.GrowAxis | funlib/geometry/roi.py:344-369 | on a defined axis `grow(n, p)` gives offset `o − n` and shape `s + n + p` |
| RoiProperties.GrowKeepsUnbounded | funlib/geometry/roi.py:344-369 | an axis with undefined shape stays undefined |
| RoiProperties.GrowBounds | funlib/geometry/roi.py:344-369 | `grow(n, p)` moves the end up by `p` |
| RoiMeasures.SnapWithBounds | funlib/geometry/roi.py:340-342 | the snapped Roi begins at `bv*v` and ends at `ev*v` |
| RoiMeasures.OnGrid | funlib/geometry/roi.py:340-342 | a whole number of voxels is a multiple of the voxel size |
| RoiMeasures.FloorMultiple | funlib/geometry/roi.py:331-336 | flooring to a multiple of a positive voxel size does not go up |
| RoiMeasures.CeilMultiple | funlib/geometry/roi.py:331-336 | ceiling to a multiple of a positive voxel size does not go down |
| RoiMeasures.SnapGrowAxis | funlib/geometry/roi.py:331-333 | per axis, grow snaps the begin to `(b // v) * v` and the end to `ceil(e / v) * v` |
| RoiMeasures.SnapShrinkAxis | funlib/geometry/roi.py:334-336 | per axis, shrink snaps the begin to `ceil(b / v) * v` and the end to `(e // v) * v` |
| RoiMeasures.SnapClosestAxis | funlib/geometry/roi.py:328-330 | per axis, closest rounds begin and end to the nearest multiple |
| RoiMeasures.SnapGrowCovers | funlib/geometry/roi.py:331-342 | on the integer grid with a positive voxel size, grow starts at or before the begin and ends at or after the end, on multiples of the voxel size |
| RoiMeasures.FloatGrowFallsShort | funlib/geometry/roi.py:331-336 | for the FloatRoi `[0, 1.5)` and voxel size 1, `grow` ends at `1.0`, before the Roi's end |
| RoiMeasures.CeilingGrowCovers | funlib/geometry/roi.py:331-336 | with a true ceiling for the end, `grow` covers any real axis on multiples of the voxel size |
| RoiMeasures.SnapShrinkInside | funlib/geometry/roi.py:334-342 | shrink starts at or after the begin and ends at or before the end, on multiples of the voxel size |
| RoiMeasures.SnapClosestBetween | funlib/geometry/roi.py:328-342 | closest puts each bound between the ones shrink and grow choose |
| RoiMeasures.ProductPositive | funlib/geometry/roi.py:195-198 | a product of positive lengths is positive |
| RoiMeasures.ProductZero | funlib/geometry/roi.py:195-198 | a product with a zero length is zero |
| RoiMeasures.SizePositive | funlib/geometry/roi.py:187-207 | `size` of a bounded, non-empty Roi is positive |
| RoiMeasures.SizeZero | funlib/geometry/roi.py:187-198 | `size` of a bounded Roi with a zero-length axis is zero |
| RoiMeasures.SizeWhole | funlib/geometry/roi.py:187-198 | `size` of a bounded integer Roi is whole |
| RoiMeasures.HalfBounds | src/funlib/geometry/float_roi.py:15-18 | half a positive length, as `center` computes it, lies in `[0, s)` |
| RoiMeasures.CenterContained | src/funlib/geometry/float_roi.py:15-18 | the center of a non-empty Roi with defined offsets lies inside it |
| RoiMeasures.SlicesMatchContainment | funlib/geometry/roi.py:159-237 | for an integer Roi, the slices of `to_slices` select exactly the points `contains` accepts |
| Arrays.PixelShape | funlib/geometry/array.py:29 | the pixel shape is `shape / voxel_size`, defined where both are |
| Arrays.ShapeError | funlib/geometry/array.py:30-32 | no error iff every pixel-shape component is defined and whole |
| Arrays.ShapeErrorFirst | funlib/geometry/array.py:30-32 | the error raised is the one of the first failing axis: TypeError for `None`, ValueError for a fraction |
| Arrays.CheckShape | funlib/geometry/array.py:30-32 | the validation loop computes that error |
| Arrays.Construct | funlib/geometry/array.py:26-32 | `Array(roi, v)` succeeds iff every pixel-shape component is whole, and then keeps its Roi and voxel size |
| Arrays.Create | funlib/geometry/array.py:26-32 | the constructor method is `Construct` |
| Arrays.FromWorld | funlib/geometry/array.py:7-10 | `from_world` builds `Roi(offset, shape)` and succeeds iff the shape divides evenly |
| Arrays.WorldOffset | funlib/geometry/array.py:14-18 | the world offset is the given one; else `pixel_offset * voxel_size` per axis, undefined where either is; else zero on every axis |
| Arrays.FromPixelsShape | funlib/geometry/array.py:12-23 | `from_pixels` succeeds iff the voxel size is defined and the pixel shape whole, and then has that pixel shape |
| Arrays.ConstructOfProduct | funlib/geometry/array.py:20-32 | a Roi whose shape is `pixel_shape * voxel_size` has pixel shape `pixel_shape` |
| Arrays.FromPixels | funlib/geometry/array.py:12-23 | `from_pixels`: world shape `pixel_shape * voxel_size` at the chosen world offset, then `__init__`; its outcome is stated by `FromPixelsShape` |
| Arrays.PixelWorldInverse | funlib/geometry/array.py:34-40 | the scalar world-to-pixel and pixel-to-world maps are inverse |
| Arrays.Contains | funlib/geometry/array.py:35 | the containment gate of `to_pixel_space`: `roi.contains` of a point or a Roi |
| Arrays.PixelPoint | funlib/geometry/array.py:37 | `(w - offset) / v` is defined where `w` and the offset are |
| Arrays.PixelBox | funlib/geometry/array.py:37 | the pixel Roi is well formed and has the same dims |
| Arrays.WorldPoint | funlib/geometry/array.py:40 | `q * v + offset` is defined where `q` and the offset are |
| Arrays.WorldBox | funlib/geometry/array.py:40 | the world Roi is well formed and has the same dims |
| Arrays.ToPixelSpace | funlib/geometry/array.py:34-37 | fails with ValueError iff the world Roi does not contain the location; otherwise maps a Coordinate to a Coordinate and a Roi to a Roi |
| Arrays.ToWorldSpace | funlib/geometry/array.py:39-40 | never checks containment and keeps the kind of location |
| Arrays.WorldPixelPoint | funlib/geometry/array.py:34-40 | a contained world Coordinate mapped to pixel space and back is unchanged |
| Arrays.PixelWorldPoint | funlib/geometry/array.py:34-40 | a defined pixel Coordinate whose world image is contained maps back to itself |
| Arrays.PixelBounds | funlib/geometry/array.py:47-54 | a contained component lies in `[0, len/v)` pixels |
| Arrays.ScaleInverse | funlib/geometry/array.py:37-40 | `(roi / v) * v == roi` over exact reals |
| Arrays.ShiftInverse | funlib/geometry/array.py:37-40 | `(roi - c) + c == roi` |
| Arrays.WorldPixelBox | funlib/geometry/array.py:34-40 | a contained world Roi mapped to pixel space and back is unchanged |
| Arrays.PixelWorldBox | funlib/geometry/array.py:34-40 | a pixel Roi whose world image is contained maps back to itself |
| Arrays.PixelSlice | funlib/geometry/array.py:57-71 | one axis of `to_slices`: TypeError for an undefined offset, ValueError for a fractional offset or nonzero shape, else the slice |
| Arrays.BoxSlices | funlib/geometry/array.py:55-71 | the slices of a pixel Roi are the per-axis slices when all succeed |
| Arrays.BoxSlicesFirstError | funlib/geometry/array.py:55-71 | the exception raised is the one of the first failing axis |
| Arrays.SlicesOf | funlib/geometry/array.py:42-73 | `to_slices` propagates the error of `to_pixel_space`; a Coordinate gives one index per axis, a Roi one slice per axis |
| Arrays.PixelIndex | funlib/geometry/array.py:49-53 | one index of a point: `int` of a defined pixel component, `None` kept |
| Arrays.PointIndices | funlib/geometry/array.py:47-54 | the Coordinate loop gives `int` of each defined component and `None` elsewhere |
| Arrays.AxisRange | funlib/geometry/array.py:57-71 | the loop body computes the per-axis slice |
| Arrays.BoxRanges | funlib/geometry/array.py:55-71 | the Roi loop computes the slices or the first error |
| Arrays.ToSlices | funlib/geometry/array.py:42-73 | the method computes `to_slices` |
| Arrays.PixelBoxAt | funlib/geometry/array.py:37 | on a defined axis the pixel offset is `(o - roi.offset) / v` and the pixel shape `s / v` |
| Arrays.PointIndexInRange | funlib/geometry/array.py:47-54 | for a contained point and positive voxel size, each index lies in `[0, shape)` |
| Arrays.NoWholeAxisSlice | funlib/geometry/array.py:57-63 | `to_slices` never produces `slice(None, None)`: where the pixel shape is `None` the consolidated offset is `None` too, and `int(offset)` raises first |
| Arrays.OwnRoiSlices | funlib/geometry/array.py:42-73 | the Array's own Roi selects `slice(0, shape)` on every axis |
| Arrays.ConstructExample | funlib/geometry/array.py:26-32 | a 10-unit cube with voxel size 2 has pixel shape 5 on each axis |

## Left out

- IEEE floating point: components are exact reals, so rounding errors such
  as `0.1 + 0.2` and the overflow of `int(inf)` are not modelled.
- Python's dynamic typing: string operands and other type errors of
  operators are excluded by Dafny's types. Tuple operands (converted to a
  Coordinate by the operators) are not modelled; operands are Coordinates or
  numbers.
- The `dims` assertions of the binary operators, and division by zero, are
  preconditions (`Compatible`, `DivisorsNonZero`, `GridFor`). `union` has
  no such assertion and zips to the shorter Roi, which `Rois.Union` models.
  Array's `to_pixel_space` and `to_world_space` report a dims mismatch as an
  AssertionError value.
- The inherited operators build `Coordinate(...)` literally, which would
  truncate FloatCoordinate results. roi.py does the same: the constructor
  (roi.py:61-62), the setters (roi.py:85, 110), `__consolidate_offset`
  (roi.py:130), `intersect` and `union` (roi.py:272-293) and `grow`
  (roi.py:362-364) all call `Coordinate(...)`, and nothing in roi.py reads
  FloatRoi's `_coord_type` (float_roi.py:13). Taken literally, a FloatRoi
  would therefore be truncated at construction. The model keeps each
  variant's own conversion throughout (Integer for Roi, Float for FloatRoi),
  as FloatRoi's `_coord_type` and its documented float precision require.
- Array imports the integer Coordinate, under which its divisibility check
  could never fail. The model uses exact real division (the Float variant)
  throughout Array.
- `__div__` is the same operation as `__truediv__` (`TrueDiv`).
- `Roi.__eq__` is equality of the `Region` datatype (offset and shape).
- `repr`, `copy`, the `get_*`/`set_*` aliases and attribute freezing are
  not modelled: they carry no logic.
- `snap_to_grid` converts a tuple voxel size to a Coordinate; the model takes
  a Coordinate.
- `contains` raising on an argument that is neither a Coordinate nor a Roi is
  excluded by the `Location` type.
- The `**` operator and `Coordinate.squeeze` are not part of this model;
  `Roi.squeeze` is modelled as removing one axis.
- Array's point branch of `to_slices` says it rounds down but uses `int`,
  which truncates toward zero. The model follows `int`; for contained points
  and a positive voxel size the two agree (`PointIndexInRange`). With a
  negative voxel size a contained point can have a negative pixel component,
  which `int` rounds up.
- Array's full-slice branch for an undefined pixel shape cannot be reached:
  on such an axis the consolidated pixel offset is `None` too, and
  `int(offset)` raises a TypeError before the shape is looked at
  (`NoWholeAxisSlice`).
- Coordinates.FromArgs: a FloatCoordinate built from several arguments one of
  which is an iterable keeps that iterable as a component, which `Coord`
  cannot represent; the model requires that this case does not arise for
  the Float variant.
- RoiMeasures.SnapGrowCovers, `SnapShrinkInside` and `SnapClosestBetween`
  are stated for Roi (the Integer variant) only; for FloatRoi they do not
  hold (see "## Findings").
- `union` of two empty Roi returns the second operand, so it is not
  commutative there (`UnionOfEmptiesDependsOnOrder`).
- Rois.Center: the contract states only where the center is defined; its
  value is stated by `Rois.CenterAt`, and `RoiMeasures.CenterContained`
  shows it lies inside a non-empty Roi with defined offsets.
- Rois.End: the contract states where `end` is defined; its value
  `offset + shape` on a defined axis is `Rois.EndAt`.
- Rois.Intersect: the contract states well-formedness and the empty case;
  the bounds of a proper intersection are `RoiProperties.IntersectBounds`
  and `RoiProperties.IntersectContains`.
- Rois.Union: the contract states well-formedness and the empty cases; the
  bounds otherwise are `RoiProperties.UnionBounds` and
  `RoiProperties.UnionCovers`.
- Rois.Shift: the contract states that the shape is kept; the offset is
  stated by `RoiProperties.ShiftRoundTrip`.
- Rois.Minus: as for `Rois.Shift`.
- Rois.Scale: the contract states well-formedness; the values are stated by
  `RoiProperties.ScaleRoundTrip` and `Coordinates.Combine`.
- Rois.Grow: the contract states well-formedness; the values are stated by
  `RoiProperties.GrowAxis`, `RoiProperties.GrowBounds` and
  `RoiProperties.GrowKeepsUnbounded`.
- Rois.SnapToGrid: the contract states the error case and well-formedness;
  the bounds of each mode are `RoiMeasures.SnapGrowAxis`,
  `RoiMeasures.SnapShrinkAxis` and `RoiMeasures.SnapClosestAxis`.
- Rois.SnapWith: its bounds are `RoiMeasures.SnapWithBounds`.
- Rois.Spanning: its bounds are `RoiProperties.SpanningBounds`.
- Arrays.PixelBox: per-axis values are `Arrays.PixelBoxAt`.

## Findings

| source | as written | input that shows it | evidently intended | confidence | as-written member | corrected member |
|---|---|---|---|---|---|---|
| funlib/geometry/coordinate.py:55-56 | `ceil_division` is `(a + b - 1) // b`, a ceiling only on whole numbers; FloatCoordinate inherits it | `ceil_division(0.3, 0.5)` gives `-1`, below `floor_division` (`0`) | the least whole `r` with `a <= b*r` (here `1`) | high, not executed | Num.CeilDivOffGrid | Num.Ceiling |
| funlib/geometry/roi.py:331-336 | FloatRoi's `snap_to_grid(v, "grow")` ceils the end with `ceil_division` | Roi `[0, 1.5)` with voxel size `1.0` snaps to `[0, 1.0)`, losing `[1.0, 1.5)` | the snapped Roi covers the original | high, not executed | RoiMeasures.FloatGrowFallsShort | RoiMeasures.CeilingGrowCovers |

The model keeps both variants as written, since that is the behaviour of the
code. For Roi (whole values) the formula and the corrected ceiling coincide
(`Num.CeilDivIsCeiling`), so the Integer lemmas `RoiMeasures.SnapGrowCovers`,
`SnapShrinkInside` and `SnapClosestBetween` describe the intended behaviour.
