/** `Coordinate` and `FloatCoordinate`: fixed-length tuples whose components are
    numbers or `None`, with element-wise arithmetic in which `None` on either
    side gives `None`. The `Kind` argument selects the variant: `Integer`
    truncates every computed value toward zero (Python's `int(...)` in the
    constructor), `Float` keeps it. */
module Coordinates {
  import opened Num

  /** One optional value per dimension; `None` stands for Python's `None`. */
  type Coord = seq<Option<real>>

  /** The right-hand side of a binary operator: another Coordinate, or a
      number broadcast to every dimension. */
  datatype Operand = Vec(c: Coord) | Scalar(s: real)

  /** The binary operators `+ - * / // %`. */
  datatype Op = Add | Sub | Mul | TrueDiv | FloorDivide | Mod {
    predicate Divides() {
      this == TrueDiv || this == FloorDivide || this == Mod
    }
  }

  /** One operator on two defined components, with Python's semantics. */
  function Apply(op: Op, x: real, y: real): real
    requires op.Divides() ==> y != 0.0
  {
    match op
    case Add => x + y
    case Sub => x - y
    case Mul => x * y
    case TrueDiv => x / y
    case FloorDivide => FloorDiv(x, y)
    case Mod => PyMod(x, y)
  }

  /** Every defined component is a value of the given variant. */
  predicate WellKinded(k: Kind, c: Coord) {
    forall i :: 0 <= i < |c| && c[i].Some? ==> Fits(k, c[i].value)
  }

  predicate AllDefined(c: Coord) {
    forall i :: 0 <= i < |c| ==> c[i].Some?
  }

  function CoerceOpt(k: Kind, x: Option<real>): (r: Option<real>)
    ensures r.Some? <==> x.Some?
  {
    if x.Some? then Some(Coerce(k, x.value)) else None
  }

  /** The constructor applied to one iterable: `int(x)` (Integer) or `x`
      (Float) for every defined value, `None` kept as `None`. */
  function Make(k: Kind, xs: seq<Option<real>>): (c: Coord)
    ensures |c| == |xs| && WellKinded(k, c)
    ensures forall i :: 0 <= i < |xs| ==> c[i] == CoerceOpt(k, xs[i])
    ensures k == Float || WellKinded(k, xs) ==> c == xs
  {
    seq(|xs|, i requires 0 <= i < |xs| => CoerceOpt(k, xs[i]))
  }

  /** An argument of the constructor: a single number (or `None`), or an iterable. */
  datatype Arg = Number(x: Option<real>) | Items(xs: seq<Option<real>>)

  predicate SingleIterable(args: seq<Arg>) {
    |args| == 1 && args[0].Items?
  }

  /** `Coordinate(*args)`: one iterable argument is unpacked; otherwise the
      arguments themselves are the values, and an iterable among several
      arguments cannot be converted by `int(...)`. `FloatCoordinate` does not
      convert, so there such an iterable would become a component itself,
      which a `Coord` cannot hold. */
  function FromArgs(k: Kind, args: seq<Arg>): (r: Result<Coord>)
    requires k == Float ==> SingleIterable(args) || forall i :: 0 <= i < |args| ==> args[i].Number?
    ensures SingleIterable(args) ==> r == Success(Make(k, args[0].xs))
    ensures !SingleIterable(args) ==> (r.Success? <==> forall i :: 0 <= i < |args| ==> args[i].Number?)
    ensures r.Success? && !SingleIterable(args) ==>
      |r.value| == |args| && forall i :: 0 <= i < |args| ==> r.value[i] == CoerceOpt(k, args[i].x)
    ensures r.Failure? ==> k == Integer && r.error == TypeError
  {
    if SingleIterable(args) then Success(Make(k, args[0].xs))
    else if forall i :: 0 <= i < |args| ==> args[i].Number? then
      Success(Make(k, seq(|args|, i requires 0 <= i < |args| && args[i].Number? => args[i].x)))
    else Failure(TypeError)
  }

  /** Passing the values as one iterable or as separate arguments builds the
      same Coordinate. */
  lemma {:induction false} IterableOrVarargs(k: Kind, xs: seq<Option<real>>)
    ensures FromArgs(k, [Items(xs)]) == FromArgs(k, seq(|xs|, i requires 0 <= i < |xs| => Number(xs[i])))
  {
    var args := seq(|xs|, i requires 0 <= i < |xs| => Number(xs[i]));
    assert !SingleIterable(args);
    assert seq(|args|, i requires 0 <= i < |args| && args[i].Number? => args[i].x) == xs;
  }

  function Dims(c: Coord): nat {
    |c|
  }

  /** The value the operand contributes at dimension `i`. */
  function Other(y: Operand, i: nat): Option<real>
    requires y.Vec? ==> i < |y.c|
  {
    if y.Vec? then y.c[i] else Some(y.s)
  }

  /** Two Coordinates must have equal `dims` (the source asserts it). */
  predicate Compatible(a: Coord, y: Operand) {
    y.Vec? ==> |y.c| == |a|
  }

  /** Python raises ZeroDivisionError when a defined component is divided by zero. */
  predicate DivisorsNonZero(op: Op, a: Coord, y: Operand)
    requires Compatible(a, y)
  {
    op.Divides() ==>
      forall i :: 0 <= i < |a| && a[i].Some? && Other(y, i).Some? ==> Other(y, i).value != 0.0
  }

  /** `a + y`, `a - y`, `a * y`, `a / y`, `a // y`, `a % y` for a Coordinate or
      number `y`: element-wise, `None` if either side is `None`, and the
      result passed through the variant's constructor. */
  function Combine(k: Kind, op: Op, a: Coord, y: Operand): (r: Coord)
    requires Compatible(a, y) && DivisorsNonZero(op, a, y)
    ensures |r| == |a| && WellKinded(k, r)
    ensures forall i :: 0 <= i < |a| ==> (r[i].Some? <==> a[i].Some? && Other(y, i).Some?)
    ensures forall i :: 0 <= i < |a| && r[i].Some? ==>
      r[i].value == Coerce(k, Apply(op, a[i].value, Other(y, i).value))
  {
    Make(k, seq(|a|, i requires 0 <= i < |a| =>
      if a[i].Some? && Other(y, i).Some? then Some(Apply(op, a[i].value, Other(y, i).value)) else None))
  }

  /** A component whose computed value already fits the variant is that value. */
  lemma CombineAt(k: Kind, op: Op, a: Coord, y: Operand, i: nat, v: real)
    requires Compatible(a, y) && DivisorsNonZero(op, a, y) && i < |a|
    requires a[i].Some? && Other(y, i).Some? && Fits(k, v)
    requires Apply(op, a[i].value, Other(y, i).value) == v
    ensures Combine(k, op, a, y)[i] == Some(v)
  {
  }

  /** The right-hand side holds values of the given variant. */
  predicate OperandFits(k: Kind, y: Operand) {
    if y.Vec? then WellKinded(k, y.c) else Fits(k, y.s)
  }

  /** `+`, `-` and `*` on values of the variant need no conversion: the
      component is the exact result. */
  lemma ExactAt(k: Kind, op: Op, a: Coord, y: Operand, i: nat)
    requires op == Add || op == Sub || op == Mul
    requires Compatible(a, y) && WellKinded(k, a) && OperandFits(k, y) && i < |a|
    requires a[i].Some? && Other(y, i).Some?
    ensures Combine(k, op, a, y)[i] == Some(Apply(op, a[i].value, Other(y, i).value))
  {
    ApplyFits(k, op, a[i].value, Other(y, i).value);
    CombineAt(k, op, a, y, i, Apply(op, a[i].value, Other(y, i).value));
  }

  /** Values of the variant are closed under `+`, `-` and `*`. */
  lemma ApplyFits(k: Kind, op: Op, x: real, z: real)
    requires op == Add || op == Sub || op == Mul
    requires Fits(k, x) && Fits(k, z)
    ensures Fits(k, Apply(op, x, z))
  {
    if k == Integer {
      WholeArith(x, z);
    }
  }

  /** `a + b`, `a - b` or `a * b` on one axis where both are defined and of
      the variant, with the values named by the caller. */
  lemma PairAt(k: Kind, op: Op, a: Coord, b: Coord, i: nat, x: real, z: real, r: real)
    requires op == Add || op == Sub || op == Mul
    requires |a| == |b| && WellKinded(k, a) && WellKinded(k, b) && i < |a|
    requires a[i] == Some(x) && b[i] == Some(z) && r == Apply(op, x, z)
    ensures Combine(k, op, a, Vec(b))[i] == Some(r)
  {
    ExactAt(k, op, a, Vec(b), i);
  }

  /** `-a`. */
  function Negate(k: Kind, a: Coord): (r: Coord)
    ensures |r| == |a| && WellKinded(k, r)
    ensures forall i :: 0 <= i < |a| ==> (r[i].Some? <==> a[i].Some?)
    ensures forall i :: 0 <= i < |a| && a[i].Some? ==> r[i].value == Coerce(k, -a[i].value)
  {
    Make(k, seq(|a|, i requires 0 <= i < |a| => if a[i].Some? then Some(-a[i].value) else None))
  }

  function AbsValue(x: real): (r: real)
    ensures r >= 0.0 && (r == x || r == -x)
  {
    if x < 0.0 then -x else x
  }

  /** `abs(a)`. */
  function Absolute(k: Kind, a: Coord): (r: Coord)
    ensures |r| == |a| && WellKinded(k, r)
    ensures forall i :: 0 <= i < |a| ==> (r[i].Some? <==> a[i].Some?)
    ensures forall i :: 0 <= i < |a| && a[i].Some? ==> r[i].value == Coerce(k, AbsValue(a[i].value))
  {
    Make(k, seq(|a|, i requires 0 <= i < |a| => if a[i].Some? then Some(AbsValue(a[i].value)) else None))
  }

  /** The `-x` of an operand, as `Roi.__sub__` computes it. */
  function NegateOperand(k: Kind, y: Operand): (r: Operand)
    ensures r.Vec? <==> y.Vec?
    ensures y.Vec? ==> |r.c| == |y.c|
  {
    if y.Vec? then Vec(Negate(k, y.c)) else Scalar(-y.s)
  }

  /** `a % b` on one pair of components, or the exception Python raises. */
  function PairRemainderIsZero(x: Option<real>, y: Option<real>): (r: Result<bool>)
    ensures r.Success? <==> x.Some? && y.Some? && y.value != 0.0
    ensures r.Success? ==> (r.value <==> PyMod(x.value, y.value) == 0.0)
  {
    if x.None? || y.None? then Failure(TypeError)
    else if y.value == 0.0 then Failure(ZeroDivisionError)
    else Success(PyMod(x.value, y.value) == 0.0)
  }

  predicate PairsOk(a: Coord, b: Coord, n: nat)
    requires n <= |a| && n <= |b|
  {
    forall i :: 0 <= i < n ==> PairRemainderIsZero(a[i], b[i]).Success?
  }

  function Min(x: nat, y: nat): nat {
    if x <= y then x else y
  }

  /** `is_multiple_of`: every zipped pair has remainder zero. The list of
      remainders is built before `all` looks at it, so the first pair that
      cannot be computed raises, whatever the other pairs hold. */
  function IsMultipleOf(a: Coord, b: Coord): (r: Result<bool>)
    ensures r.Success? <==> PairsOk(a, b, Min(|a|, |b|))
    ensures r.Success? ==>
      (r.value <==> forall i :: 0 <= i < Min(|a|, |b|) ==> PyMod(a[i].value, b[i].value) == 0.0)
    ensures r.Failure? ==> exists i :: (0 <= i < Min(|a|, |b|) && PairsOk(a, b, i) &&
                                        PairRemainderIsZero(a[i], b[i]) == Failure(r.error))
    decreases |a|
  {
    if |a| == 0 || |b| == 0 then Success(true)
    else
      var head := PairRemainderIsZero(a[0], b[0]);
      var rest := IsMultipleOf(a[1..], b[1..]);
      if head.Failure? then head
      else if rest.Failure? then rest
      else Success(head.value && rest.value)
  }

  /** Both operands have `dims` equal and no defined divisor is zero. */
  predicate Divisible(a: Coord, b: Coord) {
    |a| == |b| && forall i :: 0 <= i < |a| && a[i].Some? && b[i].Some? ==> b[i].value != 0.0
  }

  /** `floor_division`: `a // b`. */
  function FloorDivision(k: Kind, a: Coord, b: Coord): (r: Coord)
    requires Divisible(a, b)
    ensures |r| == |a|
  {
    Combine(k, FloorDivide, a, Vec(b))
  }

  /** `ceil_division`: `(a + b - 1) // b`. */
  function CeilDivision(k: Kind, a: Coord, b: Coord): (r: Coord)
    requires Divisible(a, b)
    ensures |r| == |a|
  {
    var top := Combine(k, Sub, Combine(k, Add, a, Vec(b)), Scalar(1.0));
    Combine(k, FloorDivide, top, Vec(b))
  }

  /** `round_division`: `(a + (b - 1) // 2) // b`. */
  function RoundDivision(k: Kind, a: Coord, b: Coord): (r: Coord)
    requires Divisible(a, b)
    ensures |r| == |a|
  {
    var half := Combine(k, FloorDivide, Combine(k, Sub, b, Scalar(1.0)), Scalar(2.0));
    Combine(k, FloorDivide, Combine(k, Add, a, Vec(half)), Vec(b))
  }

  /** On values of the variant, the three divisions are the scalar formulas
      applied where both components are defined, and `None` elsewhere. */
  lemma FloorDivisionAt(k: Kind, a: Coord, b: Coord, i: nat)
    requires Divisible(a, b) && i < |a|
    ensures FloorDivision(k, a, b)[i] ==
      if a[i].Some? && b[i].Some? then Some(FloorDiv(a[i].value, b[i].value)) else None
  {
  }

  lemma CeilDivisionAt(k: Kind, a: Coord, b: Coord, i: nat)
    requires Divisible(a, b) && WellKinded(k, a) && WellKinded(k, b) && i < |a|
    ensures CeilDivision(k, a, b)[i] ==
      if a[i].Some? && b[i].Some? then Some(CeilDiv(a[i].value, b[i].value)) else None
  {
    if a[i].Some? && b[i].Some? {
      CeilDivisionValueAt(k, a, b, i, a[i].value, b[i].value);
    }
  }

  lemma CeilDivisionValueAt(k: Kind, a: Coord, b: Coord, i: nat, x: real, y: real)
    requires Divisible(a, b) && WellKinded(k, a) && WellKinded(k, b) && i < |a|
    requires a[i] == Some(x) && b[i] == Some(y)
    ensures CeilDivision(k, a, b)[i] == Some(CeilDiv(x, y))
  {
    var top := Combine(k, Sub, Combine(k, Add, a, Vec(b)), Scalar(1.0));
    assert CeilDivision(k, a, b) == Combine(k, FloorDivide, top, Vec(b));
    CeilNumeratorAt(k, a, b, i, x, y);
    FloorDivideAt(k, top, b, i, x + y - 1.0, y);
  }

  /** The numerator `a + b - 1` of `ceil_division` on one axis. */
  lemma CeilNumeratorAt(k: Kind, a: Coord, b: Coord, i: nat, x: real, y: real)
    requires |a| == |b| && WellKinded(k, a) && WellKinded(k, b) && i < |a|
    requires a[i] == Some(x) && b[i] == Some(y)
    ensures Combine(k, Sub, Combine(k, Add, a, Vec(b)), Scalar(1.0))[i] == Some(x + y - 1.0)
  {
    var sum := Combine(k, Add, a, Vec(b));
    ApplyFits(k, Add, x, y);
    CombineAt(k, Add, a, Vec(b), i, x + y);
    ApplyFits(k, Sub, x + y, 1.0);
    CombineAt(k, Sub, sum, Scalar(1.0), i, x + y - 1.0);
  }

  lemma RoundDivisionAt(k: Kind, a: Coord, b: Coord, i: nat)
    requires Divisible(a, b) && WellKinded(k, a) && WellKinded(k, b) && i < |a|
    ensures RoundDivision(k, a, b)[i] ==
      if a[i].Some? && b[i].Some? then Some(RoundDiv(a[i].value, b[i].value)) else None
  {
    if a[i].Some? && b[i].Some? {
      RoundDivisionValueAt(k, a, b, i, a[i].value, b[i].value);
    }
  }

  lemma RoundDivisionValueAt(k: Kind, a: Coord, b: Coord, i: nat, x: real, y: real)
    requires Divisible(a, b) && WellKinded(k, a) && WellKinded(k, b) && i < |a|
    requires a[i] == Some(x) && b[i] == Some(y)
    ensures RoundDivision(k, a, b)[i] == Some(RoundDiv(x, y))
  {
    var half := Combine(k, FloorDivide, Combine(k, Sub, b, Scalar(1.0)), Scalar(2.0));
    var top := Combine(k, Add, a, Vec(half));
    assert RoundDivision(k, a, b) == Combine(k, FloorDivide, top, Vec(b));
    var h := FloorDiv(y - 1.0, 2.0);
    HalfAt(k, b, i, y);
    ApplyFits(k, Add, x, h);
    CombineAt(k, Add, a, Vec(half), i, x + h);
    CombineAt(k, FloorDivide, top, Vec(b), i, RoundDiv(x, y));
  }

  /** The offset `(b - 1) // 2` of `round_division` on one axis. */
  lemma HalfAt(k: Kind, b: Coord, i: nat, y: real)
    requires WellKinded(k, b) && i < |b| && b[i] == Some(y)
    ensures Combine(k, FloorDivide, Combine(k, Sub, b, Scalar(1.0)), Scalar(2.0))[i] == Some(FloorDiv(y - 1.0, 2.0))
  {
    var less := Combine(k, Sub, b, Scalar(1.0));
    ApplyFits(k, Sub, y, 1.0);
    CombineAt(k, Sub, b, Scalar(1.0), i, y - 1.0);
    CombineAt(k, FloorDivide, less, Scalar(2.0), i, FloorDiv(y - 1.0, 2.0));
  }

  /** For divisors of at least one, `floor_division <= round_division <=
      ceil_division` in every dimension where both operands are defined. */
  lemma {:induction false} DivisionOrdering(k: Kind, a: Coord, b: Coord)
    requires Divisible(a, b) && WellKinded(k, a) && WellKinded(k, b)
    requires forall i :: 0 <= i < |b| && b[i].Some? ==> b[i].value >= 1.0
    ensures forall i :: 0 <= i < |a| && a[i].Some? && b[i].Some? ==>
      FloorDivision(k, a, b)[i].value <= RoundDivision(k, a, b)[i].value <= CeilDivision(k, a, b)[i].value
  {
    forall i | 0 <= i < |a| && a[i].Some? && b[i].Some?
      ensures FloorDivision(k, a, b)[i].value <= RoundDivision(k, a, b)[i].value <= CeilDivision(k, a, b)[i].value
    {
      FloorDivisionAt(k, a, b, i);
      RoundDivisionAt(k, a, b, i);
      CeilDivisionAt(k, a, b, i);
      DivisionOrder(a[i].value, b[i].value);
    }
  }

  /** For Integer Coordinates and positive divisors, `ceil_division` exceeds
      `floor_division` by one exactly where the divisor does not divide. */
  lemma {:induction false} CeilFloorGap(a: Coord, b: Coord)
    requires Divisible(a, b) && WellKinded(Integer, a) && WellKinded(Integer, b)
    requires forall i :: 0 <= i < |b| && b[i].Some? ==> b[i].value > 0.0
    ensures forall i :: 0 <= i < |a| && a[i].Some? && b[i].Some? ==>
      CeilDivision(Integer, a, b)[i].value - FloorDivision(Integer, a, b)[i].value ==
        if PyMod(a[i].value, b[i].value) == 0.0 then 0.0 else 1.0
  {
    forall i | 0 <= i < |a| && a[i].Some? && b[i].Some?
      ensures CeilDivision(Integer, a, b)[i].value - FloorDivision(Integer, a, b)[i].value ==
        if PyMod(a[i].value, b[i].value) == 0.0 then 0.0 else 1.0
    {
      FloorDivisionAt(Integer, a, b, i);
      CeilDivisionAt(Integer, a, b, i);
      CeilMinusFloor(a[i].value, b[i].value);
    }
  }

  /** `(a + b) - b == a` when `b` is fully defined. */
  lemma {:induction false} AddSubRoundTrip(k: Kind, a: Coord, b: Coord)
    requires |a| == |b| && WellKinded(k, a) && WellKinded(k, b) && AllDefined(b)
    ensures Combine(k, Sub, Combine(k, Add, a, Vec(b)), Vec(b)) == a
  {
    var s := Combine(k, Add, a, Vec(b));
    var r := Combine(k, Sub, s, Vec(b));
    forall i | 0 <= i < |a| ensures r[i] == a[i] {
      if a[i].Some? {
        AddSubAt(k, a, b, i, a[i].value, b[i].value);
      }
    }
  }

  /** `(a + b) - b` on one axis where `a` is defined. */
  lemma AddSubAt(k: Kind, a: Coord, b: Coord, i: nat, x: real, y: real)
    requires |a| == |b| && WellKinded(k, a) && WellKinded(k, b)
    requires i < |a| && a[i] == Some(x) && b[i] == Some(y)
    ensures Combine(k, Sub, Combine(k, Add, a, Vec(b)), Vec(b))[i] == Some(x)
  {
    PairAt(k, Add, a, b, i, x, y, x + y);
    PairAt(k, Sub, Combine(k, Add, a, Vec(b)), b, i, x + y, y, x);
  }

  /** `(a * b) // b == a` for whole values and a fully defined, nonzero `b`. */
  lemma {:induction false} MulFloorDivRoundTrip(k: Kind, a: Coord, b: Coord)
    requires |a| == |b| && WellKinded(Integer, a) && WellKinded(Integer, b) && AllDefined(b)
    requires forall i :: 0 <= i < |b| ==> b[i].value != 0.0
    ensures Combine(k, FloorDivide, Combine(k, Mul, a, Vec(b)), Vec(b)) == a
  {
    var p := Combine(k, Mul, a, Vec(b));
    var r := Combine(k, FloorDivide, p, Vec(b));
    forall i | 0 <= i < |a| ensures r[i] == a[i] {
      if a[i].Some? {
        MulFloorDivAt(k, a, b, i, a[i].value, b[i].value);
      }
    }
  }

  /** `(a * b) // b` on one axis of whole values. */
  lemma MulFloorDivAt(k: Kind, a: Coord, b: Coord, i: nat, x: real, y: real)
    requires |a| == |b| && WellKinded(Integer, a) && WellKinded(Integer, b) && AllDefined(b)
    requires forall j :: 0 <= j < |b| ==> b[j].value != 0.0
    requires i < |a| && a[i] == Some(x) && b[i] == Some(y)
    ensures Combine(k, FloorDivide, Combine(k, Mul, a, Vec(b)), Vec(b))[i] == Some(x)
  {
    var z := x * y;
    WholeArith(x, y);
    PairAt(k, Mul, a, b, i, x, y, z);
    WholeQuotient(x, y);
    FloorDivideAt(k, Combine(k, Mul, a, Vec(b)), b, i, z, y);
  }

  /** `p // b` on one axis where both are defined. */
  lemma FloorDivideAt(k: Kind, p: Coord, b: Coord, i: nat, z: real, y: real)
    requires |p| == |b| && DivisorsNonZero(FloorDivide, p, Vec(b))
    requires i < |p| && p[i] == Some(z) && b[i] == Some(y)
    ensures Combine(k, FloorDivide, p, Vec(b))[i] == Some(FloorDiv(z, y))
  {
    CombineAt(k, FloorDivide, p, Vec(b), i, FloorDiv(z, y));
  }

  lemma WholeQuotient(x: real, y: real)
    requires IsWhole(x) && y != 0.0
    ensures FloorDiv(x * y, y) == x
  {
    assert (x * y) / y == x;
    FloorBetween(x, x);
  }

  /** `abs(-a) == abs(a)`. */
  lemma {:induction false} AbsOfNegation(k: Kind, a: Coord)
    requires WellKinded(k, a)
    ensures Absolute(k, Negate(k, a)) == Absolute(k, a)
  {
    var n := Negate(k, a);
    forall i | 0 <= i < |a| && a[i].Some? ensures n[i] == Some(-a[i].value) {
      NegateAt(k, a, i, a[i].value);
    }
  }

  /** Negation is its own inverse. */
  lemma {:induction false} NegateInvolution(k: Kind, a: Coord)
    requires WellKinded(k, a)
    ensures Negate(k, Negate(k, a)) == a
  {
    var n := Negate(k, a);
    var m := Negate(k, n);
    forall i | 0 <= i < |a| ensures m[i] == a[i] {
      if a[i].Some? {
        NegateAt(k, a, i, a[i].value);
        NegateAt(k, n, i, -a[i].value);
      }
    }
  }

  /** `-a` on one axis where `a` is defined: a value of the variant negates exactly. */
  lemma NegateAt(k: Kind, a: Coord, i: nat, x: real)
    requires WellKinded(k, a) && i < |a| && a[i] == Some(x)
    ensures Negate(k, a)[i] == Some(-x)
  {
    if k == Integer {
      WholeNeg(x);
    }
  }
}
