/** Scalar semantics shared by every coordinate component.

    Components are exact reals. The integer variant of the library (`Coordinate`,
    `Roi`) stores values that Python's `int(...)` conversion has truncated toward
    zero; the float variant (`FloatCoordinate`, `FloatRoi`) stores them unchanged.
    The operators below are Python's, written out: `//` floors toward minus
    infinity and `%` takes the sign of the divisor, which is NOT what Dafny's
    Euclidean `/` and `%` on `int` do for negative divisors. */
module Num {

  datatype Option<+T> = None | Some(value: T)

  /** The Python exception classes the library raises. */
  datatype Error = AssertionError | TypeError | ValueError | RuntimeError | ZeroDivisionError

  datatype Result<+T> = Success(value: T) | Failure(error: Error)

  /** Which variant of the library a value belongs to: `Integer` for
      `Coordinate`/`Roi`, `Float` for `FloatCoordinate`/`FloatRoi`. */
  datatype Kind = Integer | Float

  predicate IsWhole(x: real) {
    x.Floor as real == x
  }

  /** Python's `int(x)` on a number: truncation toward zero. */
  function Trunc(x: real): (n: int)
    ensures 0.0 <= x ==> 0 <= n && n as real <= x < n as real + 1.0
    ensures x < 0.0 ==> n <= 0 && n as real - 1.0 < x <= n as real
    ensures (n as real == x) <==> IsWhole(x)
  {
    WholeNeg(x);
    if x >= 0.0 then x.Floor else -((-x).Floor)
  }

  lemma WholeNeg(x: real)
    ensures IsWhole(x) <==> IsWhole(-x)
  {
    if IsWhole(x) {
      FloorBetween(-x, -x.Floor as real);
    }
    if IsWhole(-x) {
      FloorBetween(x, -(-x).Floor as real);
    }
  }

  /** The floor of `t` is the whole number `q` whose unit interval holds `t`. */
  lemma FloorBetween(t: real, q: real)
    requires IsWhole(q) && q <= t < q + 1.0
    ensures t.Floor as real == q
  {
    var m, f := q.Floor, t.Floor;
    assert m as real == q;
    assert f as real <= t < f as real + 1.0;
    assert f == m;
  }

  /** The conversion a Coordinate constructor applies to each defined value. */
  function Coerce(k: Kind, x: real): (r: real)
    ensures k == Integer ==> IsWhole(r) && -1.0 < r - x < 1.0
    ensures k == Float || IsWhole(x) ==> r == x
  {
    if k == Integer then Trunc(x) as real else x
  }

  /** A value the given variant can hold. */
  predicate Fits(k: Kind, x: real) {
    k == Float || IsWhole(x)
  }

  /** Python's `a // b`: the greatest whole number not above the quotient. */
  function FloorDiv(a: real, b: real): (q: real)
    requires b != 0.0
    ensures IsWhole(q)
    ensures q <= a / b < q + 1.0
  {
    (a / b).Floor as real
  }

  /** Python's `a % b`: the remainder left by `a // b`, which has the sign of `b`. */
  function PyMod(a: real, b: real): (m: real)
    requires b != 0.0
    ensures b > 0.0 ==> 0.0 <= m < b
    ensures b < 0.0 ==> b < m <= 0.0
  {
    var q := FloorDiv(a, b);
    QuotientBounds(a, b, q);
    a - b * q
  }

  /** From `q <= a/b < q + 1`, multiply through by `b`. */
  lemma QuotientBounds(a: real, b: real, q: real)
    requires b != 0.0
    requires q <= a / b < q + 1.0
    ensures b > 0.0 ==> b * q <= a < b * q + b
    ensures b < 0.0 ==> b * q + b < a <= b * q
  {
    var t, u := a / b, q + 1.0;
    assert a == b * t;
    assert b * u == b * q + b;
    if b > 0.0 {
      MulLeftMono(b, q, t);
      MulLeftStrict(b, t, u);
    } else {
      var c := -b;
      MulLeftMono(c, q, t);
      MulLeftStrict(c, t, u);
      assert c * q == -(b * q) && c * t == -(b * t) && c * u == -(b * u);
      assert -(b * q) <= -(b * t) && -(b * t) < -(b * u);
    }
  }

  lemma MulLeftMono(c: real, x: real, y: real)
    requires c >= 0.0 && x <= y
    ensures c * x <= c * y
  {
    assert c * y - c * x == c * (y - x);
  }

  lemma MulLeftStrict(c: real, x: real, y: real)
    requires c > 0.0 && x < y
    ensures c * x < c * y
  {
    assert c * y - c * x == c * (y - x);
  }

  lemma MulLeftCancel(c: real, x: real, y: real)
    requires c > 0.0 && c * x < c * y
    ensures x < y
  {
    if y <= x {
      MulLeftMono(c, y, x);
    }
  }

  /** A whole `q` with `b*q <= a < b*q + b` (for positive `b`) is the floor quotient. */
  lemma FloorDivUnique(a: real, b: real, q: real)
    requires b > 0.0 && IsWhole(q)
    requires b * q <= a < b * q + b
    ensures FloorDiv(a, b) == q
  {
    var t := a / b;
    assert a == b * t;
    assert b * (q + 1.0) == b * q + b;
    if t < q {
      MulLeftStrict(b, t, q);
      assert false;
    }
    if t >= q + 1.0 {
      MulLeftMono(b, q + 1.0, t);
      assert false;
    }
    FloorBetween(t, q);
  }

  /** On whole operands Python's `//` is Dafny's Euclidean `/` for a positive
      divisor, and the Euclidean quotient of the negated operands otherwise. */
  lemma {:induction false} FloorDivOfIntegers(a: int, b: int)
    requires b != 0
    ensures FloorDiv(a as real, b as real) == (if b > 0 then a / b else (-a) / (-b)) as real
  {
    if b > 0 {
      FloorDivOfNatural(a, b);
    } else {
      FloorDivOfNatural(-a, -b);
      assert ((-a) as real) / ((-b) as real) == (a as real) / (b as real);
    }
  }

  /** For a positive divisor Python's `//` on whole operands is Euclidean `/`. */
  lemma FloorDivOfNatural(n: int, d: int)
    requires d > 0
    ensures FloorDiv(n as real, d as real) == (n / d) as real
  {
    var q := n / d;
    assert d * q <= n < d * q + d;
    assert (d as real) * (q as real) == (d * q) as real;
    FloorDivUnique(n as real, d as real, q as real);
  }

  /** On whole operands Python's `%` is Dafny's `%` for a positive divisor, and
      the negated Euclidean remainder of the negated operands otherwise. */
  lemma {:induction false} PyModOfIntegers(a: int, b: int)
    requires b != 0
    ensures PyMod(a as real, b as real) == (if b > 0 then a % b else -((-a) % (-b))) as real
  {
    FloorDivOfIntegers(a, b);
    if b > 0 {
      assert a == b * (a / b) + a % b;
      assert (b as real) * ((a / b) as real) == (b * (a / b)) as real;
    } else {
      assert -a == (-b) * ((-a) / (-b)) + (-a) % (-b);
      assert (b as real) * (((-a) / (-b)) as real) == (b * ((-a) / (-b))) as real;
    }
  }

  /** Whole numbers are closed under sum, difference and product, and two of
      them that differ differ by at least one. */
  lemma WholeArith(x: real, y: real)
    requires IsWhole(x) && IsWhole(y)
    ensures IsWhole(x + y) && IsWhole(x - y) && IsWhole(x * y)
    ensures x < y ==> x + 1.0 <= y
  {
    var m, n := x.Floor, y.Floor;
    assert x == m as real && y == n as real;
    assert x * y == (m * n) as real;
    FloorBetween(x + y, (m + n) as real);
    FloorBetween(x - y, (m - n) as real);
    FloorBetween(x * y, (m * n) as real);
  }

  /** `a // b` is monotone in `a` for a positive divisor. */
  lemma FloorDivMono(a1: real, a2: real, b: real)
    requires b > 0.0 && a1 <= a2
    ensures FloorDiv(a1, b) <= FloorDiv(a2, b)
  {
    DivMono(a1, a2, b);
    WholeArith(FloorDiv(a2, b), FloorDiv(a1, b));
  }

  /** Division by a positive number keeps the order. */
  lemma DivMono(a1: real, a2: real, b: real)
    requires b > 0.0 && a1 <= a2
    ensures a1 / b <= a2 / b
  {
    var t1, t2 := a1 / b, a2 / b;
    assert a1 == b * t1 && a2 == b * t2;
    if t2 < t1 {
      MulLeftStrict(b, t2, t1);
    }
  }

  /** A whole offset moves the floor quotient by exactly that offset. */
  lemma FloorDivShift(a: real, b: real, n: real)
    requires b > 0.0 && IsWhole(n)
    ensures FloorDiv(a + b * n, b) == FloorDiv(a, b) + n
  {
    var q := FloorDiv(a, b);
    QuotientBounds(a, b, q);
    WholeArith(q, n);
    var u := q + n;
    assert b * u == b * q + b * n;
    FloorDivUnique(a + b * n, b, u);
  }

  /** `(a + b - 1) // b`, the formula behind `ceil_division`: on whole operands
      with a positive divisor it is the least whole `r` with `a <= b*r`. */
  function CeilDiv(a: real, b: real): (r: real)
    requires b != 0.0
    ensures IsWhole(r)
    ensures IsWhole(a) && IsWhole(b) && b > 0.0 ==> b * (r - 1.0) < a <= b * r
  {
    var r := FloorDiv(a + b - 1.0, b);
    CeilBounds(a, b, r);
    r
  }

  lemma CeilBounds(a: real, b: real, r: real)
    requires b != 0.0 && r == FloorDiv(a + b - 1.0, b)
    ensures IsWhole(a) && IsWhole(b) && b > 0.0 ==> b * (r - 1.0) < a <= b * r
  {
    if IsWhole(a) && IsWhole(b) && b > 0.0 {
      QuotientBounds(a + b - 1.0, b, r);
      WholeArith(b, r);
      WholeArith(b * r, a);
      assert b * (r - 1.0) == b * r - b;
    }
  }

  /** Off the integer grid `(a + b - 1) // b` is not a ceiling:
      `ceil_division(0.3, 0.5)` is `-1`, below `floor_division(0.3, 0.5) == 0`
      and below the ceiling `1`. */
  lemma CeilDivOffGrid()
    ensures FloorDiv(0.3, 0.5) == 0.0 && CeilDiv(0.3, 0.5) == -1.0
    ensures Ceiling(0.3, 0.5) == 1.0
  {
    FloorBetween(0.3 / 0.5, 0.0);
    FloorBetween((0.3 + 0.5 - 1.0) / 0.5, -1.0);
    FloorBetween(-0.3 / 0.5, -1.0);
  }

  /** The ceiling of `a / b`: for every real `a` and positive `b`, the least
      whole `r` with `a <= b*r`. */
  function Ceiling(a: real, b: real): (r: real)
    requires b > 0.0
    ensures IsWhole(r) && b * (r - 1.0) < a <= b * r
  {
    var q := FloorDiv(-a, b);
    QuotientBounds(-a, b, q);
    WholeNeg(q);
    assert b * (-q - 1.0) == -(b * q) - b && b * -q == -(b * q);
    -q
  }

  /** On whole operands `(a + b - 1) // b` is the ceiling. */
  lemma {:induction false} CeilDivIsCeiling(a: real, b: real)
    requires IsWhole(a) && IsWhole(b) && b > 0.0
    ensures CeilDiv(a, b) == Ceiling(a, b)
  {
    var r := CeilDiv(a, b);
    CeilingUnique(a, b, r, b * r);
  }

  /** A whole `r` with `b*(r-1) < a <= b*r` is the ceiling; `br` names `b*r`. */
  lemma CeilingUnique(a: real, b: real, r: real, br: real)
    requires b > 0.0 && IsWhole(r) && br == b * r
    requires br - b < a <= br
    ensures Ceiling(a, b) == r
  {
    WholeNeg(r);
    assert b * -r == -br;
    FloorDivUnique(-a, b, -r);
  }

  /** `(a + (b - 1) // 2) // b`, the formula behind `round_division`. */
  function RoundDiv(a: real, b: real): (r: real)
    requires b != 0.0
    ensures IsWhole(r)
  {
    FloorDiv(a + FloorDiv(b - 1.0, 2.0), b)
  }

  /** A whole number above -1 is at least 0. */
  lemma WholeNonNegative(x: real)
    requires IsWhole(x) && x > -1.0
    ensures x >= 0.0
  {
    WholeArith(-1.0, x);
  }

  /** For a divisor of at least one, `floor <= round <= ceil`. */
  lemma {:induction false} DivisionOrder(a: real, b: real)
    requires b >= 1.0
    ensures FloorDiv(a, b) <= RoundDiv(a, b) <= CeilDiv(a, b)
  {
    var h := FloorDiv(b - 1.0, 2.0);
    WholeNonNegative(h);
    FloorDivMono(a, a + h, b);
    FloorDivMono(a + h, a + b - 1.0, b);
  }

  /** On whole operands with a positive divisor, `ceil - floor` is 0 when the
      divisor divides exactly and 1 otherwise. */
  lemma {:induction false} CeilMinusFloor(a: real, b: real)
    requires IsWhole(a) && IsWhole(b) && b > 0.0
    ensures CeilDiv(a, b) - FloorDiv(a, b) == if PyMod(a, b) == 0.0 then 0.0 else 1.0
  {
    var q := FloorDiv(a, b);
    var m := PyMod(a, b);
    assert m == a - b * q;
    WholeArith(b, q);
    WholeArith(a, b * q);
    if m == 0.0 {
      WholeArith(q, 1.0);
      WholeArith(b, 1.0);
      WholeNonNegative(b - 1.0);
      assert b * (q - 1.0) + b == b * q;
      CeilOfRemainder(a, b, q - 1.0, b - 1.0);
    } else {
      WholeArith(m, 1.0);
      WholeNonNegative(m - 1.0);
      CeilOfRemainder(a, b, q, m - 1.0);
    }
  }

  /** If `a + b - 1 == b*t + b + s` with `0 <= s < b`, the ceiling quotient is `t + 1`. */
  lemma CeilOfRemainder(a: real, b: real, t: real, s: real)
    requires b > 0.0 && IsWhole(t) && 0.0 <= s < b
    requires a + b - 1.0 == b * t + b + s
    ensures CeilDiv(a, b) == t + 1.0
  {
    var u := t + 1.0;
    WholeArith(t, 1.0);
    assert b * u == b * t + b;
    assert b * 0.0 <= s < b * 0.0 + b;
    FloorDivUnique(s, b, 0.0);
    FloorDivShift(s, b, u);
    assert a + b - 1.0 == s + b * u;
  }

  /** On whole operands `round_division` picks the nearest multiple and, at an
      exact half, the lower one: `-b/2 < a - b*r <= b/2`. */
  lemma {:induction false} RoundDivNearest(a: int, b: int)
    requires b > 0
    ensures var r := RoundDiv(a as real, b as real);
      -(b as real) < 2.0 * (a as real - (b as real) * r) <= b as real
  {
    var h := (b - 1) / 2;
    FloorDivOfIntegers(b - 1, 2);
    assert FloorDiv((b - 1) as real, 2.0) == h as real;
    assert (b as real) - 1.0 == (b - 1) as real;
    var r := (a + h) / b;
    FloorDivOfIntegers(a + h, b);
    assert (a as real) + (h as real) == (a + h) as real;
    var m := (a + h) % b;
    assert a + h == b * r + m;
    assert (b as real) * (r as real) == (b * r) as real;
  }

  /** An exact half rounds down: `(2n+1)c` over `2c` gives `n`. */
  lemma {:induction false} RoundHalfDown(n: int, c: int)
    requires c > 0
    ensures RoundDiv(((2 * n + 1) * c) as real, (2 * c) as real) == n as real
  {
    var a, b, h := (2 * n + 1) * c, 2 * c, c - 1;
    FloorDivOfIntegers(b - 1, 2);
    assert (b - 1) / 2 == h;
    assert (b as real) - 1.0 == (b - 1) as real;
    var x := a + h;
    assert (a as real) + (h as real) == x as real;
    assert b * n <= x < b * n + b;
    assert (b as real) * (n as real) == (b * n) as real;
    FloorDivUnique(x as real, b as real, n as real);
  }
}
