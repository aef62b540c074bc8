/**
 * Model of `algorithmics/utils/coordinate.py`: an immutable 2D point with
 * tolerance-based equality, componentwise arithmetic and Euclidean distance.
 * Floats are modelled as mathematical reals.
 */
module Coordinates {
  import opened Wrappers

  /** Largest per-axis difference at which two coordinates still compare equal (1e-6). */
  const TOLERANCE: real := 0.000001

  datatype Coordinate = Coordinate(x: real, y: real)

  /** The right-hand operand of a Python operator: a Coordinate, an int or float, or any other object. */
  datatype Operand =
    | CoordinateOperand(c: Coordinate)
    | NumberOperand(n: real)
    | OtherOperand

  /** The exceptions the operators raise. */
  datatype Error = TypeError(message: string) | ZeroDivisionError

  const ADDITION_MESSAGE := "Addition is allowed only between two coordinates"
  const SUBTRACTION_MESSAGE := "Subtraction is allowed only between two coordinates"
  const DIVISION_MESSAGE := "Division on coordinate is only possible with a numerical"
  const MULTIPLICATION_MESSAGE := "Multiplication on coordinate is only possible with a numerical"

  const ORIGIN := Coordinate(0.0, 0.0)

  function Abs(r: real): real {
    if r < 0.0 then -r else r
  }

  /** `a == o`: never raises; false for an operand that is not a Coordinate. */
  function Equals(a: Coordinate, o: Operand): (eq: bool)
    ensures eq <==> o.CoordinateOperand?
                    && -TOLERANCE <= a.x - o.c.x <= TOLERANCE
                    && -TOLERANCE <= a.y - o.c.y <= TOLERANCE
  {
    match o
    case CoordinateOperand(c) => Abs(a.x - c.x) <= TOLERANCE && Abs(a.y - c.y) <= TOLERANCE
    case _ => false
  }

  lemma ApproxEqualReflexive(a: Coordinate)
    ensures Equals(a, CoordinateOperand(a))
  {
  }

  lemma ApproxEqualSymmetric(a: Coordinate, b: Coordinate)
    ensures Equals(a, CoordinateOperand(b)) <==> Equals(b, CoordinateOperand(a))
  {
  }

  /** Tolerance equality is not transitive: 0, 1e-6 and 2e-6 on the x axis. */
  lemma ApproxEqualNotTransitive()
    ensures exists a: Coordinate, b: Coordinate, c: Coordinate ::
              Equals(a, CoordinateOperand(b)) && Equals(b, CoordinateOperand(c)) && !Equals(a, CoordinateOperand(c))
  {
    var a, b, c := ORIGIN, Coordinate(TOLERANCE, 0.0), Coordinate(2.0 * TOLERANCE, 0.0);
    assert Equals(a, CoordinateOperand(b)) && Equals(b, CoordinateOperand(c)) && !Equals(a, CoordinateOperand(c));
  }

  // ---------------------------------------------------------------------------------------------
  // Arithmetic. The componentwise operations are total; the operator functions below dispatch on
  // the operand's type as the Python methods do.

  /** `-a`: the additive inverse. */
  function Neg(a: Coordinate): (r: Coordinate)
    ensures Plus(a, r) == ORIGIN
  {
    Coordinate(-a.x, -a.y)
  }

  function Plus(a: Coordinate, b: Coordinate): Coordinate {
    Coordinate(a.x + b.x, a.y + b.y)
  }

  function Minus(a: Coordinate, b: Coordinate): Coordinate {
    Coordinate(a.x - b.x, a.y - b.y)
  }

  function Scale(a: Coordinate, k: real): Coordinate {
    Coordinate(a.x * k, a.y * k)
  }

  function Shrink(a: Coordinate, k: real): Coordinate
    requires k != 0.0
  {
    Coordinate(a.x / k, a.y / k)
  }

  /** `a + other`: a Coordinate operand gives the sum, any other operand raises TypeError. */
  function Add(a: Coordinate, other: Operand): (r: Result<Coordinate, Error>)
    ensures r.Ok? <==> other.CoordinateOperand?
    ensures r.Ok? ==> r.value == Plus(a, other.c)
    ensures r.Err? ==> r.error == TypeError(ADDITION_MESSAGE)
  {
    if other.CoordinateOperand? then Ok(Plus(a, other.c)) else Err(TypeError(ADDITION_MESSAGE))
  }

  /** `a - other`: a Coordinate operand gives the difference, any other operand raises TypeError. */
  function Sub(a: Coordinate, other: Operand): (r: Result<Coordinate, Error>)
    ensures r.Ok? <==> other.CoordinateOperand?
    ensures r.Ok? ==> r.value == Minus(a, other.c)
    ensures r.Err? ==> r.error == TypeError(SUBTRACTION_MESSAGE)
  {
    if other.CoordinateOperand? then Ok(Minus(a, other.c)) else Err(TypeError(SUBTRACTION_MESSAGE))
  }

  /** `a * other`: a number scales both axes, any other operand raises TypeError. */
  function Mul(a: Coordinate, other: Operand): (r: Result<Coordinate, Error>)
    ensures r.Ok? <==> other.NumberOperand?
    ensures r.Ok? ==> r.value == Scale(a, other.n)
    ensures r.Err? ==> r.error == TypeError(MULTIPLICATION_MESSAGE)
  {
    if other.NumberOperand? then Ok(Scale(a, other.n)) else Err(TypeError(MULTIPLICATION_MESSAGE))
  }

  /**
   * `a / other`: a non-zero number divides both axes; a non-number raises TypeError and a zero
   * divisor raises ZeroDivisionError (Python float division by zero).
   */
  function TrueDiv(a: Coordinate, other: Operand): (r: Result<Coordinate, Error>)
    ensures r.Ok? <==> other.NumberOperand? && other.n != 0.0
    ensures r.Ok? ==> r.value == Shrink(a, other.n)
    ensures r.Err? ==> r.error == if other.NumberOperand? then ZeroDivisionError else TypeError(DIVISION_MESSAGE)
  {
    if !other.NumberOperand? then Err(TypeError(DIVISION_MESSAGE))
    else if other.n == 0.0 then Err(ZeroDivisionError)
    else Ok(Shrink(a, other.n))
  }

  lemma NegInvolution(a: Coordinate)
    ensures Neg(Neg(a)) == a
  {
  }

  lemma NegIsAdditiveInverse(a: Coordinate)
    ensures Add(a, CoordinateOperand(Neg(a))) == Ok(ORIGIN)
  {
  }

  lemma AddCommutative(a: Coordinate, b: Coordinate)
    ensures Add(a, CoordinateOperand(b)) == Add(b, CoordinateOperand(a))
  {
  }

  lemma AddAssociative(a: Coordinate, b: Coordinate, c: Coordinate)
    ensures Add(Add(a, CoordinateOperand(b)).value, CoordinateOperand(c))
            == Add(a, CoordinateOperand(Add(b, CoordinateOperand(c)).value))
  {
  }

  lemma SubIsAddNeg(a: Coordinate, b: Coordinate)
    ensures Sub(a, CoordinateOperand(b)) == Add(a, CoordinateOperand(Neg(b)))
  {
  }

  lemma AddThenSub(a: Coordinate, b: Coordinate)
    ensures Sub(Plus(a, b), CoordinateOperand(b)) == Ok(a)
  {
  }

  lemma MulThenDiv(a: Coordinate, k: real)
    requires k != 0.0
    ensures TrueDiv(Scale(a, k), NumberOperand(k)) == Ok(a)
  {
    DivideCancels(a.x, k);
    DivideCancels(a.y, k);
    assert Shrink(Scale(a, k), k) == a;
  }

  lemma DivideCancels(r: real, k: real)
    requires k != 0.0
    ensures r * k / k == r
  {
    var q := r * k / k;
    assert q * k == r * k;
    assert (q - r) * k == 0.0;
  }

  /** Arithmetic with a non-Coordinate (or, for scaling, a non-number) never yields a value. */
  lemma OperatorsRejectWrongOperands(a: Coordinate, k: real, b: Coordinate)
    ensures Add(a, NumberOperand(k)).Err? && Add(a, OtherOperand).Err?
    ensures Sub(a, NumberOperand(k)).Err? && Sub(a, OtherOperand).Err?
    ensures Mul(a, CoordinateOperand(b)).Err? && Mul(a, OtherOperand).Err?
    ensures TrueDiv(a, CoordinateOperand(b)).Err? && TrueDiv(a, OtherOperand).Err?
  {
  }

  /** The doctests: -(5, 5) == (-5, -5) and (5, 5) + (10, 10) == (15, 15). */
  lemma ArithmeticExamples()
    ensures Neg(Coordinate(5.0, 5.0)) == Coordinate(-5.0, -5.0)
    ensures Add(Coordinate(5.0, 5.0), CoordinateOperand(Coordinate(10.0, 10.0))) == Ok(Coordinate(15.0, 15.0))
  {
  }

  // ---------------------------------------------------------------------------------------------
  // Distance. `distance_to` returns the square root of the squared distance; the square root is
  // not a Dafny function, so its result is characterised by IsDistance.

  function Square(r: real): (s: real)
    ensures s >= 0.0
  {
    r * r
  }

  /** `(a.x - b.x) ** 2 + (a.y - b.y) ** 2`, the radicand of `distance_to`. */
  function SquaredDistance(a: Coordinate, b: Coordinate): (d2: real)
    ensures d2 >= 0.0
  {
    Square(a.x - b.x) + Square(a.y - b.y)
  }

  /** The squared distance vanishes exactly between identical coordinates. */
  lemma SquaredDistanceZero(a: Coordinate, b: Coordinate)
    ensures SquaredDistance(a, b) == 0.0 <==> a == b
  {
    SquareStrictlyMonotone(0.0, Abs(a.x - b.x));
    SquareStrictlyMonotone(0.0, Abs(a.y - b.y));
  }

  /** `d` is the value of `a.distance_to(b)`: the non-negative square root of the squared distance. */
  ghost predicate IsDistance(a: Coordinate, b: Coordinate, d: real): (ok: bool)
    ensures ok ==> (d == 0.0 <==> a == b)
  {
    // The lemma calls prove the ensures: the squared distance vanishes only between identical
    // coordinates, and a non-negative d has d * d == 0 only when d == 0.
    SquaredDistanceZero(a, b);
    d >= 0.0 && (SquareStrictlyMonotone(0.0, d); d * d == SquaredDistance(a, b))
  }

  /** Non-negative square roots are unique, so `distance_to` is a function of its operands. */
  lemma DistanceUnique(a: Coordinate, b: Coordinate, d1: real, d2: real)
    requires IsDistance(a, b, d1) && IsDistance(a, b, d2)
    ensures d1 == d2
  {
    SquareStrictlyMonotone(d1, d2);
    SquareStrictlyMonotone(d2, d1);
  }

  /** On non-negative reals, squaring preserves and reflects strict order. */
  lemma SquareStrictlyMonotone(u: real, v: real)
    requires u >= 0.0 && v >= 0.0
    ensures u < v <==> u * u < v * v
  {
    if u < v {
      SquareLess(u, v);
    } else {
      assert v * v <= v * u <= u * u;
    }
  }

  lemma SquareLess(u: real, v: real)
    requires 0.0 <= u < v
    ensures u * u < v * v
  {
    PositiveProduct(v - u, v + u);
    assert v * v - u * u == (v - u) * (v + u);
  }

  lemma PositiveProduct(a: real, b: real)
    requires a > 0.0 && b > 0.0
    ensures a * b > 0.0
  {
  }

  lemma DistanceSymmetric(a: Coordinate, b: Coordinate, d: real)
    ensures IsDistance(a, b, d) <==> IsDistance(b, a, d)
  {
    assert SquaredDistance(a, b) == SquaredDistance(b, a);
  }

  lemma DistanceToSelf(a: Coordinate, d: real)
    ensures IsDistance(a, a, d) <==> d == 0.0
  {
    if IsDistance(a, a, d) {
      SquareStrictlyMonotone(0.0, d);
    }
  }

  /** The distance is the norm of the difference `a - b`. */
  lemma DistanceIsNormOfDifference(a: Coordinate, b: Coordinate)
    ensures SquaredDistance(a, b) == SquaredDistance(Minus(a, b), ORIGIN)
  {
  }

  /** Doctest: from (5, 5) to (10, 10) the squared distance is 50 and the distance is 7.0710678... */
  lemma DistanceExample(d: real)
    requires IsDistance(Coordinate(5.0, 5.0), Coordinate(10.0, 10.0), d)
    ensures d * d == 50.0
    ensures 7.0710678 < d < 7.0710679
  {
    assert SquaredDistance(Coordinate(5.0, 5.0), Coordinate(10.0, 10.0)) == 50.0;
    SquareStrictlyMonotone(7.0710678, d);
    SquareStrictlyMonotone(d, 7.0710679);
  }

  /** Coordinates that compare equal are at most sqrt(2) * 1e-6 apart. */
  lemma ApproxEqualBoundsDistance(a: Coordinate, b: Coordinate)
    requires Equals(a, CoordinateOperand(b))
    ensures SquaredDistance(a, b) <= 2.0 * TOLERANCE * TOLERANCE
  {
    SquareStrictlyMonotone(TOLERANCE, Abs(a.x - b.x));
    SquareStrictlyMonotone(TOLERANCE, Abs(a.y - b.y));
  }

  /** Coordinates at most 1e-6 apart compare equal. */
  lemma CloseCoordinatesAreEqual(a: Coordinate, b: Coordinate)
    requires SquaredDistance(a, b) <= TOLERANCE * TOLERANCE
    ensures Equals(a, CoordinateOperand(b))
  {
    SquareStrictlyMonotone(TOLERANCE, Abs(a.x - b.x));
    SquareStrictlyMonotone(TOLERANCE, Abs(a.y - b.y));
  }
}
