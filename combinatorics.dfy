/**
 The numeric helpers of the statistics stage: the factorial loop, the
 binomial coefficient it relies on, and the Irwin-Hall cumulative
 distribution function, evaluated exactly over `real`.
 */
module Combinatorics {

  /** n * (n - 1) * ... * 2, and 1 for every n <= 1 (also for negative n). */
  function Fact(n: int): (r: real)
    ensures r >= 1.0
    decreases n
  {
    if n <= 1 then 1.0 else n as real * Fact(n - 1)
  }

  /** The counting-down loop: multiply `value` by n, n - 1, ..., 2. */
  method Factorial(n: int) returns (value: real)
    ensures value == Fact(n)
    ensures value >= 1.0
  {
    value := 1.0;
    var m := n;
    while m > 1
      invariant value * Fact(m) == Fact(n)
    {
      assert Fact(m) == m as real * Fact(m - 1);
      value := value * m as real;
      m := m - 1;
    }
  }

  /** Binomial coefficient on natural arguments: n! / (k! (n-k)!), and 0 when k > n. */
  function Binom(n: nat, k: nat): real
  {
    if k > n then 0.0 else Fact(n) / (Fact(k) * Fact(n - k))
  }

  function Pow(b: real, e: nat): real
  {
    if e == 0 then 1.0 else b * Pow(b, e - 1)
  }

  /** (-1)^k */
  function Sign(k: nat): real
  {
    if k % 2 == 0 then 1.0 else -1.0
  }

  /** The k-th summand (-1)^k C(n, k) (x - k)^n of the Irwin-Hall formula. */
  function Term(x: real, n: nat, k: nat): real
  {
    Sign(k) * Binom(n, k) * Pow(x - k as real, n)
  }

  /** Sum of the summands for k = 0, ..., m - 1. */
  function PartialSum(x: real, n: nat, m: nat): real
  {
    if m == 0 then 0.0 else PartialSum(x, n, m - 1) + Term(x, n, m - 1)
  }

  /**
   The Irwin-Hall distribution function of the sum of n independent
   uniform [0, 1] variables:
     F(x) = (1 / n!) * sum_{k = 0}^{floor x} (-1)^k C(n, k) (x - k)^n,
   with an empty sum (hence 0) when floor x < 0.
   */
  function IrwinHall(x: real, n: nat): real
  {
    if x.Floor < 0 then 0.0 else PartialSum(x, n, x.Floor + 1) / Fact(n)
  }

  /** The summation loop for k = 0, 1, ..., floor x, then the division by n!. */
  method IrwinHallCdf(x: real, n: nat) returns (p: real)
    ensures p == IrwinHall(x, n)
  {
    var value := 0.0;
    var k := 0;
    while k <= x.Floor
      invariant 0 <= k
      invariant x.Floor >= 0 ==> k <= x.Floor + 1
      invariant x.Floor < 0 ==> k == 0
      invariant value == PartialSum(x, n, k)
    {
      assert PartialSum(x, n, k + 1) == PartialSum(x, n, k) + Term(x, n, k);
      value := value + Term(x, n, k);
      k := k + 1;
    }
    var d := Factorial(n);
    p := value / d;
  }

  lemma {:induction false} PowZero(n: nat)
    requires n >= 1
    ensures Pow(0.0, n) == 0.0
  {
    if n > 1 {
      PowZero(n - 1);
    }
  }

  lemma {:induction false} PowNonNegative(b: real, n: nat)
    requires b >= 0.0
    ensures Pow(b, n) >= 0.0
  {
    if n > 0 {
      PowNonNegative(b, n - 1);
    }
  }

  /** On [0, 1) only the k = 0 summand is present: F(x) = x^n / n!. */
  lemma IrwinHallBelowOne(x: real, n: nat)
    requires 0.0 <= x < 1.0
    ensures IrwinHall(x, n) == Pow(x, n) / Fact(n)
  {
    assert x.Floor == 0;
    assert Binom(n, 0) == 1.0;
    assert PartialSum(x, n, 1) == Term(x, n, 0);
  }

  /** F(0) = 0 for every n >= 1. */
  lemma IrwinHallAtZero(n: nat)
    requires n >= 1
    ensures IrwinHall(0.0, n) == 0.0
  {
    IrwinHallBelowOne(0.0, n);
    PowZero(n);
  }

  /** F(x) = 0 below the support. */
  lemma IrwinHallBelowZero(x: real, n: nat)
    requires x < 0.0
    ensures IrwinHall(x, n) == 0.0
  {
  }

  /** For three summands, F(3) = (27 - 3 * 8 + 3 * 1 - 0) / 6 = 1. */
  lemma IrwinHallThreeAtThree()
    ensures IrwinHall(3.0, 3) == 1.0
  {
    assert (3.0).Floor == 3;
    assert Fact(3) == 6.0 && Fact(2) == 2.0 && Fact(1) == 1.0 && Fact(0) == 1.0;
    assert Binom(3, 0) == 1.0 && Binom(3, 1) == 3.0 && Binom(3, 2) == 3.0 && Binom(3, 3) == 1.0;
    assert Pow(3.0, 3) == 27.0 && Pow(2.0, 3) == 8.0 && Pow(1.0, 3) == 1.0 && Pow(0.0, 3) == 0.0;
    assert PartialSum(3.0, 3, 4) == 27.0 - 24.0 + 3.0 - 0.0;
  }

  /**
   The piecewise-cubic closed form of F for three summands on [0, 3],
   written in the local variable of each unit piece.
   */
  function IrwinHallThreePieces(x: real): real
  {
    if x < 1.0 then x * x * x / 6.0
    else if x < 2.0 then
      var u := x - 1.0; (-2.0 * u * u * u + 3.0 * u * u + 3.0 * u + 1.0) / 6.0
    else if x < 3.0 then
      var v := x - 3.0; (v * v * v + 6.0) / 6.0
    else 1.0
  }

  lemma PowThree(b: real)
    ensures Pow(b, 3) == b * b * b
  {
    assert Pow(b, 1) == b;
    assert Pow(b, 2) == b * b;
  }

  lemma BinomThree()
    ensures Binom(3, 0) == 1.0 && Binom(3, 1) == 3.0 && Binom(3, 2) == 3.0 && Binom(3, 3) == 1.0
  {
    assert Fact(3) == 6.0 && Fact(2) == 2.0 && Fact(1) == 1.0 && Fact(0) == 1.0;
  }

  lemma IrwinHallThreeSecondPiece(x: real)
    requires 1.0 <= x < 2.0
    ensures IrwinHall(x, 3) == IrwinHallThreePieces(x)
  {
    BinomThree();
    PowThree(x);
    PowThree(x - 1.0);
    assert x.Floor == 1;
    assert Fact(3) == 6.0;
    var u := x - 1.0;
    calc {
      PartialSum(x, 3, 2);
      PartialSum(x, 3, 1) + Term(x, 3, 1);
      PartialSum(x, 3, 0) + Term(x, 3, 0) + Term(x, 3, 1);
      Term(x, 3, 0) + Term(x, 3, 1);
      x * x * x - 3.0 * (u * u * u);
      -2.0 * u * u * u + 3.0 * u * u + 3.0 * u + 1.0;
    }
  }

  lemma IrwinHallThreeThirdPiece(x: real)
    requires 2.0 <= x < 3.0
    ensures IrwinHall(x, 3) == IrwinHallThreePieces(x)
  {
    ThirdTerms(x);
    ThirdPieceAlgebra(x);
    assert x.Floor == 2;
    assert Fact(3) == 6.0;
    calc {
      PartialSum(x, 3, 3);
      PartialSum(x, 3, 2) + Term(x, 3, 2);
      PartialSum(x, 3, 1) + Term(x, 3, 1) + Term(x, 3, 2);
      PartialSum(x, 3, 0) + Term(x, 3, 0) + Term(x, 3, 1) + Term(x, 3, 2);
      Term(x, 3, 0) + Term(x, 3, 1) + Term(x, 3, 2);
      Cube(x) - 3.0 * Cube(x - 1.0) + 3.0 * Cube(x - 2.0);
      Cube(x - 3.0) + 6.0;
    }
  }

  function Cube(c: real): real
  {
    c * c * c
  }

  /** The k-th summand for n = 3 as a multiple of a cube. */
  lemma TermAsCube(x: real, k: nat)
    ensures Term(x, 3, k) == Sign(k) * Binom(3, k) * Cube(x - k as real)
  {
    PowThree(x - k as real);
  }

  /** The first three summands for n = 3 as cubes. */
  lemma ThirdTerms(x: real)
    ensures Term(x, 3, 0) == Cube(x)
    ensures Term(x, 3, 1) == -3.0 * Cube(x - 1.0)
    ensures Term(x, 3, 2) == 3.0 * Cube(x - 2.0)
  {
    BinomThree();
    TermAsCube(x, 0);
    TermAsCube(x, 1);
    TermAsCube(x, 2);
    assert Sign(0) == 1.0 && Sign(1) == -1.0 && Sign(2) == 1.0;
  }

  /** x^3 - 3 (x - 1)^3 + 3 (x - 2)^3 = (x - 3)^3 + 6 */
  lemma ThirdPieceAlgebra(x: real)
    ensures Cube(x) - 3.0 * Cube(x - 1.0) + 3.0 * Cube(x - 2.0) == Cube(x - 3.0) + 6.0
  {
    var s := x * x;
    var c := x * x * x;
    assert Cube(x - 1.0) == c - 3.0 * s + 3.0 * x - 1.0;
    assert Cube(x - 2.0) == c - 6.0 * s + 12.0 * x - 8.0;
    assert Cube(x - 3.0) == c - 9.0 * s + 27.0 * x - 27.0;
  }

  /** The summation formula for n = 3 agrees with the piecewise cubic on [0, 3]. */
  lemma IrwinHallThreeClosedForm(x: real)
    requires 0.0 <= x <= 3.0
    ensures IrwinHall(x, 3) == IrwinHallThreePieces(x)
  {
    if x < 1.0 {
      IrwinHallBelowOne(x, 3);
      PowThree(x);
      assert Fact(3) == 6.0;
    } else if x < 2.0 {
      IrwinHallThreeSecondPiece(x);
    } else if x < 3.0 {
      IrwinHallThreeThirdPiece(x);
    } else {
      IrwinHallThreeAtThree();
    }
  }

  lemma MulPositive(a: real, b: real)
    requires a > 0.0 && b > 0.0
    ensures a * b > 0.0
  {
  }

  /** a * b <= a * c for a >= 0 and b <= c. */
  lemma MulMonotone(a: real, b: real, c: real)
    requires a >= 0.0 && b <= c
    ensures a * b <= a * c
  {
    assert a * c - a * b == a * (c - b);
  }

  /** Cubing is strictly increasing. */
  lemma CubeStrict(a: real, b: real)
    requires a < b
    ensures a * a * a < b * b * b
  {
    var c := a + b / 2.0;
    var q := a * a + a * b + b * b;
    assert q == c * c + 3.0 * (b * b) / 4.0;
    assert c * c >= 0.0;
    if b == 0.0 {
      MulPositive(-a, -a);
      assert q == a * a;
    } else if b > 0.0 {
      MulPositive(b, b);
    } else {
      MulPositive(-b, -b);
    }
    assert q > 0.0;
    MulPositive(b - a, q);
    assert b * b * b - a * a * a == (b - a) * q;
  }

  lemma CubeMonotone(a: real, b: real)
    requires a <= b
    ensures a * a * a <= b * b * b
  {
    if a < b {
      CubeStrict(a, b);
    }
  }

  /** The middle piece rises strictly from 1/6 to 5/6. */
  lemma MiddlePieceStrict(u: real, v: real)
    requires 0.0 <= u < v <= 1.0
    ensures -2.0 * u * u * u + 3.0 * u * u + 3.0 * u < -2.0 * v * v * v + 3.0 * v * v + 3.0 * v
  {
    MiddleSlope(u, v);
    var d := PositiveProduct(v - u, -2.0 * (u * u + v * u + v * v) + 3.0 * (u + v) + 3.0);
    MiddleFactor(u, v);
    PositiveDifference(-2.0 * u * u * u + 3.0 * u * u + 3.0 * u, -2.0 * v * v * v + 3.0 * v * v + 3.0 * v, d);
  }

  /** The second factor of that difference is positive. */
  lemma MiddleSlope(u: real, v: real)
    requires 0.0 <= u < v <= 1.0
    ensures -2.0 * (u * u + v * u + v * v) + 3.0 * (u + v) + 3.0 > 0.0
  {
    var uu := ProductAtMost(u, u);
    var vu := ProductAtMost(v, u);
    var vv := ProductAtMost(v, v);
    SumBound(uu, vu, vv, u, v);
  }

  /** The difference of the middle piece at two points, with the factor v - u taken out. */
  lemma MiddleFactor(u: real, v: real)
    ensures (-2.0 * v * v * v + 3.0 * v * v + 3.0 * v) - (-2.0 * u * u * u + 3.0 * u * u + 3.0 * u)
      == (v - u) * (-2.0 * (u * u + v * u + v * v) + 3.0 * (u + v) + 3.0)
  {
  }

  /** The step from a positive difference to an order, on plain numbers. */
  lemma PositiveDifference(a: real, b: real, d: real)
    requires b - a == d && d > 0.0
    ensures a < b
  {
  }

  /** The product of two positive numbers, named, and positive. */
  lemma PositiveProduct(a: real, b: real) returns (p: real)
    requires a > 0.0 && b > 0.0
    ensures p == a * b && p > 0.0
  {
    MulPositive(a, b);
    p := a * b;
  }

  /** A non-negative number scaled by at most one does not grow. */
  lemma ProductAtMost(a: real, b: real) returns (p: real)
    requires a >= 0.0 && b <= 1.0
    ensures p == a * b && p <= a
  {
    MulMonotone(a, b, 1.0);
    p := a * b;
  }

  /** The linear step of the bound above, on the three products as plain numbers. */
  lemma SumBound(a: real, b: real, c: real, u: real, v: real)
    requires a <= u && b <= v && c <= v && u < v <= u + 1.0
    ensures -2.0 * (a + b + c) + 3.0 * (u + v) + 3.0 > 0.0
  {
  }

  lemma MiddlePieceMonotone(u: real, v: real)
    requires 0.0 <= u <= v <= 1.0
    ensures -2.0 * u * u * u + 3.0 * u * u + 3.0 * u <= -2.0 * v * v * v + 3.0 * v * v + 3.0 * v
  {
    if u < v {
      MiddlePieceStrict(u, v);
    }
  }

  /** Each unit piece stays between the values at the ends of its interval, below the right end. */
  lemma PiecesBetweenEnds(t: real)
    requires 0.0 <= t <= 3.0
    ensures t < 1.0 ==> IrwinHallThreePieces(t) < 1.0 / 6.0
    ensures 1.0 <= t < 2.0 ==> 1.0 / 6.0 <= IrwinHallThreePieces(t) < 5.0 / 6.0
    ensures 2.0 <= t < 3.0 ==> 5.0 / 6.0 <= IrwinHallThreePieces(t) < 1.0
    ensures 2.0 <= t ==> 5.0 / 6.0 <= IrwinHallThreePieces(t)
  {
    if t < 1.0 {
      CubeStrict(t, 1.0);
    } else if t < 2.0 {
      MiddlePieceMonotone(0.0, t - 1.0);
      MiddlePieceStrict(t - 1.0, 1.0);
    } else if t < 3.0 {
      CubeMonotone(-1.0, t - 3.0);
      CubeStrict(t - 3.0, 0.0);
    }
  }

  /** The piecewise cubic is strictly increasing on [0, 3]. */
  lemma PiecesStrict(x: real, y: real)
    requires 0.0 <= x < y <= 3.0
    ensures IrwinHallThreePieces(x) < IrwinHallThreePieces(y)
  {
    if y < 1.0 {
      CubeStrict(x, y);
    } else if x < 1.0 {
      PiecesBetweenEnds(x);
      PiecesBetweenEnds(y);
    } else if y < 2.0 {
      MiddlePieceStrict(x - 1.0, y - 1.0);
    } else if x < 2.0 {
      PiecesBetweenEnds(x);
      PiecesBetweenEnds(y);
    } else if y < 3.0 {
      CubeStrict(x - 3.0, y - 3.0);
    } else {
      PiecesBetweenEnds(x);
    }
  }

  /** F(x) for three summands is strictly increasing on [0, 3]. */
  lemma IrwinHallThreeStrict(x: real, y: real)
    requires 0.0 <= x < y <= 3.0
    ensures IrwinHall(x, 3) < IrwinHall(y, 3)
  {
    IrwinHallThreeClosedForm(x);
    IrwinHallThreeClosedForm(y);
    PiecesStrict(x, y);
  }

  /** F(x) for three summands never decreases on [0, 3]. */
  lemma IrwinHallThreeMonotone(x: real, y: real)
    requires 0.0 <= x <= y <= 3.0
    ensures IrwinHall(x, 3) <= IrwinHall(y, 3)
  {
    if x < y {
      IrwinHallThreeStrict(x, y);
    }
  }

  /** F(x) for three summands is a probability on [0, 3]. */
  lemma IrwinHallThreeBounds(x: real)
    requires 0.0 <= x <= 3.0
    ensures 0.0 <= IrwinHall(x, 3) <= 1.0
  {
    IrwinHallThreeMonotone(0.0, x);
    IrwinHallThreeMonotone(x, 3.0);
    IrwinHallAtZero(3);
    IrwinHallThreeAtThree();
  }
}
