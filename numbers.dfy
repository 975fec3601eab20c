/**
 * Integer number theory of simple_tools/numbers.py: Euclid's greatest common
 * factor, trial-division primality, the factorial, the digit-pair ("Vedic")
 * integer square root, the bit-by-bit integer n-th root, the square-root
 * bracket test, and the search for the least period of a modular power.
 * The source's arbitrary-precision ints are Dafny's unbounded ints.
 */
module Numbers {
  import opened Runtime
  import opened Text

  // ---------------------------------------------------------------------
  // Python arithmetic

  /** Python's floor division `a // b`. */
  function PyDiv(a: int, b: int): int
    requires b != 0
  {
    if b > 0 || a % b == 0 then a / b else a / b - 1
  }

  /** Python's `a % b`: the remainder takes the sign of the divisor. */
  function PyMod(a: int, b: int): (r: int)
    requires b != 0
    ensures b > 0 ==> 0 <= r < b
    ensures b < 0 ==> b < r <= 0
    ensures a == PyDiv(a, b) * b + r
  {
    if b > 0 || a % b == 0 then a % b else a % b + b
  }

  /** `b ** e` for a natural exponent. */
  function Pow(b: int, e: nat): int {
    if e == 0 then 1 else b * Pow(b, e - 1)
  }

  /** Python's three-argument `pow(b, e, m)`. */
  function ModPow(b: int, e: nat, m: int): int
    requires m != 0
  {
    PyMod(Pow(b, e), m)
  }

  /** `n.bit_length()` for a non-negative n. */
  function BitLength(n: nat): nat {
    if n == 0 then 0 else 1 + BitLength(n / 2)
  }

  function Abs(x: int): nat {
    if x < 0 then -x else x
  }

  // ---------------------------------------------------------------------
  // Divisibility

  /** d divides x (0 divides only 0). */
  predicate Divides(d: int, x: int) {
    if d == 0 then x == 0 else x % d == 0
  }

  /** g is a greatest common divisor of a and b: a common divisor that every common divisor divides. */
  ghost predicate IsGreatestCommonDivisor(g: int, a: int, b: int) {
    && Divides(g, a) && Divides(g, b)
    && forall d :: Divides(d, a) && Divides(d, b) ==> Divides(d, g)
  }

  lemma MulNonZeroAtLeast(m: int, d: int)
    requires m != 0 && d != 0
    ensures Abs(m * d) >= Abs(d)
  {
    var am, ad := Abs(m), Abs(d);
    MulMonotone(1, ad, am, ad);
    assert am * ad == Abs(m * d) by {
      if m < 0 && d < 0 { assert am * ad == (-m) * (-d) == m * d; }
      else if m < 0 { assert am * ad == (-m) * d == -(m * d); }
      else if d < 0 { assert am * ad == m * (-d) == -(m * d); }
    }
  }

  /** Dafny's Euclidean remainder is the unique r in [0, |d|) with n == q * d + r. */
  lemma ModUnique(n: int, d: int, q: int, r: int)
    requires d != 0 && 0 <= r < Abs(d) && n == q * d + r
    ensures n % d == r
  {
    var q', r' := n / d, n % d;
    assert n == d * q' + r';
    assert (q - q') * d == r' - r;
    if q != q' {
      MulNonZeroAtLeast(q - q', d);
    }
  }

  /** x and y == x + k * d leave the same remainder modulo d. */
  lemma ModAddMultiple(x: int, d: int, k: int)
    requires d != 0
    ensures (x + k * d) % d == x % d
  {
    var q, r := x / d, x % d;
    assert x == d * q + r;
    assert x + k * d == (q + k) * d + r;
    ModUnique(x + k * d, d, q + k, r);
  }

  lemma DividesMultiple(d: int, k: int)
    ensures Divides(d, k * d)
  {
    if d != 0 {
      ModAddMultiple(0, d, k);
    }
  }

  /** When d divides x the quotient multiplies back exactly. */
  lemma ExactQuotient(x: int, d: int)
    requires d != 0 && x % d == 0
    ensures x == d * (x / d)
  {
  }

  /** Common divisors of x and y divide every x + k * y. */
  lemma DividesCombination(d: int, x: int, y: int, k: int)
    requires Divides(d, x) && Divides(d, y)
    ensures Divides(d, x + k * y)
  {
    if d != 0 {
      var qx, qy := x / d, y / d;
      assert x == d * qx && y == d * qy;
      assert x + k * y == (qx + k * qy) * d;
      DividesMultiple(d, qx + k * qy);
    }
  }

  // ---------------------------------------------------------------------
  // gcf (numbers.py:24-37)

  /** The value of the `while b:` loop of gcf entered with the pair (a, b). */
  function EuclidLoop(a: int, b: int): int
    decreases Abs(b)
  {
    if b == 0 then a else EuclidLoop(b, PyMod(a, b))
  }

  /** gcf(a, b): order the pair so that the smaller one comes first, then run Euclid's loop. */
  function EuclidGcf(a: int, b: int): int {
    if b < a then EuclidLoop(b, a) else EuclidLoop(a, b)
  }

  /** One step of Euclid's loop keeps the common divisors: (a, b) and (b, a % b) share them. */
  lemma EuclidStep(a: int, b: int, g: int)
    requires b != 0
    requires IsGreatestCommonDivisor(g, b, PyMod(a, b))
    ensures IsGreatestCommonDivisor(g, a, b)
  {
    var m, k := PyMod(a, b), PyDiv(a, b);
    assert a == m + k * b;
    DividesCombination(g, m, b, k);
    forall d | Divides(d, a) && Divides(d, b) ensures Divides(d, g) {
      DividesCombination(d, a, b, -k);
      assert a + (-k) * b == m;
    }
  }

  lemma {:induction false} EuclidLoopIsGcd(a: int, b: int)
    ensures IsGreatestCommonDivisor(EuclidLoop(a, b), a, b)
    decreases Abs(b)
  {
    if b != 0 {
      EuclidLoopIsGcd(b, PyMod(a, b));
      EuclidStep(a, b, EuclidLoop(b, PyMod(a, b)));
    }
  }

  /** The greatest common factor is the same whichever argument comes first. */
  lemma GcfSymmetric(a: int, b: int)
    ensures EuclidGcf(a, b) == EuclidGcf(b, a)
  {
  }

  lemma {:induction false} EuclidLoopNonNegative(a: int, b: int)
    requires a >= 0 && b >= 0
    ensures EuclidLoop(a, b) >= 0
    decreases b
  {
    if b != 0 {
      EuclidLoopNonNegative(b, PyMod(a, b));
    }
  }

  /** For whole numbers the result is non-negative, and zero only for gcf(0, 0). */
  lemma GcfOfWholeNumbers(a: int, b: int)
    requires a >= 0 && b >= 0
    ensures EuclidGcf(a, b) >= 0
    ensures EuclidGcf(a, b) == 0 <==> a == 0 && b == 0
  {
    if b < a { EuclidLoopNonNegative(b, a); EuclidLoopIsGcd(b, a); }
    else { EuclidLoopNonNegative(a, b); EuclidLoopIsGcd(a, b); }
  }

  /** gcf(a, b) of numbers.py:24-37, for any Python ints a and b. */
  method Gcf(a: int, b: int) returns (r: int)
    ensures r == EuclidGcf(a, b)
    ensures IsGreatestCommonDivisor(r, a, b)
  {
    var x, y := a, b;
    if y < x {
      x, y := y, x;
    }
    while y != 0
      invariant EuclidLoop(x, y) == EuclidGcf(a, b)
      decreases Abs(y)
    {
      var c := PyMod(x, y);
      x := y;
      y := c;
    }
    r := x;
    if b < a { EuclidLoopIsGcd(b, a); } else { EuclidLoopIsGcd(a, b); }
  }

  // ---------------------------------------------------------------------
  // Integer square root, primality (numbers.py:40-49, 158-165)

  /** is_sqrt(root_candidate, square) of numbers.py:158-165. */
  predicate IsSqrt(rootCandidate: int, square: int) {
    rootCandidate * rootCandidate <= square < (rootCandidate + 1) * (rootCandidate + 1)
  }

  lemma MulMonotone(a: int, b: int, c: int, d: int)
    requires 0 <= a <= c && 0 <= b <= d
    ensures a * b <= c * d
  {
    assert a * b <= c * b;
    assert c * b <= c * d;
  }

  lemma IsSqrtNonNegative(r: int, n: int)
    requires IsSqrt(r, n)
    ensures r >= 0
  {
  }

  /** At most one integer passes the bracket test for a given square. */
  lemma IsSqrtUnique(r1: int, r2: int, n: int)
    requires IsSqrt(r1, n) && IsSqrt(r2, n)
    ensures r1 == r2 && r1 >= 0
  {
    IsSqrtNonNegative(r1, n);
    IsSqrtNonNegative(r2, n);
    if r1 < r2 {
      MulMonotone(r1 + 1, r1 + 1, r2, r2);
    } else if r2 < r1 {
      MulMonotone(r2 + 1, r2 + 1, r1, r1);
    }
  }

  /**
   * The expectation of the _test_sqrt helper (numbers.py:152-155): for j in
   * [i*i, (i+1)*(i+1)) the only answer accepted for j is i, which is exactly
   * the bracket test.
   */
  lemma TestSqrtExpectation(i: nat, j: int)
    requires i * i <= j < (i + 1) * (i + 1)
    ensures forall r :: IsSqrt(r, j) <==> r == i
  {
    forall r | IsSqrt(r, j) ensures r == i {
      IsSqrtUnique(r, i, j);
    }
  }

  /** Doubling the root of n / 4 brackets the root of n within two. */
  lemma IsqrtDoubling(n: nat, s: nat)
    requires IsSqrt(s, n / 4)
    ensures (2 * s) * (2 * s) <= n < (2 * s + 2) * (2 * s + 2)
  {
    var q := n / 4;
    assert n == 4 * q + n % 4;
    var a, b := s * s, (s + 1) * (s + 1);
    assert (2 * s) * (2 * s) == 4 * a;
    assert (2 * s + 2) * (2 * s + 2) == 4 * b;
  }

  /** The exact `int(floor(sqrt(n)))`. */
  function Isqrt(n: nat): (r: nat)
    ensures IsSqrt(r, n)
  {
    if n < 4 then
      (if n == 0 then 0 else 1)
    else
      var h := 2 * Isqrt(n / 4);
      IsqrtDoubling(n, Isqrt(n / 4));
      if (h + 1) * (h + 1) <= n then h + 1 else h
  }

  /** trial division up to the integer square root: is_prime_primitive(x) of numbers.py:40-49. */
  predicate IsPrimePrimitive(x: int) {
    x >= 2 && !(exists y :: 2 <= y <= Isqrt(x) && x % y == 0)
  }

  /** x is prime: at least 2 and without a divisor strictly between 1 and x. */
  ghost predicate IsPrime(x: int) {
    x >= 2 && forall d :: 2 <= d < x ==> x % d != 0
  }

  lemma CofactorAtLeastTwo(x: int, d: int, e: int)
    requires 2 <= d < x && x == d * e
    ensures e >= 2
  {
  }

  /** A number with a proper divisor has one no larger than its square root. */
  lemma SmallFactor(x: int, d: int) returns (e: int)
    requires 2 <= d < x && x % d == 0
    ensures 2 <= e <= Isqrt(x) && x % e == 0
  {
    var s := Isqrt(x);
    if d <= s {
      return d;
    }
    e := x / d;
    ExactQuotient(x, d);
    CofactorAtLeastTwo(x, d, e);
    assert e <= s by {
      if e > s { MulMonotone(s + 1, s + 1, d, e); }
    }
    DividesMultiple(e, d);
  }

  /** A divisor no larger than the square root is a proper divisor. */
  lemma SmallFactorIsProper(x: int, y: int)
    requires x >= 2 && 2 <= y <= Isqrt(x)
    ensures y < x
  {
    var s := Isqrt(x);
    MulMonotone(2, y, y, s);
    MulMonotone(y, s, s, s);
  }

  /** Trial division up to the square root decides primality exactly. */
  lemma IsPrimePrimitiveCorrect(x: int)
    ensures IsPrimePrimitive(x) <==> IsPrime(x)
  {
    if x >= 2 {
      if IsPrimePrimitive(x) {
        forall d | 2 <= d < x ensures x % d != 0 {
          if x % d == 0 {
            var e := SmallFactor(x, d);
            assert false;
          }
        }
      } else {
        var y :| 2 <= y <= Isqrt(x) && x % y == 0;
        SmallFactorIsProper(x, y);
      }
    }
  }

  // ---------------------------------------------------------------------
  // factorial_primitive (numbers.py:52-61)

  /** x! = 1 * 2 * ... * x, and 1 for x <= 0. */
  function Factorial(x: int): (f: nat)
    ensures f >= 1
  {
    if x <= 0 then 1 else x * Factorial(x - 1)
  }

  /** Every factor 1..x divides x!. */
  lemma {:induction false} FactorialDivisible(x: int, k: int)
    requires 1 <= k <= x
    ensures Factorial(x) % k == 0
  {
    if k == x {
      DividesMultiple(x, Factorial(x - 1));
      assert Factorial(x) == Factorial(x - 1) * x;
    } else {
      FactorialDivisible(x - 1, k);
      var q := Factorial(x - 1) / k;
      assert Factorial(x - 1) == q * k;
      assert Factorial(x) == (x * q) * k;
      DividesMultiple(k, x * q);
    }
  }

  /** factorial_primitive(x): the running product over range(1, x + 1). */
  method FactorialPrimitive(x: int) returns (r: int)
    ensures r == Factorial(x)
  {
    r := 1;
    var y := 1;
    while y <= x
      invariant 1 <= y && (x >= 0 ==> y <= x + 1) && (x < 0 ==> y == 1)
      invariant r == Factorial(y - 1)
    {
      r := r * y;
      y := y + 1;
    }
  }

  // ---------------------------------------------------------------------
  // better_isqrt (numbers.py:91-119)

  /**
   * One digit of the root: with r the root so far, rest the remainder so far
   * and D = 100 * rest + pair the remainder with the next pair of digits
   * brought down, the largest digit a whose trial (20 r + a) * a fits in D
   * extends the root to 10 r + a and keeps the remainder within 2 (10 r + a).
   */
  lemma DigitStep(r: int, rest: int, n: int, pair: int, divisor: int, a: int, d: int, y1: int,
                   newRoot: int, newRest: int, total: int)
    requires r >= 0 && 0 <= rest <= 2 * r && r * r + rest == n && divisor == 2 * r
    requires 0 <= pair <= 99 && d == rest * 100 + pair && total == n * 100 + pair && 0 <= a
    requires y1 == (divisor * 10 + a) * a <= d < (divisor * 10 + (a + 1)) * (a + 1)
    requires newRoot == 10 * r + a && newRest == d - y1
    ensures newRoot * newRoot + newRest == total
    ensures 0 <= newRest <= 2 * newRoot
  {
    assert newRoot * newRoot == 100 * (r * r) + (2 * r * 10 + a) * a;
    assert (2 * r * 10 + (a + 1)) * (a + 1) == (2 * r * 10 + a) * a + 2 * newRoot + 1;
  }

  /** Bringing down the pair of digits at y0: both the number read so far and the remainder shift by 100. */
  lemma BringDownPair(x0: string, y0: nat, rest: nat)
    requires AllDigits(x0) && y0 + 2 <= |x0|
    ensures AllDigits(x0[y0..y0 + 2]) && DigitsValue(x0[y0..y0 + 2]) <= 99
    ensures AllDigits(NatToString(rest) + x0[y0..y0 + 2])
    ensures DigitsValue(NatToString(rest) + x0[y0..y0 + 2]) == rest * 100 + DigitsValue(x0[y0..y0 + 2])
    ensures DigitsValue(x0[..y0 + 2]) == DigitsValue(x0[..y0]) * 100 + DigitsValue(x0[y0..y0 + 2])
  {
    var pair := x0[y0..y0 + 2];
    assert x0[..y0 + 2] == x0[..y0] + pair;
    TwoDigitValue(pair);
    assert Pow10(|pair|) == 100;
    DigitsValueConcat(x0[..y0], pair);
    DigitsValueConcat(NatToString(rest), pair);
    DigitsValueOfNatToString(rest);
  }

  /** Appending the decimal digit a to the root string multiplies its value by ten and adds a. */
  lemma AppendDigit(bases: string, a: nat)
    requires AllDigits(bases) && a < 10
    ensures AllDigits(bases + NatToString(a))
    ensures DigitsValue(bases + NatToString(a)) == DigitsValue(bases) * 10 + a
  {
    var t := bases + NatToString(a);
    assert t[..|bases|] == bases;
  }

  /** A remainder of at most 2 r above r * r keeps n below (r + 1) * (r + 1). */
  lemma SqrtFromRemainder(r: int, dropped: int, n: int)
    requires 0 <= dropped <= 2 * r && r * r + dropped == n
    ensures IsSqrt(r, n)
  {
    assert (r + 1) * (r + 1) == r * r + 2 * r + 1;
  }

  /**
   * The inner `while True` of better_isqrt: the largest digit `affixed`
   * whose trial product (divisor * 10 + affixed) * affixed still fits in the
   * remainder, and that product.
   */
  method FitDigit(divisor: int, dropped: int) returns (affixed: int, y1: int)
    requires divisor >= 0 && 0 <= dropped < divisor * 100 + 100
    ensures 0 <= affixed <= 9
    ensures y1 == (divisor * 10 + affixed) * affixed <= dropped
    ensures dropped < (divisor * 10 + (affixed + 1)) * (affixed + 1)
  {
    affixed := 1;
    var tmp := 0;
    while true
      invariant 1 <= affixed <= 10
      invariant tmp == (divisor * 10 + (affixed - 1)) * (affixed - 1) <= dropped
      decreases 10 - affixed
    {
      assert affixed == 10 ==> (divisor * 10 + affixed) * affixed == divisor * 100 + 100;
      y1 := (divisor * 10 + affixed) * affixed;
      if y1 > dropped {
        affixed := affixed - 1;
        y1 := tmp;
        break;
      }
      affixed := affixed + 1;
      tmp := y1;
    }
  }

  /**
   * One pass of the outer loop of better_isqrt: bring down the pair of digits
   * at y0, find the next digit of the root, and subtract its trial product.
   * Afterwards the root string squared plus the remainder is the number
   * formed by the digits up to y0 + 2.
   */
  method NextRootDigit(x0: string, y0: nat, divisor: int, dropped: int, bases: string)
    returns (dropped': int, bases': string, divisor': int)
    requires AllDigits(x0) && y0 + 2 <= |x0|
    requires AllDigits(bases) && divisor == 2 * DigitsValue(bases)
    requires 0 <= dropped <= 2 * DigitsValue(bases)
    requires DigitsValue(bases) * DigitsValue(bases) + dropped == DigitsValue(x0[..y0])
    ensures AllDigits(bases') && divisor' == 2 * DigitsValue(bases')
    ensures 0 <= dropped' <= 2 * DigitsValue(bases')
    ensures DigitsValue(bases') * DigitsValue(bases') + dropped' == DigitsValue(x0[..y0 + 2])
  {
    ghost var root, read := DigitsValue(bases), DigitsValue(x0[..y0]);
    BringDownPair(x0, y0, dropped);
    var brought := DigitsValue(NatToString(dropped) + x0[y0..y0 + 2]);
    var affixed, y1 := FitDigit(divisor, brought);
    ghost var newRoot := 10 * root + affixed;
    DigitStep(root, dropped, read, DigitsValue(x0[y0..y0 + 2]), divisor, affixed, brought, y1,
              newRoot, brought - y1, DigitsValue(x0[..y0 + 2]));
    dropped' := brought - y1;
    AppendDigit(bases, affixed);
    bases' := bases + NatToString(affixed);
    divisor' := DigitsValue(bases') * 2;
  }

  /** str(i), with a leading '0' when needed to give it an even number of digits. */
  function PaddedDecimal(i: nat): (x0: string)
    ensures AllDigits(x0) && DigitsValue(x0) == i
    ensures |x0| == 2 * (|x0| / 2)
  {
    DigitsValueOfNatToString(i);
    var s := NatToString(i);
    if |s| % 2 == 1 then LeadingZero(s); "0" + s else s
  }

  /**
   * better_isqrt(i): the digit-pair square root, working on the decimal
   * strings of i, of the running remainder, and of the root found so far.
   * For a negative i the first pair read holds the '-' of str(i), and int()
   * of it raises ValueError.
   */
  method BetterIsqrt(i: int) returns (r: Result<int>)
    ensures i < 0 <==> r == Raised(ValueError)
    ensures i >= 0 ==> r.Ok? && IsSqrt(r.value, i)
  {
    if i < 0 {
      return Raised(ValueError);
    }
    var x0 := PaddedDecimal(i);
    ghost var pairs := |x0| / 2;
    var divisor, dropped, bases := 0, 0, "0";
    var y0 := 0;
    ghost var done := 0;
    while y0 < |x0|
      invariant 0 <= done <= pairs && y0 == 2 * done && |x0| == 2 * pairs
      invariant AllDigits(x0) && DigitsValue(x0) == i
      invariant AllDigits(bases) && divisor == 2 * DigitsValue(bases)
      invariant 0 <= dropped <= 2 * DigitsValue(bases)
      invariant DigitsValue(bases) * DigitsValue(bases) + dropped == DigitsValue(x0[..y0])
    {
      dropped, bases, divisor := NextRootDigit(x0, y0, divisor, dropped, bases);
      y0 := y0 + 2;
      done := done + 1;
    }
    assert x0[..y0] == x0;
    SqrtFromRemainder(DigitsValue(bases), dropped, i);
    r := Ok(DigitsValue(bases));
  }

  // ---------------------------------------------------------------------
  // better_root (numbers.py:139-149)

  lemma {:induction false} PowNonNegative(b: int, e: nat)
    requires b >= 0
    ensures Pow(b, e) >= 0
  {
    if e > 0 { PowNonNegative(b, e - 1); }
  }

  lemma {:induction false} PowBaseMonotone(a: int, b: int, e: nat)
    requires 0 <= a <= b
    ensures Pow(a, e) <= Pow(b, e)
  {
    if e > 0 {
      PowBaseMonotone(a, b, e - 1);
      PowNonNegative(a, e - 1);
      assert a * Pow(a, e - 1) <= b * Pow(a, e - 1) <= b * Pow(b, e - 1);
    }
  }

  lemma {:induction false} PowAtLeastBase(b: int, e: nat)
    requires b >= 1 && e >= 1
    ensures Pow(b, e) >= b
  {
    if e > 1 {
      PowAtLeastBase(b, e - 1);
      assert b * Pow(b, e - 1) >= b * 1;
    }
  }

  lemma {:induction false} PowExpMonotone(b: int, e1: nat, e2: nat)
    requires b >= 1 && e1 <= e2
    ensures Pow(b, e1) <= Pow(b, e2)
    decreases e2
  {
    if e1 < e2 {
      PowExpMonotone(b, e1, e2 - 1);
      PowNonNegative(b, e2 - 1);
      assert b * Pow(b, e2 - 1) >= 1 * Pow(b, e2 - 1);
    }
  }

  lemma {:induction false} PowAdd(b: int, m: nat, n: nat)
    ensures Pow(b, m + n) == Pow(b, m) * Pow(b, n)
    decreases n
  {
    if n > 0 {
      PowAdd(b, m, n - 1);
      assert Pow(b, m + n) == b * Pow(b, m + n - 1);
    }
  }

  lemma {:induction false} PowPow(b: int, m: nat, n: nat)
    ensures Pow(Pow(b, m), n) == Pow(b, m * n)
    decreases n
  {
    if n > 0 {
      PowPow(b, m, n - 1);
      assert m * n == m + m * (n - 1);
      PowAdd(b, m, m * (n - 1));
    }
  }

  lemma {:induction false} BitLengthBound(n: nat)
    ensures n < Pow(2, BitLength(n))
  {
    if n > 0 {
      BitLengthBound(n / 2);
    }
  }

  /** The starting bit of better_root is large enough: (2 * bit) ** root exceeds x. */
  lemma StartingBitSuffices(x: nat, root: nat)
    requires root >= 1
    ensures x < Pow(2 * Pow(2, 1 + BitLength(x) / root), root)
  {
    var L := BitLength(x);
    var k := 2 + L / root;
    assert 2 * Pow(2, 1 + L / root) == Pow(2, k);
    assert L == L / root * root + L % root;
    assert k * root >= L by {
      assert k * root == L / root * root + 2 * root;
    }
    PowPow(2, k, root);
    PowExpMonotone(2, L, k * root);
    BitLengthBound(x);
  }

  /** A bit that fits keeps the search bounds of better_root and moves the root towards x. */
  lemma RootBitFits(x: int, foundRoot: nat, attemptBit: nat, root: nat)
    requires root >= 1 && attemptBit >= 1
    requires Pow(foundRoot + attemptBit, root) <= x < Pow(foundRoot + 2 * attemptBit, root)
    ensures foundRoot < foundRoot + attemptBit <= x
    ensures x < Pow(foundRoot + attemptBit + 2 * attemptBit, root)
  {
    PowAtLeastBase(foundRoot + attemptBit, root);
    PowBaseMonotone(foundRoot + 2 * attemptBit, foundRoot + attemptBit + 2 * attemptBit, root);
  }

  /** The search of better_root starts from root 0 with a first bit whose double is already too large. */
  lemma BetterRootStart(x: int, root: nat)
    requires root >= 1
    ensures x < Pow(0 + 2 * Pow2(1 + BitLength(Abs(x)) / root), root)
    ensures x >= 0 ==> Pow(0, root) <= x
  {
    StartingBitSuffices(Abs(x), root);
    assert Pow(0, root) == 0 * Pow(0, root - 1);
  }

  /** A bit that does not fit is halved; the last bit, 1, leaves a root whose successor is too large. */
  lemma RootBitHalves(x: int, foundRoot: nat, attemptBit: nat, bitExponent: nat, root: nat)
    requires attemptBit != 0 && attemptBit == Pow2(bitExponent)
    requires x < Pow(foundRoot + attemptBit, root)
    ensures attemptBit / 2 != 0 ==> bitExponent != 0 && attemptBit / 2 == Pow2(bitExponent - 1)
    ensures attemptBit / 2 != 0 ==> x < Pow(foundRoot + 2 * (attemptBit / 2), root)
    ensures attemptBit / 2 == 0 ==> x < Pow(foundRoot + 1, root)
  {
  }

  /**
   * One turn of the loop of better_root: the root grows by the bit if that
   * still fits below x, and otherwise the bit is halved.
   */
  method RootSearchStep(x: int, root: nat, foundRoot: nat, attemptBit: nat, ghost bitExponent: nat)
    returns (foundRoot': nat, attemptBit': nat, ghost bitExponent': nat)
    requires root >= 1 && attemptBit != 0 && attemptBit == Pow2(bitExponent)
    requires x < 0 ==> foundRoot == 0
    requires x >= 0 ==> Pow(foundRoot, root) <= x
    requires x < Pow(foundRoot + 2 * attemptBit, root)
    ensures attemptBit' != 0 ==> attemptBit' == Pow2(bitExponent')
    ensures x < 0 ==> foundRoot' == 0
    ensures x >= 0 ==> Pow(foundRoot', root) <= x
    ensures attemptBit' != 0 ==> x < Pow(foundRoot' + 2 * attemptBit', root)
    ensures attemptBit' == 0 ==> x < Pow(foundRoot' + 1, root)
    ensures attemptBit' < attemptBit || (attemptBit' == attemptBit && foundRoot < foundRoot' <= x)
  {
    var newRoot := foundRoot + attemptBit;
    PowNonNegative(newRoot, root);
    if x < Pow(newRoot, root) {
      RootBitHalves(x, foundRoot, attemptBit, bitExponent, root);
      return foundRoot, attemptBit / 2, if bitExponent != 0 then bitExponent - 1 else 0;
    }
    RootBitFits(x, foundRoot, attemptBit, root);
    return newRoot, attemptBit, bitExponent;
  }

  /**
   * better_root(x, root): the largest r with r ** root <= x, found by adding
   * bits from high to low; a bit that still fits is tried again before it is
   * halved. For negative x it returns 0.
   */
  method BetterRoot(x: int, root: int) returns (r: int)
    requires root >= 1
    ensures x >= 0 ==> Pow(r, root) <= x < Pow(r + 1, root)
    ensures x < 0 ==> r == 0
  {
    var foundRoot := 0;
    var attemptBit: nat := Pow2(1 + BitLength(Abs(x)) / root);
    ghost var bitExponent: nat := 1 + BitLength(Abs(x)) / root;
    BetterRootStart(x, root);
    while attemptBit != 0
      invariant foundRoot >= 0
      invariant attemptBit != 0 ==> attemptBit == Pow2(bitExponent)
      invariant x < 0 ==> foundRoot == 0
      invariant x >= 0 ==> Pow(foundRoot, root) <= x
      invariant attemptBit != 0 ==> x < Pow(foundRoot + 2 * attemptBit, root)
      invariant attemptBit == 0 ==> x < Pow(foundRoot + 1, root)
      decreases attemptBit, if x >= foundRoot then x - foundRoot else 0
    {
      foundRoot, attemptBit, bitExponent := RootSearchStep(x, root, foundRoot, attemptBit, bitExponent);
    }
    r := foundRoot;
  }

  /** `1 << k`. */
  function Pow2(k: nat): (p: nat)
    ensures p >= 1
    ensures p == Pow(2, k)
  {
    if k == 0 then 1 else 2 * Pow2(k - 1)
  }

  // ---------------------------------------------------------------------
  // primitive_period (numbers.py:7-21)

  /**
   * primitive_period(base, modulo, remainder): 0 when base == modulo, and
   * otherwise the least power p >= 1 with pow(base, p, modulo) == remainder;
   * a zero modulo makes that first pow raise ValueError. The source loops
   * forever when no such power exists, so callers must know one (the ghost
   * bound).
   */
  method PrimitivePeriod(base: int, modulo: int, remainder: int, ghost bound: nat) returns (p: Result<int>)
    requires base != modulo && modulo != 0 ==> bound >= 1 && ModPow(base, bound, modulo) == remainder
    ensures base == modulo ==> p == Ok(0)
    ensures base != modulo && modulo == 0 ==> p == Raised(ValueError)
    ensures base != modulo && modulo != 0 ==> p.Ok? && p.value >= 1 && ModPow(base, p.value, modulo) == remainder
    ensures base != modulo && modulo != 0 ==> forall q :: 1 <= q < p.value ==> ModPow(base, q, modulo) != remainder
  {
    if base == modulo {
      return Ok(0);
    }
    if modulo == 0 {
      return Raised(ValueError);
    }
    var power := 1;
    while ModPow(base, power, modulo) != remainder
      invariant 1 <= power <= bound
      invariant forall q :: 1 <= q < power ==> ModPow(base, q, modulo) != remainder
      decreases bound - power
    {
      power := power + 1;
    }
    return Ok(power);
  }
}
