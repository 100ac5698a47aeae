/**
 The factorial lookup table and the binomial coefficient of the Bezier
 evaluator (class `Curves::BezierCurve`). The source stores the factorials as
 `double`; here they are exact natural numbers, so `Ni` is the exact quotient.
 */
module Curves {

  /** The two exceptions `factorial` throws. */
  datatype DomainError = LessThanZero | GreaterThan32

  datatype Result<T> = Ok(value: T) | Err(error: DomainError)

  /** Largest argument the lookup table covers. */
  const MaxFactorialArgument: nat := 32

  /** The mathematical factorial. */
  function Fact(n: nat): (r: nat)
    ensures r >= 1
  {
    if n == 0 then 1 else n * Fact(n - 1)
  }

  /** The binomial coefficient, defined by Pascal's rule. */
  function Binomial(n: nat, k: nat): nat
  {
    if k == 0 then 1
    else if n == 0 then 0
    else Binomial(n - 1, k - 1) + Binomial(n - 1, k)
  }

  /** What the table built by `CreateFactorialTable` satisfies entry by entry:
      33 entries, the first is 1 and each is its index times its predecessor. */
  ghost predicate IsFactorialTable(t: seq<nat>)
  {
    && |t| == MaxFactorialArgument + 1
    && t[0] == 1
    && forall k :: 1 <= k < |t| ==> t[k] == k * t[k - 1]
  }

  /** A table with that recurrence holds exactly the factorials. */
  lemma {:induction false} FactorialTableHoldsFactorials(t: seq<nat>, k: nat)
    requires IsFactorialTable(t)
    requires k < |t|
    ensures t[k] == Fact(k)
  {
    if k > 0 {
      FactorialTableHoldsFactorials(t, k - 1);
    }
  }

  lemma BinomialAboveDiagonal(n: nat, k: nat)
    requires k > n
    ensures Binomial(n, k) == 0
  {
  }

  /** Ring identities used below, stated on plain integers. */
  lemma MulRearrange(x: int, c: int, y: int, z: int)
    ensures x * ((c * y) * z) == c * (x * (y * z))
    ensures x * (y * (c * z)) == c * (x * (y * z))
  {
  }

  lemma MulDistributes(a: int, b: int, c: int)
    ensures (a + b) * c == a * c + b * c
  {
  }

  lemma MulAtLeast(x: int, d: int)
    requires x >= 1 && d > 0
    ensures x * d >= d
  {
  }

  lemma MulNegates(x: int, d: int)
    ensures (-x) * d == -(x * d)
  {
  }

  /** A multiple of d strictly between -d and d is zero. */
  lemma SmallMultipleIsZero(x: int, d: int)
    requires d > 0 && -d < x * d < d
    ensures x == 0
  {
  }

  lemma MulCancels(a: int, b: int, d: int)
    requires d > 0
    requires a * d == b * d
    ensures a == b
  {
  }

  lemma DivOfMultiple(b: int, d: int)
    requires d > 0
    ensures (b * d) / d == b
  {
    var q, r := (b * d) / d, (b * d) % d;
    assert q * d + r == b * d && 0 <= r < d;
    MulDistributes(b, -q, d);
    MulNegates(q, d);
    assert (b - q) * d == r;
    SmallMultipleIsZero(b - q, d);
  }

  /** Pascal's coefficient is the factorial quotient n! / (k! (n-k)!). */
  lemma {:induction false} BinomialTimesFactorials(n: nat, k: nat)
    requires k <= n
    ensures Binomial(n, k) * (Fact(k) * Fact(n - k)) == Fact(n)
  {
    if k > 0 {
      var m := n - 1;
      var fk, fk1, fnk, fm := Fact(k), Fact(k - 1), Fact(n - k), Fact(m);
      assert fk == k * fk1;
      var left, right := Binomial(m, k - 1), Binomial(m, k);
      // the left summand contributes k * m!
      BinomialTimesFactorials(m, k - 1);
      assert left * (fk1 * fnk) == fm;
      MulRearrange(left, k, fk1, fnk);
      assert left * (fk * fnk) == k * fm;
      // the right summand contributes (n - k) * m!
      if k <= m {
        BinomialTimesFactorials(m, k);
        var fmk := Fact(m - k);
        assert right * (fk * fmk) == fm;
        assert fnk == (n - k) * fmk;
        MulRearrange(right, n - k, fk, fmk);
        assert right * (fk * fnk) == (n - k) * fm;
      } else {
        BinomialAboveDiagonal(m, k);
        assert right == 0 && n - k == 0;
      }
      assert Binomial(n, k) == left + right;
      MulDistributes(left, right, fk * fnk);
      MulDistributes(k, n - k, fm);
      assert Fact(n) == n * fm;
    }
  }

  /** Hence the exact quotient used by `Ni` is the binomial coefficient. */
  lemma FactorialQuotientIsBinomial(n: nat, k: nat)
    requires k <= n
    ensures Fact(n) / (Fact(k) * Fact(n - k)) == Binomial(n, k)
  {
    BinomialTimesFactorials(n, k);
    var b, d := Binomial(n, k), Fact(k) * Fact(n - k);
    assert d > 0;
    DivOfMultiple(b, d);
  }

  lemma {:induction false} BinomialSymmetric(n: nat, k: nat)
    requires k <= n
    ensures Binomial(n, k) == Binomial(n, n - k)
  {
    var b1, b2 := Binomial(n, k), Binomial(n, n - k);
    var fa, fb := Fact(k), Fact(n - k);
    BinomialTimesFactorials(n, k);
    assert b1 * (fa * fb) == Fact(n);
    BinomialTimesFactorials(n, n - k);
    assert n - (n - k) == k;
    assert b2 * (fb * fa) == Fact(n);
    assert fb * fa == fa * fb;
    MulAtLeast(fa, fb);
    MulCancels(b1, b2, fa * fb);
  }

  lemma {:induction false} BinomialDiagonal(n: nat)
    ensures Binomial(n, n) == 1
  {
    if n > 0 {
      BinomialDiagonal(n - 1);
      BinomialAboveDiagonal(n - 1, n);
    }
  }

  /** `Curves::BezierCurve`: the factorial lookup table and the functions
      reading it. The Bernstein basis and curve sampling are not modelled. */
  class BezierCurve {
    var factorialLookup: seq<nat>

    ghost predicate Valid()
      reads this
    {
      IsFactorialTable(factorialLookup)
    }

    constructor ()
      ensures Valid()
      ensures forall k :: 0 <= k <= MaxFactorialArgument ==> factorialLookup[k] == Fact(k)
    {
      new;
      CreateFactorialTable();
    }

    /** Fills the 33-entry table with the literal values of 0! .. 32!. */
    method CreateFactorialTable()
      modifies this`factorialLookup
      ensures Valid()
      ensures forall k :: 0 <= k <= MaxFactorialArgument ==> factorialLookup[k] == Fact(k)
    {
      var a: seq<nat> := [
        1,
        1,
        2,
        6,
        24,
        120,
        720,
        5040,
        40320,
        362880,
        3628800,
        39916800,
        479001600,
        6227020800,
        87178291200,
        1307674368000,
        20922789888000,
        355687428096000,
        6402373705728000,
        121645100408832000,
        2432902008176640000,
        51090942171709440000,
        1124000727777607680000,
        25852016738884976640000,
        620448401733239439360000,
        15511210043330985984000000,
        403291461126605635584000000,
        10888869450418352160768000000,
        304888344611713860501504000000,
        8841761993739701954543616000000,
        265252859812191058636308480000000,
        8222838654177922817725562880000000,
        263130836933693530167218012160000000
      ];
      assert IsFactorialTable(a);
      factorialLookup := a;
      forall k | 0 <= k <= MaxFactorialArgument
        ensures factorialLookup[k] == Fact(k)
      {
        FactorialTableHoldsFactorials(factorialLookup, k);
      }
    }

    /** `factorial(n)`: the table entry, or the exception for an argument
        outside [0, 32]. */
    function Factorial(n: int): (r: Result<nat>)
      reads this
      requires Valid()
      ensures n < 0 ==> r == Err(LessThanZero)
      ensures n > MaxFactorialArgument ==> r == Err(GreaterThan32)
      ensures 0 <= n <= MaxFactorialArgument ==> r == Ok(Fact(n))
    {
      if n < 0 then Err(LessThanZero)
      else if n > MaxFactorialArgument then Err(GreaterThan32)
      else
        FactorialTableHoldsFactorials(factorialLookup, n);
        Ok(factorialLookup[n])
    }

    /** `Ni(n, i) = n! / (i! (n-i)!)`; the first of the three `factorial`
        calls that throws decides the error. */
    function Ni(n: int, i: int): (r: Result<nat>)
      reads this
      requires Valid()
      ensures r.Ok? <==> 0 <= i <= n <= MaxFactorialArgument
      ensures r.Ok? ==> r.value == Binomial(n, i)
      ensures n < 0 ==> r == Err(LessThanZero)
      ensures n > MaxFactorialArgument ==> r == Err(GreaterThan32)
      ensures 0 <= n <= MaxFactorialArgument && i < 0 ==> r == Err(LessThanZero)
      ensures 0 <= n <= MaxFactorialArgument && i > MaxFactorialArgument ==> r == Err(GreaterThan32)
      ensures 0 <= n < i <= MaxFactorialArgument ==> r == Err(LessThanZero)
    {
      match Factorial(n)
      case Err(e) => Err(e)
      case Ok(a1) =>
        match Factorial(i)
        case Err(e) => Err(e)
        case Ok(a2) =>
          match Factorial(n - i)
          case Err(e) => Err(e)
          case Ok(a3) =>
            FactorialQuotientIsBinomial(n, i);
            Ok(a1 / (a2 * a3))
    }

    lemma NiSymmetric(n: int, i: int)
      requires Valid()
      requires 0 <= i <= n <= MaxFactorialArgument
      ensures Ni(n, i) == Ni(n, n - i)
    {
      BinomialSymmetric(n, i);
    }

    lemma NiAtEnds(n: int)
      requires Valid()
      requires 0 <= n <= MaxFactorialArgument
      ensures Ni(n, 0) == Ok(1)
      ensures Ni(n, n) == Ok(1)
    {
      BinomialDiagonal(n);
    }
  }
}
