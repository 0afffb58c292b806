/** C++ integer and conversion semantics that the library's operators rely on, stated over
    unbounded integers: truncating `/` and `%`, truncating float-to-integer conversion,
    two's-complement bitwise operators and C++20 shifts. */
module CppInt {

  function Abs(a: int): nat { if a < 0 then -a else a }

  /** `a / b` on C++ integers: the quotient truncated toward zero. Together with `TruncRem`
      and `DivRemIdentity` this is what the C++ standard requires of the two operators. */
  function TruncDiv(a: int, b: int): int
    requires b != 0
  {
    if a >= 0 && b > 0 then a / b
    else if a >= 0 then -(a / -b)
    else if b > 0 then -((-a) / b)
    else (-a) / (-b)
  }

  /** `a % b` on C++ integers: its magnitude is below `|b|` and it has the sign of `a`. */
  function TruncRem(a: int, b: int): (r: int)
    requires b != 0
    ensures Abs(r) < Abs(b)
    ensures a >= 0 ==> r >= 0
    ensures a <= 0 ==> r <= 0
  {
    if a >= 0 then a % Abs(b) else -((-a) % Abs(b))
  }

  /** The identity C++ guarantees between `/` and `%`: `(a / b) * b + a % b == a`. */
  lemma DivRemIdentity(a: int, b: int)
    requires b != 0
    ensures TruncDiv(a, b) * b + TruncRem(a, b) == a
  {
    if a >= 0 && b > 0 {
    } else if a >= 0 {
      NegatedDivisor(a, -b);
    } else if b > 0 {
      NegatedDividend(-a, b);
    } else {
      NegatedBoth(-a, -b);
    }
  }

  lemma NegatedDivisor(m: nat, n: int)
    requires n > 0
    ensures TruncDiv(m, -n) * -n + TruncRem(m, -n) == m
  {
    assert TruncDiv(m, -n) == -(m / n);
    assert TruncRem(m, -n) == m % n;
    assert -(m / n) * -n == (m / n) * n;
  }

  lemma NegatedDividend(m: int, n: int)
    requires m > 0 && n > 0
    ensures TruncDiv(-m, n) * n + TruncRem(-m, n) == -m
  {
    assert TruncDiv(-m, n) == -(m / n);
    assert TruncRem(-m, n) == -(m % n);
    assert -(m / n) * n == -((m / n) * n);
  }

  lemma NegatedBoth(m: int, n: int)
    requires m > 0 && n > 0
    ensures TruncDiv(-m, -n) * -n + TruncRem(-m, -n) == -m
  {
    assert TruncDiv(-m, -n) == m / n;
    assert TruncRem(-m, -n) == -(m % n);
    assert (m / n) * -n == -((m / n) * n);
  }

  /** `static_cast<T>(x)` from a floating value to an integer type: truncation toward zero. */
  function TruncReal(x: real): int
  {
    if x >= 0.0 then x.Floor else -((-x).Floor)
  }

  /** Truncation drops the fraction: the result is within one of `x` on the side of zero and
      has the sign of `x` unless it is zero. */
  lemma TruncRealBounds(x: real)
    ensures Abs(TruncReal(x)) as real <= (if x < 0.0 then -x else x) < Abs(TruncReal(x)) as real + 1.0
    ensures TruncReal(x) == 0 || ((TruncReal(x) > 0) <==> (x > 0.0))
  {
  }

  /** A value that is already an integer converts to itself. */
  lemma TruncRealOfInt(n: int)
    ensures TruncReal(n as real) == n
  {
  }

  /** An integer times an integer-valued scalar converts back to the exact product ... */
  lemma TruncOfProduct(n: int, k: int)
    ensures TruncReal(n as real * k as real) == n * k
  {
    assert n as real * k as real == (n * k) as real;
    TruncRealOfInt(n * k);
  }

  /** ... and dividing that product by the same nonzero scalar converts back to the integer. */
  lemma TruncOfQuotient(n: int, k: int)
    requires k != 0
    ensures TruncReal((n * k) as real / k as real) == n
  {
    assert (n * k) as real == n as real * k as real;
    assert (n * k) as real / k as real == n as real;
    TruncRealOfInt(n);
  }

  // Bitwise operators on two's-complement integers of unbounded width. For operands that fit
  // in a C++ integer type the result is the one that type's operator produces; the recursion
  // peels off the lowest bit (Dafny's `/ 2` rounds toward negative infinity, `% 2` is 0 or 1).

  predicate IsSignWord(a: int) { a == 0 || a == -1 }

  function BitAnd(a: int, b: int): int
    decreases Abs(a) + Abs(b)
  {
    if IsSignWord(a) && IsSignWord(b) then (if a == -1 && b == -1 then -1 else 0)
    else 2 * BitAnd(a / 2, b / 2) + (if a % 2 == 1 && b % 2 == 1 then 1 else 0)
  }

  function BitOr(a: int, b: int): int
    decreases Abs(a) + Abs(b)
  {
    if IsSignWord(a) && IsSignWord(b) then (if a == -1 || b == -1 then -1 else 0)
    else 2 * BitOr(a / 2, b / 2) + (if a % 2 == 1 || b % 2 == 1 then 1 else 0)
  }

  function BitXor(a: int, b: int): int
    decreases Abs(a) + Abs(b)
  {
    if IsSignWord(a) && IsSignWord(b) then (if a == b then 0 else -1)
    else 2 * BitXor(a / 2, b / 2) + (if a % 2 == b % 2 then 0 else 1)
  }

  function Pow2(n: nat): (p: int)
    ensures p >= 1
  {
    if n == 0 then 1 else 2 * Pow2(n - 1)
  }

  /** `a << n` (C++20: the value `a * 2^n`, wrapping at the type's width, which is not modelled). */
  function ShiftLeft(a: int, n: int): int
    requires n >= 0
  {
    a * Pow2(n)
  }

  /** `a >> n` (C++20: arithmetic shift, rounding toward negative infinity). */
  function ShiftRight(a: int, n: int): int
    requires n >= 0
  {
    a / Pow2(n)
  }

  lemma {:induction false} BitAndSelf(a: int)
    ensures BitAnd(a, a) == a
    decreases Abs(a)
  {
    if !IsSignWord(a) {
      BitAndSelf(a / 2);
    }
  }

  lemma {:induction false} BitOrSelf(a: int)
    ensures BitOr(a, a) == a
    decreases Abs(a)
  {
    if !IsSignWord(a) {
      BitOrSelf(a / 2);
    }
  }

  lemma {:induction false} BitXorSelf(a: int)
    ensures BitXor(a, a) == 0
    decreases Abs(a)
  {
    if !IsSignWord(a) {
      BitXorSelf(a / 2);
    }
  }

  /** Xor-ing the same value twice gives back the original: `v ^= s; v ^= s` restores `v`. */
  lemma {:induction false} BitXorInvolutive(a: int, b: int)
    ensures BitXor(BitXor(a, b), b) == a
    decreases Abs(a) + Abs(b)
  {
    if !(IsSignWord(a) && IsSignWord(b)) {
      BitXorInvolutive(a / 2, b / 2);
      var c := BitXor(a, b);
      assert c / 2 == BitXor(a / 2, b / 2);
    }
  }

  /** Shifting left and then right by the same amount restores the value. */
  lemma ShiftRoundTrip(a: int, n: int)
    requires n >= 0
    ensures ShiftRight(ShiftLeft(a, n), n) == a
  {
    MulDivCancel(a, Pow2(n));
  }

  lemma MulAtLeast(x: int, p: int)
    requires x >= 1 && p > 0
    ensures x * p >= p
  {
    assert x * p == (x - 1) * p + p;
  }

  lemma MulDivCancel(a: int, p: int)
    requires p > 0
    ensures (a * p) / p == a
  {
    var q, r := (a * p) / p, (a * p) % p;
    assert (a - q) * p == r;
    if a - q >= 1 {
      MulAtLeast(a - q, p);
      assert false;
    } else if q - a >= 1 {
      MulAtLeast(q - a, p);
      assert false;
    }
  }
}
