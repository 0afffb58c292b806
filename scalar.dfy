/** The scalar helpers of `qm` (functions.hpp) over integers: `max`, `min`, `clamp`, the
    list forms of `max` and `min`, and the kilobyte conversion `kb`. */
module Scalar {

  const U64Modulus: int := 0x1_0000_0000_0000_0000

  /** `qm::max(a, b)`: `b` when `a < b`, otherwise `a`. */
  function Max(a: int, b: int): (r: int)
    ensures r >= a && r >= b
    ensures r == a || r == b
  {
    if a < b then b else a
  }

  /** `qm::min(a, b)`: `b` when `b < a`, otherwise `a`. */
  function Min(a: int, b: int): (r: int)
    ensures r <= a && r <= b
    ensures r == a || r == b
  {
    if b < a then b else a
  }

  /** `qm::clamp(value, minVal, maxVal)`. The source does not require `minVal <= maxVal`; when
      the bounds are reversed a value below `minVal` yields `minVal` and any other value
      above `maxVal` yields `maxVal`. */
  function Clamp(value: int, minVal: int, maxVal: int): (r: int)
    ensures minVal <= maxVal ==> minVal <= r <= maxVal
    ensures minVal <= value <= maxVal ==> r == value
    ensures r == value || r == minVal || r == maxVal
  {
    if value < minVal then minVal
    else if value > maxVal then maxVal
    else value
  }

  /** Clamping into a well-formed range is idempotent. */
  lemma ClampIdempotent(value: int, minVal: int, maxVal: int)
    requires minVal <= maxVal
    ensures Clamp(Clamp(value, minVal, maxVal), minVal, maxVal) == Clamp(value, minVal, maxVal)
  {
  }

  /** With reversed bounds it is not: a value below `minVal` is first moved to `minVal`, which
      then lies above `maxVal` and moves again. */
  lemma ClampReversedNotIdempotent()
    ensures Clamp(0, 2, 1) == 2
    ensures Clamp(Clamp(0, 2, 1), 2, 1) == 1
  {
  }

  /** Clamping agrees with the composition of `max` and `min` on a well-formed range. */
  lemma ClampIsMaxMin(value: int, minVal: int, maxVal: int)
    requires minVal <= maxVal
    ensures Clamp(value, minVal, maxVal) == Min(Max(value, minVal), maxVal)
  {
  }

  /** `qm::max(std::initializer_list<T>)`: starts from the first element (so the list must not be
      empty) and replaces the accumulator by every later element that is greater. */
  method MaxOf(values: seq<int>) returns (maxValue: int)
    requires |values| > 0
    ensures maxValue in values
    ensures forall i :: 0 <= i < |values| ==> values[i] <= maxValue
  {
    maxValue := values[0];
    for i := 0 to |values|
      invariant maxValue in values
      invariant forall j :: 0 <= j < i ==> values[j] <= maxValue
    {
      if values[i] > maxValue {
        maxValue := values[i];
      }
    }
  }

  /** `qm::min(std::initializer_list<T>)`: the mirror image of `MaxOf`. */
  method MinOf(values: seq<int>) returns (minValue: int)
    requires |values| > 0
    ensures minValue in values
    ensures forall i :: 0 <= i < |values| ==> minValue <= values[i]
  {
    minValue := values[0];
    for i := 0 to |values|
      invariant minValue in values
      invariant forall j :: 0 <= j < i ==> minValue <= values[j]
    {
      if values[i] < minValue {
        minValue := values[i];
      }
    }
  }

  /** `qm::kb(x)`: `static_cast<u64>(1024) * x`. The integer `x` is converted to `u64` and the
      product wraps modulo 2^64; it equals `1024 * x` whenever that fits. */
  function Kb(x: int): (r: int)
    ensures 0 <= r < U64Modulus
    ensures (r - 1024 * x) % U64Modulus == 0
    ensures 0 <= x && 1024 * x < U64Modulus ==> r == 1024 * x
    ensures r % 1024 == 0
  {
    (1024 * (x % U64Modulus)) % U64Modulus
  }
}
