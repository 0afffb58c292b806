/** `Random` (random.hpp): a PCG32 generator. The 64-bit state advances by a linear
    congruential step and each draw returns a 32-bit xorshift of the old state rotated by its
    top five bits. The entropy that `std::random_device` supplies to `seed(0)` is given as
    three parameters. */
module PcgRandom {
  import opened Wrappers

  const Modulus64: int := 0x1_0000_0000_0000_0000
  const Modulus32: int := 0x1_0000_0000

  type u64 = i: int | 0 <= i < 0x1_0000_0000_0000_0000
  type u32 = i: int | 0 <= i < 0x1_0000_0000

  /** The LCG multiplier of `rand()` and its inverse modulo 2^64. */
  const Multiplier: int := 6364136223846793005
  const MultiplierInverse: int := 0xc097ef87329e28a5

  /** Added to the state by `seed(seedValue)` for a nonzero seed. */
  const SeedIncrement: u64 := 0x853c49e6748fea9b

  /** `PCGState`: the state word and the stream increment `Sequence`. */
  datatype PcgState = PcgState(state: u64, sequence: u64)

  // ---- The generator step ----

  /** The state update of `rand()`: `State * 6364136223846793005 + Sequence` in 64-bit
      unsigned arithmetic; the increment is kept. */
  function Advance(g: PcgState): PcgState
  {
    PcgState(StateStep(g.state, g.sequence), g.sequence)
  }

  /** The step backwards: subtract the increment and multiply by the inverse multiplier. */
  function Retreat(g: PcgState): PcgState
  {
    PcgState(StateUnstep(g.state, g.sequence), g.sequence)
  }

  function StateStep(s: u64, q: u64): u64 { (s * Multiplier + q) % Modulus64 }
  function StateUnstep(s: u64, q: u64): u64 { ((s - q) * MultiplierInverse) % Modulus64 }

  lemma MultiplierInverts()
    ensures (Multiplier * MultiplierInverse) % Modulus64 == 1
  {
  }

  lemma UnstepStep(s: u64, q: u64)
    ensures StateUnstep(StateStep(s, q), q) == s
  {
    var k := (s * Multiplier + q) / Modulus64;
    var j := (Multiplier * MultiplierInverse - 1) / Modulus64;
    assert (StateStep(s, q) - q) * MultiplierInverse == s + (s * j - k * MultiplierInverse) * Modulus64 by {
      assert StateStep(s, q) - q == s * Multiplier - k * Modulus64;
      assert Multiplier * MultiplierInverse == 1 + j * Modulus64;
      calc {
        (s * Multiplier - k * Modulus64) * MultiplierInverse;
        s * (Multiplier * MultiplierInverse) - k * MultiplierInverse * Modulus64;
        s * (1 + j * Modulus64) - k * MultiplierInverse * Modulus64;
        s + (s * j - k * MultiplierInverse) * Modulus64;
      }
    }
    ReduceShifted(s, s * j - k * MultiplierInverse);
  }

  lemma StepUnstep(s: u64, q: u64)
    ensures StateStep(StateUnstep(s, q), q) == s
  {
    var k := ((s - q) * MultiplierInverse) / Modulus64;
    var j := (Multiplier * MultiplierInverse - 1) / Modulus64;
    assert StateUnstep(s, q) * Multiplier + q == s + ((s - q) * j - k * Multiplier) * Modulus64 by {
      assert StateUnstep(s, q) == (s - q) * MultiplierInverse - k * Modulus64;
      assert Multiplier * MultiplierInverse == 1 + j * Modulus64;
      calc {
        ((s - q) * MultiplierInverse - k * Modulus64) * Multiplier + q;
        (s - q) * (Multiplier * MultiplierInverse) - k * Multiplier * Modulus64 + q;
        (s - q) * (1 + j * Modulus64) - k * Multiplier * Modulus64 + q;
        s + ((s - q) * j - k * Multiplier) * Modulus64;
      }
    }
    ReduceShifted(s, (s - q) * j - k * Multiplier);
  }

  /** A word plus a multiple of 2^64 reduces to the word. */
  lemma ReduceShifted(s: u64, x: int)
    ensures (s + x * Modulus64) % Modulus64 == s
  {
  }

  /** Retreating undoes a step, and stepping undoes a retreat. */
  lemma RetreatAdvance(g: PcgState)
    ensures Retreat(Advance(g)) == g
    ensures Advance(Retreat(g)) == g
  {
    UnstepStep(g.state, g.sequence);
    StepUnstep(g.state, g.sequence);
  }

  /** Hence the step is a bijection: distinct states never merge. */
  lemma AdvanceInjective(g: PcgState, h: PcgState)
    requires Advance(g) == Advance(h)
    ensures g == h
  {
    RetreatAdvance(g);
    RetreatAdvance(h);
  }

  // ---- The output permutation ----

  /** `((old_state >> 18u) ^ old_state) >> 27u`, truncated to 32 bits. */
  function XorShifted(s: u64): bv32
  {
    ((((s as bv64 >> 18) ^ s as bv64) >> 27) & 0xFFFF_FFFF) as bv32
  }

  /** `old_state >> 59u`: the top five bits. */
  function Rotation(s: u64): (r: bv32)
    ensures r < 32
  {
    (s as bv64 >> 59) as bv32
  }

  /** `(x >> rot) | (x << ((-rot) & 31))`: rotation to the right by `rot`. */
  function RotateRight32(x: bv32, rot: bv32): bv32
    requires rot < 32
  {
    (x >> rot) | (x << ((-rot) & 31))
  }

  function RotateLeft32(x: bv32, rot: bv32): bv32
    requires rot < 32
  {
    (x << rot) | (x >> ((-rot) & 31))
  }

  /** Rotating left by the same amount undoes `RotateRight32`. The solver handles a quarter
      of the shift range at a time. */
  lemma RotateLeftUndoesRight(x: bv32, rot: bv32)
    requires rot < 32
    ensures RotateLeft32(RotateRight32(x, rot), rot) == x
  {
    if rot < 8 {
      RotateInverseFirstQuarter(x, rot);
    } else if rot < 16 {
      RotateInverseSecondQuarter(x, rot);
    } else if rot < 24 {
      RotateInverseThirdQuarter(x, rot);
    } else {
      RotateInverseFourthQuarter(x, rot);
    }
  }

  lemma RotateInverseFirstQuarter(x: bv32, rot: bv32)
    requires rot < 8
    ensures RotateLeft32(RotateRight32(x, rot), rot) == x
  {
  }

  lemma RotateInverseSecondQuarter(x: bv32, rot: bv32)
    requires 8 <= rot < 16
    ensures RotateLeft32(RotateRight32(x, rot), rot) == x
  {
  }

  lemma RotateInverseThirdQuarter(x: bv32, rot: bv32)
    requires 16 <= rot < 24
    ensures RotateLeft32(RotateRight32(x, rot), rot) == x
  {
  }

  lemma RotateInverseFourthQuarter(x: bv32, rot: bv32)
    requires 24 <= rot < 32
    ensures RotateLeft32(RotateRight32(x, rot), rot) == x
  {
  }

  /** The value `rand()` returns for the old state `s`. */
  function Output(s: u64): u32
  {
    OutputBits(s) as int
  }

  function OutputBits(s: u64): bv32
  {
    RotateRight32(XorShifted(s), Rotation(s))
  }

  /** Rotating the output back left by the rotation recovers the xorshifted bits, so the
      output loses nothing of them. */
  lemma OutputInvertible(s: u64)
    ensures RotateLeft32(Output(s) as bv32, Rotation(s)) == XorShifted(s)
  {
    RotateLeftUndoesRight(XorShifted(s), Rotation(s));
  }

  /** The generator after `n` calls of `rand()`. */
  function AdvanceN(g: PcgState, n: nat): PcgState
  {
    if n == 0 then g else Advance(AdvanceN(g, n - 1))
  }

  /** The values `out` gives for the states of `n` successive steps from `g`, in order. The
      lemmas about sequences of draws are stated for any `out`, so that they never unfold the
      bit-level output. */
  function DrawsThrough(out: u64 -> u32, g: PcgState, n: nat): (r: seq<u32>)
    ensures |r| == n
  {
    if n == 0 then [] else DrawsThrough(out, g, n - 1) + [out(AdvanceN(g, n - 1).state)]
  }

  /** The values of the first `n` calls of `rand()`, in order. */
  function Draws(g: PcgState, n: nat): (r: seq<u32>)
    ensures |r| == n
  {
    DrawsThrough(Output, g, n)
  }

  /** One more call of `rand()` appends one draw. */
  lemma DrawsStep(g: PcgState, n: nat)
    ensures Draws(g, n + 1) == Draws(g, n) + [Output(AdvanceN(g, n).state)]
  {
  }

  lemma {:induction false} DrawsThroughElement(out: u64 -> u32, g: PcgState, n: nat, i: nat)
    requires i < n
    ensures DrawsThrough(out, g, n)[i] == out(AdvanceN(g, i).state)
  {
    if i < n - 1 {
      DrawsThroughElement(out, g, n - 1, i);
    }
  }

  lemma DrawsElement(g: PcgState, n: nat, i: nat)
    requires i < n
    ensures Draws(g, n)[i] == Output(AdvanceN(g, i).state)
  {
    DrawsThroughElement(Output, g, n, i);
  }

  lemma {:induction false} AdvanceNAdd(g: PcgState, m: nat, n: nat)
    ensures AdvanceN(AdvanceN(g, m), n) == AdvanceN(g, m + n)
  {
    if n > 0 {
      AdvanceNAdd(g, m, n - 1);
    }
  }

  lemma {:induction false} DrawsThroughConcatenate(out: u64 -> u32, g: PcgState, m: nat, n: nat)
    ensures DrawsThrough(out, g, m + n) == DrawsThrough(out, g, m) + DrawsThrough(out, AdvanceN(g, m), n)
  {
    if n > 0 {
      DrawsThroughConcatenate(out, g, m, n - 1);
      AdvanceNAdd(g, m, n - 1);
      var last := out(AdvanceN(g, m + n - 1).state);
      calc {
        DrawsThrough(out, g, m + n);
        DrawsThrough(out, g, m + n - 1) + [last];
        (DrawsThrough(out, g, m) + DrawsThrough(out, AdvanceN(g, m), n - 1)) + [last];
        DrawsThrough(out, g, m) + (DrawsThrough(out, AdvanceN(g, m), n - 1) + [last]);
        DrawsThrough(out, g, m) + DrawsThrough(out, AdvanceN(g, m), n);
      }
    }
  }

  /** Drawing `m + n` values is drawing `m` and then `n` more from where those left off. */
  lemma DrawsConcatenate(g: PcgState, m: nat, n: nat)
    ensures Draws(g, m + n) == Draws(g, m) + Draws(AdvanceN(g, m), n)
  {
    DrawsThroughConcatenate(Output, g, m, n);
  }

  /** Every step keeps the stream increment. */
  lemma {:induction false} AdvanceNKeepsSequence(g: PcgState, n: nat)
    ensures AdvanceN(g, n).sequence == g.sequence
  {
    if n > 0 {
      AdvanceNKeepsSequence(g, n - 1);
    }
  }

  // ---- Seeding ----

  /** `State += v` in 64-bit unsigned arithmetic. */
  function AddToState(g: PcgState, v: u64): PcgState
  {
    PcgState((g.state + v) % Modulus64, g.sequence)
  }

  lemma AddToStateInjective(g: PcgState, h: PcgState, v: u64)
    requires AddToState(g, v) == AddToState(h, v)
    ensures g == h
  {
    if g.state + v >= Modulus64 && h.state + v < Modulus64 {
      assert false;
    } else if g.state + v < Modulus64 && h.state + v >= Modulus64 {
      assert false;
    }
  }

  /** `seed(seedValue)` for a nonzero seed: `State = seedValue`, `Sequence = 1`, a step, the
      constant increment, and the final step. */
  function FixedSeeded(seedValue: u32): (g: PcgState)
    ensures g.sequence == 1
  {
    Advance(AddToState(Advance(PcgState(seedValue, 1)), SeedIncrement))
  }

  /** `seed(0)`: `State = rd1`, `Sequence = (rd2 << 1u) | 1u` in 32-bit unsigned arithmetic, a
      step, `State += rd3`, and the final step. */
  function EntropySeeded(rd1: u32, rd2: u32, rd3: u32): (g: PcgState)
    ensures g.sequence % 2 == 1 && g.sequence < Modulus32
  {
    OddIncrement(rd2);
    Advance(AddToState(Advance(PcgState(rd1, (rd2 * 2) % Modulus32 + 1)), rd3))
  }

  /** `(rd << 1u) | 1u` on a 32-bit word is the doubled word, reduced, plus one: odd. */
  lemma OddIncrement(x: u32)
    ensures ((x * 2) % Modulus32 + 1) % 2 == 1 && (x * 2) % Modulus32 + 1 < Modulus32
  {
    if x < 0x8000_0000 {
      assert (x * 2) % Modulus32 == x * 2;
    } else {
      assert (x * 2) % Modulus32 == (x - 0x8000_0000) * 2;
    }
  }

  /** The state `seed(seedValue)` leaves, with `rd1`, `rd2`, `rd3` the three draws of
      `std::random_device` the zero seed consumes. */
  function SeedResult(seedValue: u32, rd1: u32, rd2: u32, rd3: u32): (g: PcgState)
    ensures g.sequence % 2 == 1
    ensures seedValue != 0 ==> g.sequence == 1
  {
    if seedValue == 0 then EntropySeeded(rd1, rd2, rd3) else FixedSeeded(seedValue)
  }

  /** A nonzero seed fixes the whole sequence of draws, whatever the entropy source says. */
  lemma SeedDeterminesDraws(seedValue: u32, a1: u32, a2: u32, a3: u32, b1: u32, b2: u32, b3: u32, n: nat)
    requires seedValue != 0
    ensures Draws(SeedResult(seedValue, a1, a2, a3), n) == Draws(SeedResult(seedValue, b1, b2, b3), n)
  {
  }

  /** Distinct nonzero seeds give distinct generators. */
  lemma FixedSeededInjective(s1: u32, s2: u32)
    requires FixedSeeded(s1) == FixedSeeded(s2)
    ensures s1 == s2
  {
    var g1 := AddToState(Advance(PcgState(s1, 1)), SeedIncrement);
    var g2 := AddToState(Advance(PcgState(s2, 1)), SeedIncrement);
    AdvanceInjective(g1, g2);
    AddToStateInjective(Advance(PcgState(s1, 1)), Advance(PcgState(s2, 1)), SeedIncrement);
    AdvanceInjective(PcgState(s1, 1), PcgState(s2, 1));
  }

  /** Known answer: `seed(42)` leaves the state 7346174460380981671 ... */
  lemma Seed42State()
    ensures FixedSeeded(42).state == 7346174460380981671
  {
    assert StateStep(42, 1) == 9039304369631583587;
    assert (9039304369631583587 + SeedIncrement) % Modulus64 == 193190055715981310;
    assert StateStep(193190055715981310, 1) == 7346174460380981671;
  }

  /** ... whose first draw is 2037114247: xorshift 3193468822 rotated right by 12. */
  lemma Seed42FirstDraw()
    ensures Output(7346174460380981671) == 2037114247
  {
    assert XorShifted(7346174460380981671) == 3193468822;
    assert Rotation(7346174460380981671) == 12;
  }

  // ---- Draws mapped to ranges, characters and elements ----

  predicate IsI32(a: int) { -0x8000_0000 <= a < 0x8000_0000 }

  /** Conversion to `unsigned int` (reduction modulo 2^32) and back to `int`. */
  function ToU32(a: int): u32 { a % Modulus32 }
  function ToI32(a: u32): (r: int)
    ensures IsI32(r)
  {
    if a < 0x8000_0000 then a else a - Modulus32
  }

  lemma ToI32OfToU32(a: int)
    requires IsI32(a)
    ensures ToI32(ToU32(a)) == a
  {
  }

  /** `rand(min, max)` given the draw `r`: `min + (r % (max - min + 1))`, where the `int`
      operands meet the unsigned draw and are converted to `unsigned int`, and the unsigned sum
      is converted back to `int`. The source requires that `max - min + 1` neither overflows
      nor reduces to 0 modulo 2^32, which would divide by zero. */
  function RangeValue(r: u32, min: int, max: int): (v: int)
    requires IsI32(min) && IsI32(max) && IsI32(max - min) && IsI32(max - min + 1)
    requires ToU32(max - min + 1) != 0
    ensures IsI32(v)
    ensures min <= max ==> min <= v <= max && v - min == r % (max - min + 1)
  {
    RangeValueCorrect(r, min, max);
    ToI32(ToU32(ToU32(min) + r % ToU32(max - min + 1)))
  }

  lemma RangeValueCorrect(r: u32, min: int, max: int)
    requires IsI32(min) && IsI32(max) && IsI32(max - min) && IsI32(max - min + 1)
    requires ToU32(max - min + 1) != 0
    ensures min <= max ==>
      var v := ToI32(ToU32(ToU32(min) + r % ToU32(max - min + 1)));
      min <= v <= max && v - min == r % (max - min + 1)
  {
    if min <= max {
      var d := max - min + 1;
      assert ToU32(d) == d;
      var q := r % d;
      assert 0 <= q < d;
      OffsetInRange(min, max, q);
    }
  }

  /** An offset below the width of `[min, max]`, added in unsigned arithmetic and converted back,
      lands at that offset from `min`. */
  lemma OffsetInRange(min: int, max: int, q: nat)
    requires IsI32(min) && IsI32(max) && q <= max - min
    ensures ToI32(ToU32(ToU32(min) + q)) == min + q
  {
    UnsignedSum(min, q);
    ToI32OfToU32(min + q);
  }

  /** Adding a natural number to the unsigned image of `a` is adding it to `a` first. */
  lemma UnsignedSum(a: int, q: nat)
    requires IsI32(a)
    ensures ToU32(ToU32(a) + q) == ToU32(a + q)
  {
    if a < 0 {
      assert ToU32(a) == a + Modulus32;
      assert ToU32(a + Modulus32 + q) == ToU32(a + q);
    }
  }

  /** With reversed bounds the result can leave the interval between them. */
  lemma RangeValueReversedBounds()
    ensures RangeValue(7, 5, 3) == 12
  {
  }

  const Lowercase: string := "abcdefghijklmnopqrstuvwxyz"
  const Uppercase: string := "ABCDEFGHIJKLMNOPQRSTUVWXYZ"
  const Digits: string := "0123456789"

  /** The charset of `randString`, lower case first, and that of `randAlphaNumericString`,
      digits first. */
  const AlphaCharset: string := Lowercase + Uppercase + Digits
  const AlphaNumericCharset: string := Digits + Uppercase + Lowercase
  const InvalidLengthMessage: string := "Invalid length for randAlphaNumericString"
  const EmptyContainerMessage: string := "Empty container in getRandomElement"

  /** The characters the draws pick: `charset[rand() % charset.length()]` for each. */
  function Pick(charset: string, draws: seq<u32>): (r: string)
    requires |charset| > 0
    ensures |r| == |draws|
  {
    if |draws| == 0 then []
    else Pick(charset, draws[..|draws| - 1]) + [charset[draws[|draws| - 1] % |charset|]]
  }

  lemma PickAppend(charset: string, draws: seq<u32>, d: u32)
    requires |charset| > 0
    ensures Pick(charset, draws + [d]) == Pick(charset, draws) + [charset[d % |charset|]]
  {
    assert (draws + [d])[..|draws|] == draws;
  }

  /** Character `i` of the string is picked by draw `i`, so it comes from the charset. */
  lemma {:induction false} PickElement(charset: string, draws: seq<u32>, i: nat)
    requires |charset| > 0 && i < |draws|
    ensures Pick(charset, draws)[i] == charset[draws[i] % |charset|]
    ensures Pick(charset, draws)[i] in charset
  {
    var n := |draws|;
    if i < n - 1 {
      PickElement(charset, draws[..n - 1], i);
    }
  }

  /** Both charsets have 62 characters, the same ones in a different order: the two string
      functions differ only in which character each draw picks. */
  lemma CharsetsArePermutations()
    ensures multiset(AlphaCharset) == multiset(AlphaNumericCharset)
  {
    ReversedBlocksPermute(Lowercase, Uppercase, Digits);
  }

  lemma CharsetLengths()
    ensures |AlphaCharset| == 62 && |AlphaNumericCharset| == 62
  {
  }

  /** Three blocks laid out in reverse order hold the same elements. */
  lemma ReversedBlocksPermute<T>(a: seq<T>, b: seq<T>, c: seq<T>)
    ensures multiset(a + b + c) == multiset(c + b + a)
  {
    calc {
      multiset(a + b + c);
      multiset(a + b) + multiset(c);
      multiset(a) + multiset(b) + multiset(c);
      multiset(c) + multiset(b) + multiset(a);
      multiset(c + b) + multiset(a);
      multiset(c + b + a);
    }
  }

  /** `getRandomElement` given the draw `r`. */
  function ElementAt<T>(elements: seq<T>, r: u32): (e: Result<T>)
    ensures e.Err? <==> |elements| == 0
    ensures e.Err? ==> e.message == EmptyContainerMessage
    ensures e.Ok? ==> e.value in elements
  {
    if |elements| == 0 then Err(EmptyContainerMessage) else Ok(elements[r % |elements|])
  }

  // ---- The generator object ----

  class Random {
    var generator: PcgState

    /** Every seeding leaves an odd stream increment, as PCG needs for its full period; the
        constructor and `Seed` establish it and every drawing method keeps it. */
    predicate Valid()
      reads this
    {
      generator.sequence % 2 == 1
    }

    /** `Random()` calls `seed()`, whose default argument is 0. */
    constructor (rd1: u32, rd2: u32, rd3: u32)
      ensures generator == SeedResult(0, rd1, rd2, rd3)
      ensures Valid()
    {
      generator := EntropySeeded(rd1, rd2, rd3);
    }

    /** `rand()`. */
    method Rand() returns (r: u32)
      modifies this
      ensures r == Output(old(generator).state)
      ensures generator == Advance(old(generator))
      ensures Valid() <==> old(Valid())
    {
      r := Output(generator.state);
      generator := Advance(generator);
    }

    /** `seed(seedValue)`. */
    method Seed(seedValue: u32, rd1: u32, rd2: u32, rd3: u32)
      modifies this
      ensures generator == SeedResult(seedValue, rd1, rd2, rd3)
      ensures Valid()
    {
      if seedValue == 0 {
        generator := PcgState(rd1, (rd2 * 2) % Modulus32 + 1);
        var _ := Rand();
        generator := AddToState(generator, rd3);
      } else {
        generator := PcgState(seedValue, 1);
        var _ := Rand();
        generator := AddToState(generator, SeedIncrement);
      }
      var _ := Rand();
    }

    /** `rand(min, max)`. */
    method RandRange(min: int, max: int) returns (v: int)
      requires IsI32(min) && IsI32(max) && IsI32(max - min) && IsI32(max - min + 1)
      requires ToU32(max - min + 1) != 0
      modifies this
      ensures v == RangeValue(Output(old(generator).state), min, max)
      ensures generator == Advance(old(generator))
      ensures Valid() <==> old(Valid())
    {
      var r := Rand();
      v := RangeValue(r, min, max);
    }

    /** The loop shared by `randString` and `randAlphaNumericString`: a length of 0 throws
        before any draw, otherwise one draw per character. */
    method PickString(charset: string, length: nat) returns (result: Result<string>)
      requires |charset| > 0
      modifies this
      ensures length == 0 ==> result == Err(InvalidLengthMessage) && generator == old(generator)
      ensures length > 0 ==> result == Ok(Pick(charset, Draws(old(generator), length)))
      ensures generator == AdvanceN(old(generator), length)
      ensures Valid() <==> old(Valid())
    {
      AdvanceNKeepsSequence(generator, length);
      if length <= 0 {
        return Err(InvalidLengthMessage);
      }
      ghost var start := generator;
      var s: string := [];
      var i := 0;
      while i < length
        invariant 0 <= i <= length
        invariant generator == AdvanceN(start, i)
        invariant s == Pick(charset, Draws(start, i))
      {
        var r := Rand();
        DrawsStep(start, i);
        PickAppend(charset, Draws(start, i), r);
        s := s + [charset[r % |charset|]];
        i := i + 1;
      }
      result := Ok(s);
    }

    /** `randString(length)`. */
    method RandString(length: nat) returns (result: Result<string>)
      modifies this
      ensures length == 0 ==> result == Err(InvalidLengthMessage) && generator == old(generator)
      ensures length > 0 ==> result == Ok(Pick(AlphaCharset, Draws(old(generator), length)))
      ensures generator == AdvanceN(old(generator), length)
      ensures Valid() <==> old(Valid())
    {
      result := PickString(AlphaCharset, length);
    }

    /** `randAlphaNumericString(length)`. */
    method RandAlphaNumericString(length: nat) returns (result: Result<string>)
      modifies this
      ensures length == 0 ==> result == Err(InvalidLengthMessage) && generator == old(generator)
      ensures length > 0 ==> result == Ok(Pick(AlphaNumericCharset, Draws(old(generator), length)))
      ensures generator == AdvanceN(old(generator), length)
      ensures Valid() <==> old(Valid())
    {
      result := PickString(AlphaNumericCharset, length);
    }

    /** `coinFlip()`: true when the draw is odd. */
    method CoinFlip() returns (b: bool)
      modifies this
      ensures b <==> Output(old(generator).state) % 2 == 1
      ensures generator == Advance(old(generator))
      ensures Valid() <==> old(Valid())
    {
      var r := Rand();
      b := r % 2 != 0;
    }

    /** `getRandomElement(elements)`: an empty container throws before any draw. */
    method GetRandomElement<T>(elements: seq<T>) returns (result: Result<T>)
      modifies this
      ensures |elements| == 0 ==> result == Err(EmptyContainerMessage) && generator == old(generator)
      ensures |elements| > 0 ==> result == ElementAt(elements, Output(old(generator).state))
      ensures |elements| > 0 ==> generator == Advance(old(generator))
      ensures Valid() <==> old(Valid())
    {
      if |elements| == 0 {
        return Err(EmptyContainerMessage);
      }
      var r := Rand();
      result := Ok(elements[r % |elements|]);
    }
  }
}
