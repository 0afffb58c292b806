/** `vec2<T>` (vec2.hpp) with an integer element type: the free operators, swizzles and
    products as functions on `VecTypes.Vec2`, and the members that update `x` and `y` in
    place as methods of the class `Vec2Var`. */
module Vector2 {
  import opened VecTypes
  import opened Wrappers
  import opened CppInt

  // ---- Construction ----

  /** `vec2(T value)`: both components take the one value. */
  function Broadcast(value: int): Vec2 { Vec2(value, value) }

  /** `vec2()`: the zero-initialising default constructor. */
  function Default(): Vec2 { Vec2(0, 0) }

  /** `vec2::zero()` and `vec2::ones()`, both built with the single-value constructor. */
  function Zero(): Vec2 { Broadcast(0) }
  function Ones(): Vec2 { Broadcast(1) }

  /** `vec2(vec3<X> const &)` and `vec2(vec4<X> const &)` keep `x` and `y`. */
  function FromVec3(v: Vec3): Vec2 { Vec2(v.x, v.y) }
  function FromVec4(v: Vec4): Vec2 { Vec2(v.x, v.y) }

  /** `componentCount()` and the components in declared order. */
  function ComponentCount(): nat { 2 }
  function Components(v: Vec2): seq<int> { [v.x, v.y] }

  lemma DefaultIsZero()
    ensures Default() == Zero()
    ensures Components(Zero()) == [0, 0] && Components(Ones()) == [1, 1]
  {
  }

  lemma BroadcastComponents(value: int)
    ensures forall i :: 0 <= i < ComponentCount() ==> Components(Broadcast(value))[i] == value
  {
  }

  lemma ConversionsKeepXY(v3: Vec3, v4: Vec4)
    ensures Components(FromVec3(v3)) == [v3.x, v3.y]
    ensures Components(FromVec4(v4)) == [v4.x, v4.y]
  {
  }

  // ---- Component access ----

  /** `operator[](uint32_t i)`: the switch sends 1 to `y` and every other index, through its
      `default` label that falls into `case 0`, to `x`. The debug assertion on the index is
      not modelled. */
  function Index(v: Vec2, i: u32): int
  {
    if i == 1 then v.y else v.x
  }

  lemma IndexMatchesComponents(v: Vec2, i: u32)
    requires i < ComponentCount()
    ensures Index(v, i) == Components(v)[i]
  {
  }

  lemma IndexOutOfRange(v: Vec2, i: u32)
    requires i >= ComponentCount()
    ensures Index(v, i) == v.x
  {
  }

  /** A vector is determined by what `operator[]` returns for the valid indices. */
  lemma IndexDetermines(a: Vec2, b: Vec2)
    requires forall i: u32 :: i < ComponentCount() ==> Index(a, i) == Index(b, i)
    ensures a == b
  {
    assert Index(a, 0) == Index(b, 0);
    assert Index(a, 1) == Index(b, 1);
  }

  // ---- Arithmetic (the free operators; the members `+` and `-` compute the same) ----

  function Add(a: Vec2, b: Vec2): Vec2 { Vec2(a.x + b.x, a.y + b.y) }
  function Sub(a: Vec2, b: Vec2): Vec2 { Vec2(a.x - b.x, a.y - b.y) }

  /** `vec * scalar` and `scalar * vec` with a `float` scalar: each product is converted back
      to the integer element type, truncating toward zero. */
  function Scale(v: Vec2, s: real): Vec2
  {
    Vec2(TruncReal(v.x as real * s), TruncReal(v.y as real * s))
  }

  /** `vec / scalar`: throws for a zero scalar, otherwise truncates each quotient. */
  function Div(v: Vec2, s: real): (r: Result<Vec2>)
    ensures r.Err? <==> s == 0.0
    ensures r.Err? ==> r.message == DivisionByZero
  {
    if s != 0.0 then Ok(Vec2(TruncReal(v.x as real / s), TruncReal(v.y as real / s)))
    else Err(DivisionByZero)
  }

  function Dot(a: Vec2, b: Vec2): int { a.x * b.x + a.y * b.y }

  function LengthSquared(v: Vec2): (r: int)
    ensures r >= 0
    ensures r == 0 <==> v == Zero()
  {
    assert v.x * v.x >= 0 && v.y * v.y >= 0;
    v.x * v.x + v.y * v.y
  }

  lemma ZeroIsIdentity(v: Vec2)
    ensures Add(Zero(), v) == v && Add(v, Zero()) == v
  {
  }

  lemma SubSelfIsZero(v: Vec2)
    ensures Sub(v, v) == Zero()
  {
  }

  lemma AddSubInverse(a: Vec2, b: Vec2)
    ensures Sub(Add(a, b), b) == a
    ensures Add(Sub(a, b), b) == a
  {
  }

  lemma AddCommutative(a: Vec2, b: Vec2)
    ensures Add(a, b) == Add(b, a)
  {
  }

  /** With an integer-valued scalar, `*` is the exact component-wise product. */
  lemma ScaleByInteger(v: Vec2, k: int)
    ensures Scale(v, k as real) == Vec2(v.x * k, v.y * k)
  {
    TruncOfProduct(v.x, k);
    TruncOfProduct(v.y, k);
  }

  /** Dividing an exact multiple by a nonzero integer-valued scalar is exact. */
  lemma DivExactMultiple(v: Vec2, k: int)
    requires k != 0
    ensures Div(Vec2(v.x * k, v.y * k), k as real) == Ok(v)
  {
    TruncOfQuotient(v.x, k);
    TruncOfQuotient(v.y, k);
  }

  /** Scaling by a nonzero integer `k` and dividing by it gives the vector back. */
  lemma DivUndoesScale(v: Vec2, k: int)
    requires k != 0
    ensures Div(Scale(v, k as real), k as real) == Ok(v)
  {
    ScaleByInteger(v, k);
    DivExactMultiple(v, k);
  }

  lemma DotWithSelf(v: Vec2)
    ensures Dot(v, v) == LengthSquared(v)
    ensures Dot(Vec2(3, 4), Vec2(3, 4)) == 25
  {
  }

  lemma DotCommutative(a: Vec2, b: Vec2)
    ensures Dot(a, b) == Dot(b, a)
  {
  }

  // ---- Component-wise operations behind the compound assignments ----

  /** `*=` with a vector: the component-wise product. */
  function Hadamard(a: Vec2, b: Vec2): Vec2 { Vec2(a.x * b.x, a.y * b.y) }

  predicate NoZeroComponent(b: Vec2) { b.x != 0 && b.y != 0 }
  predicate NoNegativeComponent(b: Vec2) { b.x >= 0 && b.y >= 0 }

  /** `/=` with integer components: truncating division (dividing by 0 is undefined in C++). */
  function Quot(a: Vec2, b: Vec2): Vec2
    requires NoZeroComponent(b)
  {
    Vec2(TruncDiv(a.x, b.x), TruncDiv(a.y, b.y))
  }

  /** `%=`: the C++ remainder in each component, smaller in magnitude than the divisor and
      with the sign of the dividend. */
  function Rem(a: Vec2, b: Vec2): (r: Vec2)
    requires NoZeroComponent(b)
    ensures Abs(r.x) < Abs(b.x) && Abs(r.y) < Abs(b.y)
    ensures (a.x >= 0 ==> r.x >= 0) && (a.x <= 0 ==> r.x <= 0)
    ensures (a.y >= 0 ==> r.y >= 0) && (a.y <= 0 ==> r.y <= 0)
  {
    Vec2(TruncRem(a.x, b.x), TruncRem(a.y, b.y))
  }

  function And(a: Vec2, b: Vec2): Vec2 { Vec2(BitAnd(a.x, b.x), BitAnd(a.y, b.y)) }
  function Or(a: Vec2, b: Vec2): Vec2 { Vec2(BitOr(a.x, b.x), BitOr(a.y, b.y)) }
  function Xor(a: Vec2, b: Vec2): Vec2 { Vec2(BitXor(a.x, b.x), BitXor(a.y, b.y)) }

  /** `<<=` and `>>=`: a negative shift count is undefined in C++. */
  function Shl(a: Vec2, b: Vec2): Vec2
    requires NoNegativeComponent(b)
  {
    Vec2(ShiftLeft(a.x, b.x), ShiftLeft(a.y, b.y))
  }

  function Shr(a: Vec2, b: Vec2): Vec2
    requires NoNegativeComponent(b)
  {
    Vec2(ShiftRight(a.x, b.x), ShiftRight(a.y, b.y))
  }

  /** `(a / b) * b + a % b == a`, component by component. */
  lemma QuotRemIdentity(a: Vec2, b: Vec2)
    requires NoZeroComponent(b)
    ensures Add(Hadamard(Quot(a, b), b), Rem(a, b)) == a
  {
    DivRemIdentity(a.x, b.x);
    DivRemIdentity(a.y, b.y);
  }

  /** `v ^= w; v ^= w` restores `v`. */
  lemma XorInvolutive(a: Vec2, b: Vec2)
    ensures Xor(Xor(a, b), b) == a
  {
    BitXorInvolutive(a.x, b.x);
    BitXorInvolutive(a.y, b.y);
  }

  /** `v &= v` and `v |= v` leave `v` unchanged; `v ^= v` clears it. */
  lemma BitwiseWithSelf(v: Vec2)
    ensures And(v, v) == v && Or(v, v) == v && Xor(v, v) == Zero()
  {
    BitAndSelf(v.x); BitAndSelf(v.y);
    BitOrSelf(v.x); BitOrSelf(v.y);
    BitXorSelf(v.x); BitXorSelf(v.y);
  }

  /** `v <<= n; v >>= n` restores `v` (wrap-around at the type's width is not modelled). */
  lemma ShiftLeftThenRight(a: Vec2, b: Vec2)
    requires NoNegativeComponent(b)
    ensures Shr(Shl(a, b), b) == a
  {
    ShiftRoundTrip(a.x, b.x);
    ShiftRoundTrip(a.y, b.y);
  }

  // ---- Comparisons (the free operators) ----

  /** `operator==`: exact equality of every component, that is, equality of the vectors. */
  function Equal(a: Vec2, b: Vec2): (r: bool)
    ensures r <==> a == b
  {
    a.x == b.x && a.y == b.y
  }

  /** `operator!=`: `!(lhs == rhs)`. */
  function NotEqual(a: Vec2, b: Vec2): (r: bool)
    ensures r <==> a != b
  {
    !Equal(a, b)
  }

  /** `operator<`: `x` decides unless equal, then `y`. */
  predicate Less(a: Vec2, b: Vec2)
  {
    if a.x != b.x then a.x < b.x else a.y < b.y
  }

  /** `<=`, `>` and `>=` are written in terms of `<`. */
  predicate LessEqual(a: Vec2, b: Vec2) { !Less(b, a) }
  predicate Greater(a: Vec2, b: Vec2) { Less(b, a) }
  predicate GreaterEqual(a: Vec2, b: Vec2) { !Less(a, b) }

  lemma LessIsLexicographic(a: Vec2, b: Vec2)
    ensures Less(a, b) <==> LexLess(Components(a), Components(b))
  {
    assert Components(a)[1..] == [a.y] && Components(b)[1..] == [b.y];
    assert [a.y][1..] == [] && [b.y][1..] == [];
    assert !LexLess([], []);
  }

  /** Exactly one of `a < b`, `a == b`, `b < a` holds. */
  lemma LessTrichotomy(a: Vec2, b: Vec2)
    ensures Less(a, b) || Equal(a, b) || Less(b, a)
    ensures !(Less(a, b) && Less(b, a))
    ensures !Less(a, a)
  {
  }

  lemma LessTransitive(a: Vec2, b: Vec2, c: Vec2)
    requires Less(a, b) && Less(b, c)
    ensures Less(a, c)
  {
  }

  /** The derived operators mean what their names say. */
  lemma DerivedComparisons(a: Vec2, b: Vec2)
    ensures LessEqual(a, b) <==> Less(a, b) || a == b
    ensures Greater(a, b) <==> Less(b, a)
    ensures GreaterEqual(a, b) <==> Less(b, a) || a == b
  {
  }

  // ---- Swizzles ----

  function Xx(v: Vec2): Vec2 { Vec2(v.x, v.x) }
  function Yy(v: Vec2): Vec2 { Vec2(v.y, v.y) }
  function Yx(v: Vec2): Vec2 { Vec2(v.y, v.x) }

  lemma YxSwapsIndices(v: Vec2, i: u32)
    requires i < ComponentCount()
    ensures Index(Yx(v), i) == Index(v, 1 - i)
    ensures Yx(Yx(v)) == v
  {
  }

  lemma RepeatingSwizzlesBroadcast(v: Vec2)
    ensures Xx(v) == Broadcast(Index(v, 0)) && Yy(v) == Broadcast(Index(v, 1))
  {
  }

  // ---- The members that update the receiver in place ----

  /** An lvalue of type `vec2<T>`: the compound assignments, increments and the reference form
      of `operator[]` update its two fields. Each method's new value is stated through the
      pure operations above, with the scalar forms as the vector forms on `Broadcast(s)`. */
  class Vec2Var {
    var x: int
    var y: int

    function Value(): Vec2
      reads this
    {
      Vec2(x, y)
    }

    constructor (v: Vec2)
      ensures Value() == v
    {
      x, y := v.x, v.y;
    }

    /** Assignment through `T &operator[](uint32_t i)`: index 1 writes `y`, any other index `x`. */
    method SetComponent(i: u32, value: int)
      modifies this
      ensures Index(Value(), i) == value
      ensures i == 1 ==> x == old(x)
      ensures i != 1 ==> y == old(y)
    {
      if i == 1 {
        y := value;
      } else {
        x := value;
      }
    }

    /** `operator=(vec2<A> const &)`. */
    method Assign(v: Vec2)
      modifies this
      ensures Value() == v
    {
      x := v.x;
      y := v.y;
    }

    method AddScalar(s: int)
      modifies this
      ensures Value() == Add(old(Value()), Broadcast(s))
    {
      x := x + s;
      y := y + s;
    }

    method AddVector(v: Vec2)
      modifies this
      ensures Value() == Add(old(Value()), v)
    {
      x := x + v.x;
      y := y + v.y;
    }

    method SubScalar(s: int)
      modifies this
      ensures Value() == Sub(old(Value()), Broadcast(s))
    {
      x := x - s;
      y := y - s;
    }

    method SubVector(v: Vec2)
      modifies this
      ensures Value() == Sub(old(Value()), v)
    {
      x := x - v.x;
      y := y - v.y;
    }

    method MulScalar(s: int)
      modifies this
      ensures Value() == Hadamard(old(Value()), Broadcast(s))
    {
      x := x * s;
      y := y * s;
    }

    method MulVector(v: Vec2)
      modifies this
      ensures Value() == Hadamard(old(Value()), v)
    {
      x := x * v.x;
      y := y * v.y;
    }

    method DivScalar(s: int)
      requires s != 0
      modifies this
      ensures Value() == Quot(old(Value()), Broadcast(s))
    {
      x := TruncDiv(x, s);
      y := TruncDiv(y, s);
    }

    method DivVector(v: Vec2)
      requires NoZeroComponent(v)
      modifies this
      ensures Value() == Quot(old(Value()), v)
    {
      x := TruncDiv(x, v.x);
      y := TruncDiv(y, v.y);
    }

    /** Prefix `++` and `--`. */
    method PreIncrement()
      modifies this
      ensures Value() == Add(old(Value()), Ones())
    {
      x := x + 1;
      y := y + 1;
    }

    method PreDecrement()
      modifies this
      ensures Value() == Sub(old(Value()), Ones())
    {
      x := x - 1;
      y := y - 1;
    }

    /** Postfix `++` and `--`: copy, update the receiver through the prefix form, return the copy. */
    method PostIncrement() returns (previous: Vec2)
      modifies this
      ensures previous == old(Value())
      ensures Value() == Add(previous, Ones())
    {
      previous := Value();
      PreIncrement();
    }

    method PostDecrement() returns (previous: Vec2)
      modifies this
      ensures previous == old(Value())
      ensures Value() == Sub(previous, Ones())
    {
      previous := Value();
      PreDecrement();
    }

    method RemVector(v: Vec2)
      requires NoZeroComponent(v)
      modifies this
      ensures Value() == Rem(old(Value()), v)
    {
      x := TruncRem(x, v.x);
      y := TruncRem(y, v.y);
    }

    method RemScalar(s: int)
      requires s != 0
      modifies this
      ensures Value() == Rem(old(Value()), Broadcast(s))
    {
      x := TruncRem(x, s);
      y := TruncRem(y, s);
    }

    method AndVector(v: Vec2)
      modifies this
      ensures Value() == And(old(Value()), v)
    {
      x := BitAnd(x, v.x);
      y := BitAnd(y, v.y);
    }

    method AndScalar(s: int)
      modifies this
      ensures Value() == And(old(Value()), Broadcast(s))
    {
      x := BitAnd(x, s);
      y := BitAnd(y, s);
    }

    method OrVector(v: Vec2)
      modifies this
      ensures Value() == Or(old(Value()), v)
    {
      x := BitOr(x, v.x);
      y := BitOr(y, v.y);
    }

    method OrScalar(s: int)
      modifies this
      ensures Value() == Or(old(Value()), Broadcast(s))
    {
      x := BitOr(x, s);
      y := BitOr(y, s);
    }

    method XorVector(v: Vec2)
      modifies this
      ensures Value() == Xor(old(Value()), v)
    {
      x := BitXor(x, v.x);
      y := BitXor(y, v.y);
    }

    method XorScalar(s: int)
      modifies this
      ensures Value() == Xor(old(Value()), Broadcast(s))
    {
      x := BitXor(x, s);
      y := BitXor(y, s);
    }

    method ShlVector(v: Vec2)
      requires NoNegativeComponent(v)
      modifies this
      ensures Value() == Shl(old(Value()), v)
    {
      x := ShiftLeft(x, v.x);
      y := ShiftLeft(y, v.y);
    }

    method ShlScalar(numBits: int)
      requires numBits >= 0
      modifies this
      ensures Value() == Shl(old(Value()), Broadcast(numBits))
    {
      x := ShiftLeft(x, numBits);
      y := ShiftLeft(y, numBits);
    }

    method ShrVector(v: Vec2)
      requires NoNegativeComponent(v)
      modifies this
      ensures Value() == Shr(old(Value()), v)
    {
      x := ShiftRight(x, v.x);
      y := ShiftRight(y, v.y);
    }

    method ShrScalar(numBits: int)
      requires numBits >= 0
      modifies this
      ensures Value() == Shr(old(Value()), Broadcast(numBits))
    {
      x := ShiftRight(x, numBits);
      y := ShiftRight(y, numBits);
    }
  }

  /** Incrementing and then decrementing, in either form, leaves a vector as it was. */
  lemma IncrementDecrementInverse(v: Vec2)
    ensures Sub(Add(v, Ones()), Ones()) == v
    ensures Add(Sub(v, Ones()), Ones()) == v
  {
  }
}
