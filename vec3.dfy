/** `vec3<T>` (vec3.hpp) with an integer element type: the free operators, swizzles and
    products as functions on `VecTypes.Vec3`, and the members that update `x`, `y` and `z` in
    place as methods of the class `Vec3Var`. */
module Vector3 {
  import opened VecTypes
  import opened Wrappers
  import opened CppInt
  import Vector2

  // ---- Construction ----

  /** `vec3(T value)`: every component takes the one value. */
  function Broadcast(value: int): Vec3 { Vec3(value, value, value) }

  /** `vec3()`: the zero-initialising default constructor. */
  function Default(): Vec3 { Vec3(0, 0, 0) }

  /** `vec3::zero()` and `vec3::ones()`, both built with the single-value constructor. */
  function Zero(): Vec3 { Broadcast(0) }
  function Ones(): Vec3 { Broadcast(1) }

  /** `vec3(vec2 xy, z)`, `vec3(x, vec2 yz)` and `vec3(vec4 const &)`. */
  function FromVec2Z(xy: Vec2, z: int): Vec3 { Vec3(xy.x, xy.y, z) }
  function FromXVec2(x: int, yz: Vec2): Vec3 { Vec3(x, yz.x, yz.y) }
  function FromVec4(v: Vec4): Vec3 { Vec3(v.x, v.y, v.z) }

  /** `componentCount()` and the components in declared order. */
  function ComponentCount(): nat { 3 }
  function Components(v: Vec3): seq<int> { [v.x, v.y, v.z] }

  lemma DefaultIsZero()
    ensures Default() == Zero()
    ensures Components(Zero()) == [0, 0, 0] && Components(Ones()) == [1, 1, 1]
  {
  }

  /** Both mixed constructors lay the scalar and the pair out in argument order. */
  lemma MixedConstructorsConcatenate(xy: Vec2, z: int, x: int, yz: Vec2)
    ensures Components(FromVec2Z(xy, z)) == Vector2.Components(xy) + [z]
    ensures Components(FromXVec2(x, yz)) == [x] + Vector2.Components(yz)
  {
  }

  /** Narrowing to `vec2` after widening with `vec3(vec2, z)` gives the pair back. */
  lemma WidenThenNarrow(xy: Vec2, z: int, v4: Vec4)
    ensures Vector2.FromVec3(FromVec2Z(xy, z)) == xy
    ensures Components(FromVec4(v4)) == [v4.x, v4.y, v4.z]
  {
  }

  // ---- Component access ----

  /** `operator[](uint32_t i)`: 1 selects `y`, 2 selects `z`, and every other index, through
      the `default` label that falls into `case 0`, selects `x`. */
  function Index(v: Vec3, i: u32): int
  {
    if i == 1 then v.y else if i == 2 then v.z else v.x
  }

  lemma IndexMatchesComponents(v: Vec3, i: u32)
    requires i < ComponentCount()
    ensures Index(v, i) == Components(v)[i]
  {
  }

  lemma IndexOutOfRange(v: Vec3, i: u32)
    requires i >= ComponentCount()
    ensures Index(v, i) == v.x
  {
  }

  lemma IndexDetermines(a: Vec3, b: Vec3)
    requires forall i: u32 :: i < ComponentCount() ==> Index(a, i) == Index(b, i)
    ensures a == b
  {
    assert Index(a, 0) == Index(b, 0);
    assert Index(a, 1) == Index(b, 1);
    assert Index(a, 2) == Index(b, 2);
  }

  // ---- Arithmetic (the free operators; the members `+` and `-` compute the same) ----

  function Add(a: Vec3, b: Vec3): Vec3 { Vec3(a.x + b.x, a.y + b.y, a.z + b.z) }
  function Sub(a: Vec3, b: Vec3): Vec3 { Vec3(a.x - b.x, a.y - b.y, a.z - b.z) }

  /** `vec * scalar` and `scalar * vec` with a `float` scalar, truncated back to integers. */
  function Scale(v: Vec3, s: real): Vec3
  {
    Vec3(TruncReal(v.x as real * s), TruncReal(v.y as real * s), TruncReal(v.z as real * s))
  }

  /** `vec / scalar`: throws for a zero scalar, otherwise truncates each quotient. */
  function Div(v: Vec3, s: real): (r: Result<Vec3>)
    ensures r.Err? <==> s == 0.0
    ensures r.Err? ==> r.message == DivisionByZero
  {
    if s != 0.0 then
      Ok(Vec3(TruncReal(v.x as real / s), TruncReal(v.y as real / s), TruncReal(v.z as real / s)))
    else Err(DivisionByZero)
  }

  function Dot(a: Vec3, b: Vec3): int { a.x * b.x + a.y * b.y + a.z * b.z }

  function LengthSquared(v: Vec3): (r: int)
    ensures r >= 0
    ensures r == 0 <==> v == Zero()
  {
    assert v.x * v.x >= 0 && v.y * v.y >= 0 && v.z * v.z >= 0;
    v.x * v.x + v.y * v.y + v.z * v.z
  }

  /** `cross`: the vector product, computed exactly. */
  function Cross(a: Vec3, b: Vec3): Vec3
  {
    Vec3(a.y * b.z - a.z * b.y, a.z * b.x - a.x * b.z, a.x * b.y - a.y * b.x)
  }

  lemma ZeroIsIdentity(v: Vec3)
    ensures Add(Zero(), v) == v && Add(v, Zero()) == v
  {
  }

  lemma SubSelfIsZero(v: Vec3)
    ensures Sub(v, v) == Zero()
  {
  }

  lemma AddSubInverse(a: Vec3, b: Vec3)
    ensures Sub(Add(a, b), b) == a
    ensures Add(Sub(a, b), b) == a
  {
  }

  lemma AddCommutative(a: Vec3, b: Vec3)
    ensures Add(a, b) == Add(b, a)
  {
  }

  lemma ScaleByInteger(v: Vec3, k: int)
    ensures Scale(v, k as real) == Vec3(v.x * k, v.y * k, v.z * k)
  {
    TruncOfProduct(v.x, k);
    TruncOfProduct(v.y, k);
    TruncOfProduct(v.z, k);
  }

  lemma DivExactMultiple(v: Vec3, k: int)
    requires k != 0
    ensures Div(Vec3(v.x * k, v.y * k, v.z * k), k as real) == Ok(v)
  {
    TruncOfQuotient(v.x, k);
    TruncOfQuotient(v.y, k);
    TruncOfQuotient(v.z, k);
  }

  /** Scaling by a nonzero integer `k` and dividing by it gives the vector back. */
  lemma DivUndoesScale(v: Vec3, k: int)
    requires k != 0
    ensures Div(Scale(v, k as real), k as real) == Ok(v)
  {
    ScaleByInteger(v, k);
    DivExactMultiple(v, k);
  }

  lemma DotWithSelf(v: Vec3)
    ensures Dot(v, v) == LengthSquared(v)
  {
  }

  lemma DotCommutative(a: Vec3, b: Vec3)
    ensures Dot(a, b) == Dot(b, a)
  {
  }

  /** The right-handed basis: x cross y is z. */
  lemma CrossOfBasis()
    ensures Cross(Vec3(1, 0, 0), Vec3(0, 1, 0)) == Vec3(0, 0, 1)
    ensures Cross(Vec3(0, 1, 0), Vec3(0, 0, 1)) == Vec3(1, 0, 0)
  {
    var ex, ey, ez := Vec3(1, 0, 0), Vec3(0, 1, 0), Vec3(0, 0, 1);
    assert ex.y * ey.z == 0 && ex.z * ey.y == 0;
    assert ex.z * ey.x == 0 && ex.x * ey.z == 0;
    assert ex.x * ey.y == 1 && ex.y * ey.x == 0;
    assert ey.y * ez.z == 1 && ey.z * ez.y == 0;
    assert ey.z * ez.x == 0 && ey.x * ez.z == 0;
    assert ey.x * ez.y == 0 && ey.y * ez.x == 0;
  }

  /** Swapping the operands negates the cross product; a vector crossed with itself is zero. */
  lemma CrossAntiCommutative(a: Vec3, b: Vec3)
    ensures Cross(b, a) == Sub(Zero(), Cross(a, b))
    ensures Cross(a, a) == Zero()
  {
  }

  /** The cross product is orthogonal to both operands. */
  lemma CrossOrthogonal(a: Vec3, b: Vec3)
    ensures Dot(a, Cross(a, b)) == 0
    ensures Dot(b, Cross(a, b)) == 0
  {
    CrossOrthogonalToLeft(a, b);
    CrossOrthogonalToLeft(b, a);
    CrossAntiCommutative(a, b);
    assert Dot(b, Cross(a, b)) == -Dot(b, Cross(b, a));
  }

  lemma CrossOrthogonalToLeft(a: Vec3, b: Vec3)
    ensures Dot(a, Cross(a, b)) == 0
  {
    assert a.x * (a.y * b.z - a.z * b.y) == a.x * a.y * b.z - a.x * a.z * b.y;
    assert a.y * (a.z * b.x - a.x * b.z) == a.y * a.z * b.x - a.y * a.x * b.z;
    assert a.z * (a.x * b.y - a.y * b.x) == a.z * a.x * b.y - a.z * a.y * b.x;
  }

  // ---- Component-wise operations behind the compound assignments ----

  function Hadamard(a: Vec3, b: Vec3): Vec3 { Vec3(a.x * b.x, a.y * b.y, a.z * b.z) }

  predicate NoZeroComponent(b: Vec3) { b.x != 0 && b.y != 0 && b.z != 0 }
  predicate NoNegativeComponent(b: Vec3) { b.x >= 0 && b.y >= 0 && b.z >= 0 }

  /** `/=` with integer components: truncating division. */
  function Quot(a: Vec3, b: Vec3): Vec3
    requires NoZeroComponent(b)
  {
    Vec3(TruncDiv(a.x, b.x), TruncDiv(a.y, b.y), TruncDiv(a.z, b.z))
  }

  /** `%=`: the C++ remainder in each component. */
  function Rem(a: Vec3, b: Vec3): (r: Vec3)
    requires NoZeroComponent(b)
    ensures Abs(r.x) < Abs(b.x) && Abs(r.y) < Abs(b.y) && Abs(r.z) < Abs(b.z)
    ensures (a.x >= 0 ==> r.x >= 0) && (a.x <= 0 ==> r.x <= 0)
    ensures (a.y >= 0 ==> r.y >= 0) && (a.y <= 0 ==> r.y <= 0)
    ensures (a.z >= 0 ==> r.z >= 0) && (a.z <= 0 ==> r.z <= 0)
  {
    Vec3(TruncRem(a.x, b.x), TruncRem(a.y, b.y), TruncRem(a.z, b.z))
  }

  function And(a: Vec3, b: Vec3): Vec3 { Vec3(BitAnd(a.x, b.x), BitAnd(a.y, b.y), BitAnd(a.z, b.z)) }
  function Or(a: Vec3, b: Vec3): Vec3 { Vec3(BitOr(a.x, b.x), BitOr(a.y, b.y), BitOr(a.z, b.z)) }
  function Xor(a: Vec3, b: Vec3): Vec3 { Vec3(BitXor(a.x, b.x), BitXor(a.y, b.y), BitXor(a.z, b.z)) }

  function Shl(a: Vec3, b: Vec3): Vec3
    requires NoNegativeComponent(b)
  {
    Vec3(ShiftLeft(a.x, b.x), ShiftLeft(a.y, b.y), ShiftLeft(a.z, b.z))
  }

  /** The right shift component by component. `vec3` declares no right shift by a `vec3`
      (its vector `>>=` takes a `vec2` and is left out), so this is used as `>>=` by a scalar,
      with `Broadcast(numBits)`, and as the inverse of the vector `<<=`. */
  function Shr(a: Vec3, b: Vec3): Vec3
    requires NoNegativeComponent(b)
  {
    Vec3(ShiftRight(a.x, b.x), ShiftRight(a.y, b.y), ShiftRight(a.z, b.z))
  }

  lemma QuotRemIdentity(a: Vec3, b: Vec3)
    requires NoZeroComponent(b)
    ensures Add(Hadamard(Quot(a, b), b), Rem(a, b)) == a
  {
    DivRemIdentity(a.x, b.x);
    DivRemIdentity(a.y, b.y);
    DivRemIdentity(a.z, b.z);
  }

  lemma XorInvolutive(a: Vec3, b: Vec3)
    ensures Xor(Xor(a, b), b) == a
  {
    BitXorInvolutive(a.x, b.x);
    BitXorInvolutive(a.y, b.y);
    BitXorInvolutive(a.z, b.z);
  }

  lemma BitwiseWithSelf(v: Vec3)
    ensures And(v, v) == v && Or(v, v) == v && Xor(v, v) == Zero()
  {
    BitAndSelf(v.x); BitAndSelf(v.y); BitAndSelf(v.z);
    BitOrSelf(v.x); BitOrSelf(v.y); BitOrSelf(v.z);
    BitXorSelf(v.x); BitXorSelf(v.y); BitXorSelf(v.z);
  }

  lemma ShiftLeftThenRight(a: Vec3, b: Vec3)
    requires NoNegativeComponent(b)
    ensures Shr(Shl(a, b), b) == a
  {
    ShiftRoundTrip(a.x, b.x);
    ShiftRoundTrip(a.y, b.y);
    ShiftRoundTrip(a.z, b.z);
  }

  /** `<<=` and then `>>=` by the same scalar restore the vector. */
  lemma ShiftScalarRoundTrip(a: Vec3, numBits: int)
    requires numBits >= 0
    ensures Shr(Shl(a, Broadcast(numBits)), Broadcast(numBits)) == a
  {
    ShiftLeftThenRight(a, Broadcast(numBits));
  }

  // ---- Comparisons (the free operators) ----

  function Equal(a: Vec3, b: Vec3): (r: bool)
    ensures r <==> a == b
  {
    a.x == b.x && a.y == b.y && a.z == b.z
  }

  function NotEqual(a: Vec3, b: Vec3): (r: bool)
    ensures r <==> a != b
  {
    !Equal(a, b)
  }

  /** `operator<`: the first component that differs decides. */
  predicate Less(a: Vec3, b: Vec3)
  {
    if a.x != b.x then a.x < b.x else if a.y != b.y then a.y < b.y else a.z < b.z
  }

  predicate LessEqual(a: Vec3, b: Vec3) { !Less(b, a) }
  predicate Greater(a: Vec3, b: Vec3) { Less(b, a) }
  predicate GreaterEqual(a: Vec3, b: Vec3) { !Less(a, b) }

  lemma LessIsLexicographic(a: Vec3, b: Vec3)
    ensures Less(a, b) <==> LexLess(Components(a), Components(b))
  {
    assert Components(a)[1..] == [a.y, a.z] && Components(b)[1..] == [b.y, b.z];
    assert [a.y, a.z][1..] == [a.z] && [b.y, b.z][1..] == [b.z];
    assert [a.z][1..] == [] && [b.z][1..] == [];
    assert !LexLess([], []);
    assert LexLess([a.z], [b.z]) <==> a.z < b.z;
    assert LexLess([a.y, a.z], [b.y, b.z]) <==> a.y < b.y || (a.y == b.y && a.z < b.z);
  }

  lemma LessTrichotomy(a: Vec3, b: Vec3)
    ensures Less(a, b) || Equal(a, b) || Less(b, a)
    ensures !(Less(a, b) && Less(b, a))
    ensures !Less(a, a)
  {
  }

  lemma LessTransitive(a: Vec3, b: Vec3, c: Vec3)
    requires Less(a, b) && Less(b, c)
    ensures Less(a, c)
  {
  }

  /** Two orderings decided by the last and by the first component. */
  lemma LessExamples()
    ensures Less(Vec3(1, 2, 3), Vec3(1, 2, 4)) && !Less(Vec3(1, 2, 4), Vec3(1, 2, 3))
    ensures Less(Vec3(1, 5, 0), Vec3(2, 0, 0)) && !Less(Vec3(2, 0, 0), Vec3(1, 5, 0))
  {
  }

  lemma DerivedComparisons(a: Vec3, b: Vec3)
    ensures LessEqual(a, b) <==> Less(a, b) || a == b
    ensures Greater(a, b) <==> Less(b, a)
    ensures GreaterEqual(a, b) <==> Less(b, a) || a == b
  {
  }

  // ---- Swizzles ----

  function Zyx(v: Vec3): Vec3 { Vec3(v.z, v.y, v.x) }
  function Xxx(v: Vec3): Vec3 { Vec3(v.x, v.x, v.x) }
  function Yyy(v: Vec3): Vec3 { Vec3(v.y, v.y, v.y) }
  function Zzz(v: Vec3): Vec3 { Vec3(v.z, v.z, v.z) }

  lemma ZyxReverses(v: Vec3, i: u32)
    requires i < ComponentCount()
    ensures Index(Zyx(v), i) == Index(v, 2 - i)
    ensures Zyx(Zyx(v)) == v
  {
  }

  lemma RepeatingSwizzlesBroadcast(v: Vec3)
    ensures Xxx(v) == Broadcast(Index(v, 0))
    ensures Yyy(v) == Broadcast(Index(v, 1))
    ensures Zzz(v) == Broadcast(Index(v, 2))
  {
  }

  // ---- The members that update the receiver in place ----

  /** An lvalue of type `vec3<T>`; the scalar forms of the compound assignments are the
      vector forms on `Broadcast(s)`. */
  class Vec3Var {
    var x: int
    var y: int
    var z: int

    function Value(): Vec3
      reads this
    {
      Vec3(x, y, z)
    }

    constructor (v: Vec3)
      ensures Value() == v
    {
      x, y, z := v.x, v.y, v.z;
    }

    /** Assignment through `T &operator[](uint32_t i)`. */
    method SetComponent(i: u32, value: int)
      modifies this
      ensures Index(Value(), i) == value
      ensures i == 1 ==> x == old(x) && z == old(z)
      ensures i == 2 ==> x == old(x) && y == old(y)
      ensures i != 1 && i != 2 ==> y == old(y) && z == old(z)
    {
      if i == 1 {
        y := value;
      } else if i == 2 {
        z := value;
      } else {
        x := value;
      }
    }

    method Assign(v: Vec3)
      modifies this
      ensures Value() == v
    {
      x := v.x;
      y := v.y;
      z := v.z;
    }

    method AddScalar(s: int)
      modifies this
      ensures Value() == Add(old(Value()), Broadcast(s))
    {
      x := x + s;
      y := y + s;
      z := z + s;
    }

    method AddVector(v: Vec3)
      modifies this
      ensures Value() == Add(old(Value()), v)
    {
      x := x + v.x;
      y := y + v.y;
      z := z + v.z;
    }

    method SubScalar(s: int)
      modifies this
      ensures Value() == Sub(old(Value()), Broadcast(s))
    {
      x := x - s;
      y := y - s;
      z := z - s;
    }

    method SubVector(v: Vec3)
      modifies this
      ensures Value() == Sub(old(Value()), v)
    {
      x := x - v.x;
      y := y - v.y;
      z := z - v.z;
    }

    method MulScalar(s: int)
      modifies this
      ensures Value() == Hadamard(old(Value()), Broadcast(s))
    {
      x := x * s;
      y := y * s;
      z := z * s;
    }

    method MulVector(v: Vec3)
      modifies this
      ensures Value() == Hadamard(old(Value()), v)
    {
      x := x * v.x;
      y := y * v.y;
      z := z * v.z;
    }

    method DivScalar(s: int)
      requires s != 0
      modifies this
      ensures Value() == Quot(old(Value()), Broadcast(s))
    {
      x := TruncDiv(x, s);
      y := TruncDiv(y, s);
      z := TruncDiv(z, s);
    }

    method DivVector(v: Vec3)
      requires NoZeroComponent(v)
      modifies this
      ensures Value() == Quot(old(Value()), v)
    {
      x := TruncDiv(x, v.x);
      y := TruncDiv(y, v.y);
      z := TruncDiv(z, v.z);
    }

    method PreIncrement()
      modifies this
      ensures Value() == Add(old(Value()), Ones())
    {
      x := x + 1;
      y := y + 1;
      z := z + 1;
    }

    method PreDecrement()
      modifies this
      ensures Value() == Sub(old(Value()), Ones())
    {
      x := x - 1;
      y := y - 1;
      z := z - 1;
    }

    method PostIncrement() returns (previous: Vec3)
      modifies this
      ensures previous == old(Value())
      ensures Value() == Add(previous, Ones())
    {
      previous := Value();
      PreIncrement();
    }

    method PostDecrement() returns (previous: Vec3)
      modifies this
      ensures previous == old(Value())
      ensures Value() == Sub(previous, Ones())
    {
      previous := Value();
      PreDecrement();
    }

    method RemVector(v: Vec3)
      requires NoZeroComponent(v)
      modifies this
      ensures Value() == Rem(old(Value()), v)
    {
      x := TruncRem(x, v.x);
      y := TruncRem(y, v.y);
      z := TruncRem(z, v.z);
    }

    method RemScalar(s: int)
      requires s != 0
      modifies this
      ensures Value() == Rem(old(Value()), Broadcast(s))
    {
      x := TruncRem(x, s);
      y := TruncRem(y, s);
      z := TruncRem(z, s);
    }

    method AndVector(v: Vec3)
      modifies this
      ensures Value() == And(old(Value()), v)
    {
      x := BitAnd(x, v.x);
      y := BitAnd(y, v.y);
      z := BitAnd(z, v.z);
    }

    method AndScalar(s: int)
      modifies this
      ensures Value() == And(old(Value()), Broadcast(s))
    {
      x := BitAnd(x, s);
      y := BitAnd(y, s);
      z := BitAnd(z, s);
    }

    method OrVector(v: Vec3)
      modifies this
      ensures Value() == Or(old(Value()), v)
    {
      x := BitOr(x, v.x);
      y := BitOr(y, v.y);
      z := BitOr(z, v.z);
    }

    method OrScalar(s: int)
      modifies this
      ensures Value() == Or(old(Value()), Broadcast(s))
    {
      x := BitOr(x, s);
      y := BitOr(y, s);
      z := BitOr(z, s);
    }

    method XorVector(v: Vec3)
      modifies this
      ensures Value() == Xor(old(Value()), v)
    {
      x := BitXor(x, v.x);
      y := BitXor(y, v.y);
      z := BitXor(z, v.z);
    }

    method XorScalar(s: int)
      modifies this
      ensures Value() == Xor(old(Value()), Broadcast(s))
    {
      x := BitXor(x, s);
      y := BitXor(y, s);
      z := BitXor(z, s);
    }

    method ShlVector(v: Vec3)
      requires NoNegativeComponent(v)
      modifies this
      ensures Value() == Shl(old(Value()), v)
    {
      x := ShiftLeft(x, v.x);
      y := ShiftLeft(y, v.y);
      z := ShiftLeft(z, v.z);
    }

    method ShlScalar(numBits: int)
      requires numBits >= 0
      modifies this
      ensures Value() == Shl(old(Value()), Broadcast(numBits))
    {
      x := ShiftLeft(x, numBits);
      y := ShiftLeft(y, numBits);
      z := ShiftLeft(z, numBits);
    }

    /** `>>=` with a scalar count. */
    method ShrScalar(numBits: int)
      requires numBits >= 0
      modifies this
      ensures Value() == Shr(old(Value()), Broadcast(numBits))
    {
      x := ShiftRight(x, numBits);
      y := ShiftRight(y, numBits);
      z := ShiftRight(z, numBits);
    }
  }

  lemma IncrementDecrementInverse(v: Vec3)
    ensures Sub(Add(v, Ones()), Ones()) == v
    ensures Add(Sub(v, Ones()), Ones()) == v
  {
  }
}
