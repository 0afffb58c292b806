/** `vec4<T>` (vec4.hpp) with an integer element type: the free operators, swizzles and
    products as functions on `VecTypes.Vec4`, and the members that update the four fields in
    place as methods of the class `Vec4Var`. */
module Vector4 {
  import opened VecTypes
  import opened Wrappers
  import opened CppInt
  import Vector2
  import Vector3

  // ---- Construction ----

  /** `vec4(T value)`: every component takes the one value. */
  function Broadcast(value: int): Vec4 { Vec4(value, value, value, value) }

  /** `vec4()`: the zero-initialising default constructor. */
  function Default(): Vec4 { Vec4(0, 0, 0, 0) }

  /** `vec4::zero()` and `vec4::ones()`, both built with the single-value constructor. */
  function Zero(): Vec4 { Broadcast(0) }
  function Ones(): Vec4 { Broadcast(1) }

  /** The six constructors that assemble a `vec4` from smaller vectors and scalars. */
  function FromVec2ZW(xy: Vec2, z: int, w: int): Vec4 { Vec4(xy.x, xy.y, z, w) }
  function FromXVec2W(x: int, yz: Vec2, w: int): Vec4 { Vec4(x, yz.x, yz.y, w) }
  function FromXYVec2(x: int, y: int, zw: Vec2): Vec4 { Vec4(x, y, zw.x, zw.y) }
  function FromVec3W(xyz: Vec3, w: int): Vec4 { Vec4(xyz.x, xyz.y, xyz.z, w) }
  function FromXVec3(x: int, yzw: Vec3): Vec4 { Vec4(x, yzw.x, yzw.y, yzw.z) }
  function FromVec2Vec2(xy: Vec2, zw: Vec2): Vec4 { Vec4(xy.x, xy.y, zw.x, zw.y) }

  /** `componentCount()` and the components in declared order. */
  function ComponentCount(): nat { 4 }
  function Components(v: Vec4): seq<int> { [v.x, v.y, v.z, v.w] }

  lemma DefaultIsZero()
    ensures Default() == Zero()
    ensures Components(Zero()) == [0, 0, 0, 0] && Components(Ones()) == [1, 1, 1, 1]
  {
  }

  /** Every composing constructor lays its arguments out in order. */
  lemma ComposingConstructorsConcatenate(p: Vec2, q: Vec2, t: Vec3, a: int, b: int)
    ensures Components(FromVec2ZW(p, a, b)) == Vector2.Components(p) + [a, b]
    ensures Components(FromXVec2W(a, p, b)) == [a] + Vector2.Components(p) + [b]
    ensures Components(FromXYVec2(a, b, p)) == [a, b] + Vector2.Components(p)
    ensures Components(FromVec3W(t, a)) == Vector3.Components(t) + [a]
    ensures Components(FromXVec3(a, t)) == [a] + Vector3.Components(t)
    ensures Components(FromVec2Vec2(p, q)) == Vector2.Components(p) + Vector2.Components(q)
  {
  }

  /** Narrowing a composed `vec4` back with `vec2(vec4)` or `vec3(vec4)` recovers the prefix. */
  lemma NarrowComposed(p: Vec2, q: Vec2, t: Vec3, a: int)
    ensures Vector2.FromVec4(FromVec2Vec2(p, q)) == p
    ensures Vector3.FromVec4(FromVec3W(t, a)) == t
  {
  }

  // ---- Component access ----

  /** `operator[](uint32_t i)`: 1, 2 and 3 select `y`, `z` and `w`; every other index, through
      the `default` label that falls into `case 0`, selects `x`. */
  function Index(v: Vec4, i: u32): int
  {
    if i == 1 then v.y else if i == 2 then v.z else if i == 3 then v.w else v.x
  }

  lemma IndexMatchesComponents(v: Vec4, i: u32)
    requires i < ComponentCount()
    ensures Index(v, i) == Components(v)[i]
  {
  }

  lemma IndexOutOfRange(v: Vec4, i: u32)
    requires i >= ComponentCount()
    ensures Index(v, i) == v.x
  {
  }

  lemma IndexDetermines(a: Vec4, b: Vec4)
    requires forall i: u32 :: i < ComponentCount() ==> Index(a, i) == Index(b, i)
    ensures a == b
  {
    assert Index(a, 0) == Index(b, 0);
    assert Index(a, 1) == Index(b, 1);
    assert Index(a, 2) == Index(b, 2);
    assert Index(a, 3) == Index(b, 3);
  }

  // ---- Arithmetic ----

  /** The free and the member `operator+`. */
  function Add(a: Vec4, b: Vec4): Vec4 { Vec4(a.x + b.x, a.y + b.y, a.z + b.z, a.w + b.w) }

  /** The member `operator-`: component-wise difference. */
  function Sub(a: Vec4, b: Vec4): Vec4 { Vec4(a.x - b.x, a.y - b.y, a.z - b.z, a.w - b.w) }

  /** The free `operator-(lhs, rhs)` as written: its third component is `lhs.x - rhs.z`. */
  function FreeSubAsWritten(a: Vec4, b: Vec4): Vec4 { Vec4(a.x - b.x, a.y - b.y, a.x - b.z, a.w - b.w) }

  /** The free `operator-` agrees with the component-wise difference exactly when the two
      components it confuses are equal. */
  lemma FreeSubAsWrittenAgreesIff(a: Vec4, b: Vec4)
    ensures FreeSubAsWritten(a, b) == Sub(a, b) <==> a.x == a.z
  {
    if FreeSubAsWritten(a, b) == Sub(a, b) {
      assert a.x - b.z == a.z - b.z;
    }
  }

  /** `(0, 0, 1, 0) - zero()` through the free operator yields `(0, 0, 0, 0)`. */
  lemma FreeSubAsWrittenCounterexample()
    ensures FreeSubAsWritten(Vec4(0, 0, 1, 0), Zero()) == Vec4(0, 0, 0, 0)
  {
  }

  /** Whenever `x != z` in the result of `a + b`, subtracting `b` again through the free
      operator does not give `a` back. */
  lemma FreeSubAsWrittenDoesNotInvertAdd(a: Vec4, b: Vec4)
    requires a.x + b.x != a.z + b.z
    ensures FreeSubAsWritten(Add(a, b), b) != a
  {
    assert FreeSubAsWritten(Add(a, b), b).z == a.x + b.x - b.z;
  }

  /** `vec * scalar` and `scalar * vec` with a `float` scalar, truncated back to integers. */
  function Scale(v: Vec4, s: real): Vec4
  {
    Vec4(TruncReal(v.x as real * s), TruncReal(v.y as real * s),
         TruncReal(v.z as real * s), TruncReal(v.w as real * s))
  }

  /** `vec / scalar`: throws for a zero scalar, otherwise truncates each quotient. */
  function Div(v: Vec4, s: real): (r: Result<Vec4>)
    ensures r.Err? <==> s == 0.0
    ensures r.Err? ==> r.message == DivisionByZero
  {
    if s != 0.0 then
      Ok(Vec4(TruncReal(v.x as real / s), TruncReal(v.y as real / s),
              TruncReal(v.z as real / s), TruncReal(v.w as real / s)))
    else Err(DivisionByZero)
  }

  function Dot(a: Vec4, b: Vec4): int { a.x * b.x + a.y * b.y + a.z * b.z + a.w * b.w }

  function LengthSquared(v: Vec4): (r: int)
    ensures r >= 0
    ensures r == 0 <==> v == Zero()
  {
    assert v.x * v.x >= 0 && v.y * v.y >= 0 && v.z * v.z >= 0 && v.w * v.w >= 0;
    v.x * v.x + v.y * v.y + v.z * v.z + v.w * v.w
  }

  /** `hadamard` and `*=` with a vector: the component-wise product. */
  function Hadamard(a: Vec4, b: Vec4): Vec4 { Vec4(a.x * b.x, a.y * b.y, a.z * b.z, a.w * b.w) }

  lemma ZeroIsIdentity(v: Vec4)
    ensures Add(Zero(), v) == v && Add(v, Zero()) == v
  {
  }

  lemma SubSelfIsZero(v: Vec4)
    ensures Sub(v, v) == Zero()
  {
  }

  lemma AddSubInverse(a: Vec4, b: Vec4)
    ensures Sub(Add(a, b), b) == a
    ensures Add(Sub(a, b), b) == a
  {
  }

  lemma AddCommutative(a: Vec4, b: Vec4)
    ensures Add(a, b) == Add(b, a)
  {
  }

  lemma ScaleByInteger(v: Vec4, k: int)
    ensures Scale(v, k as real) == Vec4(v.x * k, v.y * k, v.z * k, v.w * k)
  {
    TruncOfProduct(v.x, k);
    TruncOfProduct(v.y, k);
    TruncOfProduct(v.z, k);
    TruncOfProduct(v.w, k);
  }

  lemma DivExactMultiple(v: Vec4, k: int)
    requires k != 0
    ensures Div(Vec4(v.x * k, v.y * k, v.z * k, v.w * k), k as real) == Ok(v)
  {
    TruncOfQuotient(v.x, k);
    TruncOfQuotient(v.y, k);
    TruncOfQuotient(v.z, k);
    TruncOfQuotient(v.w, k);
  }

  /** Scaling by a nonzero integer `k` and dividing by it gives the vector back. */
  lemma DivUndoesScale(v: Vec4, k: int)
    requires k != 0
    ensures Div(Scale(v, k as real), k as real) == Ok(v)
  {
    ScaleByInteger(v, k);
    DivExactMultiple(v, k);
  }

  lemma DotWithSelf(v: Vec4)
    ensures Dot(v, v) == LengthSquared(v)
  {
  }

  /** The dot product is the sum of the components of the Hadamard product. */
  lemma DotIsSumOfHadamard(a: Vec4, b: Vec4)
    ensures Dot(a, b) == Hadamard(a, b).x + Hadamard(a, b).y + Hadamard(a, b).z + Hadamard(a, b).w
    ensures Hadamard(a, b) == Hadamard(b, a)
  {
  }

  // ---- Component-wise operations behind the compound assignments ----

  predicate NoZeroComponent(b: Vec4) { b.x != 0 && b.y != 0 && b.z != 0 && b.w != 0 }
  predicate NoNegativeComponent(b: Vec4) { b.x >= 0 && b.y >= 0 && b.z >= 0 && b.w >= 0 }

  /** `/=` with integer components: truncating division. */
  function Quot(a: Vec4, b: Vec4): Vec4
    requires NoZeroComponent(b)
  {
    Vec4(TruncDiv(a.x, b.x), TruncDiv(a.y, b.y), TruncDiv(a.z, b.z), TruncDiv(a.w, b.w))
  }

  /** `%=`: the C++ remainder in each component. */
  function Rem(a: Vec4, b: Vec4): (r: Vec4)
    requires NoZeroComponent(b)
    ensures Abs(r.x) < Abs(b.x) && Abs(r.y) < Abs(b.y) && Abs(r.z) < Abs(b.z) && Abs(r.w) < Abs(b.w)
    ensures (a.x >= 0 ==> r.x >= 0) && (a.x <= 0 ==> r.x <= 0)
    ensures (a.y >= 0 ==> r.y >= 0) && (a.y <= 0 ==> r.y <= 0)
    ensures (a.z >= 0 ==> r.z >= 0) && (a.z <= 0 ==> r.z <= 0)
    ensures (a.w >= 0 ==> r.w >= 0) && (a.w <= 0 ==> r.w <= 0)
  {
    Vec4(TruncRem(a.x, b.x), TruncRem(a.y, b.y), TruncRem(a.z, b.z), TruncRem(a.w, b.w))
  }

  function And(a: Vec4, b: Vec4): Vec4
  {
    Vec4(BitAnd(a.x, b.x), BitAnd(a.y, b.y), BitAnd(a.z, b.z), BitAnd(a.w, b.w))
  }

  function Or(a: Vec4, b: Vec4): Vec4
  {
    Vec4(BitOr(a.x, b.x), BitOr(a.y, b.y), BitOr(a.z, b.z), BitOr(a.w, b.w))
  }

  function Xor(a: Vec4, b: Vec4): Vec4
  {
    Vec4(BitXor(a.x, b.x), BitXor(a.y, b.y), BitXor(a.z, b.z), BitXor(a.w, b.w))
  }

  function Shl(a: Vec4, b: Vec4): Vec4
    requires NoNegativeComponent(b)
  {
    Vec4(ShiftLeft(a.x, b.x), ShiftLeft(a.y, b.y), ShiftLeft(a.z, b.z), ShiftLeft(a.w, b.w))
  }

  function Shr(a: Vec4, b: Vec4): Vec4
    requires NoNegativeComponent(b)
  {
    Vec4(ShiftRight(a.x, b.x), ShiftRight(a.y, b.y), ShiftRight(a.z, b.z), ShiftRight(a.w, b.w))
  }

  lemma QuotRemIdentity(a: Vec4, b: Vec4)
    requires NoZeroComponent(b)
    ensures Add(Hadamard(Quot(a, b), b), Rem(a, b)) == a
  {
    DivRemIdentity(a.x, b.x);
    DivRemIdentity(a.y, b.y);
    DivRemIdentity(a.z, b.z);
    DivRemIdentity(a.w, b.w);
  }

  lemma XorInvolutive(a: Vec4, b: Vec4)
    ensures Xor(Xor(a, b), b) == a
  {
    BitXorInvolutive(a.x, b.x);
    BitXorInvolutive(a.y, b.y);
    BitXorInvolutive(a.z, b.z);
    BitXorInvolutive(a.w, b.w);
  }

  lemma BitwiseWithSelf(v: Vec4)
    ensures And(v, v) == v && Or(v, v) == v && Xor(v, v) == Zero()
  {
    BitAndSelf(v.x); BitAndSelf(v.y); BitAndSelf(v.z); BitAndSelf(v.w);
    BitOrSelf(v.x); BitOrSelf(v.y); BitOrSelf(v.z); BitOrSelf(v.w);
    BitXorSelf(v.x); BitXorSelf(v.y); BitXorSelf(v.z); BitXorSelf(v.w);
  }

  lemma ShiftLeftThenRight(a: Vec4, b: Vec4)
    requires NoNegativeComponent(b)
    ensures Shr(Shl(a, b), b) == a
  {
    ShiftRoundTrip(a.x, b.x);
    ShiftRoundTrip(a.y, b.y);
    ShiftRoundTrip(a.z, b.z);
    ShiftRoundTrip(a.w, b.w);
  }

  // ---- Comparisons (the free operators) ----

  function Equal(a: Vec4, b: Vec4): (r: bool)
    ensures r <==> a == b
  {
    a.x == b.x && a.y == b.y && a.z == b.z && a.w == b.w
  }

  function NotEqual(a: Vec4, b: Vec4): (r: bool)
    ensures r <==> a != b
  {
    !Equal(a, b)
  }

  /** `operator<`: the first component that differs decides. */
  predicate Less(a: Vec4, b: Vec4)
  {
    if a.x != b.x then a.x < b.x
    else if a.y != b.y then a.y < b.y
    else if a.z != b.z then a.z < b.z
    else a.w < b.w
  }

  predicate LessEqual(a: Vec4, b: Vec4) { !Less(b, a) }
  predicate Greater(a: Vec4, b: Vec4) { Less(b, a) }
  predicate GreaterEqual(a: Vec4, b: Vec4) { !Less(a, b) }

  lemma LessIsLexicographic(a: Vec4, b: Vec4)
    ensures Less(a, b) <==> LexLess(Components(a), Components(b))
  {
    assert Components(a)[1..] == [a.y, a.z, a.w] && Components(b)[1..] == [b.y, b.z, b.w];
    assert [a.y, a.z, a.w][1..] == [a.z, a.w] && [b.y, b.z, b.w][1..] == [b.z, b.w];
    assert [a.z, a.w][1..] == [a.w] && [b.z, b.w][1..] == [b.w];
    assert [a.w][1..] == [] && [b.w][1..] == [];
    assert !LexLess([], []);
    assert LexLess([a.w], [b.w]) <==> a.w < b.w;
    assert LexLess([a.z, a.w], [b.z, b.w]) <==> a.z < b.z || (a.z == b.z && a.w < b.w);
    assert LexLess([a.y, a.z, a.w], [b.y, b.z, b.w]) <==>
      a.y < b.y || (a.y == b.y && (a.z < b.z || (a.z == b.z && a.w < b.w)));
  }

  lemma LessTrichotomy(a: Vec4, b: Vec4)
    ensures Less(a, b) || Equal(a, b) || Less(b, a)
    ensures !(Less(a, b) && Less(b, a))
    ensures !Less(a, a)
  {
  }

  lemma LessTransitive(a: Vec4, b: Vec4, c: Vec4)
    requires Less(a, b) && Less(b, c)
    ensures Less(a, c)
  {
  }

  lemma DerivedComparisons(a: Vec4, b: Vec4)
    ensures LessEqual(a, b) <==> Less(a, b) || a == b
    ensures Greater(a, b) <==> Less(b, a)
    ensures GreaterEqual(a, b) <==> Less(b, a) || a == b
  {
  }

  // ---- Swizzles ----

  /** `wzyx` as written: it returns `(w, z, x, y)`. */
  function WzyxAsWritten(v: Vec4): Vec4 { Vec4(v.w, v.z, v.x, v.y) }

  /** `wzyx` as its name says: the components in reverse order. */
  function Wzyx(v: Vec4): Vec4 { Vec4(v.w, v.z, v.y, v.x) }

  function Xxxx(v: Vec4): Vec4 { Broadcast(v.x) }
  function Yyyy(v: Vec4): Vec4 { Broadcast(v.y) }
  function Zzzz(v: Vec4): Vec4 { Broadcast(v.z) }
  function Wwww(v: Vec4): Vec4 { Broadcast(v.w) }

  /** The corrected swizzle reverses the components and undoes itself. */
  lemma WzyxReverses(v: Vec4, i: u32)
    requires i < ComponentCount()
    ensures Index(Wzyx(v), i) == Index(v, 3 - i)
    ensures Wzyx(Wzyx(v)) == v
  {
  }

  /** The swizzle as written is a reversal only when `x == y`, and on `(1, 2, 3, 4)` it is
      neither a reversal nor its own inverse. */
  lemma WzyxAsWrittenIsNotReversal(v: Vec4)
    ensures WzyxAsWritten(v) == Wzyx(v) <==> v.x == v.y
    ensures WzyxAsWritten(Vec4(1, 2, 3, 4)) == Vec4(4, 3, 1, 2)
    ensures WzyxAsWritten(WzyxAsWritten(Vec4(1, 2, 3, 4))) == Vec4(2, 1, 4, 3)
  {
  }

  lemma RepeatingSwizzlesRead(v: Vec4)
    ensures Components(Xxxx(v)) == [Index(v, 0), Index(v, 0), Index(v, 0), Index(v, 0)]
    ensures Components(Yyyy(v)) == [Index(v, 1), Index(v, 1), Index(v, 1), Index(v, 1)]
    ensures Components(Zzzz(v)) == [Index(v, 2), Index(v, 2), Index(v, 2), Index(v, 2)]
    ensures Components(Wwww(v)) == [Index(v, 3), Index(v, 3), Index(v, 3), Index(v, 3)]
  {
  }

  // ---- The members that update the receiver in place ----

  /** An lvalue of type `vec4<T>`; the scalar forms of the compound assignments are the
      vector forms on `Broadcast(s)`. */
  class Vec4Var {
    var x: int
    var y: int
    var z: int
    var w: int

    function Value(): Vec4
      reads this
    {
      Vec4(x, y, z, w)
    }

    constructor (v: Vec4)
      ensures Value() == v
    {
      x, y, z, w := v.x, v.y, v.z, v.w;
    }

    /** Assignment through `T &operator[](uint32_t i)`: exactly the indexed field changes. */
    method SetComponent(i: u32, value: int)
      modifies this
      ensures Index(Value(), i) == value
      ensures Value() == if i == 1 then old(Value()).(y := value)
                         else if i == 2 then old(Value()).(z := value)
                         else if i == 3 then old(Value()).(w := value)
                         else old(Value()).(x := value)
    {
      if i == 1 {
        y := value;
      } else if i == 2 {
        z := value;
      } else if i == 3 {
        w := value;
      } else {
        x := value;
      }
    }

    /** `operator=(vec4<A> const &)`. */
    method Assign(v: Vec4)
      modifies this
      ensures Value() == v
    {
      x := v.x;
      y := v.y;
      z := v.z;
      w := v.w;
    }

    method AddScalar(s: int)
      modifies this
      ensures Value() == Add(old(Value()), Broadcast(s))
    {
      x := x + s;
      y := y + s;
      z := z + s;
      w := w + s;
    }

    method AddVector(v: Vec4)
      modifies this
      ensures Value() == Add(old(Value()), v)
    {
      x := x + v.x;
      y := y + v.y;
      z := z + v.z;
      w := w + v.w;
    }

    method SubScalar(s: int)
      modifies this
      ensures Value() == Sub(old(Value()), Broadcast(s))
    {
      x := x - s;
      y := y - s;
      z := z - s;
      w := w - s;
    }

    method SubVector(v: Vec4)
      modifies this
      ensures Value() == Sub(old(Value()), v)
    {
      x := x - v.x;
      y := y - v.y;
      z := z - v.z;
      w := w - v.w;
    }

    method MulScalar(s: int)
      modifies this
      ensures Value() == Hadamard(old(Value()), Broadcast(s))
    {
      x := x * s;
      y := y * s;
      z := z * s;
      w := w * s;
    }

    method MulVector(v: Vec4)
      modifies this
      ensures Value() == Hadamard(old(Value()), v)
    {
      x := x * v.x;
      y := y * v.y;
      z := z * v.z;
      w := w * v.w;
    }

    method DivScalar(s: int)
      requires s != 0
      modifies this
      ensures Value() == Quot(old(Value()), Broadcast(s))
    {
      x := TruncDiv(x, s);
      y := TruncDiv(y, s);
      z := TruncDiv(z, s);
      w := TruncDiv(w, s);
    }

    method DivVector(v: Vec4)
      requires NoZeroComponent(v)
      modifies this
      ensures Value() == Quot(old(Value()), v)
    {
      x := TruncDiv(x, v.x);
      y := TruncDiv(y, v.y);
      z := TruncDiv(z, v.z);
      w := TruncDiv(w, v.w);
    }

    method PreIncrement()
      modifies this
      ensures Value() == Add(old(Value()), Ones())
    {
      x := x + 1;
      y := y + 1;
      z := z + 1;
      w := w + 1;
    }

    method PreDecrement()
      modifies this
      ensures Value() == Sub(old(Value()), Ones())
    {
      x := x - 1;
      y := y - 1;
      z := z - 1;
      w := w - 1;
    }

    method PostIncrement() returns (previous: Vec4)
      modifies this
      ensures previous == old(Value())
      ensures Value() == Add(previous, Ones())
    {
      previous := Value();
      PreIncrement();
    }

    method PostDecrement() returns (previous: Vec4)
      modifies this
      ensures previous == old(Value())
      ensures Value() == Sub(previous, Ones())
    {
      previous := Value();
      PreDecrement();
    }

    method RemVector(v: Vec4)
      requires NoZeroComponent(v)
      modifies this
      ensures Value() == Rem(old(Value()), v)
    {
      x := TruncRem(x, v.x);
      y := TruncRem(y, v.y);
      z := TruncRem(z, v.z);
      w := TruncRem(w, v.w);
    }

    method RemScalar(s: int)
      requires s != 0
      modifies this
      ensures Value() == Rem(old(Value()), Broadcast(s))
    {
      x := TruncRem(x, s);
      y := TruncRem(y, s);
      z := TruncRem(z, s);
      w := TruncRem(w, s);
    }

    method AndVector(v: Vec4)
      modifies this
      ensures Value() == And(old(Value()), v)
    {
      x := BitAnd(x, v.x);
      y := BitAnd(y, v.y);
      z := BitAnd(z, v.z);
      w := BitAnd(w, v.w);
    }

    method AndScalar(s: int)
      modifies this
      ensures Value() == And(old(Value()), Broadcast(s))
    {
      x := BitAnd(x, s);
      y := BitAnd(y, s);
      z := BitAnd(z, s);
      w := BitAnd(w, s);
    }

    method OrVector(v: Vec4)
      modifies this
      ensures Value() == Or(old(Value()), v)
    {
      x := BitOr(x, v.x);
      y := BitOr(y, v.y);
      z := BitOr(z, v.z);
      w := BitOr(w, v.w);
    }

    method OrScalar(s: int)
      modifies this
      ensures Value() == Or(old(Value()), Broadcast(s))
    {
      x := BitOr(x, s);
      y := BitOr(y, s);
      z := BitOr(z, s);
      w := BitOr(w, s);
    }

    method XorVector(v: Vec4)
      modifies this
      ensures Value() == Xor(old(Value()), v)
    {
      x := BitXor(x, v.x);
      y := BitXor(y, v.y);
      z := BitXor(z, v.z);
      w := BitXor(w, v.w);
    }

    method XorScalar(s: int)
      modifies this
      ensures Value() == Xor(old(Value()), Broadcast(s))
    {
      x := BitXor(x, s);
      y := BitXor(y, s);
      z := BitXor(z, s);
      w := BitXor(w, s);
    }

    method ShlVector(v: Vec4)
      requires NoNegativeComponent(v)
      modifies this
      ensures Value() == Shl(old(Value()), v)
    {
      x := ShiftLeft(x, v.x);
      y := ShiftLeft(y, v.y);
      z := ShiftLeft(z, v.z);
      w := ShiftLeft(w, v.w);
    }

    method ShlScalar(numBits: int)
      requires numBits >= 0
      modifies this
      ensures Value() == Shl(old(Value()), Broadcast(numBits))
    {
      x := ShiftLeft(x, numBits);
      y := ShiftLeft(y, numBits);
      z := ShiftLeft(z, numBits);
      w := ShiftLeft(w, numBits);
    }

    method ShrVector(v: Vec4)
      requires NoNegativeComponent(v)
      modifies this
      ensures Value() == Shr(old(Value()), v)
    {
      x := ShiftRight(x, v.x);
      y := ShiftRight(y, v.y);
      z := ShiftRight(z, v.z);
      w := ShiftRight(w, v.w);
    }

    method ShrScalar(numBits: int)
      requires numBits >= 0
      modifies this
      ensures Value() == Shr(old(Value()), Broadcast(numBits))
    {
      x := ShiftRight(x, numBits);
      y := ShiftRight(y, numBits);
      z := ShiftRight(z, numBits);
      w := ShiftRight(w, numBits);
    }
  }

  lemma IncrementDecrementInverse(v: Vec4)
    ensures Sub(Add(v, Ones()), Ones()) == v
    ensures Add(Sub(v, Ones()), Ones()) == v
  {
  }
}
