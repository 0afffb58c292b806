/** The value parts of `vec2<T>`, `vec3<T>` and `vec4<T>` with an integer element type `T`.
    They live in one module because each arity converts from the others (vec2.hpp,
    vec3.hpp and vec4.hpp declare each other's templates), and Dafny modules may not
    import each other cyclically. The operations are in modules Vector2, Vector3, Vector4. */
module VecTypes {

  datatype Vec2 = Vec2(x: int, y: int)
  datatype Vec3 = Vec3(x: int, y: int, z: int)
  datatype Vec4 = Vec4(x: int, y: int, z: int, w: int)

  /** The message of the exception the vector divisions throw for a zero scalar. */
  const DivisionByZero: string := "Division by zero"

  /** `uint32_t`, the index type of `operator[]`. */
  type u32 = i: int | 0 <= i < 0x1_0000_0000

  /** Strict lexicographic order on equally long sequences: the first position where they
      differ decides. This is an arity-independent reference for the vectors' `operator<`. */
  predicate LexLess(a: seq<int>, b: seq<int>)
    requires |a| == |b|
  {
    |a| > 0 && (a[0] < b[0] || (a[0] == b[0] && LexLess(a[1..], b[1..])))
  }

  /** `LexLess` is a strict total order: exactly one of `a < b`, `a == b`, `b < a`. */
  lemma {:induction false} LexTrichotomy(a: seq<int>, b: seq<int>)
    requires |a| == |b|
    ensures LexLess(a, b) || a == b || LexLess(b, a)
    ensures !(LexLess(a, b) && LexLess(b, a))
    ensures !LexLess(a, a)
  {
    if |a| > 0 {
      LexTrichotomy(a[1..], b[1..]);
      if a[0] == b[0] && a[1..] == b[1..] {
        assert a == [a[0]] + a[1..] && b == [b[0]] + b[1..];
      }
      LexTrichotomy(a[1..], a[1..]);
    }
  }

  lemma {:induction false} LexTransitive(a: seq<int>, b: seq<int>, c: seq<int>)
    requires |a| == |b| == |c|
    requires LexLess(a, b) && LexLess(b, c)
    ensures LexLess(a, c)
  {
    if a[0] == b[0] && b[0] == c[0] {
      LexTransitive(a[1..], b[1..], c[1..]);
    }
  }
}
