/** `Rect` (rect.hpp): an axis-aligned rectangle given by its four sides, with `Top` above
    `Bottom` and `Left` left of `Right` whenever it is built by a constructor. Sides and points
    are integers here. */
module Rects {
  import opened VecTypes
  import opened Scalar
  import CppInt

  /** The four private fields `Top`, `Bottom`, `Left` and `Right`; the getters `top()` ..
      `right()` are the destructors. */
  datatype Rect = Rect(top: int, bottom: int, left: int, right: int)

  /** What every constructor establishes: the sides are in order. */
  predicate Normalised(r: Rect)
  {
    r.bottom <= r.top && r.left <= r.right
  }

  /** `Rect()`: every side 0. */
  function Default(): Rect { Rect(0, 0, 0, 0) }

  /** `Rect(top, bottom, left, right)`: the larger of `top` and `bottom` becomes `Top`, the
      smaller of `left` and `right` becomes `Left`. */
  function MakeRect(top: int, bottom: int, left: int, right: int): (r: Rect)
    ensures Normalised(r)
    ensures multiset{r.top, r.bottom} == multiset{top, bottom}
    ensures multiset{r.left, r.right} == multiset{left, right}
  {
    Rect(Max(top, bottom), Min(top, bottom), Min(left, right), Max(left, right))
  }

  /** A well-ordered rectangle passes through the constructor unchanged, and the constructor
      does not care in which order each pair is given. */
  lemma MakeRectNormalForm(r: Rect, top: int, bottom: int, left: int, right: int)
    ensures Normalised(r) ==> MakeRect(r.top, r.bottom, r.left, r.right) == r
    ensures MakeRect(top, bottom, left, right) == MakeRect(bottom, top, right, left)
  {
  }

  /** `Rect(topLeft, bottomRight)`: the `y` coordinates give the vertical sides and the `x`
      coordinates the horizontal ones, whichever corner is which. */
  function FromCorners(topLeft: Vec2, bottomRight: Vec2): Rect
  {
    Rect(Max(topLeft.y, bottomRight.y), Min(topLeft.y, bottomRight.y),
         Min(topLeft.x, bottomRight.x), Max(topLeft.x, bottomRight.x))
  }

  /** `Rect(vector)`: `y` and `w` give the vertical sides, `x` and `z` the horizontal ones. */
  function FromVec4(v: Vec4): Rect
  {
    Rect(Max(v.y, v.w), Min(v.y, v.w), Min(v.x, v.z), Max(v.x, v.z))
  }

  lemma ConstructorsAgree(p: Vec2, q: Vec2, v: Vec4)
    ensures FromCorners(p, q) == MakeRect(p.y, q.y, p.x, q.x)
    ensures FromVec4(v) == MakeRect(v.y, v.w, v.x, v.z)
    ensures FromVec4(v) == FromCorners(Vec2(v.x, v.y), Vec2(v.z, v.w))
  {
  }

  // ---- Corners and area ----

  function TopLeft(r: Rect): Vec2 { Vec2(r.left, r.top) }
  function TopRight(r: Rect): Vec2 { Vec2(r.right, r.top) }
  function BottomLeft(r: Rect): Vec2 { Vec2(r.left, r.bottom) }
  function BottomRight(r: Rect): Vec2 { Vec2(r.right, r.bottom) }

  /** Either pair of opposite corners rebuilds the rectangle it came from. */
  lemma CornersRoundTrip(r: Rect)
    requires Normalised(r)
    ensures FromCorners(TopLeft(r), BottomRight(r)) == r
    ensures FromCorners(BottomLeft(r), TopRight(r)) == r
  {
  }

  /** `area()`: width times height. */
  function Area(r: Rect): (a: int)
    ensures Normalised(r) ==> a >= 0
  {
    (r.right - r.left) * (r.top - r.bottom)
  }

  /** A well-ordered rectangle has zero area exactly when it is flat in one direction. */
  lemma AreaZeroIffFlat(r: Rect)
    requires Normalised(r)
    ensures Area(r) == 0 <==> r.left == r.right || r.top == r.bottom
  {
    if r.left != r.right && r.top != r.bottom {
      assert r.right - r.left >= 1 && r.top - r.bottom >= 1;
      CppInt.MulAtLeast(r.right - r.left, r.top - r.bottom);
    }
  }

  // ---- Points and overlap ----

  /** `contains(point)`: the closed rectangle, so the sides themselves are inside. */
  predicate Contains(r: Rect, p: Vec2)
  {
    p.x >= r.left && p.x <= r.right && p.y >= r.bottom && p.y <= r.top
  }

  /** A rectangle contains its corners exactly when it is well ordered. */
  lemma ContainsCornersIffNormalised(r: Rect)
    ensures Normalised(r) <==>
      Contains(r, TopLeft(r)) && Contains(r, TopRight(r)) &&
      Contains(r, BottomLeft(r)) && Contains(r, BottomRight(r))
  {
  }

  /** `intersects(other)`: the rectangles are not separated along either axis; touching sides
      count as intersecting. */
  predicate Intersects(a: Rect, b: Rect)
  {
    !(a.right < b.left || a.left > b.right || a.top < b.bottom || a.bottom > b.top)
  }

  lemma IntersectsSymmetric(a: Rect, b: Rect)
    ensures Intersects(a, b) <==> Intersects(b, a)
    ensures Intersects(a, a) <==> Normalised(a)
  {
  }

  /** Two well-ordered rectangles intersect exactly when some point lies in both. */
  lemma IntersectsIffCommonPoint(a: Rect, b: Rect)
    requires Normalised(a) && Normalised(b)
    ensures Intersects(a, b) <==> exists p: Vec2 :: Contains(a, p) && Contains(b, p)
  {
    if Intersects(a, b) {
      var p := Vec2(Max(a.left, b.left), Max(a.bottom, b.bottom));
      assert Contains(a, p) && Contains(b, p);
    }
  }

  /** `clampPoint(point)`: each coordinate clamped into the rectangle's range. */
  function ClampPoint(r: Rect, p: Vec2): (q: Vec2)
    ensures Normalised(r) ==> Contains(r, q)
    ensures Contains(r, p) ==> q == p
  {
    Vec2(Clamp(p.x, r.left, r.right), Clamp(p.y, r.bottom, r.top))
  }

  /** In a well-ordered rectangle the clamped point is, coordinate by coordinate, as close to
      the original point as any point of the rectangle. */
  lemma ClampPointIsNearest(r: Rect, p: Vec2, q: Vec2)
    requires Normalised(r) && Contains(r, q)
    ensures CppInt.Abs(ClampPoint(r, p).x - p.x) <= CppInt.Abs(q.x - p.x)
    ensures CppInt.Abs(ClampPoint(r, p).y - p.y) <= CppInt.Abs(q.y - p.y)
  {
  }

  // ---- Union ----

  /** `unionWith(other)` as written: it passes the extreme left, right, top and bottom, in that
      order, into the `(top, bottom, left, right)` constructor. */
  function UnionWithAsWritten(a: Rect, b: Rect): Rect
  {
    MakeRect(Min(a.left, b.left), Max(a.right, b.right), Max(a.top, b.top), Min(a.bottom, b.bottom))
  }

  /** The union as intended: the smallest rectangle around both. */
  function UnionWith(a: Rect, b: Rect): (u: Rect)
    ensures Normalised(u)
  {
    MakeRect(Max(a.top, b.top), Min(a.bottom, b.bottom), Min(a.left, b.left), Max(a.right, b.right))
  }

  /** The sides of `outer` are at or beyond those of `inner`. */
  predicate Encloses(outer: Rect, inner: Rect)
  {
    outer.top >= inner.top && outer.bottom <= inner.bottom &&
    outer.left <= inner.left && outer.right >= inner.right
  }

  /** Mirroring in the diagonal: horizontal and vertical sides trade places. */
  function Transposed(r: Rect): Rect { Rect(r.right, r.left, r.bottom, r.top) }

  /** For well-ordered operands the union as written is the intended union mirrored in the
      diagonal. */
  lemma UnionWithAsWrittenIsTransposed(a: Rect, b: Rect)
    requires Normalised(a) && Normalised(b)
    ensures UnionWithAsWritten(a, b) == Transposed(UnionWith(a, b))
  {
  }

  /** The union as written of the 1-wide, 10-high rectangle with itself is 10 wide and 1 high. */
  lemma UnionWithAsWrittenCounterexample()
    ensures UnionWithAsWritten(Rect(10, 0, 0, 1), Rect(10, 0, 0, 1)) == Rect(1, 0, 0, 10)
  {
  }

  /** ... so it loses the point `(0, 10)` of that rectangle. */
  lemma UnionWithAsWrittenLosesPoint()
    ensures Contains(Rect(10, 0, 0, 1), Vec2(0, 10))
    ensures !Contains(UnionWithAsWritten(Rect(10, 0, 0, 1), Rect(10, 0, 0, 1)), Vec2(0, 10))
  {
    UnionWithAsWrittenCounterexample();
  }

  /** The intended union encloses both operands and lies inside every rectangle that
      encloses both. */
  lemma UnionWithIsLeastEnclosing(a: Rect, b: Rect, c: Rect)
    requires Normalised(a) && Normalised(b)
    ensures Encloses(UnionWith(a, b), a) && Encloses(UnionWith(a, b), b)
    ensures Encloses(c, a) && Encloses(c, b) ==> Encloses(c, UnionWith(a, b))
  {
  }

  /** Every point of either operand is in the intended union. */
  lemma UnionWithContainsOperands(a: Rect, b: Rect, p: Vec2)
    requires Contains(a, p) || Contains(b, p)
    ensures Contains(UnionWith(a, b), p)
  {
  }

  lemma UnionWithAlgebra(a: Rect, b: Rect)
    ensures UnionWith(a, b) == UnionWith(b, a)
    ensures Normalised(a) ==> UnionWith(a, a) == a
  {
  }

  // ---- In-place update ----

  /** A `Rect` lvalue: `set` is the one member that changes the fields. */
  class RectVar {
    var top: int
    var bottom: int
    var left: int
    var right: int

    function Value(): Rect
      reads this
    {
      Rect(top, bottom, left, right)
    }

    constructor (r: Rect)
      ensures Value() == r
    {
      top, bottom, left, right := r.top, r.bottom, r.left, r.right;
    }

    /** `set(top, bottom, left, right)` stores the arguments as given, without putting them in
        order, so a `Rect` can leave it not `Normalised`. */
    method Set(newTop: int, newBottom: int, newLeft: int, newRight: int)
      modifies this
      ensures Value() == Rect(newTop, newBottom, newLeft, newRight)
      ensures Normalised(Value()) <==> newBottom <= newTop && newLeft <= newRight
    {
      top := newTop;
      bottom := newBottom;
      left := newLeft;
      right := newRight;
    }
  }
}
