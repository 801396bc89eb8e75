/**
 * Shared vocabulary of the desktop model: an Option type for the C code's
 * NULL pointers, GDK rectangles with GDK's intersection and union, and C's
 * integer division, which truncates toward zero.
 */
module Common {

  datatype Option<T> = None | Some(value: T)

  function Min(a: int, b: int): int { if a < b then a else b }
  function Max(a: int, b: int): int { if a < b then b else a }
  function Abs(a: int): nat { if a < 0 then -a else a }

  /** A GdkRectangle: origin and size, all plain ints. */
  datatype Rect = Rect(x: int, y: int, width: int, height: int)
  {
    function Right(): int { x + width }
    function Bottom(): int { y + height }
  }

  const EmptyRect := Rect(0, 0, 0, 0)

  /**
   * gdk_rectangle_intersect(a, b, NULL): true iff the overlap of the two
   * rectangles has a positive width and a positive height.
   */
  predicate Intersects(a: Rect, b: Rect)
  {
    Max(a.x, b.x) < Min(a.Right(), b.Right()) &&
    Max(a.y, b.y) < Min(a.Bottom(), b.Bottom())
  }

  /** gdk_rectangle_union: the bounding box of both rectangles (empty ones are not ignored). */
  function Union(a: Rect, b: Rect): (u: Rect)
    ensures u.x <= a.x && u.x <= b.x && u.y <= a.y && u.y <= b.y
    ensures a.Right() <= u.Right() && b.Right() <= u.Right()
    ensures a.Bottom() <= u.Bottom() && b.Bottom() <= u.Bottom()
    ensures u.x == a.x || u.x == b.x
    ensures u.Right() == a.Right() || u.Right() == b.Right()
  {
    var x := Min(a.x, b.x);
    var y := Min(a.y, b.y);
    Rect(x, y, Max(a.Right(), b.Right()) - x, Max(a.Bottom(), b.Bottom()) - y)
  }

  /** Intersection is symmetric, and a rectangle meeting a part meets the union. */
  lemma IntersectsSymmetric(a: Rect, b: Rect)
    ensures Intersects(a, b) <==> Intersects(b, a)
  {
  }

  lemma IntersectsUnion(a: Rect, b: Rect, r: Rect)
    requires Intersects(a, r) || Intersects(b, r)
    ensures Intersects(Union(a, b), r)
  {
  }

  /** Translating a rectangle by (dx, dy). */
  function Shift(r: Rect, dx: int, dy: int): Rect
  {
    Rect(r.x + dx, r.y + dy, r.width, r.height)
  }

  /**
   * C's `a / b` for a positive divisor: the quotient truncated toward zero
   * (Dafny's own `/` rounds toward negative infinity for negative a).
   */
  function CDiv(a: int, b: int): (q: int)
    requires b > 0
    ensures a >= 0 ==> 0 <= q * b <= a && a - q * b < b
    ensures a < 0 ==> a <= q * b <= 0 && q * b - a < b
  {
    var m := Abs(a) / b;
    assert Abs(a) == m * b + Abs(a) % b && 0 <= Abs(a) % b < b;
    assert m >= 0;
    if a >= 0 then m else -m
  }

  lemma MulLeq(a: int, b: int, k: int)
    requires a <= b && k >= 0
    ensures a * k <= b * k
  {
  }

  /** Quotient and remainder are unique. */
  lemma DivModUnique(n: int, k: int, q: int, r: int)
    requires k > 0 && 0 <= r < k && n == q * k + r
    ensures n / k == q && n % k == r
  {
    var q', r' := n / k, n % k;
    assert n == q' * k + r' && 0 <= r' < k;
    if q' < q {
      MulLeq(q' + 1, q, k);
      assert false;
    } else if q < q' {
      MulLeq(q + 1, q', k);
      assert false;
    }
  }
}
