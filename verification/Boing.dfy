/**
 The integer square root of boing.c and the shapes it rasterises: the ellipse of the shadow, drawn scan line by
 scan line, and the depth of the sphere.
 */
module Boing {
  import opened Wrappers
  import opened Bytes

  function Sq(p: nat): nat { p * p }

  /** `r` is the integer square root of `n`. */
  predicate IsRoot(r: nat, n: nat) { r * r <= n < (r + 1) * (r + 1) }

  predicate FitsLong(x: int) { -0x8000_0000 <= x < 0x8000_0000 }

  lemma SquareMonotone(a: nat, b: nat)
    ensures a <= b <==> a * a <= b * b
  {
    if a <= b { assert a * a <= a * b <= b * b; } else { assert b * b < a * a by { assert b * b <= b * a < a * a; } }
  }

  /** The root is the largest number whose square is at most `n`. */
  lemma RootIsLargest(r: nat, n: nat, v: nat)
    requires IsRoot(r, n)
    ensures Sq(v) <= n <==> v <= r
  {
    SquareMonotone(v, r);
    SquareMonotone(r + 1, v);
  }

  /**
   The loop state before the digit of weight `p`: the root found so far is `s`, `r` holds `2 * s * p`, and what
   is left of `n` is `n - s * s`.
   */
  ghost predicate Digit(n: nat, left: int, r: int, b: int, s: nat, p: nat) {
    && p >= 1 && b == p * p && b <= n
    && r == 2 * (s * p) && left == n - s * s
    && s * s <= n < (s + 2 * p) * (s + 2 * p)
    && (s == 0 || s >= 2 * p)
  }

  /** No intermediate value leaves 32 bits when the argument is below 2^30. */
  lemma DigitFits(n: nat, left: int, r: int, b: int, s: nat, p: nat)
    requires Digit(n, left, r, b, s, p)
    ensures 0 <= r <= n && 0 <= left <= n && r + b <= 2 * n
    ensures n < 0x4000_0000 ==> FitsLong(r + b) && FitsLong(r) && FitsLong(left)
  {
    CrossTerm(s, p, n);
  }

  lemma CrossTerm(s: nat, p: nat, n: nat)
    requires s * s <= n && (s == 0 || s >= 2 * p)
    ensures 0 <= 2 * (s * p) <= n
  {
    if s >= 2 * p { assert s * (2 * p) <= s * s by { Scaled(2 * p, s); } }
  }

  lemma Scaled(a: nat, s: nat)
    requires a <= s
    ensures s * a <= s * s
  {
  }

  /** Taking the digit completes a square: `(s + p)^2 - s^2 == r + b`. */
  lemma NextSquare(s: nat, p: nat)
    ensures (s + p) * (s + p) == s * s + 2 * (s * p) + p * p
  {
    assert (s + p) * (s + p) == (s + p) * s + (s + p) * p;
  }

  /** The loop state after the digit of weight `p` has been decided. */
  ghost predicate Decided(n: nat, left: int, r: int, s: nat, p: nat) {
    && r == s * p && left == n - s * s
    && s * s <= n < (s + p) * (s + p)
    && (s == 0 || s >= p)
  }

  lemma DecideDigit(n: nat, left: int, r: int, b: int, s: nat, p: nat)
    requires Digit(n, left, r, b, s, p)
    ensures if left >= r + b then Decided(n, left - (r + b), r / 2 + b, s + p, p) else Decided(n, left, r / 2, s, p)
  {
    NextSquare(s, p);
    var sp := s * p;
    assert r / 2 == sp;
    if left >= r + b {
      assert (s + p) * p == sp + p * p;
      assert (s + p) + p == s + 2 * p;
    }
  }

  /** On to the next digit, or done. */
  lemma NextWeight(n: nat, left: int, r: int, b: int, s: nat, p: nat, h: nat)
    requires Decided(n, left, r, s, p) && p >= 1 && b == Sq(p) && b <= n && (p == 1 || p == 2 * h)
    ensures if p == 1 then r == s && IsRoot(s, n) && b / 4 == 0 else Digit(n, left, r, b / 4, s, h)
  {
    if p == 1 {
      assert s * 1 == s;
    } else {
      assert p * p == 4 * (h * h);
      assert s * p == 2 * (s * h);
    }
  }

  /** `isqrt`. */
  method Isqrt(n: int) returns (r: nat)
    ensures n <= 0 ==> r == 0
    ensures n >= 0 ==> IsRoot(r, n)
  {
    hide Digit, Decided, IsRoot, Pow2, Sq;
    if n <= 0 { return ZeroRoot(n); }
    var b := 1;
    ghost var p: nat, k: nat := 1, 0;
    PowerZero();
    SqPositive(1);
    while b * 4 <= n
      invariant b == Sq(p) && 1 <= b <= n && p == Pow2(k)
      decreases n - b
    {
      b := b * 4;
      PowerNext(k);
      SqDouble(p);
      p, k := 2 * p, k + 1;
    }
    TopDigit(n, b, p);
    assert n < 0x4000_0000 ==> FitsLong(b * 4) by { PowerBound(k); }
    var left, root := n, 0;
    ghost var s: nat := 0;
    while b != 0
      invariant b != 0 ==> p == Pow2(k) && b == Sq(p) && 1 <= b <= n && Digit(n, left, root, b, s, p)
      invariant b == 0 ==> root >= 0 && IsRoot(root, n)
      decreases b
    {
      var x := root + b;
      DigitFits(n, left, root, b, s, p);
      assert n < 0x4000_0000 ==> FitsLong(x);
      DecideDigit(n, left, root, b, s, p);
      root := root / 2;
      if left >= x {
        left := left - x;
        root := root + b;
        s := s + p;
      }
      ghost var h := HalfPower(k);
      NextWeight(n, left, root, b, s, p, h);
      if p != 1 { DigitShape(n, left, root, b / 4, s, h); }
      b := b / 4;
      p, k := h, if k == 0 then 0 else k - 1;
      SqPositive(p);
    }
    r := root;
  }

  /** The next lower weight. */
  ghost function HalfPower(k: nat): (h: nat)
    ensures k == 0 ==> Pow2(k) == 1
    ensures k > 0 ==> h == Pow2(k - 1) && Pow2(k) == 2 * h
  {
    if k == 0 then 1 else Pow2(k - 1)
  }

  lemma SqPositive(p: nat)
    requires p >= 1
    ensures Sq(p) >= 1 && Sq(1) == 1
  {
  }

  lemma SqDouble(p: nat)
    ensures Sq(2 * p) == 4 * Sq(p)
  {
    assert (2 * p) * (2 * p) == 4 * (p * p);
  }

  lemma DigitShape(n: nat, left: int, r: int, b: int, s: nat, p: nat)
    requires Digit(n, left, r, b, s, p)
    ensures b == Sq(p) && b <= n && p >= 1
  {
  }

  lemma TopDigit(n: nat, b: nat, p: nat)
    requires b == Sq(p) && 1 <= b <= n < b * 4 && p >= 1
    ensures Digit(n, n, 0, b, 0, p)
  {
    assert (2 * p) * (2 * p) == 4 * (p * p);
  }

  function ZeroRoot(n: int): (r: nat)
    requires n <= 0
    ensures r == 0 && (n == 0 ==> IsRoot(0, 0))
  {
    0
  }

  lemma PowerZero()
    ensures Pow2(0) == 1
  {
  }

  lemma PowerNext(k: nat)
    ensures Pow2(k + 1) == 2 * Pow2(k)
  {
  }

  /** A power of four below 2^30 is at most 2^28. */
  lemma PowerBound(k: nat)
    ensures Sq(Pow2(k)) < 0x4000_0000 ==> Sq(Pow2(k)) <= 0x1000_0000
  {
    if k >= 15 {
      PowerGrows(15, k);
      assert Pow2(15) == 0x8000 by { assert Pow2(10) == 0x400; }
      SquareMonotone(0x8000, Pow2(k));
    } else {
      PowerGrows(k, 14);
      assert Pow2(14) == 0x4000 by { assert Pow2(7) == 0x80; }
      SquareMonotone(Pow2(k), 0x4000);
    }
  }

  lemma {:induction false} PowerGrows(i: nat, k: nat)
    requires i <= k
    ensures Pow2(i) <= Pow2(k)
  {
    if i < k { PowerGrows(i, k - 1); }
  }

  // ---- the ellipse ----

  /** The point at distance `u` from the axis on scan line `dy` lies inside the ellipse of radii `a` and `b`. */
  predicate Inside(u: int, dy: int, a: int, b: int) { (u * u) * (b * b) + (a * a) * (dy * dy) <= (a * a) * (b * b) }

  /** The half width of a scan line is the largest distance still inside. */
  lemma HalfWidthIsLargest(root: nat, inside: nat, w: int, a: int, b: nat, dy: int, u: int)
    requires b > 0 && inside == Under(a, b, dy) && IsRoot(root, inside) && w == root / b
    ensures -w <= u <= w <==> Inside(u, dy, a, b)
  {
    var v := if u < 0 then -u else u;
    InsideByRoot(u, v, dy, a, b);
    WidthByRoot(root, inside, v, b);
  }

  /** The number under the root on scan line `dy`. */
  function Under(a: int, b: int, dy: int): int { (a * a) * (b * b - dy * dy) }

  /** A distance is inside exactly when its scaled square does not exceed the number under the root. */
  lemma InsideByRoot(u: int, v: nat, dy: int, a: int, b: nat)
    requires v == if u < 0 then -u else u
    ensures Inside(u, dy, a, b) <==> Sq(v * b) <= Under(a, b, dy)
  {
    assert v * v == u * u;
    MulSquares(v, b);
    Distribute(a * a, b * b, dy * dy);
  }

  lemma Distribute(x: int, y: int, z: int)
    ensures x * (y - z) == x * y - x * z
  {
  }

  lemma MulSquares(v: nat, b: nat)
    ensures Sq(v * b) == (v * v) * (b * b)
  {
    Swap(v, b, v * b);
    Swap(v, v, b * b);
    Swap(b, v, b);
  }

  /** Factors may be regrouped. */
  lemma Swap(x: nat, y: nat, z: nat)
    ensures (x * y) * z == x * (y * z) && x * y == y * x
  {
  }

  lemma WidthByRoot(root: nat, inside: nat, v: nat, b: nat)
    requires b > 0 && IsRoot(root, inside)
    ensures v <= root / b <==> Sq(v * b) <= inside
  {
    hide IsRoot;
    RootIsLargest(root, inside, v * b);
    QuotientBound(v, b, root);
  }

  lemma QuotientBound(v: nat, b: nat, root: nat)
    requires b > 0
    ensures v <= root / b <==> v * b <= root
  {
    var q := root / b;
    assert q * b <= root < q * b + b;
    if v <= q { Scale(v, q, b); } else { Scale(q + 1, v, b); }
  }

  lemma Scale(x: nat, y: nat, b: nat)
    requires x <= y
    ensures x * b <= y * b && (x + 1) * b == x * b + b
  {
  }

  /** The products under the root stay inside 32 bits for the shadow the demo draws, and for every ellipse as small. */
  lemma ProductsFit(a: int, b: int, dy: int)
    requires a > 0 && b > 0 && -b <= dy <= b && (a * a) * (b * b) < 0x4000_0000
    ensures FitsLong(a * a) && FitsLong(b * b) && FitsLong(dy * dy) && 0 <= Under(a, b, dy) < 0x4000_0000
  {
    var d: nat := if dy < 0 then -dy else dy;
    SquareMonotone(d, b);
    SquareMonotone(1, a);
    SquareMonotone(1, b);
    assert dy * dy == d * d;
    ProductBounds(a * a, b * b, dy * dy);
  }

  lemma ProductBounds(x: nat, y: nat, z: nat)
    requires 1 <= x && 1 <= y && z <= y
    ensures 0 <= x * (y - z) <= x * y && x <= x * y && y <= x * y
  {
    Product(x, y - z, y);
    Product(x, 1, y);
    Product(y, 1, x);
    Product(x, 0, y - z);
  }

  lemma Product(x: nat, y: nat, z: nat)
    requires y <= z
    ensures x * y <= x * z && x * z == z * x
  {
  }

  /** The shadow: radii 60 and 16. */
  lemma ShadowFits(dy: int)
    requires -16 <= dy <= 16
    ensures FitsLong(Under(60, 16, dy))
  {
    ProductsFit(60, 16, dy);
  }

  datatype Span = Span(left: int, right: int, y: int)

  /** A span that covers exactly the pixels of its scan line inside the ellipse. */
  ghost predicate ExactSpan(sp: Span, cx: int, y: int, dy: int, a: int, b: int) {
    && sp.y == y && sp.left + sp.right == 2 * cx
    && forall u {:trigger Inside(u, dy, a, b)} :: sp.left <= cx + u <= sp.right <==> Inside(u, dy, a, b)
  }

  ghost predicate ExactSpans(spans: seq<Span>, cx: int, cy: int, a: int, b: int) {
    forall i :: 0 <= i < |spans| ==> ExactSpan(spans[i], cx, cy - b + i, i - b, a, b)
  }

  /** Whether a pixel is covered by one of the drawn spans. */
  predicate Drawn(spans: seq<Span>, x: int, y: int) {
    exists i :: 0 <= i < |spans| && spans[i].y == y && spans[i].left <= x <= spans[i].right
  }

  /** `fill_ellipse`: one span per scan line, each exact. */
  method FillEllipse(cx: int, cy: int, a: int, b: int) returns (spans: seq<Span>)
    requires b > 0
    ensures |spans| == 2 * b + 1 && ExactSpans(spans, cx, cy, a, b)
  {
    hide Inside, IsRoot, Under;
    spans := [];
    var dy := -b;
    while dy <= b
      invariant -b <= dy <= b + 1 && |spans| == dy + b && ExactSpans(spans, cx, cy, a, b)
    {
      var inside := Under(a, b, dy);
      InsideIsNatural(a, b, dy);
      if inside >= 0 {
        var root := Isqrt(inside);
        var w := root / b;
        forall u ensures cx - w <= cx + u <= cx + w <==> Inside(u, dy, a, b) {
          HalfWidthIsLargest(root, inside, w, a, b, dy, u);
        }
        assert ExactSpan(Span(cx - w, cx + w, cy + dy), cx, cy + dy, dy, a, b);
        spans := spans + [Span(cx - w, cx + w, cy + dy)];
      }
      dy := dy + 1;
    }
  }

  lemma InsideIsNatural(a: int, b: int, dy: int)
    requires -b <= dy <= b
    ensures Under(a, b, dy) >= 0
  {
    var d := if dy < 0 then -dy else dy;
    SquareMonotone(d, b);
    assert d * d == dy * dy;
    assert a * a >= 0;
  }

  /** Exact rasterising: a pixel is drawn iff it lies inside the ellipse. */
  lemma EllipseIsExact(spans: seq<Span>, cx: int, cy: int, a: int, b: int, u: int, dy: int)
    requires b > 0 && |spans| == 2 * b + 1 && ExactSpans(spans, cx, cy, a, b)
    ensures Drawn(spans, cx + u, cy + dy) <==> -b <= dy <= b && Inside(u, dy, a, b)
  {
    hide Inside;
    if -b <= dy <= b {
      assert ExactSpan(spans[dy + b], cx, cy + dy, dy, a, b);
      assert Inside(u, dy, a, b) <==> spans[dy + b].left <= cx + u <= spans[dy + b].right;
    }
    if Drawn(spans, cx + u, cy + dy) {
      var i :| 0 <= i < |spans| && spans[i].y == cy + dy && spans[i].left <= cx + u <= spans[i].right;
      assert ExactSpan(spans[i], cx, cy - b + i, i - b, a, b);
    }
  }

  // ---- the sphere ----

  /** The depth of the sphere at an offset: the largest `z` on or under its surface, or nothing outside the disc. */
  method SphereDepth(dx: int, dy: int, radius: nat) returns (z: Option<nat>)
    ensures z == None <==> dx * dx + dy * dy > radius * radius
    ensures z.Some? ==> forall v: nat :: dx * dx + dy * dy + v * v <= radius * radius <==> v <= z.value
  {
    var r2 := dx * dx + dy * dy;
    if r2 > radius * radius { return None; }
    var root := Isqrt(radius * radius - r2);
    forall v: nat ensures r2 + v * v <= radius * radius <==> v <= root {
      RootIsLargest(root, radius * radius - r2, v);
    }
    z := Some(root);
  }
}
