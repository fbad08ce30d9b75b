/** The Wilson score interval in exact reals. The square root enters as a nonnegative
    number whose square is the radicand. */
module Wilson {
  function Max(a: real, b: real): real {
    if a < b then b else a
  }

  function Min(a: real, b: real): real {
    if b < a then b else a
  }

  function Rate(s: nat, n: nat): real
    requires n > 0
  {
    s as real / n as real
  }

  /** z^2 / n, the weight of the prior towards one half. */
  function Pull(n: nat, z: real): real
    requires n > 0
  {
    z * z / n as real
  }

  /** What the margin takes the square root of. */
  function Radicand(p: real, n: nat, z: real): real
    requires n > 0
  {
    (p * (1.0 - p) + z * z / (4.0 * n as real)) / n as real
  }

  ghost predicate IsRoot(root: real, x: real) {
    root >= 0.0 && root * root == x
  }

  function Centre(p: real, n: nat, z: real): real
    requires n > 0
  {
    (p + z * z / (2.0 * n as real)) / (1.0 + z * z / n as real)
  }

  function Margin(root: real, n: nat, z: real): real
    requires n > 0
  {
    z * root / (1.0 + z * z / n as real)
  }

  /** The interval; `root` is the square root the code takes. */
  function Interval(s: nat, n: nat, z: real, root: real): (real, real) {
    if n == 0 then (0.0, 0.0)
    else
      var p := Rate(s, n);
      (Max(0.0, Centre(p, n, z) - Margin(root, n, z)), Min(1.0, Centre(p, n, z) + Margin(root, n, z)))
  }

  // -------------------------------------------------------------- the reduced form

  lemma MulPos(a: real, b: real)
    requires a >= 0.0 && b >= 0.0
    ensures a * b >= 0.0
  {
  }

  lemma MulStrict(a: real, b: real, c: real)
    requires a < b && c > 0.0
    ensures a * c < b * c
  {
  }

  lemma SquareStrict(y: real, x: real)
    requires 0.0 <= y < x
    ensures y * y < x * x
  {
    MulStrict(y, x, x);
    MulPos(y, x - y);
    assert y * (x - y) == y * x - y * y;
  }

  lemma SquareOrder(x: real, y: real)
    requires 0.0 <= y && x * x <= y * y
    ensures x <= y
  {
    if x > y {
      SquareStrict(y, x);
    }
  }

  lemma DivLe(x: real, y: real, d: real)
    requires d > 0.0 && x <= y * d
    ensures x / d <= y
  {
    var q := x / d;
    assert q * d == x;
    if q > y {
      MulStrict(y, q, d);
    }
  }

  lemma DivGe(x: real, y: real, d: real)
    requires d > 0.0 && y * d <= x
    ensures y <= x / d
  {
    var q := x / d;
    assert q * d == x;
    if y > q {
      MulStrict(q, y, d);
    }
  }

  /** With a = z^2/n and m the scaled root: m^2 = a p (1 - p) + a^2 / 4 brackets the rate. */
  lemma Bracket(p: real, a: real, m: real)
    requires 0.0 <= p <= 1.0 && a >= 0.0 && m >= 0.0
    requires m * m == a * (p * (1.0 - p)) + a * a / 4.0
    ensures m <= p + a / 2.0
    ensures m <= (1.0 - p) + a / 2.0
    ensures a * (p - 0.5) <= m && a * (0.5 - p) <= m
  {
    var q := 1.0 - p;
    Upper(p, a, m);
    assert q * (1.0 - q) == p * (1.0 - p);
    Upper(q, a, m);
    Spread(p, a, m);
  }

  lemma Upper(p: real, a: real, m: real)
    requires 0.0 <= p <= 1.0 && a >= 0.0 && m >= 0.0
    requires m * m == a * (p * (1.0 - p)) + a * a / 4.0
    ensures m <= p + a / 2.0
  {
    var t := p + a / 2.0;
    assert t * t == p * p + a * p + a * a / 4.0;
    assert a * (p * (1.0 - p)) == a * p - a * (p * p);
    MulPos(p, p);
    MulPos(a, p * p);
    SquareOrder(m, t);
  }

  lemma Spread(p: real, a: real, m: real)
    requires 0.0 <= p <= 1.0 && a >= 0.0 && m >= 0.0
    requires m * m == a * (p * (1.0 - p)) + a * a / 4.0
    ensures a * (p - 0.5) <= m && a * (0.5 - p) <= m
  {
    var d := p - 0.5;
    assert d * d == p * p - p + 0.25;
    assert p * (1.0 - p) == 0.25 - d * d;
    MulPos(p, 1.0 - p);
    SpreadSquare(p * (1.0 - p), a, m, d);
    SquareOrder(a * d, m);
    assert (a * (0.5 - p)) == -(a * d);
    assert (-(a * d)) * (-(a * d)) == (a * d) * (a * d);
    SquareOrder(-(a * d), m);
  }

  lemma SpreadSquare(pq: real, a: real, m: real, d: real)
    requires a >= 0.0 && pq == 0.25 - d * d && pq >= 0.0
    requires m * m == a * pq + a * a / 4.0
    ensures (a * d) * (a * d) <= m * m
  {
    var dd := d * d;
    MulPos(a, pq);
    MulPos(a, a);
    MulPos(a * a, 0.25 - dd);
    assert (a * d) * (a * d) == (a * a) * dd;
    assert (a * a) * dd == (a * a) / 4.0 - (a * a) * pq;
  }

  /** The code's terms in a = z^2/n and m = z times the root. */
  lemma Reduced(p: real, n: nat, z: real, root: real) returns (a: real, m: real)
    requires n > 0 && z > 0.0 && 0.0 <= p <= 1.0 && IsRoot(root, Radicand(p, n, z))
    ensures a == Pull(n, z) && m == z * root && a > 0.0 && m >= 0.0
    ensures m * m == a * (p * (1.0 - p)) + a * a / 4.0
    ensures Centre(p, n, z) == (p + a / 2.0) / (1.0 + a)
    ensures Margin(root, n, z) == m / (1.0 + a)
  {
    var nr := n as real;
    a, m := Pull(n, z), z * root;
    SquareStrict(0.0, z);
    assert nr > 0.0;
    PullPositive(z * z, nr);
    MulPos(z, root);
    assert z * z == a * nr;
    Halves(z * z, nr, a);
    SquareOfMargin(p * (1.0 - p), nr, a, z, root);
  }

  lemma PullPositive(x: real, n: real)
    requires x > 0.0 && n > 0.0
    ensures x / n > 0.0
  {
    var q := x / n;
    assert q * n == x;
    if q <= 0.0 {
      MulPos(-q, n);
    }
  }

  lemma Halves(x: real, n: real, a: real)
    requires n > 0.0 && x == a * n
    ensures x / (2.0 * n) == a / 2.0 && x / (4.0 * n) == a / 4.0
  {
    assert x == (a / 2.0) * (2.0 * n);
    assert x == (a / 4.0) * (4.0 * n);
    Cancel(a / 2.0, 2.0 * n);
    Cancel(a / 4.0, 4.0 * n);
  }

  lemma Cancel(q: real, n: real)
    requires n > 0.0
    ensures (q * n) / n == q
  {
  }

  lemma SquareOfMargin(pq: real, n: real, a: real, z: real, root: real)
    requires n > 0.0 && z * z == a * n
    requires root * root == (pq + z * z / (4.0 * n)) / n
    ensures (z * root) * (z * root) == a * pq + a * a / 4.0
  {
    Halves(z * z, n, a);
    var r := pq + a / 4.0;
    assert root * root == r / n;
    assert (z * root) * (z * root) == (z * z) * (root * root);
    assert (a * n) * (r / n) == a * r by {
      var q := r / n;
      assert q * n == r;
      assert (a * n) * q == a * (q * n);
    }
    assert a * r == a * pq + a * (a / 4.0);
  }

  // ------------------------------------------------------------------- the theorems

  lemma RateInUnit(s: nat, n: nat)
    requires s <= n && n > 0
    ensures 0.0 <= Rate(s, n) <= 1.0
  {
    DivLe(s as real, 1.0, n as real);
    DivGe(s as real, 0.0, n as real);
  }

  /** The bracket in the code's own terms, before any clamping. */
  lemma Unclamped(s: nat, n: nat, z: real, root: real)
    requires s <= n && n > 0 && z > 0.0 && IsRoot(root, Radicand(Rate(s, n), n, z))
    ensures var p := Rate(s, n);
      0.0 <= Centre(p, n, z) - Margin(root, n, z) <= p <= Centre(p, n, z) + Margin(root, n, z) <= 1.0
  {
    var p := Rate(s, n);
    RateInUnit(s, n);
    var a, m := Reduced(p, n, z, root);
    Bracket(p, a, m);
    Scaled(p, a, m);
  }

  /** The bracket divided by 1 + a. */
  lemma Scaled(p: real, a: real, m: real)
    requires a > 0.0 && m <= p + a / 2.0 && m <= (1.0 - p) + a / 2.0
    requires a * (p - 0.5) <= m && a * (0.5 - p) <= m
    ensures 0.0 <= (p + a / 2.0) / (1.0 + a) - m / (1.0 + a) <= p
    ensures p <= (p + a / 2.0) / (1.0 + a) + m / (1.0 + a) <= 1.0
  {
    var d, h := 1.0 + a, a / 2.0;
    Split(p + h, m, d);
    Spreads(p, a);
    DivGe(p + h - m, 0.0, d);
    DivLe(p + h - m, p, d);
    DivGe(p + h + m, p, d);
    DivLe(p + h + m, 1.0, d);
  }

  lemma Spreads(p: real, a: real)
    ensures p * (1.0 + a) == p + a * p
    ensures a * (p - 0.5) == a * p - a / 2.0 && a * (0.5 - p) == a / 2.0 - a * p
  {
  }

  lemma Split(x: real, m: real, d: real)
    requires d > 0.0
    ensures x / d - m / d == (x - m) / d && x / d + m / d == (x + m) / d
  {
  }

  /** The clamps change nothing, and the interval holds the observed rate. With nothing
      graded it is zero alone. */
  lemma InsideUnit(s: nat, n: nat, z: real, root: real)
    requires s <= n && z > 0.0 && (n > 0 ==> IsRoot(root, Radicand(Rate(s, n), n, z)))
    ensures n == 0 ==> Interval(s, n, z, root) == (0.0, 0.0)
    ensures n > 0 ==> var p := Rate(s, n); var (lo, hi) := Interval(s, n, z, root);
      && lo == Centre(p, n, z) - Margin(root, n, z) && hi == Centre(p, n, z) + Margin(root, n, z)
      && 0.0 <= lo <= p <= hi <= 1.0
  {
    if n > 0 {
      Unclamped(s, n, z, root);
    }
  }

  lemma RootIsUnique(x: real, root: real, other: real)
    requires IsRoot(root, x) && IsRoot(other, x)
    ensures root == other
  {
    SquareOrder(root, other);
    SquareOrder(other, root);
  }

  lemma CentresMirror(p: real, q: real, a: real)
    requires q == 1.0 - p && a > 0.0
    ensures (q + a / 2.0) / (1.0 + a) == 1.0 - (p + a / 2.0) / (1.0 + a)
  {
    var d, x, y := 1.0 + a, p + a / 2.0, q + a / 2.0;
    Split(x, y, d);
    assert x + y == 1.0 * d;
    Cancel(1.0, d);
  }

  /** Counting failures instead of successes mirrors the interval. */
  lemma Mirrored(s: nat, n: nat, z: real, root: real, other: real)
    requires s <= n && n > 0 && z > 0.0
    requires IsRoot(root, Radicand(Rate(s, n), n, z)) && IsRoot(other, Radicand(Rate(n - s, n), n, z))
    ensures Interval(n - s, n, z, other).1 == 1.0 - Interval(s, n, z, root).0
    ensures Interval(n - s, n, z, other).0 == 1.0 - Interval(s, n, z, root).1
  {
    var p, q, d := Rate(s, n), Rate(n - s, n), 1.0 + Pull(n, z);
    Complement(s, n);
    assert p * (1.0 - p) == q * (1.0 - q);
    RootIsUnique(Radicand(p, n, z), root, other);
    RateInUnit(s, n);
    RateInUnit(n - s, n);
    var a, m := Reduced(p, n, z, root);
    var b, k := Reduced(q, n, z, other);
    CentresMirror(p, q, a);
    InsideUnit(s, n, z, root);
    InsideUnit(n - s, n, z, other);
  }

  lemma Complement(s: nat, n: nat)
    requires s <= n && n > 0
    ensures Rate(n - s, n) == 1.0 - Rate(s, n)
  {
    Split(n as real, s as real, n as real);
    Cancel(1.0, n as real);
    assert (n - s) as real == n as real - s as real;
  }

  // ------------------------------------------------------------- what the interval is

  /** Completing the square of the score equation, with d = 1 + a and c = p + a / 2. */
  lemma Completed(p: real, a: real, m: real, e: real)
    requires m * m == a * (p * (1.0 - p)) + a * a / 4.0
    ensures var d, u := 1.0 + a, (1.0 + a) * e - (p + a / 2.0);
      d * ((p - e) * (p - e) - a * (e * (1.0 - e))) == u * u - m * m
  {
    var d, c := 1.0 + a, p + a / 2.0;
    var u, x := d * e - c, p * p - 2.0 * c * e + d * (e * e);
    assert (p - e) * (p - e) == p * p - 2.0 * (p * e) + e * e;
    assert a * (e * (1.0 - e)) == a * e - a * (e * e);
    assert d * (e * e) == e * e + a * (e * e);
    assert c * e == p * e + a * e / 2.0;
    assert (p - e) * (p - e) - a * (e * (1.0 - e)) == x;
    TimesD(d, p * p, c * e, d * (e * e));
    SquareOfDifference(d * e, c);
    assert (d * e) * (d * e) == d * (d * (e * e));
    assert (d * e) * c == d * (c * e);
    assert c * c == p * p + a * p + a * a / 4.0;
    assert a * (p * (1.0 - p)) == a * p - a * (p * p);
    assert c * c - m * m == p * p + a * (p * p) == d * (p * p);
  }

  lemma TimesD(d: real, x: real, y: real, z: real)
    ensures d * (x - 2.0 * y + z) == d * x - 2.0 * (d * y) + d * z
  {
  }

  lemma SquareOfDifference(x: real, y: real)
    ensures (x - y) * (x - y) == x * x - 2.0 * (x * y) + y * y
  {
  }

  lemma SameSign(d: real, x: real)
    requires d > 0.0
    ensures d * x <= 0.0 <==> x <= 0.0
  {
    if x > 0.0 {
      MulStrict(0.0, d, x);
    } else {
      MulPos(d, -x);
      assert d * (-x) == -(d * x);
    }
  }

  /** `m` is at least the distance exactly when its square is. */
  lemma WithinRoot(u: real, m: real)
    requires m >= 0.0
    ensures u * u <= m * m <==> -m <= u <= m
  {
    if u * u <= m * m {
      SquareOrder(u, m);
      assert (-u) * (-u) == u * u;
      SquareOrder(-u, m);
    }
    if -m <= u <= m {
      MulPos(m - u, m + u);
      assert (m - u) * (m + u) == m * m - u * u;
    }
  }

  lemma ScaledOrder(x: real, y: real, d: real)
    requires d > 0.0
    ensures x <= y <==> x * d <= y * d
  {
    if x < y {
      MulStrict(x, y, d);
    } else if y < x {
      MulStrict(y, x, d);
    }
  }

  lemma Quotient(c: real, m: real, d: real)
    requires d > 0.0
    ensures (c / d - m / d) * d == c - m && (c / d + m / d) * d == c + m
  {
    var q, w := c / d, m / d;
    assert q * d == c && w * d == m;
    assert (q - w) * d == q * d - w * d && (q + w) * d == q * d + w * d;
  }

  lemma Bounds(x: real, c: real, m: real, d: real)
    requires d > 0.0
    ensures c / d - m / d <= x <= c / d + m / d <==> -m <= x * d - c <= m
  {
    Quotient(c, m, d);
    ScaledOrder(c / d - m / d, x, d);
    ScaledOrder(x, c / d + m / d, d);
  }

  /** A rate of `e` is at most z standard errors, of a sample that weighs `a`, from `p`. */
  ghost predicate WithinErrors(p: real, a: real, e: real) {
    (p - e) * (p - e) <= a * (e * (1.0 - e))
  }

  /** The reduced form of the same equivalence. */
  lemma WithinExactlyWhen(p: real, a: real, m: real, e: real, low: real, high: real)
    requires a > 0.0 && m >= 0.0 && m * m == a * (p * (1.0 - p)) + a * a / 4.0
    requires low == (p + a / 2.0) / (1.0 + a) - m / (1.0 + a) && high == (p + a / 2.0) / (1.0 + a) + m / (1.0 + a)
    ensures low <= e <= high <==> WithinErrors(p, a, e)
  {
    var d, c := 1.0 + a, p + a / 2.0;
    Completed(p, a, m, e);
    assert d * e == e * d;
    SameSign(d, (p - e) * (p - e) - a * (e * (1.0 - e)));
    WithinRoot(e * d - c, m);
    Bounds(e, c, m, d);
  }

  /** The same in the code's terms, before any clamping. */
  lemma HoldsAt(p: real, n: nat, z: real, root: real, e: real, low: real, high: real)
    requires n > 0 && z > 0.0 && 0.0 <= p <= 1.0 && IsRoot(root, Radicand(p, n, z))
    requires low == Centre(p, n, z) - Margin(root, n, z) && high == Centre(p, n, z) + Margin(root, n, z)
    ensures low <= e <= high <==> WithinErrors(p, Pull(n, z), e)
  {
    var a, m := Reduced(p, n, z, root);
    WithinExactlyWhen(p, a, m, e, low, high);
  }

  /** The interval holds exactly the rates from which the observed one is at most z standard
      errors away, the error being that of the rate itself. */
  lemma HoldsExactlyWhen(s: nat, n: nat, z: real, root: real, e: real)
    requires s <= n && n > 0 && z > 0.0 && IsRoot(root, Radicand(Rate(s, n), n, z))
    ensures var i := Interval(s, n, z, root);
      i.0 <= e <= i.1 <==> WithinErrors(Rate(s, n), Pull(n, z), e)
  {
    var p, i := Rate(s, n), Interval(s, n, z, root);
    RateInUnit(s, n);
    InsideUnit(s, n, z, root);
    HoldsAt(p, n, z, root, e, i.0, i.1);
  }
}
