/** Facts about integer division by a variable divisor. */
module Division {
  lemma TimesMonotone(a: int, b: int, d: int)
    requires a <= b && d >= 0
    ensures a * d <= b * d
  {
  }

  lemma SameRow(p: int, s: int, q: int, r: int, d: int)
    requires p * d + s == q * d + r && 0 <= s < d && 0 <= r < d
    ensures p == q && s == r
  {
    if p < q { TimesMonotone(p + 1, q, d); }
    if q < p { TimesMonotone(q + 1, p, d); }
  }

  /** Quotient and remainder are the only pair that fits. */
  lemma Unique(x: int, q: int, r: int, d: int)
    requires d >= 1 && x == q * d + r && 0 <= r < d
    ensures x / d == q && x % d == r
  {
    SameRow(x / d, x % d, q, r, d);
  }

  lemma Parts(x: int, d: int)
    requires d >= 1
    ensures x == (x / d) * d + x % d && 0 <= x % d < d
  {
  }

  lemma OneLess(b: int, a: int)
    ensures (b - 1) * a == a * b - a
  {
  }

  /** Dividing twice is dividing by the product. */
  lemma Twice(x: int, a: int, b: int)
    requires a >= 1 && b >= 1
    ensures a * b >= 1 && x / a / b == x / (a * b)
  {
    var q, r := x / a, x % a;
    var p, s := q / b, q % b;
    Parts(x, a);
    Parts(q, b);
    TimesMonotone(1, b, a);
    TimesMonotone(0, s, a);
    TimesMonotone(s, b - 1, a);
    OneLess(b, a);
    Fit(x, p, b, s, a, r);
  }

  lemma Fit(x: int, p: int, b: int, s: int, a: int, r: int)
    requires x == (p * b + s) * a + r && 0 <= s * a + r < a * b
    ensures x / (a * b) == p
  {
    Regroup(p, b, s, a, r);
    Unique(x, p, s * a + r, a * b);
  }

  lemma Regroup(p: int, b: int, s: int, a: int, r: int)
    ensures (p * b + s) * a + r == p * (a * b) + (s * a + r)
  {
  }

  /** Dropping `y` from `x` keeps the quotient exactly when `y` fits in the remainder. */
  lemma SameQuotient(x: nat, y: nat, d: nat)
    requires y <= x && d >= 1
    ensures (x - y) / d == x / d <==> y <= x % d
  {
    var q, r := x / d, x % d;
    if y <= r {
      Unique(x - y, q, r - y, d);
    }
  }
}
