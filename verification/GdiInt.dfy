/** The line rasteriser in C's int: exactly the lines on which no value of the loop leaves
    it. */
module GdiInt {
  import opened Words
  import opened GdiLine

  const INT_MAX := 0x7FFF_FFFF

  predicate IsInt(v: int) {
    -INT_MAX - 1 <= v <= INT_MAX
  }

  predicate EndsAreInts(l: Line) {
    IsInt(l.x0) && IsInt(l.y0) && IsInt(l.x1) && IsInt(l.y1)
  }

  /** One pass of the loop: the position, the error term and, unless the loop ends here,
      the error term between its two changes. */
  predicate PassFits(l: Line, k: nat) {
    var c := At(l, k);
    && IsInt(c.x) && IsInt(c.y) && IsInt(c.err)
    && (k < l.Steps() && c.err > -l.Adx() ==> IsInt(c.err - l.Ady()))
  }

  /** No value leaves int: the differences, their absolute values, and all passes. */
  predicate StaysInt(l: Line) {
    && IsInt(l.x1 - l.x0) && IsInt(l.y1 - l.y0) && IsInt(l.Adx()) && IsInt(l.Ady())
    && forall k | 0 <= k <= l.Steps() :: PassFits(l, k)
  }

  /** On a steep line, how far the least error term that still moves x stays above the
      comparison with -|dx|. All error terms are equal modulo the sides' common divisor. */
  function Margin(a: nat, b: nat): (r: nat)
    requires 0 < a <= b
    ensures 0 < r
  {
    Gcd(a, b) - (b / 2) % Gcd(a, b)
  }

  /** What a caller can test beforehand. On a steep line the error term loses the long
      side before it gains the short one. */
  predicate FitsInt(l: Line) {
    && l.Adx() <= INT_MAX && l.Ady() <= INT_MAX
    && (0 < l.Adx() <= l.Ady() ==> l.Adx() + l.Ady() - Margin(l.Adx(), l.Ady()) <= INT_MAX + 1)
  }

  /** Exactly these lines are drawn within C's int. */
  lemma FitsExactly(l: Line)
    requires EndsAreInts(l)
    ensures StaysInt(l) <==> FitsInt(l)
  {
    if FitsInt(l) {
      forall k | 0 <= k <= l.Steps()
        ensures PassFits(l, k)
      {
        PassStays(l, k);
      }
    }
    if StaysInt(l) && 0 < l.Adx() <= l.Ady() {
      var k := LeastIsReached(l);
      assert PassFits(l, k);
    }
  }

  // ---- Within the bound ----

  lemma PassStays(l: Line, k: nat)
    requires EndsAreInts(l) && FitsInt(l) && k <= l.Steps()
    ensures PassFits(l, k)
  {
    if l.Steps() > 0 {
      var i, j := Along(l, k);
      Inside(l, i, j);
      Between(l, i, j);
      if 0 < l.Adx() <= l.Ady() && At(l, k).err > -l.Adx() {
        NotBelow(l, k);
      }
    }
  }

  lemma Inside(l: Line, i: nat, j: nat)
    requires l.Steps() > 0 && InWindow(l, Moved(l, i, j).err)
    requires if l.Adx() > l.Ady() then i <= l.Adx() else j <= l.Ady()
    ensures i <= l.Adx() && j <= l.Ady()
  {
    WindowIsHalf(l, i, j);
    MulCommute(l.Adx(), l.Ady());
    if l.Adx() > l.Ady() {
      MulMonotone(i, l.Adx(), l.Ady());
      NotBeyond(j, l.Ady(), l.Adx(), i * l.Ady());
    } else {
      MulMonotone(j, l.Ady(), l.Adx());
      NotBeyond(i, l.Adx(), l.Ady(), j * l.Adx());
    }
  }

  /** The shorter side is never overrun. */
  lemma NotBeyond(j: nat, m: nat, n: nat, ideal: int)
    requires n > 0 && 2 * (j * n - ideal) <= n && ideal <= m * n
    ensures j <= m
  {
    if j > m {
      MulOrder(m, j, n);
    }
  }

  lemma Between(l: Line, i: nat, j: nat)
    requires i <= l.Adx() && j <= l.Ady()
    ensures l.x0 <= Moved(l, i, j).x <= l.x1 || l.x1 <= Moved(l, i, j).x <= l.x0
    ensures l.y0 <= Moved(l, i, j).y <= l.y1 || l.y1 <= Moved(l, i, j).y <= l.y0
  {
  }

  /** An error term that moves x is at least the margin above -|dx|. */
  lemma NotBelow(l: Line, k: nat)
    requires 0 < l.Adx() <= l.Ady() && At(l, k).err > -l.Adx()
    ensures At(l, k).err >= -l.Adx() + Margin(l.Adx(), l.Ady())
  {
    var a, b := l.Adx(), l.Ady();
    var i := ErrorAt(l, k);
    var p, q := GcdDivides(a, b);
    MarginBelow(a, b, p, q, Gcd(a, b), i, k, At(l, k).err);
  }

  lemma MarginBelow(a: int, b: nat, p: nat, q: nat, g: nat, i: nat, j: nat, err: int)
    requires g > 0 && a == p * g && b == q * g && err == -(b / 2) - i * b + j * a && err > -a
    ensures err + a >= g - (b / 2) % g
  {
    var h := b / 2;
    Quotient(h, g);
    MulAssoc(i, q, g);
    MulAssoc(j, p, g);
    AsMultiple(i * q, j * p, h / g, p, g);
    var n := j * p - i * q - h / g + p;
    assert err + a == n * g - h % g;
    if n < 1 {
      MulMonotone(n, 0, g);
    } else {
      MulMonotone(1, n, g);
    }
  }

  lemma AsMultiple(x: int, y: int, z: int, p: int, g: int)
    ensures (y - x - z + p) * g == y * g - x * g - z * g + p * g
  {
    MulDistribute(y - x - z, p, g);
    MulSubtract(y - x, z, g);
    MulSubtract(y, x, g);
  }

  // ---- Beyond it ----

  /** The least error term that moves x does occur. */
  lemma LeastIsReached(l: Line) returns (k: nat)
    requires 0 < l.Adx() <= l.Ady()
    ensures k < l.Steps() && At(l, k).err == -l.Adx() + Margin(l.Adx(), l.Ady()) > -l.Adx()
  {
    var r := Margin(l.Adx(), l.Ady());
    var w;
    k, w := StepFor(l.Adx(), l.Ady(), l.Ady() / 2, r);
    var i := ErrorAt(l, k);
    ErrorIsLeast(l.Adx(), l.Ady(), l.Ady() / 2, r, k * l.Adx(), i, w, At(l, k).err);
  }

  lemma ErrorAt(l: Line, k: nat) returns (i: nat)
    requires 0 < l.Adx() <= l.Ady()
    ensures At(l, k).err == -(l.Ady() / 2) - i * l.Ady() + k * l.Adx() && -l.Ady() < At(l, k).err <= 0
  {
    var j;
    i, j := Along(l, k);
  }

  lemma ErrorIsLeast(a: int, b: int, h: int, r: int, ka: int, i: nat, w: int, err: int)
    requires 0 < r <= a <= b && ka == h + r - a - w * b
    requires err == -h - i * b + ka && -b < err <= 0
    ensures err == -a + r
  {
    MulDistribute(i, w, b);
    SameResidue(err, -a + r, b, i, w);
  }

  /** A step count below b that reaches h + r, less one a, modulo b: h + r is a multiple
      of the common divisor, which is a combination of a and b. */
  lemma StepFor(a: nat, b: nat, h: nat, r: nat) returns (k: nat, w: int)
    requires 0 < a <= b && r == Gcd(a, b) - h % Gcd(a, b)
    ensures k < b && k * a == h + r - a - w * b && 0 < r <= a
  {
    var g := Gcd(a, b);
    var u, v := Bezout(a, b);
    var p, q := GcdDivides(a, b);
    Quotient(h, g);
    MarginFits(a, g, p, h % g);
    MulDistribute(h / g, 1, g);
    k, w := CountFor(a, b, g, u, v, h / g + 1);
  }

  lemma MarginFits(a: nat, g: nat, p: nat, m: nat)
    requires g > 0 && a > 0 && a == p * g && m < g
    ensures 0 < g - m <= a
  {
    if p > 0 {
      MulMonotone(1, p, g);
    }
  }

  lemma CountFor(a: nat, b: nat, g: nat, u: int, v: int, m: nat) returns (k: nat, w: int)
    requires b > 0 && u * a + v * b == g
    ensures k < b && k * a == m * g - a - w * b
  {
    var s := u * m - 1;
    k := s % b;
    w := m * v + (s / b) * a;
    Quotient(s, b);
    Combine(a, b, g, u, v, m, s, s / b, k);
  }

  lemma Combine(a: int, b: int, g: int, u: int, v: int, m: int, s: int, c: int, k: int)
    requires u * a + v * b == g && s == u * m - 1 && s == c * b + k
    ensures k * a == m * g - a - (m * v + c * a) * b
  {
    MulSubtract(u * m, 1, a);
    MulDistribute(c * b, k, a);
    MulCommute(u, m);
    MulAssoc(m, u, a);
    MulAssoc(m, v, b);
    MulCommute(m, u * a + v * b);
    MulDistribute(u * a, v * b, m);
    MulCommute(m, u * a);
    MulCommute(m, v * b);
    MulCommute(c, b);
    MulAssoc(b, c, a);
    MulCommute(b, c * a);
    MulDistribute(m * v, c * a, b);
  }

  /** Two values in one window that differ by a multiple of its width are equal. */
  lemma SameResidue(x: int, y: int, b: int, i: int, w: int)
    requires b > 0 && -b < x <= 0 && -b < y <= 0 && x == y - (i + w) * b
    ensures x == y
  {
    if i + w != 0 {
      FarApart(i + w, b, y - x);
    }
  }

  // ---- Examples ----

  /** A diagonal whose error term leaves int at once, although both differences fit. */
  lemma LongDiagonal(l: Line)
    requires l == Line(0, 0, INT_MAX, INT_MAX)
    ensures l.Adx() <= INT_MAX && l.Ady() <= INT_MAX && !FitsInt(l) && !StaysInt(l)
    ensures At(l, 0).err > -l.Adx() && !IsInt(At(l, 0).err - l.Ady())
  {
    assert !PassFits(l, 0);
    FitsExactly(l);
  }
}
