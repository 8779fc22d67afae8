/** Machine words, and the integer arithmetic behind them. */
module Words {

  type byte = b: int | 0 <= b < 256

  const U32 := 0x1_0000_0000
  const U64 := 0x1_0000_0000_0000_0000

  /** A statement kept under a key holds for every key that is asked for; it only
      unfolds where a lemma asks. */
  datatype Key = Key

  function Pow256(n: nat): (p: nat)
    ensures p > 0
  {
    if n == 0 then 1 else 256 * Pow256(n - 1)
  }

  // ---- Products ----

  lemma NotNegative(a: int, b: int)
    requires a >= 0 && b >= 0
    ensures a * b >= 0
  {
  }

  lemma MulCommute(a: int, b: int)
    ensures a * b == b * a
  {
  }

  lemma MulAssoc(a: int, b: int, c: int)
    ensures a * (b * c) == (a * b) * c
  {
  }

  lemma MulDistribute(a: int, b: int, c: int)
    ensures (a + b) * c == a * c + b * c
  {
  }

  lemma MulSubtract(a: int, b: int, c: int)
    ensures (a - b) * c == a * c - b * c
  {
  }

  lemma MulMonotone(a: int, b: int, m: int)
    requires a <= b && m >= 0
    ensures a * m <= b * m
  {
    NotNegative(b - a, m);
    MulSubtract(b, a, m);
  }

  lemma MulOrder(a: int, b: int, m: int)
    requires a < b && m > 0
    ensures a * m + m <= b * m
  {
    MulMonotone(a + 1, b, m);
    MulDistribute(a, 1, m);
  }

  /** A nonzero multiple of n is at least n away from zero. */
  lemma FarApart(k: int, n: int, d: int)
    requires k != 0 && n > 0 && k * n == d
    ensures d >= n || d <= -n
  {
    if k > 0 {
      MulOrder(0, k, n);
    } else {
      MulOrder(k, 0, n);
    }
  }

  // ---- Division ----

  /** Division with remainder is unique. */
  lemma DivModUnique(x: int, m: int, q: int, r: int)
    requires m > 0 && 0 <= r < m && x == q * m + r
    ensures x / m == q && x % m == r
  {
    var p := x / m;
    Quotient(x, m);
    if p < q { MulOrder(p, q, m); }
    if q < p { MulOrder(q, p, m); }
  }

  lemma Quotient(x: int, m: int)
    requires m > 0
    ensures x == (x / m) * m + x % m && 0 <= x % m < m
  {
  }

  /** Reducing modulo a multiple of m does not change the residue modulo m. */
  lemma ModOfMod(x: int, m: int, k: int)
    requires m > 0 && k > 0
    ensures m * k > 0 && (x % (m * k)) % m == x % m
  {
    MulOrder(0, k, m);
    MulCommute(k, m);
    ModOfMultiple(x, m, k, m * k);
  }

  lemma ModOfMultiple(x: int, m: int, k: int, n: int)
    requires m > 0 && n > 0 && n == m * k
    ensures (x % n) % m == x % m
  {
    var q, y := x / n, x % n;
    var s, r := y / m, y % m;
    Quotient(x, n);
    Quotient(y, m);
    MulCommute(m, k);
    MulAssoc(q, k, m);
    MulDistribute(q * k, s, m);
    DivModUnique(x, m, q * k + s, r);
  }

  /** Reducing modulo c * p keeps the residue modulo c and reduces the quotient modulo p. */
  lemma ModOfProduct(x: int, c: int, p: int)
    requires c > 0 && p > 0
    ensures c * p > 0 && x % (c * p) == c * ((x / c) % p) + x % c
  {
    var h := x / c;
    var q, r := h / p, h % p;
    Quotient(x, c);
    Quotient(h, p);
    MulOrder(0, p, c);
    MulCommute(p, c);
    PartsJoin(x, c, p, q, r);
    MulOrder(r, p, c);
    MulCommute(r, c);
    DivModUnique(x, c * p, q, c * r + x % c);
  }

  lemma PartsJoin(x: int, c: int, p: int, q: int, r: int)
    requires c > 0 && x == (q * p + r) * c + x % c
    ensures x == q * (c * p) + c * r + x % c
  {
    MulDistribute(q * p, r, c);
    MulCommute(c, p);
    MulAssoc(q, p, c);
    MulCommute(r, c);
  }

  // ---- Common divisors ----

  /** Euclid's algorithm. */
  function Gcd(a: nat, b: nat): (g: nat)
    requires a > 0 || b > 0
    ensures g > 0
    decreases b
  {
    if b == 0 then a else Gcd(b, a % b)
  }

  lemma {:induction false} GcdDivides(a: nat, b: nat) returns (p: nat, q: nat)
    requires a > 0 || b > 0
    ensures a == p * Gcd(a, b) && b == q * Gcd(a, b)
    decreases b
  {
    if b == 0 {
      p, q := 1, 0;
    } else {
      var s, t := GcdDivides(b, a % b);
      NotNegative(a / b, s);
      p, q := (a / b) * s + t, s;
      Quotient(a, b);
      MulAssoc(a / b, s, Gcd(a, b));
      MulDistribute((a / b) * s, t, Gcd(a, b));
    }
  }

  /** It is a combination of both. */
  lemma {:induction false} Bezout(a: nat, b: nat) returns (u: int, v: int)
    requires a > 0 || b > 0
    ensures u * a + v * b == Gcd(a, b)
    decreases b
  {
    if b == 0 {
      u, v := 1, 0;
    } else {
      var s, t := Bezout(b, a % b);
      u, v := t, s - t * (a / b);
      Quotient(a, b);
      CombinationBack(a, b, a / b, a % b, s, t);
    }
  }

  lemma CombinationBack(a: int, b: int, q: int, m: int, s: int, t: int)
    requires a == q * b + m
    ensures t * a + (s - t * q) * b == s * b + t * m
  {
    MulSubtract(s, t * q, b);
    MulAssoc(t, q, b);
    MulCommute(t, a);
    MulDistribute(q * b, m, t);
    MulCommute(t, q * b);
    MulCommute(t, m);
  }
}
