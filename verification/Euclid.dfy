/** The greatest common divisor, and which sums come back to which remainder. */
module Euclid {
  function Gcd(a: nat, b: nat): (d: nat)
    ensures a > 0 || b > 0 ==> d > 0
    decreases b
  {
    if b == 0 then a else Gcd(b, a % b)
  }

  /** The divisor divides both numbers. */
  lemma {:induction false} GcdDivides(a: nat, b: nat) returns (i: nat, j: nat)
    ensures a == i * Gcd(a, b) && b == j * Gcd(a, b)
    decreases b
  {
    if b == 0 {
      i, j := 1, 0;
    } else {
      var k, l := GcdDivides(b, a % b);
      i, j := (a / b) * k + l, k;
      Lifted(a / b, a % b, b, k, l, Gcd(b, a % b));
    }
  }

  lemma Lifted(q: int, r: int, b: int, k: int, l: int, d: int)
    requires b == k * d && r == l * d
    ensures q * b + r == (q * k + l) * d
  {
    Associates(q, k, d);
  }

  lemma Associates(a: int, b: int, c: int)
    ensures (a * b) * c == a * (b * c)
  {
  }

  /** The divisor is a combination of the numbers. */
  lemma {:induction false} Bezout(a: nat, b: nat) returns (u: int, v: int)
    ensures u * a + v * b == Gcd(a, b)
    decreases b
  {
    if b == 0 {
      u, v := 1, 0;
    } else {
      var q, r := a / b, a % b;
      var u', v' := Bezout(b, r);
      u, v := v', u' - v' * q;
      Combined(u', v', q, r, b);
    }
  }

  lemma Combined(u: int, v: int, q: int, r: int, b: int)
    ensures v * (q * b + r) + (u - v * q) * b == u * b + v * r
  {
    Associates(v, q, b);
    assert v * (q * b + r) == v * (q * b) + v * r;
    assert (u - v * q) * b == u * b - (v * q) * b;
  }

  lemma RemainderIsUnique(d: int, q: int, r: int, q': int, r': int)
    requires 0 <= r < d && 0 <= r' < d
    requires q * d + r == q' * d + r'
    ensures r == r'
  {
    AtLeast(q - q', d);
    AtLeast(q' - q, d);
  }

  lemma AtLeast(k: int, d: int)
    requires d >= 1
    ensures k >= 1 ==> k * d >= d
  {
  }

  /** Adding a multiple of the divisor keeps the remainder. */
  lemma ShiftKeepsRemainder(a: int, k: int, d: int)
    requires d >= 1
    ensures (a + k * d) % d == a % d
  {
    var b := a + k * d;
    assert (a / d + k) * d == (a / d) * d + k * d;
    RemainderIsUnique(d, b / d, b % d, a / d + k, a % d);
  }

  /** Two numbers in the same range that differ by multiples of its length are equal. */
  lemma SameInRange(a: int, b: int, k: int, k': int, m: int)
    requires 0 <= a < m && 0 <= b < m && b == a + k * m + k' * m
    ensures a == b
  {
    assert (k + k') * m == k * m + k' * m;
    ShiftKeepsRemainder(a, k + k', m);
    SmallRemainder(a, m);
    SmallRemainder(b, m);
  }

  lemma SmallRemainder(a: int, d: int)
    requires 0 <= a < d
    ensures a % d == a
  {
  }

  /** Every multiple of the divisor is reached, modulo `m`, by adding `s` often enough. */
  lemma MultipleIsReached(s: nat, m: nat, q: nat) returns (n: nat, k: int)
    requires m >= 1
    ensures n * s == q * Gcd(s, m) + k * m
  {
    var u, v := Bezout(s, m);
    n := (q * u) % m;
    var w := (q * u) / m;
    k := -(q * v) - w * s;
    assert n == q * u - w * m;
    Reached(q, u, v, w, s, m, Gcd(s, m));
  }

  lemma Reached(q: int, u: int, v: int, w: int, s: int, m: int, d: int)
    requires u * s + v * m == d
    ensures (q * u - w * m) * s == q * d + (-(q * v) - w * s) * m
  {
    assert q * d == q * (u * s) + q * (v * m);
    Associates(q, u, s);
    Associates(q, v, m);
    assert (q * u - w * m) * s == (q * u) * s - (w * m) * s;
    assert (-(q * v) - w * s) * m == -((q * v) * m) - (w * s) * m;
    assert (w * m) * s == (w * s) * m;
  }
}
