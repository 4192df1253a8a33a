/** The few facts about products, quotients and remainders the index arithmetic needs. */
module Arith {
  lemma MulAtLeast(d: int, n: int)
    requires d >= 1 && n > 0
    ensures d * n >= n
  {
  }

  lemma MulAtMost(d: int, n: int)
    requires d <= 0 && n > 0
    ensures d * n <= 0
  {
  }

  lemma MulMonotone(a: nat, b: nat, c: nat)
    requires b <= c
    ensures a * b <= a * c
  {
  }

  lemma DivUnique(x: int, q: int, r: int, n: int)
    requires n > 0 && 0 <= r < n && x == q * n + r
    ensures x / n == q && x % n == r
  {
    var k, m := x / n, x % n;
    assert x == k * n + m && 0 <= m < n;
    assert (q - k) * n == m - r && (k - q) * n == r - m;
    if q > k {
      MulAtLeast(q - k, n);
    } else if q < k {
      MulAtLeast(k - q, n);
    }
  }

  /** Two numbers less than n apart have different remainders. */
  lemma ModApart(a: nat, b: nat, n: nat)
    requires n > 0 && a < b < a + n
    ensures a % n != b % n
  {
    var i, j := a / n, b / n;
    assert a == i * n + a % n && b == j * n + b % n;
    if a % n == b % n {
      assert b - a == (j - i) * n;
      if j > i { MulAtLeast(j - i, n); } else { MulAtMost(j - i, n); }
    }
  }

  lemma MulNested(a: int, b: int, c: int)
    ensures a * (b * c) == (a * b) * c
  {
  }

  lemma MulSum(a: int, b: int, c: int)
    ensures (a + b) * c == a * c + b * c
  {
  }

  /** Dividing twice is dividing by the product. */
  lemma DivDiv(x: nat, a: nat, b: nat)
    requires a > 0 && b > 0
    ensures a * b > 0 && (x / a) / b == x / (a * b)
  {
    var q, r := x / a, x % a;
    var p, s := q / b, q % b;
    assert x == q * a + r && q == p * b + s;
    MulSum(p * b, s, a);
    MulNested(p, b, a);
    MulMonotone(a, s + 1, b);
    MulSum(s, 1, a);
    assert a * b == b * a && a * (s + 1) == (s + 1) * a;
    MulAtLeast(b, a);
    DivUnique(x, p, s * a + r, a * b);
  }

  /** The digits of x in the radices a, b, c and the rest. */
  lemma Digits3(x: nat, a: nat, b: nat, c: nat)
    requires a > 0 && b > 0 && c > 0
    ensures a * b > 0 && a * b * c > 0
    ensures x == (x / (a * b * c)) * (a * b * c) + (x / (a * b) % c) * (a * b) + (x / a % b) * a + x % a
    ensures x / (a * b) % c < c && x / a % b < b && x % a < a
  {
    DivDiv(x, a, b);
    DivDiv(x, a * b, c);
    var y, z := x / a, x / (a * b);
    assert x == y * a + x % a && y == z * b + y % b && z == (z / c) * c + z % c;
    MulSum(z * b, y % b, a);
    MulNested(z, b, a);
    assert b * a == a * b;
    MulSum((z / c) * c, z % c, a * b);
    MulNested(z / c, c, a * b);
    assert c * (a * b) == a * b * c;
  }

  /** A number composed of digits has those digits. */
  lemma Compose3(t: nat, z: nat, y: nat, w: nat, a: nat, b: nat, c: nat)
    requires a > 0 && w < a && y < b && z < c
    ensures a * b > 0 && a * b * c > 0
    ensures var x := t * (a * b * c) + z * (a * b) + y * a + w;
            x >= 0 && x / (a * b * c) == t && x / (a * b) % c == z && x / a % b == y && x % a == w
  {
    var x := ((t * c + z) * b + y) * a + w;
    assert t * c + z >= 0 && (t * c + z) * b + y >= 0;
    DivUnique(x, (t * c + z) * b + y, w, a);
    DivUnique((t * c + z) * b + y, t * c + z, y, b);
    DivUnique(t * c + z, t, z, c);
    DivDiv(x, a, b);
    DivDiv(x, a * b, c);
    MulSum((t * c + z) * b, y, a);
    MulNested(t * c + z, b, a);
    assert b * a == a * b;
    MulSum(t * c, z, a * b);
    MulNested(t, c, a * b);
    assert c * (a * b) == a * b * c;
  }
}
