/** Facts about Euclidean division that the solver does not find by itself. */
module Division {

  lemma QuotientUnique(x: int, k: int, r: int, m: int)
    requires m > 0 && 0 <= r < m && x == k * m + r
    ensures x / m == k && x % m == r
  {
    var q := x / m;
    var d := q - k;
    assert x == q * m + x % m;
    assert q * m == (k + d) * m == k * m + d * m;
    assert -m < d * m < m;
    if d > 0 {
      MulMonotone(1, d, m);
    } else if d < 0 {
      MulMonotone(d, -1, m);
    }
  }

  lemma OneMore(x: int, m: int)
    requires m > 0
    ensures (x + m) / m == x / m + 1
  {
    assert x == (x / m) * m + x % m;
    assert (x / m + 1) * m == (x / m) * m + m;
    QuotientUnique(x + m, x / m + 1, x % m, m);
  }

  lemma ShiftKeepsMod(x: int, u: int, m: int)
    requires m > 0
    ensures (x - u) % m == x % m <==> u % m == 0
  {
    var a, b := x / m, (x - u) / m;
    assert x == a * m + x % m && x - u == b * m + (x - u) % m;
    if (x - u) % m == x % m {
      assert u == (a - b) * m;
      QuotientUnique(u, a - b, 0, m);
    }
    if u % m == 0 {
      var c := u / m;
      assert u == c * m;
      assert (a - c) * m == a * m - c * m;
      QuotientUnique(x - u, a - c, x % m, m);
    }
  }

  lemma DivBounds(a: int, g: int)
    requires g > 0
    ensures (a / g) * g <= a < (a / g) * g + g
  {
  }

  lemma MulMonotone(n: int, m: int, g: int)
    requires n <= m && g > 0
    ensures n * g <= m * g
  {
  }

  lemma OneFactorLess(n: int, g: int)
    ensures n * g == (n - 1) * g + g
  {
  }
}
