/** Facts about floor division by a variable, which the solver does not find. */
module Division {

  lemma Remainder(a: nat, b: nat)
    requires b > 0
    ensures a == b * (a / b) + a % b && a % b < b
  {
  }

  lemma MulLe(a: int, b: int, c: nat)
    requires a <= b
    ensures c * a <= c * b
  {
  }

  lemma Quotient(a: nat, b: nat, q: nat, r: nat)
    requires 0 <= r < b && a == b * q + r
    ensures a / b == q
  {
    var p := a / b;
    Remainder(a, b);
    if p < q {
      MulLe(p + 1, q, b);
    } else if q < p {
      MulLe(q + 1, p, b);
    }
  }

  lemma DivMod(a: nat, b: nat, m: nat)
    requires b < m
    ensures (b + m * a) / m == a && (b + m * a) % m == b
  {
    Quotient(b + m * a, m, a, b);
    Remainder(b + m * a, m);
  }

  lemma NestedDiv(a: nat, b: nat, c: nat)
    requires b > 0 && c > 0
    ensures b * c > 0 && a / b / c == a / (b * c)
  {
    var x, y := a / b, a % b;
    Remainder(a, b);
    var q, s := x / c, x % c;
    Remainder(x, c);
    MulLe(s + 1, c, b);
    assert a == (b * c) * q + (b * s + y) by {
      Distribute(b, c, q, s);
    }
    Quotient(a, b * c, q, b * s + y);
  }

  lemma Distribute(b: nat, c: nat, q: nat, s: nat)
    ensures b * (c * q + s) == (b * c) * q + b * s
  {
  }

  /** a/d >= k exactly if d*k <= a. */
  lemma AtLeast(a: nat, d: nat, k: nat)
    requires d > 0
    ensures a / d >= k <==> d * k <= a
  {
    var q := a / d;
    Remainder(a, d);
    if q >= k {
      MulLe(k, q, d);
    } else {
      MulLe(q + 1, k, d);
    }
  }

  lemma Antitone(a: nat, d: nat, e: nat)
    requires 0 < d <= e
    ensures a / e <= a / d
  {
    var k := a / e;
    AtLeast(a, e, k);
    AtLeast(a, d, k);
    MulLe(d, e, k);
  }

  lemma Halve(n: nat, base: nat)
    requires 2 <= base
    ensures 2 * (n / base) <= n && (n > 0 ==> n / base < n)
    ensures n / base == 0 <==> n < base
    ensures n - base * (n / base) == n % base < base
  {
    Remainder(n, base);
    MulLe(2, base, n / base);
    if n < base {
      Quotient(n, base, 0, n);
    }
  }
}
