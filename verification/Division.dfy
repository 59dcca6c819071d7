/** Division by a variable. */
module Division {
  lemma {:induction false} MulNonNegative(x: nat, n: nat)
    ensures x * n >= 0
  {
    if x > 0 {
      MulNonNegative(x - 1, n);
      assert x * n == (x - 1) * n + n;
    }
  }

  lemma MulLess(p: int, q: int, n: nat)
    requires p < q
    ensures p * n + n <= q * n
  {
    MulNonNegative(q - p - 1, n);
    assert q * n == p * n + n + (q - p - 1) * n;
  }

  lemma DivUnique(a: int, n: nat, q: int, r: int)
    requires a == q * n + r && 0 <= r < n
    ensures a / n == q && a % n == r
  {
    var p := a / n;
    assert a == p * n + a % n;
    if p < q {
      MulLess(p, q, n);
    } else if p > q {
      MulLess(q, p, n);
    }
  }

  lemma DivMonotone(a: nat, b: nat, n: nat)
    requires a <= b && n > 0
    ensures a / n <= b / n
  {
    var p, q := a / n, b / n;
    assert a == p * n + a % n && b == q * n + b % n;
    if p > q {
      MulLess(q, p, n);
    }
  }
}
