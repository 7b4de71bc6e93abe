/** Facts about products and quotients of variables. */
module Arithmetic {

  lemma MulAdd(k: int, a: int, b: int)
    ensures k * (a + b) == k * a + k * b
  {
  }

  lemma MulMono(k: int, a: int, b: int)
    requires 0 <= k && a <= b
    ensures k * a <= k * b
  {
  }

  lemma DivMono(a: int, b: int, d: int)
    requires d > 0 && a <= b
    ensures a / d <= b / d
  {
    if a / d > b / d {
      MulMono(d, b / d + 1, a / d);
    }
  }

  lemma DivUnique(a: int, d: int, q: int)
    requires d > 0 && 0 <= a - q * d < d
    ensures a / d == q
  {
    if a / d < q {
      MulMono(d, a / d + 1, q);
    } else if a / d > q {
      MulMono(d, q + 1, a / d);
    }
  }

  lemma DivStep(a: int, d: int)
    requires d > 0
    ensures (a - d) / d == a / d - 1
    ensures 0 <= a < d ==> a / d == 0
  {
    var q := a / d;
    assert q * d == (q - 1) * d + d;
    DivUnique(a - d, d, q - 1);
    if 0 <= a < d {
      DivUnique(a, d, 0);
    }
  }

  lemma DivExact(w: int, k: int)
    requires w > 0
    ensures (w * k) / w == k
  {
    DivUnique(w * k, w, k);
  }

  lemma CeilDiv(n: int, d: int)
    requires n > 0 && d > 0
    ensures var q := (n + d - 1) / d; q >= 1 && q * d >= n && (q - 1) * d < n
  {
    var q := (n + d - 1) / d;
    assert (n + d - 1) == q * d + (n + d - 1) % d;
    assert (q - 1) * d == q * d - d;
    if q < 1 {
      MulMono(d, q, 0);
    }
  }
}
