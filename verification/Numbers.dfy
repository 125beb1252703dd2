/** Products and quotients of natural numbers, and their bits. */
module Numbers {

  lemma MulMono(k: nat, a: nat, b: nat)
    requires a <= b
    ensures k * a <= k * b
  {
  }

  lemma MulStep(k: nat, c: nat, d: nat)
    requires c < d
    ensures k * c + k <= k * d
  {
    MulMono(k, c + 1, d);
  }

  // ----- division -----

  /** Quotient and remainder are the only ones. */
  lemma DivModIs(d: nat, x: nat, q: nat, r: nat)
    requires x == d * q + r && r < d
    ensures x / d == q && x % d == r
  {
    var q', r' := x / d, x % d;
    assert x == d * q' + r';
    if q < q' {
      MulStep(d, q, q');
    } else if q' < q {
      MulStep(d, q', q);
    }
  }

  lemma DivModDef(d: nat, x: nat) returns (q: nat, r: nat)
    requires d > 0
    ensures q == x / d && r == x % d && x == d * q + r && r < d
  {
    q, r := x / d, x % d;
  }

  /** A number within the same multiple. */
  lemma SameMultiple(d: nat, n: nat, i: nat)
    requires d > 0 && n % d + i < d
    ensures (n + i) / d == n / d && (n + i) % d == n % d + i
  {
    var q, r := DivModDef(d, n);
    DivModIs(d, n + i, q, r + i);
  }

  /** Moving to the first number of the next multiple. */
  lemma NextMultiple(d: nat, n: nat)
    requires d > 0 && n % d == 0 && n > 0
    ensures n / d == (n - 1) / d + 1
  {
    var q, r := DivModDef(d, n);
    assert q != 0;
    assert d * q == d * (q - 1) + d;
    DivModIs(d, n - 1, q - 1, d - 1);
  }

  lemma InsideMultiple(d: nat, n: nat)
    requires d > 0 && n % d != 0
    ensures n > 0 && (n - 1) / d == n / d && (n - 1) % d == n % d - 1
  {
    var q, r := DivModDef(d, n);
    assert 0 <= d * q;
    DivModIs(d, n - 1, q, r - 1);
  }

  lemma DivMonotone(d: nat, m: nat, n: nat)
    requires d > 0 && m <= n
    ensures m / d <= n / d
  {
    var q, r := DivModDef(d, n);
    var q', r' := DivModDef(d, m);
    if q < q' {
      MulStep(d, q, q');
    }
  }

  // ----- bits -----

  function Pow2(i: nat): (p: nat)
    ensures p > 0
  {
    if i == 0 then 1 else 2 * Pow2(i - 1)
  }

  /** Bit i of a number. */
  predicate BitOf(x: nat, i: nat) {
    if i == 0 then x % 2 == 1 else BitOf(x / 2, i - 1)
  }

  /** The bits of a number with a bit put on top. */
  lemma {:induction false} BitOnTop(x: nat, top: nat, n: nat, k: nat)
    requires x < Pow2(n) && top < 2 && k <= n
    ensures BitOf(x + top * Pow2(n), k) <==> if k < n then BitOf(x, k) else top == 1
    decreases n
  {
    var y := x + top * Pow2(n);
    if n > 0 {
      assert y == x + 2 * (top * Pow2(n - 1));
      assert y / 2 == x / 2 + top * Pow2(n - 1);
      if k > 0 { BitOnTop(x / 2, top, n - 1, k - 1); }
    }
  }

  /** A bit by division. */
  lemma {:induction false} BitIs(x: nat, i: nat)
    ensures BitOf(x, i) <==> x / Pow2(i) % 2 == 1
    decreases i
  {
    if i > 0 {
      BitIs(x / 2, i - 1);
      HalfThenDivide(x, Pow2(i - 1));
    }
  }

  lemma HalfThenDivide(x: nat, p: nat)
    requires p > 0
    ensures x / (2 * p) == x / 2 / p
  {
    var q, r := DivModDef(p, x / 2);
    assert 2 * p * q == 2 * (p * q);
    DivModIs(2 * p, x, q, 2 * r + x % 2);
  }
}
