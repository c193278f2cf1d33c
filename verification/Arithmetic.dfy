/** Division with remainder, and congruence of products and powers. */
module Arithmetic {
  lemma Distribute(a: int, b: int, c: int)
    ensures a * (b - c) == a * b - a * c
  {
  }

  lemma AtLeast(d: int, k: int)
    requires d > 0 && k >= 1
    ensures d * k >= d
  {
  }

  /** Two divisions of one number by d with remainders below d are the same. */
  lemma SameDivision(d: int, q: int, r: int, q': int, r': int)
    requires 0 <= r < d && 0 <= r' < d
    requires d * q + r == d * q' + r'
    ensures q == q' && r == r'
  {
    Distribute(d, q, q');
    Distribute(d, q', q);
    if q > q' {
      AtLeast(d, q - q');
      assert false;
    }
    if q < q' {
      AtLeast(d, q' - q);
      assert false;
    }
  }

  lemma DivUnique(v: int, d: int, q: int, r: int)
    requires 0 <= r < d
    requires v == d * q + r
    ensures v / d == q && v % d == r
  {
    SameDivision(d, q, r, v / d, v % d);
  }

  /** a and b leave the same remainder under n, with a multiple of n to show for it. */
  lemma SameRemainder(a: int, b: int, n: int, k: int)
    requires n > 0
    requires a == b + n * k
    ensures a % n == b % n
  {
    assert a == n * (b / n + k) + b % n by {
      assert n * (b / n + k) == n * (b / n) + n * k;
    }
    DivUnique(a, n, b / n + k, b % n);
  }

  lemma Associate(a: int, b: int, c: int)
    ensures (a * b) * c == a * (b * c)
  {
  }

  /** Reducing either factor first does not change a product's remainder. */
  lemma MulMod(a: int, b: int, n: int)
    requires n > 0
    ensures (a % n) * b % n == a * b % n
    ensures a * (b % n) % n == a * b % n
  {
    MulModLeft(a, b, n);
    MulModLeft(b, a, n);
    assert a * b == b * a && a * (b % n) == (b % n) * a;
  }

  lemma MulModLeft(a: int, b: int, n: int)
    requires n > 0
    ensures (a % n) * b % n == a * b % n
  {
    var q, r := a / n, a % n;
    assert a == n * q + r;
    assert a * b == (n * q) * b + r * b;
    Associate(n, q, b);
    SameRemainder(a * b, r * b, n, q * b);
  }

  /** Reducing first does not change a difference's remainder. */
  lemma SubMod(a: int, b: int, n: int)
    requires n > 0
    ensures (a % n - b) % n == (a - b) % n
  {
    SameRemainder(a - b, a % n - b, n, a / n);
  }

  function Power(b: int, e: nat): int {
    if e == 0 then 1 else b * Power(b, e - 1)
  }

  lemma {:induction false} PowerAdd(b: int, d: nat, e: nat)
    ensures Power(b, d + e) == Power(b, d) * Power(b, e) && Power(b, 0) == 1 && Power(b, 1) == b
  {
    assert Power(b, 1) == b * Power(b, 0);
    if d > 0 {
      PowerAdd(b, d - 1, e);
      assert b * (Power(b, d - 1) * Power(b, e)) == (b * Power(b, d - 1)) * Power(b, e);
    }
  }

  lemma {:induction false} PowerMul(b: int, d: nat, e: nat)
    ensures d * e >= 0 && Power(Power(b, d), e) == Power(b, d * e)
  {
    if e > 0 {
      PowerMul(b, d, e - 1);
      Distribute(d, e, 1);
      PowerAdd(b, d, d * (e - 1));
    }
  }

  /** Reducing the base first does not change a power's remainder. */
  lemma {:induction false} PowerMod(b: int, e: nat, n: int)
    requires n > 0
    ensures Power(b % n, e) % n == Power(b, e) % n
  {
    if e > 0 {
      PowerMod(b, e - 1, n);
      var p, q := Power(b % n, e - 1), Power(b, e - 1);
      MulMod(b % n, p, n);
      MulMod(b % n, q, n);
      MulMod(b, q, n);
    }
  }
}
