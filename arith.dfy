/** Facts about Euclidean division on naturals that the decomposition of a
    duration and the reading of digit strings rely on. */
module Arith {

  /** Ten to the power k. */
  function Pow10(k: nat): (p: nat)
    ensures p >= 1
  {
    if k == 0 then 1 else 10 * Pow10(k - 1)
  }

  lemma MulLeft(a: nat, b: nat, c: nat)
    requires a <= b
    ensures a * c <= b * c
  {
  }

  /** The quotient and remainder are the unique pair that rebuilds x. */
  lemma DivModUnique(x: nat, n: nat, q: nat, r: nat)
    requires n > 0 && r < n && x == q * n + r
    ensures x / n == q && x % n == r
  {
    var q', r' := x / n, x % n;
    assert x == q' * n + r';
    if q' > q {
      MulLeft(q + 1, q', n);
    } else if q' < q {
      MulLeft(q' + 1, q, n);
    }
  }

  /** Dividing twice is dividing by the product. */
  lemma DivDiv(x: nat, a: nat, b: nat)
    requires a > 0 && b > 0
    ensures (x / a) / b == x / (a * b)
  {
    var q1, r1 := x / a, x % a;
    var q2, r2 := q1 / b, q1 % b;
    assert x == q1 * a + r1;
    assert q1 == q2 * b + r2;
    assert q1 * a == (q2 * b + r2) * a;
    assert (q2 * b + r2) * a == q2 * (a * b) + r2 * a;
    MulLeft(r2, b - 1, a);
    assert (b - 1) * a == a * b - a;
    DivModUnique(x, a * b, q2, r2 * a + r1);
  }

  /** Taking the remainder by a multiple of a first does not change the
      remainder by a. */
  lemma ModMod(x: nat, a: nat, b: nat)
    requires a > 0 && b > 0
    ensures (x % (a * b)) % a == x % a
  {
    var n := a * b;
    var q, r := x / n, x % n;
    assert x == q * n + r;
    var q', r' := r / a, r % a;
    assert r == q' * a + r';
    var k := q * b + q';
    assert k * a == q * n + q' * a by {
      assert k * a == (q * b) * a + q' * a;
      assert (q * b) * a == q * (a * b);
    }
    DivModUnique(x, a, k, r');
  }
}
