/** Integer operators of the source languages that differ from Dafny's. */
module Numeric {

  /** `a / b` as Go computes it on `int`: the quotient truncated toward zero
      (Dafny's own `/` is Euclidean). */
  function TruncDiv(a: int, b: int): (q: int)
    requires b != 0
    ensures a >= 0 && b > 0 ==> q == a / b
    ensures a <= 0 && b > 0 ==> q == -((-a) / b)
  {
    var m := (if a < 0 then -a else a) / (if b < 0 then -b else b);
    if (a < 0) == (b < 0) then m else -m
  }

  /** `a % b` as Go and JavaScript compute it: the remainder takes the sign of
      the dividend. */
  function TruncRem(a: int, b: int): (r: int)
    requires b != 0
    ensures a >= 0 && b > 0 ==> r == a % b && 0 <= r < b
  {
    a - b * TruncDiv(a, b)
  }

  /** Product of non-negative factors is monotone in the first factor. */
  lemma MulMonotone(a: int, b: int, k: int)
    requires 0 <= a <= b && 0 <= k
    ensures 0 <= a * k <= b * k
  {
    var d := b - a;
    assert b * k == a * k + d * k;
  }

  /** Euclidean division by a positive divisor is monotone in the dividend. */
  lemma DivMonotone(a: int, b: int, d: int)
    requires 0 <= a <= b && 0 < d
    ensures a / d <= b / d
  {
    var qa, qb := a / d, b / d;
    assert d * qa <= a;
    assert b < d * qb + d;
    assert d * qa < d * (qb + 1);
  }

  /** Multiplying and then dividing by the same positive number cancels. */
  lemma MulDivCancel(a: int, d: int)
    requires 0 < d
    ensures (a * d) / d == a
  {
    var q := (a * d) / d;
    var r := (a * d) % d;
    assert a * d == d * q + r;
    var k := a - q;
    assert d * k == r by { assert d * k == d * a - d * q; }
    SmallMultiple(d, k);
  }

  /** The only multiple of a positive `d` strictly between `-d` and `d` is zero. */
  lemma SmallMultiple(d: int, k: int)
    requires 0 < d && -d < d * k < d
    ensures k == 0
  {
  }

  /** A remainder is determined by any decomposition `a == n * q + r` with `0 <= r < n`. */
  lemma ModUnique(a: int, n: int, q: int, r: int)
    requires 0 < n && 0 <= r < n && a == n * q + r
    ensures a % n == r
  {
    var q' := a / n;
    assert a == n * q' + a % n;
    assert n * (q - q') == a % n - r;
    SmallMultiple(n, q - q');
  }

  /** Stepping a reduced value by one and reducing again is stepping by one. */
  lemma ModSucc(a: int, n: int)
    requires a >= 0 && n > 0
    ensures (a % n + 1) % n == (a + 1) % n
  {
    var q, r := a / n, a % n;
    assert a == n * q + r;
    if r + 1 < n {
      ModUnique(r + 1, n, 0, r + 1);
      ModUnique(a + 1, n, q, r + 1);
    } else {
      ModUnique(r + 1, n, 1, 0);
      ModUnique(a + 1, n, q + 1, 0);
    }
  }

  /** A quotient `(i * p) / n` with `i <= n` never exceeds `p`. */
  lemma ScaledAtMost(i: int, p: int, n: int)
    requires 0 <= i <= n && 0 < n && 0 <= p
    ensures 0 <= (i * p) / n <= p
  {
    MulMonotone(i, n, p);
    DivMonotone(i * p, n * p, n);
    assert n * p == p * n;
    MulDivCancel(p, n);
  }
}
