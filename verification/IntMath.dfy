/** Integer facts that several components need. */
module IntMath {

  lemma AtLeastOnce(k: int, unit: int)
    requires unit >= 1
    ensures k >= 1 ==> unit * k >= unit
  {
  }

  /** Quotient and remainder are unique. */
  lemma ModUnique(x: int, n: int, q: int, r: int)
    requires n > 0 && x == n * q + r && 0 <= r < n
    ensures x % n == r
  {
    var p, s := x / n, x % n;
    assert x == n * p + s;
    assert n * (p - q) == r - s;
    assert n * (q - p) == -(n * (p - q));
    AtLeastOnce(p - q, n);
    AtLeastOnce(q - p, n);
  }
}
