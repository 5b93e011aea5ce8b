/** Multiples and remainders. */
module Arithmetic {
  /** Multiples of `n` are at least `n` apart. */
  lemma FarApart(n: nat, d: int)
    ensures d >= 1 ==> n * d >= n
    ensures d <= -1 ==> n * d + n <= 0
  {
  }

  lemma ModUnique(n: nat, q: nat, r: nat)
    requires r < n
    ensures (n * q + r) % n == r
  {
    var x := n * q + r;
    assert n * (x / n - q) == r - x % n;
    FarApart(n, x / n - q);
  }

  lemma DivMod(n: nat, q: int, r: nat)
    requires r < n
    ensures (n * q + r) / n == q && (n * q + r) % n == r
  {
    var x := n * q + r;
    assert n * (x / n - q) == r - x % n;
    FarApart(n, x / n - q);
  }

  /** Going on from `from` and wrapping around reaches every number below `n`. */
  lemma Reaches(from: nat, n: nat, t: nat) returns (o: nat)
    requires t < n
    ensures 1 <= o <= n && (from + o) % n == t
  {
    var at := from % n;
    o := if at < t then t - at else t - at + n;
    assert from + o == n * (from / n) + (if at < t then t else t + n);
    ModOf(n, from / n, if at < t then t else t + n);
  }

  lemma ModOf(n: nat, q: nat, r: nat)
    requires 0 < n && r < 2 * n
    ensures (n * q + r) % n == if r < n then r else r - n
  {
    if r < n {
      ModUnique(n, q, r);
    } else {
      assert n * q + r == n * (q + 1) + (r - n);
      ModUnique(n, q + 1, r - n);
    }
  }
}
