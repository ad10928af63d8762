/** Remainders. */
module Modular {
  lemma {:induction false} Multiples(d: int, n: int)
    requires n > 0 && d != 0
    ensures if d > 0 then d * n >= n else d * n <= -n
    decreases if d > 0 then d else -d
  {
    if d > 1 { Multiples(d - 1, n); }
    if d < -1 { Multiples(d + 1, n); }
  }

  lemma CloseAreDistinct(a: nat, b: nat, n: nat)
    requires a < b < a + n
    ensures a % n != b % n
  {
    if a % n == b % n {
      var d := b / n - a / n;
      assert b - a == d * n;
      if d != 0 { Multiples(d, n); }
      assert false;
    }
  }

  lemma ModOf(q: nat, r: nat, n: nat)
    requires r < n
    ensures (q * n + r) % n == r
  {
    var m := q * n + r;
    var d := m / n - q;
    assert d * n == r - m % n;
    if d != 0 {
      Multiples(d, n);
      assert false;
    }
  }

  lemma AddMultiple(a: nat, k: nat, n: nat)
    requires n > 0
    ensures (a + k * n) % n == a % n
  {
    assert a + k * n == (a / n + k) * n + a % n;
    ModOf(a / n + k, a % n, n);
  }
}
