/** Small facts about multiples, quotients and remainders, each proved once. */
module Multiples {

  lemma Quotient(x: nat, r: nat)
    requires r >= 1
    ensures r * (x / r) <= x < r * (x / r) + r
  {
    assert x == r * (x / r) + x % r;
  }

  lemma NextMultiple(r: nat, a: int, b: int)
    requires a < b
    ensures r * a + r <= r * b
  {
    assert r * b == r * a + r * (b - a);
    assert r * (b - a) >= r by {
      assert r * (b - a) == r + r * (b - a - 1);
      assert r * (b - a - 1) >= 0;
    }
  }

  lemma UniqueMultiple(x: nat, r: nat, d: int, e: int)
    requires r * e <= x < r * e + r
    ensures r * d <= x < r * d + r <==> d == e
  {
    if d < e {
      NextMultiple(r, d, e);
    } else if d > e {
      NextMultiple(r, e, d);
    }
  }

  lemma DivideExactly(x: nat, r: nat, d: int)
    requires r >= 1
    ensures r * d <= x < r * d + r <==> x / r == d
  {
    Quotient(x, r);
    UniqueMultiple(x, r, d, x / r);
  }

  lemma Remainder(x: nat, n: nat, q: nat, r: nat)
    requires n >= 1 && x == n * q + r && r < n
    ensures x % n == r
  {
    DivideExactly(x, n, q);
    assert x == n * (x / n) + x % n;
  }

  /** Counting round a ring of `n`. */
  lemma NextRemainder(b: nat, n: nat)
    requires n >= 1
    ensures (b + 1) % n == if b % n + 1 == n then 0 else b % n + 1
  {
    var q, r := b / n, b % n;
    assert b == n * q + r;
    if r + 1 < n {
      Remainder(b + 1, n, q, r + 1);
    } else {
      assert n * (q + 1) == n * q + n;
      Remainder(b + 1, n, q + 1, 0);
    }
  }
}
