/**
  The FFT length search of the localizer: the least number at or above n with no prime factor
  beyond 11, found by five nested loops whose common bound shrinks while they run.
 */
module GoodSize {

  // ---------- primes, independently of the search ----------

  ghost predicate Divides(d: nat, m: nat)
    requires d > 0
  {
    m % d == 0
  }

  ghost predicate IsPrime(p: nat) {
    p >= 2 && forall d: nat :: 1 < d < p ==> !Divides(d, p)
  }

  /** Only prime factors 2, 3, 5, 7 and 11. */
  ghost predicate Smooth(m: nat) {
    m >= 1 && forall p: nat :: IsPrime(p) && Divides(p, m) ==> p in {2, 3, 5, 7, 11}
  }

  // ---------- products of the listed factors ----------

  const FACTORS: seq<nat> := [2, 3, 5, 7, 11]

  /** `g` is a product of factors from position `i` of the list on. */
  ghost predicate Product(i: nat, g: nat)
    requires i <= 5
    decreases g, 5 - i
  {
    g >= 1 &&
    if i == 5 then g == 1
    else Product(i + 1, g) || (g % FACTORS[i] == 0 && Product(i, g / FACTORS[i]))
  }

  /** `x` is `f` times a product of factors from position `i` on. */
  ghost predicate Reaches(i: nat, f: nat, x: nat)
    requires i <= 5
  {
    f >= 1 && x % f == 0 && Product(i, x / f)
  }

  lemma MulAtLeast(a: int, b: int)
    requires a >= 1 && b >= 0
    ensures a * b >= b
  {
    assert a * b == (a - 1) * b + b;
    assert (a - 1) * b >= 0;
  }

  lemma MulRegroup(a: int, b: int, c: int)
    ensures (a * b) * c == a * (b * c) == (a * c) * b
  {
  }

  lemma Distribute(a: int, b: int, c: int)
    ensures (a + b) * c == a * c + b * c && (a - b) * c == a * c - b * c
  {
  }

  lemma DivModUnique(x: int, h: int, d: int, r: int)
    requires 0 <= r < d && x == h * d + r
    ensures x / d == h && x % d == r
  {
    var q, s := x / d, x % d;
    assert x == q * d + s;
    Distribute(q, h, d);
    if q > h {
      MulAtLeast(q - h, d);
    } else if q < h {
      MulAtLeast(h - q, d);
      Distribute(h, q, d);
    }
  }

  lemma DivExact(x: nat, h: nat, d: nat)
    requires d >= 1 && x == h * d
    ensures x % d == 0 && x / d == h
  {
    DivModUnique(x, h, d, 0);
  }

  lemma DivTwice(x: nat, f: nat, p: nat)
    requires f >= 1 && p >= 1 && x % f == 0 && (x / f) % p == 0
    ensures x % (f * p) == 0 && x / (f * p) == x / f / p
  {
    var g := x / f;
    var h := g / p;
    assert x == g * f && g == h * p;
    MulRegroup(h, p, f);
    MulAtLeast(f, p);
    DivExact(x, h, f * p);
  }

  /** Either another factor `i` can be split off, or none is left and the next level takes over. */
  lemma ReachesSplits(i: nat, f: nat, x: nat)
    requires i < 5 && Reaches(i, f, x)
    ensures Reaches(i + 1, f, x) || Reaches(i, f * FACTORS[i], x)
  {
    var g := x / f;
    if !Product(i + 1, g) {
      DivTwice(x, f, FACTORS[i]);
    }
  }

  lemma ReachesBounds(i: nat, f: nat, x: nat)
    requires i <= 5 && Reaches(i, f, x)
    ensures f <= x
    ensures i == 5 ==> x == f
  {
    assert x == (x / f) * f;
    MulAtLeast(x / f, f);
  }

  /** Everything between n and the bound that level `i` could still reach from `f0` is reachable from `f`. */
  ghost predicate Pending(i: nat, f0: nat, f: nat, n: nat, best: nat)
    requires i <= 5
  {
    forall x: nat :: n <= x < best && Reaches(i, f0, x) ==> Reaches(i, f, x)
  }

  /** Nothing between n and the bound is reachable. */
  ghost predicate Exhausted(i: nat, f: nat, n: nat, best: nat)
    requires i <= 5
  {
    forall x: nat :: n <= x < best ==> !Reaches(i, f, x)
  }

  lemma PendingAdvances(i: nat, f0: nat, f: nat, n: nat, best: nat)
    requires i < 5 && f >= 1
    requires Pending(i, f0, f, n, best) && Exhausted(i + 1, f, n, best)
    ensures Pending(i, f0, f * FACTORS[i], n, best)
  {
    forall x: nat | n <= x < best && Reaches(i, f0, x)
      ensures Reaches(i, f * FACTORS[i], x)
    {
      ReachesSplits(i, f, x);
    }
  }

  lemma PendingEnds(i: nat, f0: nat, f: nat, n: nat, best: nat)
    requires i <= 5 && f >= best && Pending(i, f0, f, n, best)
    ensures Exhausted(i, f0, n, best)
  {
    forall x: nat | n <= x < best
      ensures !Reaches(i, f0, x)
    {
      if Reaches(i, f0, x) {
        ReachesBounds(i, f, x);
      }
    }
  }

  // ---------- from products to prime factors and back ----------

  lemma DividesThrough(e: nat, d: nat, m: nat)
    requires e >= 1 && d >= 1 && Divides(e, d) && Divides(d, m)
    ensures Divides(e, m)
  {
    var k, h := d / e, m / d;
    assert d == k * e && m == h * d;
    MulRegroup(h, k, e);
    DivExact(m, h * k, e);
  }

  lemma {:induction false} LeastDivisorIsPrime(m: nat, d: nat) returns (p: nat)
    requires m >= 2 && 2 <= d <= m
    requires forall e: nat :: 1 < e < d ==> !Divides(e, m)
    ensures IsPrime(p) && Divides(p, m)
    decreases m - d
  {
    if Divides(d, m) {
      forall e: nat | 1 < e < d
        ensures !Divides(e, d)
      {
        if Divides(e, d) {
          DividesThrough(e, d, m);
        }
      }
      return d;
    }
    assert Divides(m, m);
    p := LeastDivisorIsPrime(m, d + 1);
  }

  lemma QuotientSmooth(m: nat, q: nat)
    requires Smooth(m) && q >= 1 && Divides(q, m)
    ensures m / q >= 1 && Smooth(m / q)
  {
    var h := m / q;
    assert m == h * q;
    MulRegroup(h, q, 1);
    DivExact(m, q, h);
    forall p: nat | IsPrime(p) && Divides(p, h)
      ensures p in {2, 3, 5, 7, 11}
    {
      DividesThrough(p, h, m);
    }
  }

  /** A product over a shorter factor list is one over the longer list. */
  lemma {:induction false} ProductWidens(i: nat, g: nat)
    requires i <= 5 && Product(i, g)
    ensures Product(0, g)
    decreases i
  {
    if i > 0 {
      ProductWidens(i - 1, g);
    }
  }

  /** Multiplying by another factor keeps divisibility by `p`, and the quotient grows with it. */
  lemma TimesKeepsFactor(g: nat, p: nat, q: nat)
    requires p >= 1 && g % p == 0
    ensures (g * q) % p == 0 && (g * q) / p == (g / p) * q
  {
    var h := g / p;
    assert g == h * p;
    MulRegroup(h, p, q);
    DivExact(g * q, h * q, p);
  }

  /** Products are closed under multiplication by any listed factor. */
  lemma {:induction false} ProductTimes(i: nat, k: nat, g: nat)
    requires i <= k < 5 && Product(i, g)
    ensures Product(i, g * FACTORS[k])
    decreases g, 5 - i
  {
    var q := FACTORS[k];
    MulAtLeast(g, q);
    if i == k {
      DivExact(g * q, g, q);
    } else if Product(i + 1, g) {
      ProductTimes(i + 1, k, g);
    } else {
      ProductTimes(i, k, g / FACTORS[i]);
      TimesKeepsFactor(g, FACTORS[i], q);
    }
  }

  lemma {:induction false} SmoothIsProduct(m: nat)
    requires Smooth(m)
    ensures Product(0, m)
    decreases m
  {
    if m == 1 {
      assert Product(5, 1);
      ProductWidens(5, 1);
    } else {
      var p := LeastDivisorIsPrime(m, 2);
      QuotientSmooth(m, p);
      assert m == (m / p) * p;
      MulAtLeast(p - 1, m / p);
      Distribute(p, 1, m / p);
      SmoothIsProduct(m / p);
      var k := if p == 2 then 0 else if p == 3 then 1 else if p == 5 then 2 else if p == 7 then 3 else 4;
      assert p == FACTORS[k];
      ProductTimes(0, k, m / p);
    }
  }

  lemma ProductExpands(x: int, q: int, r: int, y: int, t: int)
    ensures (x * q + r) * (y * q + t) == (x * (y * q + t) + y * r) * q + r * t
  {
    var b := y * q + t;
    Distribute(x * q, r, b);
    MulRegroup(x, q, b);
    Distribute(y * q, t, r);
    MulRegroup(y, q, r);
    Distribute(x * b, y * r, q);
  }

  lemma ModDropsMultiple(z: int, q: int, w: int)
    requires q >= 1
    ensures (z * q + w) % q == w % q
  {
    var d, s := w / q, w % q;
    assert w == d * q + s;
    Distribute(z, d, q);
    DivModUnique(z * q + w, z + d, q, s);
  }

  /** A small prime that divides a product divides one of its two factors. */
  lemma SmallEuclid(k: nat, a: nat, b: nat)
    requires k < 5 && (a * b) % FACTORS[k] == 0 && a % FACTORS[k] != 0
    ensures b % FACTORS[k] == 0
  {
    var q := FACTORS[k];
    var x, r, y, t := a / q, a % q, b / q, b % q;
    assert a == x * q + r && b == y * q + t;
    ProductExpands(x, q, r, y, t);
    ModDropsMultiple(x * b + y * r, q, r * t);
    SmallProducts(k, r, t);
  }

  lemma SmallProducts(k: nat, r: nat, t: nat)
    requires k < 5 && 0 < r < FACTORS[k] && t < FACTORS[k]
    requires (r * t) % FACTORS[k] == 0
    ensures t == 0
  {
    var p := r * t;
    if r == 1 { assert p == t; }
    else if r == 2 { assert p == 2 * t; }
    else if r == 3 { assert p == 3 * t; }
    else if r == 4 { assert p == 4 * t; }
    else if r == 5 { assert p == 5 * t; }
    else if r == 6 { assert p == 6 * t; }
    else if r == 7 { assert p == 7 * t; }
    else if r == 8 { assert p == 8 * t; }
    else if r == 9 { assert p == 9 * t; }
    else { assert p == 10 * t; }
  }

  lemma SmoothTimes(i: nat, h: nat, g: nat)
    requires i < 5 && Smooth(h) && g == h * FACTORS[i]
    ensures Smooth(g)
  {
    MulAtLeast(FACTORS[i], h);
    forall p: nat | IsPrime(p) && Divides(p, g)
      ensures p in {2, 3, 5, 7, 11}
    {
      if p != FACTORS[i] {
        PrimeSkips(i, p, h, g);
      }
    }
  }

  lemma {:induction false} ProductIsSmooth(i: nat, g: nat)
    requires i <= 5 && Product(i, g)
    ensures Smooth(g)
    decreases g, 5 - i
  {
    if i == 5 {
      forall p: nat | IsPrime(p)
        ensures !Divides(p, 1)
      {
        DivModUnique(1, 0, p, 1);
      }
    } else if Product(i + 1, g) {
      ProductIsSmooth(i + 1, g);
    } else {
      ProductIsSmooth(i, g / FACTORS[i]);
      SmoothTimes(i, g / FACTORS[i], g);
    }
  }

  /** A prime other than the listed factor `q` that divides `h * q` divides `h`. */
  lemma PrimeSkips(i: nat, p: nat, h: nat, g: nat)
    requires i < 5 && g == h * FACTORS[i] && IsPrime(p) && p != FACTORS[i] && Divides(p, g)
    ensures Divides(p, h)
  {
    var q := FACTORS[i];
    var k := g / p;
    assert p * k == g;
    DivExact(p * k, h, q);
    if p % q == 0 {
      assert Divides(q, p);
    }
    SmallEuclid(i, p, k);
    var k' := k / q;
    assert k == k' * q;
    MulRegroup(k', q, p);
    assert h * q == (k' * p) * q;
    Distribute(h, k' * p, q);
    if h != k' * p {
      MulAtLeast(if h > k' * p then h - k' * p else k' * p - h, q);
      Distribute(k' * p, h, q);
    }
    DivExact(h, k', p);
  }

  // ---------- powers of two ----------

  lemma {:induction false} PowerOfTwoBetween(n: nat) returns (x: nat)
    requires n >= 1
    ensures n <= x <= 2 * n - 1 && Product(0, x)
    decreases n
  {
    if n == 1 {
      assert Product(5, 1);
      ProductWidens(5, 1);
      x := 1;
    } else {
      var y := PowerOfTwoBetween(n / 2);
      ProductTimes(0, 0, y);
      x := 2 * y;
      if x < n {
        ProductTimes(0, 0, x);
        x := 2 * x;
      }
    }
  }

  // ---------- the search ----------

  /** The bound is always in reach: it is the initial 2n or a product found so far. */
  ghost predicate Bound(n: int, best: int) {
    1 <= n <= best <= 2 * n && (best == 2 * n || Product(0, best))
  }

  lemma PendingShrinks(i: nat, f0: nat, f: nat, n: nat, before: nat, best: nat)
    requires i <= 5 && best <= before && Pending(i, f0, f, n, before)
    ensures Pending(i, f0, f, n, best)
  {
  }

  /** One candidate handled: the bound drops to it if it is large enough. */
  lemma CandidateHandled(f: nat, n: nat, best: nat)
    requires f >= 1 && (f >= n ==> best <= f)
    ensures Exhausted(5, f, n, best)
  {
    forall x: nat | n <= x < best
      ensures !Reaches(5, f, x)
    {
      if Reaches(5, f, x) {
        ReachesBounds(5, f, x);
      }
    }
  }

  /** A level's inner loops are done for `f`: move on to the next multiple. */
  lemma LevelStep(i: nat, f0: nat, f: nat, n: nat, before: nat, best: nat)
    requires i < 5 && f >= 1 && best <= before
    requires Pending(i, f0, f, n, before) && Exhausted(i + 1, f, n, best) && Product(0, f)
    ensures Pending(i, f0, f * FACTORS[i], n, best) && Product(0, f * FACTORS[i])
  {
    PendingShrinks(i, f0, f, n, before, best);
    PendingAdvances(i, f0, f, n, best);
    ProductTimes(0, i, f);
  }

  /** When nothing smooth is left below the bound, the bound itself is the answer. */
  lemma BoundIsLeast(n: nat, best: nat)
    requires n >= 1 && Bound(n, best) && Exhausted(0, 1, n, best)
    ensures best >= n && Smooth(best)
    ensures forall m: nat :: n <= m && Smooth(m) ==> best <= m
  {
    forall m: nat | n <= m && Product(0, m)
      ensures best <= m
    {
      assert m / 1 == m && m % 1 == 0;
      if m < best {
        assert Reaches(0, 1, m);
      }
    }
    var x := PowerOfTwoBetween(n);
    ProductIsSmooth(0, best);
    forall m: nat | n <= m && Smooth(m)
      ensures best <= m
    {
      SmoothIsProduct(m);
    }
  }

  /** The least number at or above `n` whose only prime factors are 2, 3, 5, 7 and 11. */
  method FftNextGoodSize(n: int) returns (best: int)
    ensures n < 1 ==> best == n
    ensures n >= 1 ==> best >= n && Smooth(best)
    ensures n >= 1 ==> forall m: nat :: n <= m && Smooth(m) ==> best <= m
  {
    if n <= 6 {
      if n >= 1 {
        SmallIsSmooth(n);
      }
      return n;
    }
    best := 2 * n;
    var f2 := 1;
    assert Product(5, 1);
    ProductWidens(5, 1);
    while f2 < best
      invariant f2 >= 1 && Product(0, f2) && Bound(n, best)
      invariant Pending(0, 1, f2, n, best)
      decreases 2 * n - f2
    {
      var f23 := f2;
      ghost var b2 := best;
      while f23 < best
        invariant f23 >= 1 && Product(0, f23) && Bound(n, best) && best <= b2
        invariant Pending(1, f2, f23, n, best)
        decreases 2 * n - f23
      {
        var f235 := f23;
        ghost var b23 := best;
        while f235 < best
          invariant f235 >= 1 && Product(0, f235) && Bound(n, best) && best <= b23
          invariant Pending(2, f23, f235, n, best)
          decreases 2 * n - f235
        {
          var f2357 := f235;
          ghost var b235 := best;
          while f2357 < best
            invariant f2357 >= 1 && Product(0, f2357) && Bound(n, best) && best <= b235
            invariant Pending(3, f235, f2357, n, best)
            decreases 2 * n - f2357
          {
            var f235711 := f2357;
            ghost var b2357 := best;
            while f235711 < best
              invariant f235711 >= 1 && Product(0, f235711) && Bound(n, best) && best <= b2357
              invariant Pending(4, f2357, f235711, n, best)
              decreases 2 * n - f235711
            {
              ghost var b := best;
              best := if f235711 >= n then f235711 else best;
              CandidateHandled(f235711, n, best);
              LevelStep(4, f2357, f235711, n, b, best);
              f235711 := f235711 * 11;
            }
            PendingEnds(4, f2357, f235711, n, best);
            LevelStep(3, f235, f2357, n, b2357, best);
            f2357 := f2357 * 7;
          }
          PendingEnds(3, f235, f2357, n, best);
          LevelStep(2, f23, f235, n, b235, best);
          f235 := f235 * 5;
        }
        PendingEnds(2, f23, f235, n, best);
        LevelStep(1, f2, f23, n, b23, best);
        f23 := f23 * 3;
      }
      PendingEnds(1, f2, f23, n, best);
      LevelStep(0, 1, f2, n, b2, best);
      f2 := f2 * 2;
    }
    PendingEnds(0, 1, f2, n, best);
    BoundIsLeast(n, best);
  }

  lemma SmallIsSmooth(n: nat)
    requires 1 <= n <= 6
    ensures Smooth(n)
  {
    forall p: nat | IsPrime(p) && Divides(p, n)
      ensures p in {2, 3, 5, 7, 11}
    {
      if p > n {
        DivModUnique(n, 0, p, n);
      }
      assert !IsPrime(4) by {
        assert Divides(2, 4);
      }
      assert !IsPrime(6) by {
        assert Divides(2, 6);
      }
    }
  }
}
