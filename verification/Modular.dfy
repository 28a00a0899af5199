/** Remainders: alignment and wrapping indices. */
module Modular {

  lemma QuotientIs(n: int, m: nat, q: int, r: int)
    requires m > 0 && n == m * q + r && 0 <= r < m
    ensures n % m == r
  {
    var q', r' := n / m, n % m;
    assert n == m * q' + r';
    assert q' < q ==> m * (q' + 1) <= m * q;
    assert q' > q ==> m * (q + 1) <= m * q';
  }

  lemma AddMultiple(n: int, m: nat, k: int)
    requires m > 0
    ensures (m * k + n) % m == n % m
  {
    var q := n / m;
    assert m * k + n == m * (k + q) + n % m;
    QuotientIs(m * k + n, m, k + q, n % m);
  }

  lemma DiffMultiple(a: int, b: int, m: nat)
    requires m > 0 && a % m == b % m
    ensures (a - b) % m == 0
  {
    assert a == m * (a / m) + a % m && b == m * (b / m) + b % m;
    assert a - b == m * (a / m - b / m);
    QuotientIs(a - b, m, a / m - b / m, 0);
  }

  /** Numbers less than m apart that are equal modulo m are equal. */
  lemma Near(a: int, b: int, m: nat)
    requires m > 0 && a % m == b % m && a < b + m && b < a + m
    ensures a == b
  {
    DiffMultiple(a, b, m);
    var d := a - b;
    if d < 0 {
      AddMultiple(d, m, 1);
      QuotientIs(d + m, m, 0, d + m);
    } else {
      QuotientIs(d, m, 0, d);
    }
  }

  /** Adding to a remainder without reaching m. */
  lemma AddWithin(a: int, k: nat, m: nat)
    requires m > 0 && a % m + k < m
    ensures (a + k) % m == a % m + k
  {
    QuotientIs(a + k, m, a / m, a % m + k);
  }

  lemma SubWithin(a: int, k: nat, m: nat)
    requires m > 0 && k <= a % m
    ensures (a - k) % m == a % m - k
  {
    QuotientIs(a - k, m, a / m, a % m - k);
  }

  /** A remainder modulo a multiple of m. */
  lemma ModMod(a: int, big: nat, m: nat)
    requires m > 0 && big > 0 && big % m == 0
    ensures (a % big) % m == a % m
  {
    var q := big / m;
    assert big == m * q;
    assert a == big * (a / big) + a % big;
    assert a == m * (q * (a / big)) + a % big;
    AddMultiple(a % big, m, q * (a / big));
  }

  lemma SameAdd(a: int, b: int, k: int, m: nat)
    requires m > 0 && a % m == b % m
    ensures (a + k) % m == (b + k) % m
  {
    DiffMultiple(a, b, m);
    var q := (a - b) / m;
    assert a + k == m * q + (b + k);
    AddMultiple(b + k, m, q);
  }

  lemma Small(a: nat, m: nat)
    requires a < m
    ensures a % m == a
  {
    QuotientIs(a, m, 0, a);
  }

  // ----- alignment -----

  function AlignUp(n: nat, algn: nat): (r: nat)
    requires algn > 0
    ensures r % algn == 0 && n <= r < n + algn
  {
    AlignUpIs(n, algn);
    (n + algn - 1) / algn * algn
  }

  lemma AlignUpIs(n: nat, algn: nat)
    requires algn > 0
    ensures ((n + algn - 1) / algn * algn) % algn == 0
    ensures n <= (n + algn - 1) / algn * algn < n + algn
  {
    var m := n + algn - 1;
    assert m == m / algn * algn + m % algn;
    AddMultiple(0, algn, m / algn);
  }

  /** Aligned numbers below a multiple are at most it. */
  lemma AlignBelow(n: nat, m: nat, algn: nat)
    requires algn > 0 && m % algn == 0 && n <= m
    ensures AlignUp(n, algn) <= m
  {
    var a := AlignUp(n, algn);
    if a > m {
      Near(a, m, algn);
    }
  }

  // ----- indices that run round modulo m -----

  function Fwd(x: int, k: nat, m: nat): (r: nat)
    requires m > 0
    ensures r < m
  {
    (x + k) % m
  }

  function Back(x: int, k: nat, m: nat): (r: nat)
    requires m > 0
    ensures r < m
  {
    (x - k) % m
  }

  /** How far it is from b on to e. */
  function Dist(b: int, e: int, m: nat): (n: nat)
    requires m > 0
    ensures n < m
  {
    (e - b) % m
  }

  lemma DistIs(b: int, e: int, m: nat, q: int, n: nat)
    requires n < m && e - b == m * q + n
    ensures Dist(b, e, m) == n
  {
    QuotientIs(e - b, m, q, n);
  }

  lemma DistZero(b: nat, e: nat, m: nat)
    requires b < m && e < m
    ensures Dist(b, e, m) == 0 <==> b == e
  {
    if b <= e {
      DistIs(b, e, m, 0, e - b);
    } else {
      DistIs(b, e, m, -1, e - b + m);
    }
  }

  lemma EndFwd(b: int, e: int, k: nat, m: nat)
    requires m > 0 && Dist(b, e, m) + k < m
    ensures Dist(b, Fwd(e, k, m), m) == Dist(b, e, m) + k
  {
    var q, r := (e - b) / m, (e + k) / m;
    assert e - b == m * q + Dist(b, e, m) && e + k == m * r + Fwd(e, k, m);
    assert Fwd(e, k, m) - b == m * (q - r) + (Dist(b, e, m) + k);
    DistIs(b, Fwd(e, k, m), m, q - r, Dist(b, e, m) + k);
  }

  lemma EndBack(b: int, e: int, k: nat, m: nat)
    requires m > 0 && k <= Dist(b, e, m)
    ensures Dist(b, Back(e, k, m), m) == Dist(b, e, m) - k
  {
    var q, r := (e - b) / m, (e - k) / m;
    assert e - b == m * q + Dist(b, e, m) && e - k == m * r + Back(e, k, m);
    assert Back(e, k, m) - b == m * (q - r) + (Dist(b, e, m) - k);
    DistIs(b, Back(e, k, m), m, q - r, Dist(b, e, m) - k);
  }

  lemma BeginBack(b: int, e: int, k: nat, m: nat)
    requires m > 0 && Dist(b, e, m) + k < m
    ensures Dist(Back(b, k, m), e, m) == Dist(b, e, m) + k
  {
    var q, r := (e - b) / m, (b - k) / m;
    assert e - b == m * q + Dist(b, e, m) && b - k == m * r + Back(b, k, m);
    assert e - Back(b, k, m) == m * (q + r) + (Dist(b, e, m) + k);
    DistIs(Back(b, k, m), e, m, q + r, Dist(b, e, m) + k);
  }

  lemma BeginFwd(b: int, e: int, k: nat, m: nat)
    requires m > 0 && k <= Dist(b, e, m)
    ensures Dist(Fwd(b, k, m), e, m) == Dist(b, e, m) - k
  {
    var q, r := (e - b) / m, (b + k) / m;
    assert e - b == m * q + Dist(b, e, m) && b + k == m * r + Fwd(b, k, m);
    assert e - Fwd(b, k, m) == m * (q + r) + (Dist(b, e, m) - k);
    DistIs(Fwd(b, k, m), e, m, q + r, Dist(b, e, m) - k);
  }

  lemma BothBack(b: int, e: int, k: nat, m: nat)
    requires m > 0
    ensures Dist(Back(b, k, m), Back(e, k, m), m) == Dist(b, e, m)
  {
    var q, r, s := (e - b) / m, (b - k) / m, (e - k) / m;
    assert e - b == m * q + Dist(b, e, m) && b - k == m * r + Back(b, k, m) && e - k == m * s + Back(e, k, m);
    assert Back(e, k, m) - Back(b, k, m) == m * (q + r - s) + Dist(b, e, m);
    DistIs(Back(b, k, m), Back(e, k, m), m, q + r - s, Dist(b, e, m));
  }

  lemma BothFwd(b: int, e: int, k: nat, m: nat)
    requires m > 0
    ensures Dist(Fwd(b, k, m), Fwd(e, k, m), m) == Dist(b, e, m)
  {
    var q, r, s := (e - b) / m, (b + k) / m, (e + k) / m;
    assert e - b == m * q + Dist(b, e, m) && b + k == m * r + Fwd(b, k, m) && e + k == m * s + Fwd(e, k, m);
    assert Fwd(e, k, m) - Fwd(b, k, m) == m * (q + r - s) + Dist(b, e, m);
    DistIs(Fwd(b, k, m), Fwd(e, k, m), m, q + r - s, Dist(b, e, m));
  }

  /** A point between b and e. */
  lemma DistSplit(b: int, x: int, e: int, m: nat)
    requires m > 0 && Dist(b, x, m) <= Dist(b, e, m)
    ensures Dist(x, e, m) == Dist(b, e, m) - Dist(b, x, m)
  {
    var q, r := (e - b) / m, (x - b) / m;
    assert e - b == m * q + Dist(b, e, m) && x - b == m * r + Dist(b, x, m);
    assert e - x == m * (q - r) + (Dist(b, e, m) - Dist(b, x, m));
    DistIs(x, e, m, q - r, Dist(b, e, m) - Dist(b, x, m));
  }
}
