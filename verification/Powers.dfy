/** Powers of two, integer logarithms and binary shifts, as the kernel's bit tricks use them. */
module Powers {

  predicate Between(lo: int, p: int, hi: int) {
    lo <= p < hi
  }

  /** The numbers lo, lo+1, ..., hi-1. */
  ghost function Range(lo: nat, hi: nat): (r: set<nat>)
    ensures forall p :: p in r <==> lo <= p < hi
  {
    set p: nat | lo <= p < hi && Between(lo, p, hi)
  }

  function Pow2(n: nat): (r: nat)
    ensures r >= 1
  {
    if n == 0 then 1 else 2 * Pow2(n - 1)
  }

  lemma {:induction false} Pow2Sum(a: nat, b: nat)
    ensures Pow2(a + b) == Pow2(a) * Pow2(b)
  {
    if a > 0 {
      Pow2Sum(a - 1, b);
      assert Pow2(a + b) == 2 * Pow2(a - 1 + b);
      assert 2 * (Pow2(a - 1) * Pow2(b)) == (2 * Pow2(a - 1)) * Pow2(b);
    }
  }

  lemma {:induction false} Pow2Monotone(a: nat, b: nat)
    requires a <= b
    ensures Pow2(a) <= Pow2(b)
    ensures a < b ==> 2 * Pow2(a) <= Pow2(b)
    decreases b
  {
    if a < b { Pow2Monotone(a, b - 1); }
  }

  /** `std::bit_width(n) - 1`: the position of the highest set bit. */
  function FloorLog2(n: nat): (r: nat)
    requires n > 0
    ensures Pow2(r) <= n < 2 * Pow2(r)
  {
    if n == 1 then 0 else 1 + FloorLog2(n / 2)
  }

  lemma {:induction false} FloorLog2Unique(n: nat, r: nat)
    requires n > 0 && Pow2(r) <= n < 2 * Pow2(r)
    ensures FloorLog2(n) == r
  {
    if n > 1 {
      assert r > 0;
      FloorLog2Unique(n / 2, r - 1);
    }
  }

  /** `std::bit_width(n) - std::has_single_bit(n)`: the exponent of the least power of two not below n. */
  function CeilLog2(n: nat): (r: nat)
    requires n > 0
    ensures n <= Pow2(r)
    ensures r > 0 ==> Pow2(r - 1) < n
  {
    if Pow2(FloorLog2(n)) == n then FloorLog2(n) else FloorLog2(n) + 1
  }

  /** `std::countr_zero(n)`: the number of trailing zero bits. */
  function TrailingZeros(n: nat): (r: nat)
    requires n > 0
    ensures Pow2(r) <= n
  {
    if n % 2 == 1 then 0 else 1 + TrailingZeros(n / 2)
  }

  /** `p >> o` */
  function ShiftRight(p: nat, o: nat): (r: nat)
    ensures r <= p
    decreases o
  {
    if o == 0 then p else ShiftRight(p / 2, o - 1)
  }

  /** `k << o` */
  function ShiftLeft(k: nat, o: nat): (r: nat)
    ensures r >= k
    decreases o
  {
    if o == 0 then k else ShiftLeft(2 * k, o - 1)
  }

  lemma {:induction false} ShiftLeftIsProduct(k: nat, o: nat)
    ensures ShiftLeft(k, o) == k * Pow2(o)
    decreases o
  {
    if o > 0 {
      ShiftLeftIsProduct(2 * k, o - 1);
      assert (2 * k) * Pow2(o - 1) == k * (2 * Pow2(o - 1));
    }
  }

  /** Shifting right by o divides by 2^o, rounding down. */
  lemma {:induction false} ShiftRightBounds(p: nat, o: nat)
    ensures ShiftLeft(ShiftRight(p, o), o) <= p < ShiftLeft(ShiftRight(p, o), o) + Pow2(o)
    decreases o
  {
    if o > 0 {
      ShiftRightBounds(p / 2, o - 1);
      ShiftLeftDouble(ShiftRight(p / 2, o - 1), o - 1);
    }
  }

  lemma {:induction false} ShiftRightUnique(p: nat, k: nat, o: nat)
    requires ShiftLeft(k, o) <= p < ShiftLeft(k, o) + Pow2(o)
    ensures ShiftRight(p, o) == k
    decreases o
  {
    if o > 0 {
      ShiftLeftDouble(k, o - 1);
      ShiftRightUnique(p / 2, k, o - 1);
    }
  }

  lemma {:induction false} ShiftRightSum(p: nat, a: nat, b: nat)
    ensures ShiftRight(p, a + b) == ShiftRight(ShiftRight(p, a), b)
    decreases a
  {
    if a > 0 { ShiftRightSum(p / 2, a - 1, b); }
  }

  lemma ShiftLeftDouble(k: nat, o: nat)
    ensures ShiftLeft(2 * k, o) == 2 * ShiftLeft(k, o)
  {
    ShiftLeftIsProduct(k, o);
    ShiftLeftIsProduct(2 * k, o);
    assert (2 * k) * Pow2(o) == 2 * (k * Pow2(o));
  }

  /** Clearing the low o bits of p leaves p alone when they are zero already. */
  lemma {:induction false} TrailingZerosClear(p: nat, o: nat)
    requires p > 0 ==> o <= TrailingZeros(p)
    ensures ShiftLeft(ShiftRight(p, o), o) == p
    decreases o
  {
    if o > 0 {
      TrailingZerosClear(p / 2, o - 1);
      ShiftLeftDouble(ShiftRight(p / 2, o - 1), o - 1);
    }
  }

  lemma {:induction false} RangeSize(lo: nat, hi: nat)
    requires lo <= hi
    ensures |Range(lo, hi)| == hi - lo
    decreases hi
  {
    if lo < hi {
      RangeSize(lo, hi - 1);
      assert Range(lo, hi) == Range(lo, hi - 1) + {hi - 1};
    } else {
      assert Range(lo, hi) == {};
    }
  }

  lemma CeilLog2Unique(n: nat, r: nat)
    requires n > 0 && n <= Pow2(r) && (r > 0 ==> Pow2(r - 1) < n)
    ensures CeilLog2(n) == r
  {
    var c := CeilLog2(n);
    if c < r { Pow2Monotone(c, r - 1); }
    if r < c { Pow2Monotone(r, c - 1); }
  }

  lemma CeilLog2Double(n: nat)
    requires n > 0
    ensures CeilLog2(2 * n) == CeilLog2(n) + 1
  {
    var c := CeilLog2(n);
    CeilLog2Unique(2 * n, c + 1);
  }

  lemma {:induction false} CeilLog2Scale(n: nat, k: nat)
    requires n > 0
    ensures n * Pow2(k) > 0 && CeilLog2(n * Pow2(k)) == CeilLog2(n) + k
  {
    if k > 0 {
      hide CeilLog2;
      CeilLog2Scale(n, k - 1);
      TimesDouble(n, Pow2(k - 1));
      CeilLog2Double(n * Pow2(k - 1));
    }
  }

  lemma TimesDouble(a: nat, b: nat)
    ensures a * (2 * b) == 2 * (a * b)
  {
  }
}
