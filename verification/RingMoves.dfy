/** Moving elements about in a ring of slots: sys/lib/circular_buffer.h. */
module RingMoves {
  import opened Modular

  /** The slot of an index: indices run on, slots do not. */
  function Slot(m: nat, i: int): (k: nat)
    requires m > 0
    ensures k < m
  {
    i % m
  }

  lemma OffsetSlot(m: nat, i: int, j: nat)
    requires j < m
    ensures Dist(i, Slot(m, i + j), m) == j
  {
    ModMod(i + j, m, m) by { QuotientIs(m, m, 1, 0); }
    SameAdd((i + j) % m, i + j, -i, m);
    QuotientIs(j, m, 0, j);
  }

  lemma SlotOffset(m: nat, i: int, k: nat)
    requires k < m
    ensures Slot(m, i + Dist(i, k, m)) == k
  {
    QuotientIs(m, m, 1, 0);
    ModMod(k - i, m, m);
    SameAdd((k - i) % m, k - i, i, m);
    QuotientIs(k, m, 0, k);
  }

  /** Slots of a run that does not go across the end of the ring follow each other. */
  lemma Run(m: nat, i: int, t: nat)
    requires m > 0 && Slot(m, i) + t < m
    ensures Slot(m, i + t) == Slot(m, i) + t
  {
    AddWithin(i, t, m);
  }

  /** The element at distance j from index i. */
  function Elem<T>(a: seq<T>, i: int, j: int): T
    requires |a| > 0
  {
    a[Slot(|a|, i + j)]
  }

  /** memmove of n elements, none of them across the end of the ring. */
  ghost predicate Copied<T>(a: seq<T>, a': seq<T>, d: nat, s: nat, n: nat) {
    && |a'| == |a| && d + n <= |a| && s + n <= |a|
    && (forall k :: 0 <= k < |a| && !(d <= k < d + n) ==> a'[k] == a[k])
    && (forall k :: d <= k < d + n ==> a'[k] == a[s + (k - d)])
  }

  /** Elements lo to hi from src on are at dst; only the slots at distance lo to top from dst have changed. */
  ghost predicate Moved<T>(a: seq<T>, a': seq<T>, dst: int, src: int, lo: nat, hi: nat, top: nat) {
    && 0 < |a| == |a'|
    && (forall j :: lo <= j < hi ==> Elem(a', dst, j) == Elem(a, src, j))
    && (forall k :: 0 <= k < |a| && !(lo <= Dist(dst, k, |a|) < top) ==> a'[k] == a[k])
  }

  /** A chunk copied at distance c from dst, seen from dst. */
  lemma ChunkSlots(m: nat, dst: int, c: nat, n: nat, k: nat)
    requires 0 < m && c + n <= m && k < m && Slot(m, dst + c) + n <= m
    ensures Slot(m, dst + c) <= k < Slot(m, dst + c) + n <==> c <= Dist(dst, k, m) < c + n
    ensures c <= Dist(dst, k, m) < c + n ==> k - Slot(m, dst + c) == Dist(dst, k, m) - c
  {
    hide Slot, Dist;
    var d, o := Slot(m, dst + c), Dist(dst, k, m);
    SlotOffset(m, dst, k);
    if d <= k < d + n {
      Run(m, dst + c, k - d);
      assert dst + c + (k - d) == dst + (c + (k - d));
      OffsetSlot(m, dst, c + (k - d));
    }
    if c <= o < c + n {
      Run(m, dst + c, o - c);
      assert dst + c + (o - c) == dst + o;
    }
  }

  lemma MovedNone<T>(a: seq<T>, dst: int, src: int, c: nat)
    requires |a| > 0
    ensures Moved(a, a, dst, src, c, c, c)
  {
  }

  lemma StoredNone<T>(a: seq<T>, i: int, vs: seq<T>)
    requires |a| > 0
    ensures Stored(a, a, i, vs, 0)
  {
  }

  /** Slots just below an index: the end of the ring is below slot 0. */
  lemma RunBelow(m: nat, i: int, n: nat)
    requires m > 0 && 0 < n && (if Slot(m, i) == 0 then n <= m else n <= Slot(m, i))
    ensures Slot(m, i - n) == if Slot(m, i) == 0 then m - n else Slot(m, i) - n
  {
    if Slot(m, i) == 0 {
      assert i - n == m * (i / m - 1) + (m - n);
      QuotientIs(i - n, m, i / m - 1, m - n);
    } else {
      SubWithin(i, n, m);
    }
  }

  lemma NotBoth(m: nat, i: int, len: nat)
    requires 0 < len < m
    ensures !(Slot(m, i) == 0 && Slot(m, i + len) == 0)
  {
    if Slot(m, i) == 0 {
      Run(m, i, len);
    }
  }

  function Min(a: nat, b: nat): nat {
    if a < b then a else b
  }

  /** One turn of move_left: a chunk of n elements at distance c; `need` of the elements matter. */
  lemma LeftStep<T>(a: seq<T>, b: seq<T>, b': seq<T>, dst: int, len: nat, c: nat, n: nat, need: nat)
    requires Moved(a, b, dst, dst + len, 0, Min(c, need), c) && c + n <= |a| && need + len <= |a|
    requires Copied(b, b', Slot(|a|, dst + c), Slot(|a|, dst + len + c), n)
    ensures Moved(a, b', dst, dst + len, 0, Min(c + n, need), c + n)
  {
    hide Slot, Dist;
    var m, src := |a|, dst + len;
    forall j | 0 <= j < Min(c + n, need) ensures Elem(b', dst, j) == Elem(a, src, j) {
      OffsetSlot(m, dst, j);
      ChunkSlots(m, dst, c, n, Slot(m, dst + j));
      if j < c {
        assert Elem(b, dst, j) == Elem(a, src, j);
      } else {
        Run(m, src + c, j - c);
        assert src + c + (j - c) == src + j && dst + (len + j) == src + j;
        OffsetSlot(m, dst, len + j);
      }
    }
    forall k | 0 <= k < m && !(0 <= Dist(dst, k, m) < c + n) ensures b'[k] == a[k] {
      ChunkSlots(m, dst, c, n, k);
    }
  }

  /** One turn of move_right: the n elements below distance c, those above being done. */
  lemma RightStep<T>(a: seq<T>, b: seq<T>, b': seq<T>, src: int, len: nat, c: nat, n: nat, count: nat)
    requires Moved(a, b, src + len, src, c, count, count) && n <= c <= count && count + len <= |a|
    requires Copied(b, b', Slot(|a|, src + len + (c - n)), Slot(|a|, src + (c - n)), n)
    ensures Moved(a, b', src + len, src, c - n, count, count)
  {
    hide Slot, Dist;
    var m, dst := |a|, src + len;
    forall j | c - n <= j < count ensures Elem(b', dst, j) == Elem(a, src, j) {
      OffsetSlot(m, dst, j);
      ChunkSlots(m, dst, c - n, n, Slot(m, dst + j));
      if j >= c {
        assert Elem(b, dst, j) == Elem(a, src, j);
      } else {
        Run(m, src + (c - n), j - (c - n));
        assert src + (c - n) + (j - (c - n)) == src + j;
        OffsetBelow(m, src, len, j, count);
      }
    }
    forall k | 0 <= k < m && !(c - n <= Dist(dst, k, m) < count) ensures b'[k] == a[k] {
      ChunkSlots(m, dst, c - n, n, k);
    }
  }

  /** A slot that is still to be read has not been written by move_right. */
  lemma OffsetBelow(m: nat, src: int, len: nat, j: nat, count: nat)
    requires m > 0 && j < count && count + len <= m
    ensures Dist(src + len, Slot(m, src + j), m) == if j >= len then j - len else m + j - len
  {
    if j >= len {
      assert src + len + (j - len) == src + j;
      OffsetSlot(m, src + len, j - len);
    } else {
      assert src + len + (m + j - len) == m + (src + j);
      AddMultiple(src + j, m, 1);
      OffsetSlot(m, src + len, m + j - len);
    }
  }

  /** Free-running indices wrap at a multiple of the number of slots, which the slots do not see. */
  lemma SlotStep(m: nat, modulus: nat, x: int, y: int, k: int)
    requires m > 0 && modulus > 0 && modulus % m == 0 && Slot(m, x) == Slot(m, y)
    ensures Slot(m, (x + k) % modulus) == Slot(m, y + k)
  {
    ModMod(x + k, modulus, m);
    SameAdd(x, y, k, m);
  }

  lemma SlotShift(m: nat, x: int, y: int, k: int)
    requires m > 0 && Slot(m, x) == Slot(m, y)
    ensures Slot(m, x + k) == Slot(m, y + k)
  {
    SameAdd(x, y, k, m);
  }

  lemma SlotSmall(m: nat, x: nat)
    requires x < m
    ensures Slot(m, x) == x
  {
    Small(x, m);
  }

  /** n elements from index i on. */
  ghost function View<T>(a: seq<T>, i: int, n: nat): (v: seq<T>)
    requires |a| > 0
    ensures |v| == n
  {
    seq(n, j requires 0 <= j < n => Elem(a, i, j))
  }

  lemma ViewSame<T>(a: seq<T>, i: int, i': int, n: nat)
    requires |a| > 0 && Slot(|a|, i) == Slot(|a|, i')
    ensures View(a, i, n) == View(a, i', n)
  {
    forall j | 0 <= j < n ensures Elem(a, i, j) == Elem(a, i', j) {
      SameAdd(i, i', j, |a|);
    }
  }

  // ----- opening a gap -----

  /** s lies at index i with a gap of len elements before its element p. */
  ghost predicate Gapped<T>(s: seq<T>, a: seq<T>, i: int, p: nat, len: nat) {
    && |a| > 0 && p <= |s|
    && (forall j :: 0 <= j < p ==> Elem(a, i, j) == s[j])
    && (forall j :: p + len <= j < |s| + len ==> Elem(a, i, j) == s[j - len])
  }

  lemma GapFront<T>(a: seq<T>, i: int, n: nat, len: nat)
    requires |a| > 0
    ensures Gapped(View(a, i, n), a, i - len, 0, len)
  {
    hide Slot;
    var i' := i - len;
    forall j | len <= j < n + len ensures Elem(a, i', j) == View(a, i, n)[j - len] {
      assert i' + j == i + (j - len);
    }
  }

  lemma GapBack<T>(a: seq<T>, i: int, n: nat, len: nat)
    requires |a| > 0
    ensures Gapped(View(a, i, n), a, i, n, len)
  {
  }

  lemma GapNone<T>(a: seq<T>, i: int, n: nat, p: nat)
    requires |a| > 0 && p <= n
    ensures Gapped(View(a, i, n), a, i, p, 0)
  {
  }

  lemma GapSame<T>(s: seq<T>, a: seq<T>, i: int, i': int, p: nat, len: nat)
    requires Gapped(s, a, i, p, len) && Slot(|a|, i) == Slot(|a|, i')
    ensures Gapped(s, a, i', p, len)
  {
    forall j: nat ensures Elem(a, i', j) == Elem(a, i, j) {
      SameAdd(i, i', j, |a|);
    }
  }

  /** The elements before the gap were moved left, with len - 1 more that do not matter. */
  lemma GapLeft<T>(a: seq<T>, a': seq<T>, i: int, n: nat, p: nat, len: nat)
    requires 0 < p < n && 0 < len && n + len <= |a|
    requires Moved(a, a', i - len, i, 0, p, p + len - 1)
    ensures Gapped(View(a, i, n), a', i - len, p, len)
  {
    hide Slot, Dist;
    var i' := i - len;
    forall j | p + len <= j < n + len ensures Elem(a', i', j) == View(a, i, n)[j - len] {
      OffsetSlot(|a|, i', j);
      assert i' + j == i + (j - len);
    }
  }

  /** The elements after the gap were moved right. */
  lemma GapRight<T>(a: seq<T>, a': seq<T>, i: int, n: nat, p: nat, len: nat)
    requires 0 < p < n && n + len <= |a|
    requires Moved(a, a', i + p + len, i + p, 0, n - p, n - p)
    ensures Gapped(View(a, i, n), a', i, p, len)
  {
    hide Slot, Dist;
    forall j | 0 <= j < p ensures Elem(a', i, j) == View(a, i, n)[j] {
      OffsetBefore(|a|, i, p + len, j);
    }
    forall j | p + len <= j < n + len ensures Elem(a', i, j) == View(a, i, n)[j - len] {
      assert i + j == i + p + len + (j - p - len) && i + p + (j - p - len) == i + (j - len);
      assert Elem(a', i + p + len, j - p - len) == Elem(a, i + p, j - p - len);
    }
  }

  /** The same for an index begin that is p before `it`, running round. */
  lemma GapRightAt<T>(a: seq<T>, a': seq<T>, it: int, begin: int, n: nat, p: nat, len: nat)
    requires 0 < p < n && n + len <= |a| && Slot(|a|, it) == Slot(|a|, begin + p)
    requires Moved(a, a', it + len, it, 0, n - p, n - p)
    ensures Gapped(View(a, begin, n), a', begin, p, len)
  {
    hide Slot, Dist, Moved, Gapped, View;
    var i: int := it - p;
    var back: int := p;
    SlotShift(|a|, it, begin + p, -back);
    assert it + -back == i && begin + p + -back == begin;
    MovedSize(a, a', it + len, it, 0, n - p, n - p);
    GapRight(a, a', i, n, p, len);
    ViewSame(a, i, begin, n);
    GapSame(View(a, i, n), a', i, begin, p, len);
  }

  lemma MovedSize<T>(a: seq<T>, a': seq<T>, dst: int, src: int, lo: nat, hi: nat, top: nat)
    requires Moved(a, a', dst, src, lo, hi, top)
    ensures |a'| == |a| > 0
  {
  }

  lemma OffsetBefore(m: nat, i: int, c: nat, j: nat)
    requires j < c <= m
    ensures Dist(i + c, Slot(m, i + j), m) == m + j - c
  {
    assert i + c + (m + j - c) == m + (i + j);
    AddMultiple(i + j, m, 1);
    OffsetSlot(m, i + c, m + j - c);
  }

  // ----- closing a gap -----

  /** The elements after those erased were moved left. */
  lemma CloseLeft<T>(a: seq<T>, a': seq<T>, i: int, n: nat, p: nat, len: nat)
    requires 0 < p && p + len < n <= |a|
    requires Moved(a, a', i + p, i + p + len, 0, n - p - len, n - p - len)
    ensures View(a', i, n - len) == View(a, i, n)[..p] + View(a, i, n)[p + len..]
  {
    hide Slot, Dist;
    var v, w := View(a, i, n), View(a', i, n - len);
    forall j | 0 <= j < n - len ensures w[j] == (v[..p] + v[p + len..])[j] {
      if j < p {
        OffsetBefore(|a|, i, p, j);
      } else {
        assert i + j == i + p + (j - p) && i + p + len + (j - p) == i + (j + len);
        assert Elem(a', i + p, j - p) == Elem(a, i + p + len, j - p);
      }
    }
    assert w == v[..p] + v[p + len..];
  }

  /** The elements before those erased were moved right. */
  lemma CloseRight<T>(a: seq<T>, a': seq<T>, i: int, n: nat, p: nat, len: nat)
    requires 0 < p && p + len < n <= |a|
    requires Moved(a, a', i + len, i, 0, p, p)
    ensures View(a', i + len, n - len) == View(a, i, n)[..p] + View(a, i, n)[p + len..]
  {
    hide Slot, Dist;
    var v, w := View(a, i, n), View(a', i + len, n - len);
    forall j | 0 <= j < n - len ensures w[j] == (v[..p] + v[p + len..])[j] {
      if j < p {
        assert Elem(a', i + len, j) == Elem(a, i, j);
      } else {
        OffsetSlot(|a|, i + len, j);
        assert i + len + j == i + (j + len);
      }
    }
    assert w == v[..p] + v[p + len..];
  }

  // ----- filling a gap -----

  /** memcpy of elements vs[from..from + n] to slots from d on. */
  ghost predicate Filled<T>(a: seq<T>, a': seq<T>, d: nat, vs: seq<T>, from: nat, n: nat) {
    && |a'| == |a| && d + n <= |a| && from + n <= |vs|
    && (forall k :: 0 <= k < |a| && !(d <= k < d + n) ==> a'[k] == a[k])
    && (forall k :: d <= k < d + n ==> a'[k] == vs[from + (k - d)])
  }

  /** The first n of the elements vs are at index i, and only their slots have changed. */
  ghost predicate Stored<T>(a: seq<T>, a': seq<T>, i: int, vs: seq<T>, n: nat) {
    && 0 < |a| == |a'| && n <= |vs|
    && (forall j :: 0 <= j < n ==> Elem(a', i, j) == vs[j])
    && (forall k :: 0 <= k < |a| && Dist(i, k, |a|) >= n ==> a'[k] == a[k])
  }

  lemma StoreStep<T>(a: seq<T>, b: seq<T>, b': seq<T>, i: int, vs: seq<T>, c: nat, n: nat)
    requires Stored(a, b, i, vs, c) && c + n <= |vs| <= |a|
    requires Filled(b, b', Slot(|a|, i + c), vs, c, n)
    ensures Stored(a, b', i, vs, c + n)
  {
    hide Slot, Dist;
    var m := |a|;
    forall j | 0 <= j < c + n ensures Elem(b', i, j) == vs[j] {
      OffsetSlot(m, i, j);
      ChunkSlots(m, i, c, n, Slot(m, i + j));
      assert j < c ==> Elem(b, i, j) == vs[j];
    }
    forall k | 0 <= k < m && Dist(i, k, m) >= c + n ensures b'[k] == a[k] {
      ChunkSlots(m, i, c, n, k);
    }
  }

  /** A gap filled makes the two sides and the filling one sequence. */
  lemma GapFilled<T>(s: seq<T>, a: seq<T>, a': seq<T>, i: int, p: nat, vs: seq<T>)
    requires Gapped(s, a, i, p, |vs|) && Stored(a, a', i + p, vs, |vs|) && |s| + |vs| <= |a|
    ensures View(a', i, |s| + |vs|) == s[..p] + vs + s[p..]
  {
    hide Slot, Dist;
    var v, n := View(a', i, |s| + |vs|), |vs|;
    forall j | 0 <= j < |s| + n ensures v[j] == (s[..p] + vs + s[p..])[j] {
      if j < p {
        OffsetBefore(|a|, i, p, j);
        assert Elem(a, i, j) == s[j];
      } else {
        assert i + p + (j - p) == i + j;
        OffsetSlot(|a|, i + p, j - p);
        if j < p + n {
          assert Elem(a', i + p, j - p) == vs[j - p];
        } else {
          assert Elem(a, i, j) == s[j - n];
        }
      }
    }
    assert v == s[..p] + vs + s[p..];
  }

  lemma CloseLeftAt<T>(a: seq<T>, a': seq<T>, it: int, begin: int, n: nat, p: nat, len: nat)
    requires 0 < p && p + len < n <= |a| && Slot(|a|, it) == Slot(|a|, begin + p)
    requires Moved(a, a', it, it + len, 0, n - p - len, n - p - len)
    ensures View(a', begin, n - len) == View(a, begin, n)[..p] + View(a, begin, n)[p + len..]
  {
    hide Slot, Dist, Moved, View;
    var i: int := it - p;
    var back: int := p;
    SlotShift(|a|, it, begin + p, -back);
    assert it + -back == i && begin + p + -back == begin;
    MovedSize(a, a', it, it + len, 0, n - p - len, n - p - len);
    CloseLeft(a, a', i, n, p, len);
    ViewSame(a, i, begin, n);
    ViewSame(a', i, begin, n - len);
  }

  lemma ViewParts<T>(a: seq<T>, i: int, n: nat, len: nat)
    requires |a| > 0 && len <= n
    ensures View(a, i, n - len) == View(a, i, n)[..n - len]
    ensures View(a, i + len, n - len) == View(a, i, n)[len..]
    ensures View(a, i, n) == View(a, i, len) + View(a, i + len, n - len)
  {
    hide Slot;
    var i' := i + len;
    forall j | 0 <= j < n - len ensures Elem(a, i', j) == View(a, i, n)[j + len] {
      assert i' + j == i + (j + len);
    }
    assert View(a, i + len, n - len) == View(a, i, n)[len..];
    assert View(a, i, n) == View(a, i, len) + View(a, i + len, n - len);
  }

  lemma StoredSize<T>(a: seq<T>, a': seq<T>, i: int, vs: seq<T>, n: nat)
    requires Stored(a, a', i, vs, n)
    ensures |a'| == |a| > 0
  {
  }

  lemma GapFilledAt<T>(s: seq<T>, a: seq<T>, a': seq<T>, it: int, begin: int, p: nat, vs: seq<T>)
    requires Gapped(s, a, begin, p, |vs|) && Stored(a, a', it, vs, |vs|) && |s| + |vs| <= |a|
    requires Slot(|a|, it) == Slot(|a|, begin + p)
    ensures |a'| == |a| && View(a', begin, |s| + |vs|) == s[..p] + vs + s[p..]
  {
    hide Slot, Dist, Stored, View, Gapped;
    var i: int := it - p;
    var back: int := p;
    SlotShift(|a|, it, begin + p, -back);
    assert it + -back == i && begin + p + -back == begin;
    StoredSize(a, a', it, vs, |vs|);
    GapSame(s, a, begin, i, p, |vs|);
    GapFilled(s, a, a', i, p, vs);
    ViewSame(a', i, begin, |s| + |vs|);
  }

  /** Elements of a run that does not go across the end of the ring are a slice of it. */
  lemma ViewRun<T>(a: seq<T>, i: int, n: nat)
    requires 0 < |a| && Slot(|a|, i) + n <= |a|
    ensures View(a, i, n) == a[Slot(|a|, i)..Slot(|a|, i) + n]
  {
    forall j: nat | j < n ensures Elem(a, i, j) == a[Slot(|a|, i) + j] {
      Run(|a|, i, j);
    }
  }

  lemma PushedBack<T>(a: seq<T>, begin: int, end: int, n: nat, v: T)
    requires n < |a| && Slot(|a|, end) == Slot(|a|, begin + n)
    ensures View(a[Slot(|a|, end) := v], begin, n + 1) == View(a, begin, n) + [v]
  {
    hide Slot;
    var a' := a[Slot(|a|, end) := v];
    forall j: nat | j < n ensures Elem(a', begin, j) == Elem(a, begin, j) {
      SlotsApart(|a|, begin, j, n);
    }
  }

  lemma PushedFront<T>(a: seq<T>, first: int, begin: int, n: nat, v: T)
    requires n < |a| && Slot(|a|, first) == Slot(|a|, begin - 1)
    ensures View(a[Slot(|a|, first) := v], first, n + 1) == [v] + View(a, begin, n)
  {
    hide Slot;
    var a' := a[Slot(|a|, first) := v];
    var w := View(a', first, n + 1);
    forall j | 0 <= j < n + 1 ensures w[j] == ([v] + View(a, begin, n))[j] {
      if j > 0 {
        SlotsApart(|a|, first, 0, j);
        SlotShift(|a|, first, begin - 1, j);
        assert first + 0 == first && begin - 1 + j == begin + (j - 1);
      } else {
        assert first + 0 == first;
      }
    }
    assert w == [v] + View(a, begin, n);
  }

  lemma SlotsApart(m: nat, i: int, j: nat, k: nat)
    requires j < k < m
    ensures Slot(m, i + j) != Slot(m, i + k)
  {
    hide Slot;
    OffsetSlot(m, i, j);
    OffsetSlot(m, i, k);
  }

  lemma ViewSlice<T>(a: seq<T>, begin: int, n: nat, i: int, p: nat, k: nat)
    requires |a| > 0 && p + k <= n && Slot(|a|, i) == Slot(|a|, begin + p)
    ensures View(a, i, k) == View(a, begin, n)[p..p + k]
  {
    hide Slot;
    forall j | 0 <= j < k ensures Elem(a, i, j) == View(a, begin, n)[p + j] {
      SlotShift(|a|, i, begin + p, j);
      assert begin + p + j == begin + (p + j);
    }
  }

  /** The elements of spans of slots, (first slot, number) each. */
  ghost function Joined<T>(a: seq<T>, spans: seq<(nat, nat)>): seq<T>
    requires forall i :: 0 <= i < |spans| ==> spans[i].0 + spans[i].1 <= |a|
  {
    if spans == [] then []
    else Joined(a, spans[..|spans| - 1]) + a[spans[|spans| - 1].0..spans[|spans| - 1].0 + spans[|spans| - 1].1]
  }

  lemma {:induction false} JoinedSnoc<T>(a: seq<T>, spans: seq<(nat, nat)>, d: nat, n: nat)
    requires (forall j :: 0 <= j < |spans| ==> spans[j].0 + spans[j].1 <= |a|) && d + n <= |a|
    ensures Joined(a, spans + [(d, n)]) == Joined(a, spans) + a[d..d + n]
  {
    var more := spans + [(d, n)];
    assert more[..|more| - 1] == spans && more[|more| - 1] == (d, n);
  }

  lemma {:induction false} JoinedNext<T>(a: seq<T>, spans: seq<(nat, nat)>, i: int, k: int, n: nat, c: nat)
    requires |a| > 0 && forall j :: 0 <= j < |spans| ==> spans[j].0 + spans[j].1 <= |a|
    requires Slot(|a|, k) == Slot(|a|, i + c) && Slot(|a|, k) + n <= |a|
    requires Joined(a, spans) == View(a, i, c)
    ensures Joined(a, spans + [(Slot(|a|, k), n)]) == View(a, i, c + n)
  {
    hide Slot, View, Joined;
    JoinedSnoc(a, spans, Slot(|a|, k), n);
    ViewParts(a, i, c + n, c);
    ViewSame(a, k, i + c, n);
    ViewRun(a, k, n);
  }

  lemma JoinedNone<T>(a: seq<T>, i: int)
    requires |a| > 0
    ensures Joined(a, []) == View(a, i, 0)
  {
  }

  lemma RunToEnd(m: nat, i: int, n: nat)
    requires m > 0 && Slot(m, i) + n == m
    ensures Slot(m, i + n) == 0
  {
    assert i + n == m * (i / m + 1);
    QuotientIs(i + n, m, i / m + 1, 0);
  }
}
