/**
 The allocator's bitmap: one bit for each pair of buddies, set when exactly one of the two is
 wholly free. Bits are laid out order by order from the root of the tree, as in a binary heap.
 `top` is the order of the whole region, one less than the number of orders.
 */
module BuddyBits {
  import opened Powers
  import opened BuddyTree

  function BitmapSize(top: nat): nat {
    Pow2(top) - 1
  }

  function OrderToFirstBitmapIdx(top: nat, o: nat): nat
    requires o < top
  {
    Pow2(top - o - 1) - 1
  }

  /** The division of `page` by 2^(o+1) is written as the shift it is. */
  function PageToBitmapIdx(top: nat, page: nat, o: nat): nat
    requires o < top
  {
    OrderToFirstBitmapIdx(top, o) + ShiftRight(page, o + 1)
  }

  /** Bit of the pair that makes up block k of order o+1. */
  function PairIdx(top: nat, o: nat, k: nat): nat
    requires o < top
  {
    OrderToFirstBitmapIdx(top, o) + k
  }

  predicate IsPair(top: nat, o: nat, k: nat) {
    o < top && k < Pow2(top - o - 1)
  }

  /** A page of the region falls in an existing pair at every order below the top, and in the pair of its buddies. */
  lemma PagePair(top: nat, page: nat, o: nat)
    requires o < top && page < Pow2(top)
    ensures IsPair(top, o, IndexOf(page, o + 1))
    ensures PageToBitmapIdx(top, page, o) == PairIdx(top, o, IndexOf(page, o + 1))
  {
    IndexBelow(top, page, o + 1);
  }

  lemma {:induction false} IndexBelow(top: nat, page: nat, o: nat)
    requires o <= top && page < Pow2(top)
    ensures IndexOf(page, o) < Pow2(top - o)
    decreases o
  {
    if o > 0 { IndexBelow(top - 1, page / 2, o - 1); }
  }

  /** The order and the pair a bit stands for. */
  function BitmapIdxToOrder(top: nat, idx: nat): int {
    top - FloorLog2(idx + 1) - 1
  }

  function BitmapIdxToPair(top: nat, idx: nat): int {
    idx + 1 - Pow2(FloorLog2(idx + 1))
  }

  /** Every pair has a bit in the bitmap, and the bit identifies the pair. */
  lemma PairToIdx(top: nat, o: nat, k: nat)
    requires IsPair(top, o, k)
    ensures PairIdx(top, o, k) < BitmapSize(top)
    ensures BitmapIdxToOrder(top, PairIdx(top, o, k)) == o
    ensures BitmapIdxToPair(top, PairIdx(top, o, k)) == k
  {
    FloorLog2Unique(PairIdx(top, o, k) + 1, top - o - 1);
    Pow2Monotone(top - o - 1, top - 1);
  }

  /** Every bit of the bitmap is the bit of a pair, so none is wasted. */
  lemma IdxToPair(top: nat, idx: nat)
    requires idx < BitmapSize(top)
    ensures var o, k := BitmapIdxToOrder(top, idx), BitmapIdxToPair(top, idx);
            0 <= o && 0 <= k && IsPair(top, o, k) && PairIdx(top, o, k) == idx
  {
    var l := FloorLog2(idx + 1);
    if l >= top { Pow2Monotone(top, l); }
  }

  lemma PairIdxInjective(top: nat, o: nat, k: nat, o': nat, k': nat)
    requires IsPair(top, o, k) && IsPair(top, o', k')
    requires PairIdx(top, o, k) == PairIdx(top, o', k')
    ensures o == o' && k == k'
  {
    PairToIdx(top, o, k);
    PairToIdx(top, o', k');
  }

  /** Exactly one of the two halves of block k of order o+1 is wholly free. */
  ghost predicate PairBit(free: set<nat>, o: nat, k: nat) {
    (Block(o, 2 * k) <= free) != (Block(o, 2 * k + 1) <= free)
  }

  /** The bitmap part-way through an update: orders below i already tell of `after`, the others still of `before`. */
  ghost predicate Mixed(bits: seq<bool>, top: nat, after: set<nat>, before: set<nat>, i: nat) {
    && |bits| == BitmapSize(top)
    && forall o: nat, k: nat | IsPair(top, o, k) ::
         PairIdx(top, o, k) < |bits| &&
         bits[PairIdx(top, o, k)] == PairBit(if o < i then after else before, o, k)
  }

  ghost predicate BitsMatch(bits: seq<bool>, top: nat, free: set<nat>) {
    Mixed(bits, top, free, free, 0)
  }

  /** How taking block x of order j out of `free` changes the bit of pair k of order o. */
  lemma PairChange(free: set<nat>, j: nat, x: nat, o: nat, k: nat)
    requires Block(j, x) <= free
    ensures o < j || k != IndexOf(x, o + 1 - j) ==> PairBit(free, o, k) == PairBit(free - Block(j, x), o, k)
    ensures o >= j && k == IndexOf(x, o + 1 - j) ==>
              var y := IndexOf(x, o - j);
              && y / 2 == k
              && PairBit(free - Block(j, x), o, k) == (Block(o, Buddy(y)) <= free)
              && PairBit(free, o, k) == ((Block(o, y) <= free) != (Block(o, Buddy(y)) <= free))
  {
    if o < j {
      NestedOrDisjoint(o, 2 * k, j, x);
      NestedOrDisjoint(o, 2 * k + 1, j, x);
      IndexAbove(2 * k, 1, j - o);
      IndexAbove(2 * k + 1, 1, j - o);
      assert IndexOf(2 * k, 1) == ShiftRight(k, 0) && IndexOf(2 * k + 1, 1) == ShiftRight(k, 0);
      NonEmpty(o, 2 * k);
      NonEmpty(o, 2 * k + 1);
    } else {
      var y := IndexOf(x, o - j);
      IndexParent(x, o - j);
      NestedOrDisjoint(j, x, o, 2 * k);
      NestedOrDisjoint(j, x, o, 2 * k + 1);
      NonEmpty(j, x);
    }
  }

  lemma SetBit(bits: seq<bool>, top: nat, after: set<nat>, before: set<nat>, i: nat, k: nat, b: bool)
    requires Mixed(bits, top, after, before, i) && IsPair(top, i, k)
    requires b == PairBit(after, i, k)
    requires forall k' :: IsPair(top, i, k') && k' != k ==> PairBit(after, i, k') == PairBit(before, i, k')
    ensures PairIdx(top, i, k) < |bits|
    ensures Mixed(bits[PairIdx(top, i, k) := b], top, after, before, i + 1)
  {
    PairToIdx(top, i, k);
    var bits' := bits[PairIdx(top, i, k) := b];
    forall o: nat, k': nat | IsPair(top, o, k')
      ensures PairIdx(top, o, k') < |bits| &&
              bits'[PairIdx(top, o, k')] == PairBit(if o < i + 1 then after else before, o, k')
    {
      if PairIdx(top, o, k') == PairIdx(top, i, k) { PairIdxInjective(top, o, k', i, k); }
    }
  }

  /** `after` and `before` are, in either order, a set of free pages and that set without block x of order j. */
  ghost predicate DifferBy(after: set<nat>, before: set<nat>, free: set<nat>, j: nat, x: nat) {
    && Block(j, x) <= free
    && (   (after == free && before == free - Block(j, x))
        || (after == free - Block(j, x) && before == free))
  }

  /** Orders below that of the block keep their bits. */
  lemma ToggleStart(bits: seq<bool>, top: nat, after: set<nat>, before: set<nat>, free: set<nat>, j: nat, x: nat)
    requires BitsMatch(bits, top, before) && DifferBy(after, before, free, j, x)
    ensures Mixed(bits, top, after, before, j)
  {
    forall o: nat, k: nat | IsPair(top, o, k) && o < j
      ensures PairBit(after, o, k) == PairBit(before, o, k)
    {
      PairChange(free, j, x, o, k);
    }
  }

  /** Toggling the bit on the block's path, while the enclosing block is free, updates the whole order. */
  lemma ToggleStep(bits: seq<bool>, top: nat, after: set<nat>, before: set<nat>, free: set<nat>, j: nat, x: nat, i: nat)
    requires Mixed(bits, top, after, before, i) && DifferBy(after, before, free, j, x)
    requires j <= i < top && IsPair(top, i, IndexOf(x, i + 1 - j))
    requires Block(i, IndexOf(x, i - j)) <= free
    ensures var idx := PairIdx(top, i, IndexOf(x, i + 1 - j));
            && idx < |bits|
            && Mixed(bits[idx := !bits[idx]], top, after, before, i + 1)
            && (Block(i, Buddy(IndexOf(x, i - j))) <= free <==> (if after == free then bits[idx] else !bits[idx]))
            && IndexOf(x, i - j) / 2 == IndexOf(x, i + 1 - j)
  {
    var k := IndexOf(x, i + 1 - j);
    PairChange(free, j, x, i, k);
    NonEmpty(j, x);
    assert after != before;
    forall k' | IsPair(top, i, k') && k' != k
      ensures PairBit(after, i, k') == PairBit(before, i, k')
    {
      PairChange(free, j, x, i, k');
    }
    SetBit(bits, top, after, before, i, k, PairBit(after, i, k));
  }

  /** Once the enclosing block is not free, no higher bit is affected. */
  lemma ToggleEnd(bits: seq<bool>, top: nat, after: set<nat>, before: set<nat>, free: set<nat>, j: nat, x: nat, i: nat)
    requires Mixed(bits, top, after, before, i) && DifferBy(after, before, free, j, x)
    requires j <= i <= top && (i < top ==> !(Block(i, IndexOf(x, i - j)) <= free))
    ensures BitsMatch(bits, top, after)
  {
    forall o: nat, k: nat | IsPair(top, o, k) && o >= i
      ensures PairBit(after, o, k) == PairBit(before, o, k)
    {
      PairChange(free, j, x, o, k);
      IndexAbove(x, i - j, o - j);
      NestedOrDisjoint(i, IndexOf(x, i - j), o, IndexOf(x, o - j));
    }
  }

  /**
   The bitmap walk that takes the block of order o at `page` out of `f`, when it has reached order i:
   the lower orders are updated and the enclosing block of order i is wholly in `f`.
   */
  ghost predicate Taking(bits: seq<bool>, top: nat, f: set<nat>, page: nat, o: nat, i: nat) {
    && o <= i <= top && page < Pow2(top)
    && Block(o, IndexOf(page, o)) <= f
    && Block(i, IndexOf(page, i)) <= f
    && Mixed(bits, top, f - Block(o, IndexOf(page, o)), f, i)
  }

  lemma TakingStart(bits: seq<bool>, top: nat, f: set<nat>, page: nat, o: nat)
    requires BitsMatch(bits, top, f) && o <= top && page < Pow2(top)
    requires Block(o, IndexOf(page, o)) <= f
    ensures Taking(bits, top, f, page, o, o)
  {
    var x := IndexOf(page, o);
    ToggleStart(bits, top, f - Block(o, x), f, f, o, x);
  }

  /** The walk goes on while the bit comes up set; when it comes up clear, or at the top, the listed block is found. */
  lemma TakingStep(bits: seq<bool>, top: nat, f: set<nat>, page: nat, o: nat, i: nat)
    requires Taking(bits, top, f, page, o, i) && i < top
    ensures var idx := PageToBitmapIdx(top, page, i);
            && idx < |bits|
            && (!bits[idx] ==> Taking(bits[idx := true], top, f, page, o, i + 1))
            && (bits[idx] ==>
                  && BitsMatch(bits[idx := false], top, f - Block(o, IndexOf(page, o)))
                  && Maximal(f, top, i, IndexOf(page, i)))
  {
    var x := IndexOf(page, o);
    var rest := f - Block(o, x);
    PagePair(top, page, i);
    IndexAbove(page, o, i);
    IndexAbove(page, o, i + 1);
    NonEmpty(o, x);
    assert rest != f;
    ToggleStep(bits, top, rest, f, f, o, x, i);
    BuddyHalves(i, IndexOf(page, i));
    var idx := PageToBitmapIdx(top, page, i);
    if bits[idx] {
      ToggleEnd(bits[idx := false], top, rest, f, f, o, x, i + 1);
    }
  }

  lemma TakingTop(bits: seq<bool>, top: nat, f: set<nat>, page: nat, o: nat)
    requires Taking(bits, top, f, page, o, top)
    ensures BitsMatch(bits, top, f - Block(o, IndexOf(page, o)))
    ensures Maximal(f, top, top, IndexOf(page, top))
  {
    var x := IndexOf(page, o);
    ToggleEnd(bits, top, f - Block(o, x), f, f, o, x, top);
  }

  /** The walk that gives that block back, `g` being the free pages with it. */
  ghost predicate Giving(bits: seq<bool>, top: nat, g: set<nat>, page: nat, o: nat, i: nat) {
    && o <= i <= top && page < Pow2(top)
    && Block(o, IndexOf(page, o)) <= g
    && Block(i, IndexOf(page, i)) <= g
    && Mixed(bits, top, g, g - Block(o, IndexOf(page, o)), i)
  }

  lemma GivingStart(bits: seq<bool>, top: nat, g: set<nat>, page: nat, o: nat)
    requires o <= top && page < Pow2(top) && Block(o, IndexOf(page, o)) <= g
    requires BitsMatch(bits, top, g - Block(o, IndexOf(page, o)))
    ensures Giving(bits, top, g, page, o, o)
  {
    var x := IndexOf(page, o);
    ToggleStart(bits, top, g, g - Block(o, x), g, o, x);
  }

  /** The walk goes on while the buddy is free too; when the bit comes up set, the bitmap is complete. */
  lemma GivingStep(bits: seq<bool>, top: nat, g: set<nat>, page: nat, o: nat, i: nat)
    requires Giving(bits, top, g, page, o, i) && i < top
    ensures var idx := PageToBitmapIdx(top, page, i);
            && idx < |bits|
            && (bits[idx] ==>
                  && Giving(bits[idx := false], top, g, page, o, i + 1)
                  && Block(i + 1, IndexOf(page, i + 1)) <= g)
            && (!bits[idx] ==>
                  && BitsMatch(bits[idx := true], top, g)
                  && !(Block(i, Buddy(IndexOf(page, i))) <= g))
  {
    var x := IndexOf(page, o);
    var rest := g - Block(o, x);
    PagePair(top, page, i);
    IndexAbove(page, o, i);
    IndexAbove(page, o, i + 1);
    ToggleStep(bits, top, g, rest, g, o, x, i);
    BuddyHalves(i, IndexOf(page, i));
    var idx := PageToBitmapIdx(top, page, i);
    if !bits[idx] {
      ToggleEnd(bits[idx := true], top, g, rest, g, o, x, i + 1);
    }
  }

  lemma GivingTop(bits: seq<bool>, top: nat, g: set<nat>, page: nat, o: nat)
    requires Giving(bits, top, g, page, o, top)
    ensures BitsMatch(bits, top, g)
  {
    var x := IndexOf(page, o);
    ToggleEnd(bits, top, g, g - Block(o, x), g, o, x, top);
  }

  /** The bitmap of a region all of whose pages are free. */
  lemma WholeRegionBits(bits: seq<bool>, top: nat)
    requires |bits| == BitmapSize(top) && forall i :: 0 <= i < |bits| ==> !bits[i]
    ensures BitsMatch(bits, top, Block(top, 0))
  {
    forall o: nat, k: nat | IsPair(top, o, k)
      ensures PairIdx(top, o, k) < |bits| && !PairBit(Block(top, 0), o, k)
    {
      PairToIdx(top, o, k);
      IndexBelow(top - o, 2 * k, top - o);
      IndexBelow(top - o, 2 * k + 1, top - o);
      NestedOrDisjoint(o, 2 * k, top, 0);
      NestedOrDisjoint(o, 2 * k + 1, top, 0);
    }
  }
}
