/**
 The buddy system as a binary tree.

 Block k of order o is the aligned run of 2^o pages starting at page k << o. A block's two halves
 are blocks 2k and 2k+1 of the order below, and each other's buddies. The allocator's free lists
 are specified here by one definition: a block is listed exactly when all its pages are free and
 those of its parent are not (`Maximal`), so the lists are a function of the set of free pages.
 */
module BuddyTree {
  import opened Powers

  /** First page of block k of order o. */
  function First(o: nat, k: nat): nat {
    ShiftLeft(k, o)
  }

  /** Index of the block of order o that holds page p. */
  function IndexOf(p: nat, o: nat): nat {
    ShiftRight(p, o)
  }

  predicate Aligned(p: nat, o: nat) {
    First(o, IndexOf(p, o)) == p
  }

  function Buddy(k: nat): nat {
    if k % 2 == 0 then k + 1 else k - 1
  }

  ghost function Block(o: nat, k: nat): set<nat> {
    Range(First(o, k), First(o, k) + Pow2(o))
  }

  /** A listed block: free, and not part of a larger free block. `top` is the order of the whole region. */
  ghost predicate Maximal(free: set<nat>, top: nat, o: nat, k: nat) {
    && Block(o, k) <= free
    && (o < top ==> !(Block(o + 1, k / 2) <= free))
  }

  lemma InBlock(o: nat, k: nat, p: nat)
    ensures p in Block(o, k) <==> IndexOf(p, o) == k
  {
    if p in Block(o, k) { ShiftRightUnique(p, k, o); }
    if IndexOf(p, o) == k { ShiftRightBounds(p, o); }
  }

  lemma IndexOfFirst(o: nat, k: nat)
    ensures IndexOf(First(o, k), o) == k && Aligned(First(o, k), o) && First(o, k) in Block(o, k)
  {
    ShiftRightUnique(First(o, k), k, o);
  }

  lemma IndexAbove(p: nat, o: nat, j: nat)
    requires o <= j
    ensures IndexOf(p, j) == IndexOf(IndexOf(p, o), j - o)
  {
    ShiftRightSum(p, o, j - o);
  }

  lemma IndexParent(p: nat, o: nat)
    ensures IndexOf(p, o + 1) == IndexOf(p, o) / 2
  {
    IndexAbove(p, o, o + 1);
    assert ShiftRight(IndexOf(p, o), 1) == ShiftRight(IndexOf(p, o) / 2, 0);
  }

  lemma AlignedBelow(p: nat, o: nat)
    requires Aligned(p, o + 1)
    ensures Aligned(p, o)
  {
    assert First(o + 1, IndexOf(p, o + 1)) == First(o, 2 * IndexOf(p, o + 1));
    IndexOfFirst(o, 2 * IndexOf(p, o + 1));
  }

  /** Two blocks of a tree are nested or disjoint, and the index decides which. */
  lemma NestedOrDisjoint(m: nat, q: nat, j: nat, x: nat)
    requires m <= j
    ensures IndexOf(q, j - m) == x ==> Block(m, q) <= Block(j, x)
    ensures IndexOf(q, j - m) != x ==> Block(m, q) !! Block(j, x)
  {
    forall p: nat | p in Block(m, q)
      ensures p in Block(j, x) <==> IndexOf(q, j - m) == x
    {
      InBlock(m, q, p);
      InBlock(j, x, p);
      IndexAbove(p, m, j);
    }
  }

  lemma BuddyHalves(o: nat, k: nat)
    ensures Block(o + 1, k / 2) == Block(o, k) + Block(o, Buddy(k))
    ensures Block(o, k) !! Block(o, Buddy(k))
    ensures Buddy(k) / 2 == k / 2 && Buddy(k) != k && Buddy(Buddy(k)) == k
  {
    forall p: nat
      ensures p in Block(o + 1, k / 2) <==> p in Block(o, k) || p in Block(o, Buddy(k))
      ensures !(p in Block(o, k) && p in Block(o, Buddy(k)))
    {
      InBlock(o + 1, k / 2, p);
      InBlock(o, k, p);
      InBlock(o, Buddy(k), p);
      IndexParent(p, o);
    }
  }

  /** A block that properly contains another contains its parent, so its buddy too. */
  lemma ContainsParent(m: nat, q: nat, j: nat, x: nat)
    requires j < m && IndexOf(x, m - j) == q
    ensures Block(j, x) <= Block(m, q) && Block(j, Buddy(x)) <= Block(m, q)
  {
    NestedOrDisjoint(j, x, m, q);
    IndexAbove(x, 1, m - j);
    assert IndexOf(x, 1) == ShiftRight(x / 2, 0);
    NestedOrDisjoint(j + 1, x / 2, m, q);
    BuddyHalves(j, x);
  }

  lemma NonEmpty(o: nat, k: nat)
    ensures exists p :: p in Block(o, k)
  {
    IndexOfFirst(o, k);
  }

  /**
   The step both splitting and joining rest on: freeing a block whose buddy is not wholly free
   lists that block, and changes no other entry of any list.
   */
  lemma AddBlock(free: set<nat>, top: nat, j: nat, x: nat, m: nat, q: nat)
    requires j <= top && m <= top
    requires Block(j, x) !! free
    requires j < top ==> !(Block(j, Buddy(x)) <= free)
    ensures Maximal(free + Block(j, x), top, m, q) <==> Maximal(free, top, m, q) || (m == j && q == x)
  {
    BuddyHalves(j, x);
    NonEmpty(m, q);
    if m <= j {
      NestedOrDisjoint(m, q, j, x);
      if IndexOf(q, j - m) == x {
        AddBlockInside(free, top, j, x, m, q);
      } else {
        AddBlockApart(free, top, j, x, m, q);
      }
    } else {
      NestedOrDisjoint(j, x, m, q);
      if IndexOf(x, m - j) == q {
        ContainsParent(m, q, j, x);
        assert !(Block(j, Buddy(x)) <= free + Block(j, x));
      } else {
        AddBlockApart(free, top, j, x, m, q);
      }
    }
  }

  lemma AddBlockInside(free: set<nat>, top: nat, j: nat, x: nat, m: nat, q: nat)
    requires m <= j <= top && Block(j, x) !! free && IndexOf(q, j - m) == x
    requires j < top ==> !(Block(j, Buddy(x)) <= free)
    ensures Maximal(free + Block(j, x), top, m, q) <==> m == j
    ensures !Maximal(free, top, m, q)
    ensures m == j ==> q == x
  {
    NestedOrDisjoint(m, q, j, x);
    NonEmpty(m, q);
    BuddyHalves(j, x);
    if m < j {
      IndexAbove(q, 1, j - m);
      assert IndexOf(q, 1) == ShiftRight(q / 2, 0);
      NestedOrDisjoint(m + 1, q / 2, j, x);
    }
  }

  lemma AddBlockApart(free: set<nat>, top: nat, j: nat, x: nat, m: nat, q: nat)
    requires j <= top && m <= top && Block(j, x) !! free && Block(m, q) !! Block(j, x)
    requires j < top ==> !(Block(j, Buddy(x)) <= free)
    ensures Maximal(free + Block(j, x), top, m, q) <==> Maximal(free, top, m, q)
    ensures !(m == j && q == x)
  {
    NonEmpty(m, q);
    if m < top {
      BuddyHalves(m, q);
      if m + 1 <= j {
        NestedOrDisjoint(m + 1, q / 2, j, x);
      } else {
        NestedOrDisjoint(j, x, m + 1, q / 2);
        if IndexOf(x, m + 1 - j) == q / 2 {
          BuddyHalves(j, x);
          ContainsParent(m + 1, q / 2, j, x);
        }
      }
    }
  }
}
