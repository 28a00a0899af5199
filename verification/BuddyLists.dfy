/**
 The allocator's free lists: one for each order, holding the first pages of free blocks.

 The lists are specified as a set of entries (order, first page). `Canonical` is the set of entries
 of the maximal free blocks of a set of free pages; allocating and freeing a block move the lists
 from one canonical set to another, one block at a time.
 */
module BuddyLists {
  import opened Powers
  import opened BuddyTree
  import opened Queues

  type Entry = (nat, nat)

  /** list_insert: put page p at the head of the list of order o. */
  function Insert(blocks: seq<seq<nat>>, o: nat, p: nat): (r: seq<seq<nat>>)
    requires o < |blocks|
    ensures |r| == |blocks|
  {
    blocks[o := [p] + blocks[o]]
  }

  /** list_remove: unlink page p from whichever list it is on. */
  function Unlink(blocks: seq<seq<nat>>, p: nat): (r: seq<seq<nat>>)
    ensures |r| == |blocks|
    ensures forall m :: 0 <= m < |blocks| ==> r[m] == Without(blocks[m], p)
  {
    seq(|blocks|, m requires 0 <= m < |blocks| => Without(blocks[m], p))
  }

  /** The lists, each without repetition, hold exactly `entries`. */
  ghost predicate Holds(blocks: seq<seq<nat>>, top: nat, entries: iset<Entry>) {
    && |blocks| == top + 1
    && (forall m :: 0 <= m < |blocks| ==> Distinct(blocks[m]))
    && (forall m: nat, p: nat :: m <= top ==> (p in blocks[m] <==> (m, p) in entries))
    && (forall e :: e in entries ==> e.0 <= top)
  }

  lemma InsertHolds(blocks: seq<seq<nat>>, top: nat, entries: iset<Entry>, o: nat, p: nat)
    requires Holds(blocks, top, entries) && o <= top && (o, p) !in entries
    ensures Holds(Insert(blocks, o, p), top, entries + iset{(o, p)})
  {
    assert p !in blocks[o];
  }

  lemma UnlinkHolds(blocks: seq<seq<nat>>, top: nat, entries: iset<Entry>, o: nat, p: nat)
    requires Holds(blocks, top, entries) && o <= top
    requires forall m: nat :: (m, p) in entries ==> m == o
    ensures Holds(Unlink(blocks, p), top, entries - iset{(o, p)})
  {
    forall m | 0 <= m < |blocks| ensures Distinct(Unlink(blocks, p)[m]) {
      WithoutDistinct(blocks[m], p);
    }
  }

  /** Page p is linked on a list, so that it may be unlinked. */
  ghost predicate Linked(blocks: seq<seq<nat>>, p: nat) {
    exists m :: 0 <= m < |blocks| && p in blocks[m]
  }

  /** The entries of the maximal free blocks. */
  ghost function Canonical(top: nat, free: set<nat>): iset<Entry> {
    iset e: Entry | e.0 <= top && Aligned(e.1, e.0) && Maximal(free, top, e.0, IndexOf(e.1, e.0))
  }

  ghost predicate Unlisted(entries: iset<Entry>, p: nat) {
    forall m: nat :: (m, p) !in entries
  }

  ghost function EntryOf(o: nat, k: nat): Entry {
    (o, First(o, k))
  }

  /** No entry starts at a page that is not free. */
  lemma NotListed(top: nat, free: set<nat>, p: nat)
    requires p !in free
    ensures Unlisted(Canonical(top, free), p)
  {
    forall m: nat ensures (m, p) !in Canonical(top, free) {
      InBlock(m, IndexOf(p, m), p);
    }
  }

  /** Freeing a block whose buddy is not free adds its entry and changes no other. */
  lemma CanonicalAdd(top: nat, free: set<nat>, j: nat, x: nat)
    requires j <= top && Block(j, x) !! free
    requires j < top ==> !(Block(j, Buddy(x)) <= free)
    ensures Canonical(top, free + Block(j, x)) == Canonical(top, free) + iset{EntryOf(j, x)}
  {
    forall m: nat, q: nat | m <= top
      ensures Maximal(free + Block(j, x), top, m, q) <==> Maximal(free, top, m, q) || (m == j && q == x)
    {
      AddBlock(free, top, j, x, m, q);
    }
    IndexOfFirst(j, x);
  }

  /** The same step read backwards, from the larger set. */
  lemma CanonicalTake(top: nat, free: set<nat>, j: nat, x: nat)
    requires j <= top && Block(j, x) <= free
    requires j < top ==> !(Block(j, Buddy(x)) <= free)
    ensures Canonical(top, free) == Canonical(top, free - Block(j, x)) + iset{EntryOf(j, x)}
  {
    CanonicalAdd(top, free - Block(j, x), j, x);
    assert free - Block(j, x) + Block(j, x) == free;
  }

  lemma Halves(o: nat, x: nat)
    ensures First(o + 1, x) == First(o, 2 * x)
    ensures First(o, 2 * x + 1) == First(o, 2 * x) + Pow2(o)
    ensures Block(o + 1, x) == Block(o, 2 * x) + Block(o, 2 * x + 1)
    ensures First(o, 2 * x) in Block(o + 1, x) && First(o, 2 * x + 1) in Block(o + 1, x)
  {
    ShiftLeftIsProduct(2 * x, o);
    ShiftLeftIsProduct(2 * x + 1, o);
    assert (2 * x + 1) * Pow2(o) == 2 * x * Pow2(o) + Pow2(o);
    BuddyHalves(o, 2 * x);
    IndexOfFirst(o, 2 * x);
    IndexOfFirst(o, 2 * x + 1);
  }

  ghost function CarvedEntries(top: nat, free: set<nat>, j: nat, x: nat): iset<Entry> {
    Canonical(top, free - Block(j, x)) + iset{EntryOf(j, x)}
  }

  /** The lists while a block is being split or joined: canonical outside block x of order j, plus that block. */
  ghost predicate Carved(blocks: seq<seq<nat>>, top: nat, free: set<nat>, j: nat, x: nat) {
    && j <= top && |blocks| == top + 1
    && Block(j, x) <= free
    && Holds(blocks, top, CarvedEntries(top, free, j, x))
  }

  lemma CarvedLinked(blocks: seq<seq<nat>>, top: nat, free: set<nat>, j: nat, x: nat)
    requires Carved(blocks, top, free, j, x)
    ensures First(j, x) in blocks[j] && Linked(blocks, First(j, x))
  {
    assert EntryOf(j, x) in CarvedEntries(top, free, j, x);
  }

  /** Unlinking a carved block leaves the lists of the free pages around it. */
  lemma CarvedUnlink(blocks: seq<seq<nat>>, top: nat, free: set<nat>, j: nat, x: nat)
    requires Carved(blocks, top, free, j, x)
    ensures Holds(Unlink(blocks, First(j, x)), top, Canonical(top, free - Block(j, x)))
  {
    var rest := free - Block(j, x);
    var entries := CarvedEntries(top, free, j, x);
    IndexOfFirst(j, x);
    NotListed(top, rest, First(j, x));
    UnlinkHolds(blocks, top, entries, j, First(j, x));
    assert entries - iset{EntryOf(j, x)} == Canonical(top, rest);
  }

  lemma BuddyLeft(free: set<nat>, o: nat, x: nat, y: nat)
    requires Block(o + 1, x) <= free && (y == 2 * x || y == 2 * x + 1)
    ensures var rest := free - Block(o + 1, x);
            && rest + Block(o, Buddy(y)) == free - Block(o, y)
            && Block(o, Buddy(y)) !! rest && !(Block(o, y) <= rest) && Block(o, y) <= free
    ensures Buddy(Buddy(y)) == y
  {
    assert y / 2 == x;
    BuddyHalves(o, y);
    NonEmpty(o, y);
  }

  lemma HalvesFirst(o: nat, x: nat, y: nat)
    requires y == 2 * x || y == 2 * x + 1
    ensures {First(o, y), First(o, Buddy(y))} == {First(o + 1, x), First(o + 1, x) + Pow2(o)}
  {
    Halves(o, x);
    assert Buddy(y) == if y == 2 * x then 2 * x + 1 else 2 * x;
  }

  /** Both halves listed is one half carved out of lists that hold the other. */
  lemma HalvesEntries(top: nat, free: set<nat>, o: nat, x: nat, y: nat)
    requires o < top && Block(o + 1, x) <= free && (y == 2 * x || y == 2 * x + 1)
    ensures Canonical(top, free - Block(o + 1, x)) + iset{(o, First(o + 1, x))} + iset{(o, First(o + 1, x) + Pow2(o))}
         == CarvedEntries(top, free, o, y)
    ensures Block(o, y) <= free
  {
    BuddyLeft(free, o, x, y);
    HalvesFirst(o, x, y);
    CanonicalAdd(top, free - Block(o + 1, x), o, Buddy(y));
    hide BuddyTree.Block, BuddyTree.First, Powers.Pow2, Canonical;
    var pa, pb := First(o + 1, x), First(o + 1, x) + Pow2(o);
    assert First(o, y) in {pa, pb} && First(o, Buddy(y)) in {pa, pb};
    assert pa in {First(o, y), First(o, Buddy(y))} && pb in {First(o, y), First(o, Buddy(y))};
  }

  /** The two halves of a block that is not free are listed nowhere. */
  lemma HalvesUnlisted(top: nat, free: set<nat>, o: nat, x: nat)
    ensures Unlisted(Canonical(top, free - Block(o + 1, x)), First(o + 1, x))
    ensures Unlisted(Canonical(top, free - Block(o + 1, x)), First(o + 1, x) + Pow2(o))
  {
    Halves(o, x);
    NotListed(top, free - Block(o + 1, x), First(o + 1, x));
    NotListed(top, free - Block(o + 1, x), First(o + 1, x) + Pow2(o));
  }

  /** Splitting on the lists alone: one entry of order o+1 becomes two of order o. */
  lemma SplitHolds(blocks: seq<seq<nat>>, top: nat, entries: iset<Entry>, o: nat, pa: nat, pb: nat)
    requires o < top && pa != pb
    requires Holds(blocks, top, entries + iset{(o + 1, pa)})
    requires Unlisted(entries, pa) && Unlisted(entries, pb)
    ensures Linked(blocks, pa)
    ensures Holds(Insert(Insert(Unlink(blocks, pa), o, pa), o, pb), top, entries + iset{(o, pa)} + iset{(o, pb)})
  {
    assert (o + 1, pa) in entries + iset{(o + 1, pa)};
    assert pa in blocks[o + 1];
    UnlinkHolds(blocks, top, entries + iset{(o + 1, pa)}, o + 1, pa);
    assert entries + iset{(o + 1, pa)} - iset{(o + 1, pa)} == entries;
    InsertHolds(Unlink(blocks, pa), top, entries, o, pa);
    InsertHolds(Insert(Unlink(blocks, pa), o, pa), top, entries + iset{(o, pa)}, o, pb);
  }

  /** Joining on the lists alone: two entries of order o become one of order o+1. */
  lemma JoinHolds(blocks: seq<seq<nat>>, top: nat, entries: iset<Entry>, o: nat, pa: nat, pb: nat)
    requires o < top && pa != pb
    requires Holds(blocks, top, entries + iset{(o, pa)} + iset{(o, pb)})
    requires Unlisted(entries, pa) && Unlisted(entries, pb)
    ensures Linked(blocks, pa) && Linked(Unlink(blocks, pa), pb)
    ensures Holds(Insert(Unlink(Unlink(blocks, pa), pb), o + 1, pa), top, entries + iset{(o + 1, pa)})
  {
    var both := entries + iset{(o, pa)} + iset{(o, pb)};
    assert (o, pa) in both && (o, pb) in both;
    assert pa in blocks[o] && pb in Unlink(blocks, pa)[o];
    UnlinkHolds(blocks, top, both, o, pa);
    UnlinkHolds(Unlink(blocks, pa), top, both - iset{(o, pa)}, o, pb);
    assert both - iset{(o, pa)} - iset{(o, pb)} == entries;
    InsertHolds(Unlink(Unlink(blocks, pa), pb), top, entries, o + 1, pa);
  }

  /** One turn of the splitting loop: block x of order o+1 gives way to its halves, one of them y. */
  lemma SplitStep(blocks: seq<seq<nat>>, top: nat, free: set<nat>, o: nat, x: nat, y: nat)
    requires o < top && Carved(blocks, top, free, o + 1, x) && (y == 2 * x || y == 2 * x + 1)
    ensures |blocks| == top + 1
    ensures var pa := First(o + 1, x);
            && Linked(blocks, pa)
            && Carved(Insert(Insert(Unlink(blocks, pa), o, pa), o, pa + Pow2(o)), top, free, o, y)
  {
    hide Canonical, BuddyTree.Block, BuddyTree.First, Powers.Pow2, Holds, BuddyTree.Maximal;
    var pa := First(o + 1, x);
    HalvesUnlisted(top, free, o, x);
    HalvesEntries(top, free, o, x, y);
    SplitHolds(blocks, top, Canonical(top, free - Block(o + 1, x)), o, pa, pa + Pow2(o));
  }

  /** One turn of the joining loop: block y of order o and its free buddy become their parent x. */
  lemma JoinStep(blocks: seq<seq<nat>>, top: nat, free: set<nat>, o: nat, x: nat, y: nat)
    requires o < top && Carved(blocks, top, free, o, y) && Block(o + 1, x) <= free
    requires y == 2 * x || y == 2 * x + 1
    ensures |blocks| == top + 1
    ensures var pa := First(o + 1, x);
            && Linked(blocks, pa)
            && Linked(Unlink(blocks, pa), pa + Pow2(o))
            && Carved(Insert(Unlink(Unlink(blocks, pa), pa + Pow2(o)), o + 1, pa), top, free, o + 1, x)
  {
    hide Canonical, BuddyTree.Block, BuddyTree.First, Powers.Pow2, Holds, BuddyTree.Maximal;
    var pa := First(o + 1, x);
    HalvesUnlisted(top, free, o, x);
    HalvesEntries(top, free, o, x, y);
    JoinHolds(blocks, top, Canonical(top, free - Block(o + 1, x)), o, pa, pa + Pow2(o));
  }

  /** A listed block can be carved out of the lists as they stand. */
  lemma CarveListed(blocks: seq<seq<nat>>, top: nat, free: set<nat>, o: nat, x: nat)
    requires o <= top && Holds(blocks, top, Canonical(top, free)) && Maximal(free, top, o, x)
    ensures Carved(blocks, top, free, o, x)
  {
    BuddyHalves(o, x);
    CanonicalTake(top, free, o, x);
  }

  /** SplitStep for the blocks around a page. */
  lemma SplitAround(blocks: seq<seq<nat>>, top: nat, free: set<nat>, o: nat, page: nat)
    requires 0 < o <= top && Carved(blocks, top, free, o, IndexOf(page, o))
    ensures |blocks| == top + 1
    ensures var pa := First(o, IndexOf(page, o));
            && Linked(blocks, pa)
            && Carved(Insert(Insert(Unlink(blocks, pa), o - 1, pa), o - 1, pa + Pow2(o - 1)),
                      top, free, o - 1, IndexOf(page, o - 1))
  {
    hide Canonical, BuddyTree.Block, BuddyTree.First, Powers.Pow2, Holds, Carved, Insert, Unlink, Linked;
    IndexParent(page, o - 1);
    SplitStep(blocks, top, free, o - 1, IndexOf(page, o), IndexOf(page, o - 1));
  }

  /** Linking a block of pages that were not free. */
  lemma CarveNew(blocks: seq<seq<nat>>, top: nat, free: set<nat>, o: nat, x: nat)
    requires o <= top && Block(o, x) <= free && Holds(blocks, top, Canonical(top, free - Block(o, x)))
    ensures |blocks| == top + 1
    ensures Carved(Insert(blocks, o, First(o, x)), top, free, o, x)
  {
    IndexOfFirst(o, x);
    NotListed(top, free - Block(o, x), First(o, x));
    InsertHolds(blocks, top, Canonical(top, free - Block(o, x)), o, First(o, x));
  }

  /** JoinStep for the blocks around a page. */
  lemma JoinAround(blocks: seq<seq<nat>>, top: nat, free: set<nat>, o: nat, page: nat)
    requires o < top && Carved(blocks, top, free, o, IndexOf(page, o))
    requires Block(o + 1, IndexOf(page, o + 1)) <= free
    ensures |blocks| == top + 1
    ensures var pa := First(o + 1, IndexOf(page, o + 1));
            && Linked(blocks, pa)
            && Linked(Unlink(blocks, pa), pa + Pow2(o))
            && Carved(Insert(Unlink(Unlink(blocks, pa), pa + Pow2(o)), o + 1, pa),
                      top, free, o + 1, IndexOf(page, o + 1))
  {
    hide Canonical, BuddyTree.Block, BuddyTree.First, Powers.Pow2, Holds, Carved, Insert, Unlink, Linked;
    IndexParent(page, o);
    JoinStep(blocks, top, free, o, IndexOf(page, o + 1), IndexOf(page, o));
  }

  /** A carved block whose buddy is not free is listed in its own right. */
  lemma CarvedListed(blocks: seq<seq<nat>>, top: nat, free: set<nat>, o: nat, x: nat)
    requires Carved(blocks, top, free, o, x)
    requires o < top ==> !(Block(o, Buddy(x)) <= free)
    ensures Holds(blocks, top, Canonical(top, free))
  {
    CanonicalTake(top, free, o, x);
  }

  // ----- what the canonical entries say about the free pages -----

  /** A block of free pages lies in a listed block. */
  lemma {:induction false} ListedAbove(top: nat, free: set<nat>, o: nat, k: nat) returns (m: nat)
    requires o <= top && Block(o, k) <= free
    ensures o <= m <= top && Maximal(free, top, m, IndexOf(k, m - o))
    ensures EntryOf(m, IndexOf(k, m - o)) in Canonical(top, free)
    ensures Block(o, k) <= Block(m, IndexOf(k, m - o)) <= free
    decreases top - o
  {
    if o == top || !(Block(o + 1, k / 2) <= free) {
      m := o;
      IndexOfFirst(o, k);
    } else {
      m := ListedAbove(top, free, o + 1, k / 2);
      NestedOrDisjoint(o, k, m, IndexOf(k, m - o));
    }
  }

  /** The listed blocks cover exactly the free pages. */
  lemma CoverExactly(top: nat, free: set<nat>, p: nat)
    ensures p in free <==> exists e :: e in Canonical(top, free) && p in Block(e.0, IndexOf(e.1, e.0))
  {
    if p in free {
      assert Block(0, p) == {p};
      var m := ListedAbove(top, free, 0, p);
      var e := EntryOf(m, IndexOf(p, m));
      IndexOfFirst(m, IndexOf(p, m));
      InBlock(m, IndexOf(p, m), p);
      assert e in Canonical(top, free) && p in Block(e.0, IndexOf(e.1, e.0));
    }
  }

  /** Two different listed blocks have no page in common. */
  lemma ListedDisjoint(top: nat, free: set<nat>, d: Entry, e: Entry)
    requires d in Canonical(top, free) && e in Canonical(top, free) && d != e
    ensures Block(d.0, IndexOf(d.1, d.0)) !! Block(e.0, IndexOf(e.1, e.0))
    decreases d.0 > e.0
  {
    if d.0 > e.0 {
      ListedDisjoint(top, free, e, d);
    } else {
      var q, x := IndexOf(d.1, d.0), IndexOf(e.1, e.0);
      NestedOrDisjoint(d.0, q, e.0, x);
      if IndexOf(q, e.0 - d.0) == x && d.0 < e.0 {
        IndexAbove(q, 1, e.0 - d.0);
        assert IndexOf(q, 1) == ShiftRight(q / 2, 0);
        NestedOrDisjoint(d.0 + 1, q / 2, e.0, x);
        assert false;
      }
    }
  }

  /** Below the top order no two buddies are both listed, and one of them is exactly when one is wholly free and the other not. */
  lemma BuddiesListed(top: nat, free: set<nat>, o: nat, k: nat)
    requires o < top
    ensures !(EntryOf(o, 2 * k) in Canonical(top, free) && EntryOf(o, 2 * k + 1) in Canonical(top, free))
    ensures (EntryOf(o, 2 * k) in Canonical(top, free) || EntryOf(o, 2 * k + 1) in Canonical(top, free))
            <==> ((Block(o, 2 * k) <= free) != (Block(o, 2 * k + 1) <= free))
  {
    IndexOfFirst(o, 2 * k);
    IndexOfFirst(o, 2 * k + 1);
    Halves(o, k);
  }

  /** A listed block of order m starts with a block of every order up to m. */
  lemma {:induction false} ListedHolds(top: nat, free: set<nat>, m: nat, p: nat, o: nat)
    requires (m, p) in Canonical(top, free) && o <= m
    ensures Aligned(p, o) && Block(o, IndexOf(p, o)) <= free
    decreases m - o
  {
    if o < m {
      ListedHolds(top, free, m, p, o + 1);
      AlignedBelow(p, o);
      IndexParent(p, o);
      BuddyHalves(o, IndexOf(p, o));
    }
  }

  /** There is an aligned run of 2^o free pages. */
  ghost predicate RoomFor(top: nat, free: set<nat>, o: nat) {
    o <= top && exists k :: Block(o, k) <= free
  }

  /** Such a run exists exactly when some list of order o or above is not empty. */
  lemma RoomIsListed(blocks: seq<seq<nat>>, top: nat, free: set<nat>, o: nat)
    requires Holds(blocks, top, Canonical(top, free))
    ensures RoomFor(top, free, o) <==> exists m :: o <= m < |blocks| && blocks[m] != []
  {
    if RoomFor(top, free, o) {
      var k :| Block(o, k) <= free;
      var m := ListedAbove(top, free, o, k);
      var p := First(m, IndexOf(k, m - o));
      assert (m, p) in Canonical(top, free);
      assert p in blocks[m];
    }
    if m :| o <= m < |blocks| && blocks[m] != [] {
      var p := blocks[m][0];
      assert p in blocks[m];
      ListedHolds(top, free, m, p, o);
    }
  }

  /** The lists of a region all of whose pages are free. */
  lemma WholeRegionListed(top: nat)
    ensures Holds(seq(top + 1, m => if m == top then [0] else []), top, Canonical(top, Block(top, 0)))
  {
    forall m: nat, p: nat ensures (m, p) !in Canonical(top, {}) { NonEmpty(m, IndexOf(p, m)); }
    CanonicalAdd(top, {}, top, 0);
    assert {} + Block(top, 0) == Block(top, 0);
    ShiftLeftIsProduct(0, top);
    assert Canonical(top, Block(top, 0)) == iset{(top, 0)};
  }
}
