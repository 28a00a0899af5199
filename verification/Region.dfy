/** A region of physical pages with its buddy allocator: sys/mem/page.cpp. */
module Regions {
  import opened KernelConfig
  import opened Powers
  import opened BuddyTree
  import opened BuddyLists
  import opened BuddyBits

  type Owner = nat
  const NO_OWNER: Owner := 0

  datatype PgState = Free | Hole | System | Fixed | Mapped

  datatype Page = Page(state: PgState, owner: Owner)

  ghost function FreePages(pages: seq<Page>): set<nat> {
    set p: nat | p < |pages| && pages[p].state == Free
  }

  /** Pages that can ever be handed out: all but holes and system memory. */
  ghost function UsablePages(pages: seq<Page>): set<nat> {
    set p: nat | p < |pages| && pages[p].state != Hole && pages[p].state != System
  }

  /** The page table with v written to pages lo, ..., hi-1. */
  function SetRange(pages: seq<Page>, lo: nat, hi: nat, v: Page): (r: seq<Page>)
    ensures |r| == |pages|
    ensures forall i :: 0 <= i < |r| ==> r[i] == if lo <= i < hi then v else pages[i]
  {
    seq(|pages|, i requires 0 <= i < |pages| => if lo <= i < hi then v else pages[i])
  }

  ghost predicate AllFree(pages: seq<Page>, lo: nat, hi: nat) {
    hi <= |pages| && forall i :: lo <= i < hi ==> pages[i].state == Free
  }

  ghost predicate AllHeld(pages: seq<Page>, lo: nat, hi: nat) {
    hi <= |pages| && forall i :: lo <= i < hi ==> pages[i].state == Fixed || pages[i].state == Mapped
  }

  /** The page table after reserving: free pages of the range are taken, the others stay as they are. */
  function Reserved(pages: seq<Page>, lo: nat, hi: nat, st: PgState, owner: Owner): (r: seq<Page>)
    ensures |r| == |pages|
    ensures forall i :: 0 <= i < |r| ==>
              r[i] == if lo <= i < hi && pages[i].state == Free then Page(st, owner) else pages[i]
  {
    seq(|pages|, i requires 0 <= i < |pages| =>
      if lo <= i < hi && pages[i].state == Free then Page(st, owner) else pages[i])
  }

  /** The range is free or, with `realloc`, overlaps the caller's own allocation of the same kind. */
  predicate CanReserve(pages: seq<Page>, lo: nat, hi: nat, st: PgState, realloc: bool, owner: Owner)
    requires hi <= |pages|
  {
    forall i :: lo <= i < hi ==> pages[i].state == Free || (realloc && pages[i] == Page(st, owner))
  }

  ghost predicate FreeUnowned(table: seq<Page>) {
    forall p :: 0 <= p < |table| && table[p].state == Free ==> table[p].owner == NO_OWNER
  }

  /** Memory [begin, end) lies within the pages of the table, and every page outside it is a hole. */
  ghost predicate HolesOutside(table: seq<Page>, base: nat, begin: nat, end: nat) {
    && base % PAGE_SIZE == 0 && begin % PAGE_SIZE == 0 && end % PAGE_SIZE == 0
    && base <= begin <= end <= base + |table| * PAGE_SIZE
    && forall p :: 0 <= p < |table| && !(begin <= base + p * PAGE_SIZE < end) ==> table[p].state == Hole
  }

  lemma HolesKept(table: seq<Page>, base: nat, begin: nat, end: nat, lo: nat, hi: nat, v: Page)
    requires HolesOutside(table, base, begin, end)
    requires hi <= |table| && forall p :: lo <= p < hi ==> table[p].state != Hole
    ensures HolesOutside(SetRange(table, lo, hi, v), base, begin, end)
  {
    var after := SetRange(table, lo, hi, v);
    forall p | 0 <= p < |after| && !(begin <= base + p * PAGE_SIZE < end) ensures after[p].state == Hole {
      assert table[p].state == Hole;
    }
  }

  lemma HolesKeptReserved(table: seq<Page>, base: nat, begin: nat, end: nat, lo: nat, hi: nat, st: PgState, owner: Owner)
    requires HolesOutside(table, base, begin, end)
    ensures HolesOutside(Reserved(table, lo, hi, st, owner), base, begin, end)
  {
    var after := Reserved(table, lo, hi, st, owner);
    forall p | 0 <= p < |after| && !(begin <= base + p * PAGE_SIZE < end) ensures after[p].state == Hole {
      assert table[p].state == Hole;
    }
  }

  datatype FreeResult = Freed | InvalidArgument | BadAddress

  predicate Releasable(p: Page, owner: Owner) {
    p.owner == owner && (p.state == Fixed || p.state == Mapped)
  }

  /** The verdict of page_free on a range: that of its first page that may not be released. */
  function FreeVerdict(pages: seq<Page>, lo: nat, hi: nat, owner: Owner): (r: FreeResult)
    requires hi <= |pages|
    ensures r == Freed <==> forall i :: lo <= i < hi ==> Releasable(pages[i], owner)
    decreases hi - lo
  {
    if lo >= hi then Freed
    else if pages[lo].owner != owner then InvalidArgument
    else if !Releasable(pages[lo], owner) then BadAddress
    else FreeVerdict(pages, lo + 1, hi, owner)
  }

  predicate Unusable(st: PgState) {
    st == Hole || st == System
  }

  /** What allocating a free range does to the set of free pages, and to its size. */
  lemma AllocRange(pages: seq<Page>, lo: nat, hi: nat, v: Page)
    requires lo <= hi && AllFree(pages, lo, hi) && v.state != Free
    ensures var after := SetRange(pages, lo, hi, v);
            && Range(lo, hi) <= FreePages(pages)
            && FreePages(after) == FreePages(pages) - Range(lo, hi)
            && |FreePages(after)| == |FreePages(pages)| - (hi - lo)
  {
    RangeSize(lo, hi);
    assert FreePages(SetRange(pages, lo, hi, v)) == FreePages(pages) - Range(lo, hi);
  }

  lemma AllocUsable(pages: seq<Page>, lo: nat, hi: nat, v: Page)
    requires lo <= hi && AllFree(pages, lo, hi)
    ensures |UsablePages(SetRange(pages, lo, hi, v))|
         == |UsablePages(pages)| - (if Unusable(v.state) then hi - lo else 0)
  {
    var after := SetRange(pages, lo, hi, v);
    if Unusable(v.state) {
      RangeSize(lo, hi);
      assert Range(lo, hi) <= UsablePages(pages);
      assert UsablePages(after) == UsablePages(pages) - Range(lo, hi);
    } else {
      assert UsablePages(after) == UsablePages(pages);
    }
  }

  /** What freeing an allocated range does to the set of free pages, and to its size. */
  lemma FreeRange(pages: seq<Page>, lo: nat, hi: nat, v: Page)
    requires lo <= hi && AllHeld(pages, lo, hi) && v.state == Free
    ensures var after := SetRange(pages, lo, hi, v);
            && Range(lo, hi) <= FreePages(after)
            && FreePages(pages) == FreePages(after) - Range(lo, hi)
            && |FreePages(after)| == |FreePages(pages)| + (hi - lo)
            && UsablePages(after) == UsablePages(pages)
  {
    RangeSize(lo, hi);
    assert FreePages(SetRange(pages, lo, hi, v)) == FreePages(pages) + Range(lo, hi);
  }

  /** The block page_free picks is aligned and inside the range. */
  lemma BlockFits(top: nat, i: nat, hi: nat, o: nat)
    requires i < hi <= Pow2(top)
    requires o <= FloorLog2(hi - i) && (i > 0 ==> o <= TrailingZeros(i))
    ensures o <= top && Aligned(i, o) && i + Pow2(o) <= hi
  {
    TrailingZerosClear(i, o);
    Pow2Monotone(o, FloorLog2(hi - i));
    if o > top { Pow2Monotone(top, o); }
  }

  lemma ListedInside(pages: seq<Page>, p: nat, o: nat)
    requires Aligned(p, o) && Block(o, IndexOf(p, o)) <= FreePages(pages)
    ensures AllFree(pages, p, p + Pow2(o))
  {
    assert p + Pow2(o) - 1 in Block(o, IndexOf(p, o));
    forall i | p <= i < p + Pow2(o) ensures i < |pages| && pages[i].state == Free {
      assert i in Block(o, IndexOf(p, o));
    }
  }

  lemma WholeRegion(pages: seq<Page>, top: nat)
    requires |pages| == Pow2(top) && forall p :: 0 <= p < |pages| ==> pages[p].state == Free
    ensures FreePages(pages) == Block(top, 0) == UsablePages(pages)
    ensures |FreePages(pages)| == Pow2(top)
  {
    ShiftLeftIsProduct(0, top);
    RangeSize(0, Pow2(top));
    assert FreePages(pages) == Range(0, Pow2(top));
    assert UsablePages(pages) == Range(0, Pow2(top));
  }

  class Region {
    const attr: bv32         // bitfield of MA_* attributes
    const base: nat          // address of page 0
    const begin: nat         // first physical address in region
    const end: nat           // last physical address in region + 1
    const top: nat           // order of the whole region: nr_orders - 1
    const pages: array<Page>
    const bitmap: array<bool>
    var blocks: seq<seq<nat>>
    var free: int            // total free bytes
    var usable: int          // total usable bytes

    /** The lists and the bitmap describe `f` as the set of free pages. */
    ghost predicate Describes(f: set<nat>)
      reads this`blocks, bitmap
    {
      && Holds(blocks, top, Canonical(top, f))
      && BitsMatch(bitmap[..], top, f)
    }

    ghost predicate Shape()
      reads this
    {
      && pages.Length == Pow2(top)
      && bitmap.Length == BitmapSize(top)
    }

    ghost predicate Valid()
      reads this, pages, bitmap
    {
      && Shape()
      && Describes(FreePages(pages[..]))
      && free == PAGE_SIZE * |FreePages(pages[..])|
      && usable == PAGE_SIZE * |UsablePages(pages[..])|
      && FreeUnowned(pages[..])
    }

    /** The region's memory is where its page table says, and the rest of the table is holes. */
    ghost predicate Placed()
      reads this, pages
    {
      HolesOutside(pages[..], base, begin, end)
    }

    /** A region with its whole page table free, listed as one block. */
    constructor (attr: bv32, base: nat, begin: nat, end: nat, top: nat)
      ensures Valid() && fresh(pages) && fresh(bitmap)
      ensures this.attr == attr && this.base == base && this.begin == begin && this.end == end && this.top == top
      ensures forall p :: 0 <= p < pages.Length ==> pages[p] == Page(Free, NO_OWNER)
    {
      this.attr, this.base, this.begin, this.end, this.top := attr, base, begin, end, top;
      pages := new Page[Pow2(top)](_ => Page(Free, NO_OWNER));
      bitmap := new bool[BitmapSize(top)](_ => false);
      blocks := seq(top + 1, m => if m == top then [0] else []);
      free := PAGE_SIZE * Pow2(top);
      usable := PAGE_SIZE * Pow2(top);
      new;
      hide Holds, BuddyBits.Mixed, Canonical, FreePages, UsablePages;
      WholeRegion(pages[..], top);
      WholeRegionListed(top);
      WholeRegionBits(bitmap[..], top);
    }

    /** Reserve the pages of the table that have no physical backing. */
    method ReserveHoles()
      requires Valid()
      requires base % PAGE_SIZE == 0 && begin % PAGE_SIZE == 0 && end % PAGE_SIZE == 0
      requires base <= begin <= end <= base + Pow2(top) * PAGE_SIZE
      requires forall p :: 0 <= p < pages.Length ==> pages[p] == Page(Free, NO_OWNER)
      modifies this`blocks, this`free, this`usable, pages, bitmap
      ensures Valid() && Placed()
      ensures forall p :: 0 <= p < pages.Length ==>
                pages[p] == Page(if begin <= base + p * PAGE_SIZE < end then Free else Hole, NO_OWNER)
    {
      hide Describes, FreePages, UsablePages;
      var n := pages.Length;
      var lo, hi := (begin - base) / PAGE_SIZE, (end - base) / PAGE_SIZE;
      var ok1 := PageReserve(0, lo, Hole, false, NO_OWNER);
      var ok2 := PageReserve(hi, n, Hole, false, NO_OWNER);
    }

    function FirstPageInBlock(page: nat, o: nat): nat {
      ShiftLeft(ShiftRight(page, o), o)
    }

    function PageToMaxOrder(page: nat): nat {
      if page == 0 then top else TrailingZeros(page)
    }

    method BitmapToggle(idx: nat) returns (b: bool)
      requires idx < bitmap.Length
      modifies bitmap
      ensures bitmap[..] == old(bitmap[..])[idx := !old(bitmap[idx])]
      ensures b == bitmap[idx]
    {
      bitmap[idx] := !bitmap[idx];
      b := bitmap[idx];
    }

    method ListInsert(o: nat, p: nat)
      requires o < |blocks|
      modifies this`blocks
      ensures blocks == Insert(old(blocks), o, p)
    {
      blocks := Insert(blocks, o, p);
    }

    method ListRemove(p: nat)
      requires Linked(blocks, p)
      modifies this`blocks
      ensures blocks == Unlink(old(blocks), p)
    {
      blocks := Unlink(blocks, p);
    }

    /**
     The bitmap walk of block_alloc: clears the way for the block at `page`, and stops at exactly
     the order of the one listed block that contains it.
     */
    method ToggleUp(page: nat, o: nat, ghost f: set<nat>) returns (i: nat)
      requires Shape() && BitsMatch(bitmap[..], top, f)
      requires page < Pow2(top) && o <= top
      requires Block(o, IndexOf(page, o)) <= f
      modifies bitmap
      ensures o <= i <= top && Maximal(f, top, i, IndexOf(page, i))
      ensures BitsMatch(bitmap[..], top, f - Block(o, IndexOf(page, o)))
    {
      hide Taking, BuddyBits.Mixed;
      TakingStart(bitmap[..], top, f, page, o);
      i := o;
      while i < top
        invariant o <= i <= top && Taking(bitmap[..], top, f, page, o, i)
      {
        TakingStep(bitmap[..], top, f, page, o, i);
        var now := BitmapToggle(PageToBitmapIdx(top, page, i));
        if !now { return; }
        i := i + 1;
      }
      TakingTop(bitmap[..], top, f, page, o);
    }

    /** block_alloc, `f` being the free pages before. */
    method BlockAlloc(page: nat, o: nat, ghost f: set<nat>)
      requires Shape() && Describes(f)
      requires page < Pow2(top) && o <= top && Aligned(page, o)
      requires Block(o, IndexOf(page, o)) <= f
      modifies this`blocks, bitmap
      ensures Describes(f - Block(o, IndexOf(page, o)))
    {
      hide BuddyTree.Block, BuddyBits.Mixed, Canonical, Carved, Holds, Insert, Unlink;
      ghost var x := IndexOf(page, o);
      var i := ToggleUp(page, o, f);
      CarveListed(blocks, top, f, i, IndexOf(page, i));

      // split blocks if necessary
      while i > o
        invariant o <= i <= top
        invariant Carved(blocks, top, f, i, IndexOf(page, i))
        invariant BitsMatch(bitmap[..], top, f - Block(o, x))
      {
        SplitAround(blocks, top, f, i, page);
        var pa := FirstPageInBlock(page, i);
        var pb := pa + Pow2(i - 1);
        ListRemove(pa);
        ListInsert(i - 1, pa);
        ListInsert(i - 1, pb);
        i := i - 1;
      }

      // remove allocated block from free list
      CarvedLinked(blocks, top, f, o, x);
      CarvedUnlink(blocks, top, f, o, x);
      ListRemove(page);
    }

    /** block_free, `g` being the free pages with the block. */
    method BlockFree(page: nat, o: nat, ghost g: set<nat>)
      requires Shape()
      requires page < Pow2(top) && o <= top && Aligned(page, o)
      requires Block(o, IndexOf(page, o)) <= g && Describes(g - Block(o, IndexOf(page, o)))
      modifies this`blocks, bitmap
      ensures Describes(g)
    {
      hide BuddyTree.Block, BuddyBits.Mixed, Giving, Canonical, Carved, Holds, Insert, Unlink;
      GivingStart(bitmap[..], top, g, page, o);
      CarveNew(blocks, top, g, o, IndexOf(page, o));

      // insert free block into free list
      ListInsert(o, page);

      // join blocks if necessary
      var i := o;
      while i != top
        invariant o <= i <= top
        invariant Carved(blocks, top, g, i, IndexOf(page, i))
        invariant Giving(bitmap[..], top, g, page, o, i)
      {
        // if bit is now set then only one block is free
        GivingStep(bitmap[..], top, g, page, o, i);
        var now := BitmapToggle(PageToBitmapIdx(top, page, i));
        if now {
          CarvedListed(blocks, top, g, i, IndexOf(page, i));
          return;
        }

        JoinAround(blocks, top, g, i, page);
        var pa := FirstPageInBlock(page, i + 1);
        var pb := pa + Pow2(i);
        ListRemove(pa);
        ListRemove(pb);
        ListInsert(i + 1, pa);
        i := i + 1;
      }
      GivingTop(bitmap[..], top, g, page, o);
      CarvedListed(blocks, top, g, top, IndexOf(page, top));
    }

    /** The loops of do_alloc and page_free that set page states. */
    method SetPages(lo: nat, hi: nat, v: Page)
      requires lo <= hi <= pages.Length
      modifies pages
      ensures pages[..] == SetRange(old(pages[..]), lo, hi, v)
    {
      var i := lo;
      while i != hi
        invariant lo <= i <= hi
        invariant pages[..] == SetRange(old(pages[..]), lo, i, v)
      {
        pages[i] := v;
        i := i + 1;
      }
    }

    method DoAlloc(page: nat, o: nat, st: PgState, owner: Owner)
      requires Valid()
      requires st != Free && o <= top && Aligned(page, o)
      requires AllFree(pages[..], page, page + Pow2(o))
      modifies this`blocks, this`free, this`usable, pages, bitmap
      ensures Valid()
      ensures pages[..] == SetRange(old(pages[..]), page, page + Pow2(o), Page(st, owner))
    {
      hide Holds, BuddyBits.Mixed, Canonical, FreePages, UsablePages;
      ghost var f := FreePages(pages[..]);
      AllocRange(pages[..], page, page + Pow2(o), Page(st, owner));
      AllocUsable(pages[..], page, page + Pow2(o), Page(st, owner));

      // holes & system memory can never be released
      if Unusable(st) {
        usable := usable - PAGE_SIZE * Pow2(o);
      }
      free := free - PAGE_SIZE * Pow2(o);
      SetPages(page, page + Pow2(o), Page(st, owner));

      // update buddy allocator
      BlockAlloc(page, o, f);
    }

    /** page_free for a block: the caller knows that the range is allocated. */
    method PageFreeBlock(page: nat, o: nat)
      requires Valid()
      requires o <= top && Aligned(page, o)
      requires AllHeld(pages[..], page, page + Pow2(o))
      modifies this`blocks, this`free, pages, bitmap
      ensures Valid()
      ensures pages[..] == SetRange(old(pages[..]), page, page + Pow2(o), Page(Free, NO_OWNER))
    {
      hide Holds, BuddyBits.Mixed, Canonical, FreePages, UsablePages;
      FreeRange(pages[..], page, page + Pow2(o), Page(Free, NO_OWNER));
      SetPages(page, page + Pow2(o), Page(Free, NO_OWNER));
      free := free + PAGE_SIZE * Pow2(o);

      // update buddy allocator
      BlockFree(page, o, FreePages(pages[..]));
    }

    /** page_reserve within the region, on page numbers. */
    method PageReserve(lo: nat, hi: nat, st: PgState, realloc: bool, owner: Owner) returns (ok: bool)
      requires Valid() && lo <= hi <= pages.Length
      requires st == Hole || st == System || st == Fixed
      modifies this`blocks, this`free, this`usable, pages, bitmap
      ensures Valid()
      ensures ok == CanReserve(old(pages[..]), lo, hi, st, realloc, owner)
      ensures pages[..] == if ok then Reserved(old(pages[..]), lo, hi, st, owner) else old(pages[..])
    {
      hide Describes, FreePages, UsablePages;
      // check that range is free or overlaps existing allocation
      var i := lo;
      while i != hi
        invariant lo <= i <= hi
        invariant CanReserve(pages[..], lo, i, st, realloc, owner)
      {
        if pages[i].state != Free && !(pages[i].state == st && pages[i].owner == owner && realloc) {
          return false;
        }
        i := i + 1;
      }

      // reserve pages
      i := lo;
      while i != hi
        invariant Valid()
        invariant lo <= i <= hi
        invariant pages[..] == Reserved(old(pages[..]), lo, i, st, owner)
      {
        if pages[i].state == Free {
          DoAlloc(i, 0, st, owner);
        }
        i := i + 1;
      }
      return true;
    }

    /** page_free within the region, on page numbers. */
    method PageFree(lo: nat, hi: nat, owner: Owner) returns (r: FreeResult)
      requires Valid() && lo <= hi <= pages.Length
      modifies this`blocks, this`free, pages, bitmap
      ensures Valid()
      ensures r == FreeVerdict(old(pages[..]), lo, hi, owner)
      ensures pages[..] == if r == Freed then SetRange(old(pages[..]), lo, hi, Page(Free, NO_OWNER)) else old(pages[..])
    {
      hide Describes, FreePages, UsablePages, BuddyTree.Aligned, Powers.FloorLog2, Powers.TrailingZeros;
      // verify that range is allocated and correctly owned
      var i := lo;
      while i != hi
        invariant lo <= i <= hi
        invariant FreeVerdict(pages[..], lo, hi, owner) == FreeVerdict(pages[..], i, hi, owner)
      {
        if pages[i].owner != owner {
          return InvalidArgument;
        }
        if pages[i].state == Free || pages[i].state == Hole || pages[i].state == System {
          return BadAddress;
        }
        i := i + 1;
      }

      // free pages, in the largest blocks that fit
      i := lo;
      while i != hi
        invariant Valid()
        invariant lo <= i <= hi
        invariant pages[..] == SetRange(old(pages[..]), lo, i, Page(Free, NO_OWNER))
        decreases hi - i
      {
        var size := hi - i;
        var maxOrder := PageToMaxOrder(i);
        var o := if maxOrder < FloorLog2(size) then maxOrder else FloorLog2(size);
        BlockFits(top, i, hi, o);
        PageFreeBlock(i, o);
        i := i + Pow2(o);
      }
      return Freed;
    }

    /** find_block: the first page of a free block of order o or above, or -1. */
    method FindBlock(o: nat) returns (p: int)
      requires Valid()
      ensures p == -1 <==> !RoomFor(top, FreePages(pages[..]), o)
      ensures p != -1 ==> 0 <= p && Aligned(p, o) && AllFree(pages[..], p, p + Pow2(o))
    {
      ghost var f := FreePages(pages[..]);
      RoomIsListed(blocks, top, f, o);
      var i := o;
      while i < top + 1
        invariant o <= i && (o <= top + 1 ==> i <= top + 1)
        invariant forall m :: o <= m < i && m < |blocks| ==> blocks[m] == []
      {
        if blocks[i] != [] {
          p := blocks[i][0];
          assert p in blocks[i];
          ListedHolds(top, f, i, p, o);
          ListedInside(pages[..], p, o);
          return;
        }
        i := i + 1;
      }
      return -1;
    }
  }
}
