/** The physical page allocator over all regions, by address and memory attributes: sys/mem/page.cpp. */
module Pages {
  import opened KernelConfig
  import opened Powers
  import opened BuddyTree
  import opened BuddyLists
  import opened Regions

  const MA_SPEED_MASK: bv32 := 0x3
  const PAF_REALLOC: bv32 := 0x20000000
  const PAF_MAPPED: bv32 := 0x40000000
  const PAF_EXACT_SPEED: bv32 := 0x80000000
  const PAF_MASK: bv32 := 0xe0000000

  datatype PagePtr = Null | PagePtr(addr: nat, size: nat, owner: Owner)

  /** A region with attributes `have` can serve a request for `want`. */
  predicate Compatible(have: bv32, want: bv32, exactSpeed: bool) {
    && have & want == want
    && (exactSpeed ==> have & MA_SPEED_MASK == want & MA_SPEED_MASK)
  }

  predicate Exact(flags: bv32) {
    flags & PAF_EXACT_SPEED != 0
  }

  /** The memory attributes of a request, and those without the speed. */
  function Wanted(flags: bv32): bv32 {
    flags & !PAF_MASK
  }

  function AnySpeed(attr: bv32): bv32 {
    attr & !MA_SPEED_MASK
  }

  predicate HasSpeed(attr: bv32) {
    attr & MA_SPEED_MASK != 0
  }

  // ----- what a request asks of the memory, bit by bit -----

  /** Every bit of `want` is set in `have`. */
  predicate Covers(have: bv32, want: bv32) {
    have & want == want
  }

  function Attributes(flags: bv32): bv32 {
    flags & 0x1fff_ffff
  }

  function ButSpeed(flags: bv32): bv32 {
    Attributes(flags) & 0xffff_fffc
  }

  function Speed(flags: bv32): bv32 {
    flags & 0x3
  }

  predicate SpeedBinds(flags: bv32) {
    flags & 0x8000_0000 != 0
  }

  /** Memory `have` has every attribute that the flags ask for, the speed included. */
  predicate SuitsAll(have: bv32, flags: bv32) {
    Covers(have, Attributes(flags))
  }

  /** The memory has every attribute but for the speed, and the same speed if that is to be exact. */
  predicate Suits(have: bv32, flags: bv32) {
    Covers(have, ButSpeed(flags)) && (SpeedBinds(flags) ==> Speed(have) == Speed(flags))
  }

  lemma CoversPart(have: bv32, want: bv32, mask: bv32)
    requires Covers(have, want)
    ensures Covers(have, want & mask)
  {
  }

  lemma CoversBoth(have: bv32, a: bv32, b: bv32)
    requires Covers(have, a) && Covers(have, b)
    ensures Covers(have, a | b)
  {
  }

  lemma CoversOwn(have: bv32)
    ensures Covers(have, Speed(have))
  {
  }

  lemma JoinMask(x: bv32)
    ensures (x & 0xffff_fffc) | (x & 0x3) == x
  {
  }

  lemma JoinBits(flags: bv32)
    ensures ButSpeed(flags) | Speed(Attributes(flags)) == Attributes(flags)
  {
    hide Attributes;
    JoinMask(Attributes(flags));
  }

  lemma SpeedBits(flags: bv32)
    ensures Speed(Attributes(flags)) == Speed(flags)
  {
  }

  lemma SlowBits(flags: bv32)
    ensures AnySpeed(Attributes(flags)) == ButSpeed(flags)
  {
    hide Attributes;
    assert !MA_SPEED_MASK == 0xffff_fffc;
  }

  lemma CodeBits(flags: bv32)
    ensures Wanted(flags) == Attributes(flags)
    ensures Exact(flags) <==> SpeedBinds(flags)
  {
    assert !PAF_MASK == 0x1fff_ffff;
  }

  lemma AllSuitsRest(have: bv32, flags: bv32)
    ensures SuitsAll(have, flags) ==> Covers(have, ButSpeed(flags))
  {
    hide Covers, Attributes;
    if SuitsAll(have, flags) { CoversPart(have, Attributes(flags), 0xffff_fffc); }
  }

  lemma RestSuitsAll(have: bv32, flags: bv32)
    ensures Covers(have, ButSpeed(flags)) && Speed(have) == Speed(flags) ==> SuitsAll(have, flags)
  {
    hide Covers, Attributes, ButSpeed, Speed;
    JoinBits(flags);
    SpeedBits(flags);
    CoversOwn(have);
    if Covers(have, ButSpeed(flags)) && Speed(have) == Speed(flags) { CoversBoth(have, ButSpeed(flags), Speed(flags)); }
  }

  lemma CompatibleIs(have: bv32, want: bv32, exact: bool)
    ensures Compatible(have, want, exact) <==> Covers(have, want) && (exact ==> Speed(have) == Speed(want))
  {
  }

  /** The tests of the code, in the two turns of its search, are these. */
  lemma CompatibleBits(have: bv32, flags: bv32)
    ensures Exact(flags) ==> (Compatible(have, Wanted(flags), true) <==> Suits(have, flags))
    ensures Compatible(have, Wanted(flags), false) <==> SuitsAll(have, flags)
    ensures !Exact(flags) ==> (Compatible(have, AnySpeed(Wanted(flags)), false) <==> Suits(have, flags))
    ensures !Exact(flags) && SuitsAll(have, flags) ==> Suits(have, flags)
    ensures Exact(flags) && Suits(have, flags) ==> SuitsAll(have, flags)
  {
    hide Wanted, AnySpeed, Covers, Compatible, Attributes, ButSpeed, Speed, Exact, SpeedBinds;
    CodeBits(flags);
    SpeedBits(flags);
    SlowBits(flags);
    AllSuitsRest(have, flags);
    RestSuitsAll(have, flags);
    CompatibleIs(have, Attributes(flags), true);
    CompatibleIs(have, Attributes(flags), false);
    CompatibleIs(have, ButSpeed(flags), false);
  }

  function Kind(flags: bv32): (st: PgState)
    ensures st == Fixed || st == Mapped
    ensures st == Mapped <==> flags & 0x4000_0000 != 0
  {
    if flags & PAF_MAPPED != 0 then Mapped else Fixed
  }

  /** Number of pages of a request of `len` bytes, rounded up. */
  function PageCount(len: nat): (n: nat)
    ensures len <= n * PAGE_SIZE < len + PAGE_SIZE
  {
    (len + PAGE_SIZE - 1) / PAGE_SIZE
  }

  /** page_num of the first byte of a range, and one past that of its last. */
  function FirstPage(base: nat, addr: nat): nat
    requires base <= addr
  {
    (addr - base) / PAGE_SIZE
  }

  function EndPage(base: nat, addr: nat, len: nat): nat
    requires base <= addr && len > 0
  {
    (addr + len - 1 - base) / PAGE_SIZE + 1
  }

  /** Address of a page of a region, and the size of n pages. */
  function PageAddr(base: nat, page: nat): nat {
    base + page * PAGE_SIZE
  }

  function PageBytes(n: nat): nat {
    n * PAGE_SIZE
  }

  /** The order page_alloc computes from a length in bytes. */
  function AllocOrder(len: nat): nat
    requires len > 0
    ensures PageCount(len) > 0 && AllocOrder(len) == CeilLog2(PageCount(len))
  {
    CeilLog2Scale(PageCount(len), PAGE_SHIFT);
    PageSizeShift();
    CeilLog2(PageCount(len) * PAGE_SIZE) - FloorLog2(PAGE_SIZE)
  }

  lemma PageSizeShift()
    ensures Pow2(PAGE_SHIFT) == PAGE_SIZE && FloorLog2(PAGE_SIZE) == PAGE_SHIFT
  {
    Pow2Sum(4, 4);
    Pow2Sum(8, 4);
    assert Pow2(4) == 2 * Pow2(3) && Pow2(3) == 2 * Pow2(2) && Pow2(2) == 4;
    FloorLog2Unique(PAGE_SIZE, PAGE_SHIFT);
  }

  /** Allocating a block and giving back its first pages leaves only the rest allocated. */
  lemma TakeThenTrim(table: seq<Page>, lo: nat, mid: nat, hi: nat, v: Page)
    requires lo <= mid <= hi && AllFree(table, lo, hi)
    requires FreeUnowned(table)
    ensures SetRange(SetRange(table, lo, hi, v), lo, mid, Page(Free, NO_OWNER)) == SetRange(table, mid, hi, v)
  {
    var a := SetRange(SetRange(table, lo, hi, v), lo, mid, Page(Free, NO_OWNER));
    var b := SetRange(table, mid, hi, v);
    forall p | 0 <= p < |table| ensures a[p] == b[p] {
    }
  }

  lemma WithoutSpeed(attr: bv32)
    ensures !HasSpeed(attr) ==> AnySpeed(attr) == attr
  {
  }

  lemma RoomBound(top: nat, free: set<nat>, o: nat)
    ensures RoomFor(top, free, o) ==> o <= top
  {
  }

  lemma PageAligned(base: nat, lo: nat, hi: nat)
    requires lo < hi
    ensures FirstPage(base, base + lo * PAGE_SIZE) == lo
    ensures EndPage(base, base + lo * PAGE_SIZE, (hi - lo) * PAGE_SIZE) == hi
  {
  }

  lemma NoHoles(table: seq<Page>, base: nat, begin: nat, end: nat, lo: nat, hi: nat)
    requires HolesOutside(table, base, begin, end) && lo < hi <= |table|
    requires forall p :: lo <= p < hi ==> table[p].state != Hole
    ensures begin <= base + lo * PAGE_SIZE && base + hi * PAGE_SIZE <= end
  {
    assert table[lo].state != Hole && table[hi - 1].state != Hole;
  }

  class PageAllocator {
    const regions: seq<Region>      // in ascending address order
    const byPriority: seq<Region>

    /** The regions page_init has set up. */
    constructor (regions: seq<Region>, byPriority: seq<Region>)
      requires Disjoint(regions, byPriority) && forall i :: 0 <= i < |regions| ==> regions[i].Valid() && regions[i].Placed()
      ensures Valid() && this.regions == regions && this.byPriority == byPriority
    {
      this.regions, this.byPriority := regions, byPriority;
    }

    ghost function Repr(): set<object> {
      (set r: Region | r in regions :: r as object)
      + (set r: Region | r in regions :: r.pages as object)
      + (set r: Region | r in regions :: r.bitmap as object)
    }

    /** Regions in ascending order that share nothing, and the same by priority. */
    static ghost predicate Disjoint(regions: seq<Region>, byPriority: seq<Region>) {
      && (forall i, j :: 0 <= i < j < |regions| ==>
            && regions[i] != regions[j]
            && regions[i].pages != regions[j].pages
            && regions[i].bitmap != regions[j].bitmap
            && regions[i].end <= regions[j].begin)
      && (forall i :: 0 <= i < |byPriority| ==> byPriority[i] in regions)
      && (forall i :: 0 <= i < |regions| ==> regions[i] in byPriority)
    }

    ghost predicate Valid()
      reads Repr()
    {
      && Disjoint(regions, byPriority)
      && (forall i :: 0 <= i < |regions| ==> regions[i].Valid() && regions[i].Placed())
    }

    /** The page table of every region. */
    ghost function Tables(): (t: seq<seq<Page>>)
      reads Repr()
      ensures |t| == |regions|
      ensures forall i :: 0 <= i < |regions| ==> t[i] == regions[i].pages[..]
    {
      seq(|regions|, i requires 0 <= i < |regions| reads Repr() => regions[i].pages[..])
    }

    /** find_region: the region that contains [begin, begin + len). */
    method FindRegion(begin: nat, len: nat) returns (i: int)
      ensures -1 <= i < |regions|
      ensures i >= 0 ==> regions[i].begin <= begin && begin + len <= regions[i].end
      ensures i == -1 ==> forall j :: 0 <= j < |regions| ==> !(regions[j].begin <= begin && begin + len <= regions[j].end)
    {
      i := 0;
      while i < |regions|
        invariant 0 <= i <= |regions|
        invariant forall j :: 0 <= j < i ==> !(regions[j].begin <= begin && begin + len <= regions[j].end)
      {
        if regions[i].begin <= begin && begin + len <= regions[i].end {
          return;
        }
        i := i + 1;
      }
      return -1;
    }

    /** The pages of a range that a region contains are in its page table. */
    lemma InTable(i: nat, addr: nat, len: nat)
      requires Valid() && i < |regions| && regions[i].begin <= addr && addr + len <= regions[i].end
      ensures regions[i].base <= regions[i].begin && |Tables()| == |regions|
      ensures len > 0 ==> FirstPage(regions[i].base, addr) <= EndPage(regions[i].base, addr, len) <= |Tables()[i]|
    {
      hide Region.Valid;
      assert regions[i].Placed();
    }

    /** The page table of region i after page_free of a range of it. */
    ghost function FreedTables(t: seq<seq<Page>>, i: nat, lo: nat, hi: nat): seq<seq<Page>>
      requires i < |t|
    {
      t[i := SetRange(t[i], lo, hi, Page(Free, NO_OWNER))]
    }

    /** page_free on page numbers of region i; no other region changes. */
    method FreeIn(i: nat, lo: nat, hi: nat, owner: Owner) returns (r: FreeResult)
      requires Valid() && i < |regions| && lo <= hi <= |Tables()[i]|
      modifies Repr()
      ensures Valid()
      ensures r == FreeVerdict(old(Tables())[i], lo, hi, owner)
      ensures Tables() == if r == Freed then FreedTables(old(Tables()), i, lo, hi) else old(Tables())
    {
      hide Region.Valid, FreeVerdict;
      var reg := regions[i];
      assert reg.Valid() && reg.Placed();
      ghost var was := Tables();
      if FreeVerdict(was[i], lo, hi, owner) == Freed {
        HolesKept(was[i], reg.base, reg.begin, reg.end, lo, hi, Page(Free, NO_OWNER));
      }
      hide HolesOutside;
      r := reg.PageFree(lo, hi, owner);
      forall j | 0 <= j < |regions| && j != i
        ensures regions[j].Valid() && regions[j].Placed() && regions[j].pages[..] == was[j]
      {
      }
      assert Tables() == was[i := reg.pages[..]];
    }

    /** page_free by address; i is the region found, if any. */
    method PageFree(addr: nat, len: nat, owner: Owner) returns (r: FreeResult, i: int)
      requires Valid()
      modifies Repr()
      ensures Valid()
      ensures len == 0 ==> r == Freed && Tables() == old(Tables())
      ensures -1 <= i < |regions|
      ensures len > 0 && i == -1 ==> r == BadAddress && Tables() == old(Tables())
      ensures len > 0 && i == -1 ==>
                forall j :: 0 <= j < |regions| ==> !(regions[j].begin <= addr && addr + len <= regions[j].end)
      ensures len > 0 && i >= 0 ==> regions[i].base <= regions[i].begin <= addr && addr + len <= regions[i].end
      ensures len > 0 && i >= 0 ==> EndPage(regions[i].base, addr, len) <= |old(Tables())[i]|
      ensures len > 0 && i >= 0 ==>
                r == FreeVerdict(old(Tables())[i], FirstPage(regions[i].base, addr), EndPage(regions[i].base, addr, len), owner)
      ensures len > 0 && i >= 0 && r != Freed ==> Tables() == old(Tables())
      ensures len > 0 && i >= 0 && r == Freed ==>
                Tables() == FreedTables(old(Tables()), i, FirstPage(regions[i].base, addr), EndPage(regions[i].base, addr, len))
    {
      i := -1;
      r := Freed;
      if len == 0 {
        return;
      }
      hide Valid, Tables, Repr, FreeVerdict, FirstPage, EndPage, FreedTables;
      i := FindRegion(addr, len);
      if i == -1 {
        r := BadAddress;
        return;
      }
      InTable(i, addr, len);
      r := FreeIn(i, FirstPage(regions[i].base, addr), EndPage(regions[i].base, addr, len), owner);
    }

    /** The page tables after the block of order o at `page` of region i is given to `v.owner`. */
    ghost function TakenTables(t: seq<seq<Page>>, i: nat, lo: nat, hi: nat, v: Page): seq<seq<Page>>
      requires i < |t|
    {
      t[i := SetRange(t[i], lo, hi, v)]
    }

    method AllocIn(i: nat, page: nat, o: nat, st: PgState, owner: Owner)
      requires Valid() && i < |regions| && st != Free
      requires o <= regions[i].top && Aligned(page, o) && AllFree(Tables()[i], page, page + Pow2(o))
      modifies Repr()
      ensures Valid()
      ensures Tables() == TakenTables(old(Tables()), i, page, page + Pow2(o), Page(st, owner))
    {
      hide Region.Valid, BuddyTree.Aligned, Powers.Pow2;
      var reg := regions[i];
      assert reg.Valid() && reg.Placed();
      ghost var was := Tables();
      HolesKept(was[i], reg.base, reg.begin, reg.end, page, page + Pow2(o), Page(st, owner));
      hide HolesOutside, AllFree;
      reg.DoAlloc(page, o, st, owner);
      forall j | 0 <= j < |regions| && j != i
        ensures regions[j].Valid() && regions[j].Placed() && regions[j].pages[..] == was[j]
      {
      }
      assert Tables() == was[i := reg.pages[..]];
    }

    /** Region r could serve an order-o request for the attributes. */
    ghost predicate CanServe(r: Region, o: nat, want: bv32, exactSpeed: bool)
      reads r, r.pages
    {
      Compatible(r.attr, want, exactSpeed) && RoomFor(r.top, FreePages(r.pages[..]), o)
    }

    /** The search of page_alloc_order, at one set of attributes: the first region in priority order with room. */
    method FindRoom(o: nat, want: bv32, exactSpeed: bool) returns (k: int, page: int)
      requires Valid()
      ensures -1 <= k < |byPriority|
      ensures k == -1 ==> forall r :: r in regions ==> !CanServe(r, o, want, exactSpeed)
      ensures k >= 0 ==> forall j :: 0 <= j < k ==> !CanServe(byPriority[j], o, want, exactSpeed)
      ensures k >= 0 ==> byPriority[k] in regions && CanServe(byPriority[k], o, want, exactSpeed)
      ensures k >= 0 ==> 0 <= page && Aligned(page, o) && AllFree(byPriority[k].pages[..], page, page + Pow2(o))
      ensures k >= 0 ==> o <= byPriority[k].top
    {
      hide Region.Valid, BuddyTree.Aligned, RoomFor;
      k, page := 0, -1;
      while k < |byPriority|
        invariant 0 <= k <= |byPriority|
        invariant forall j :: 0 <= j < k ==> !CanServe(byPriority[j], o, want, exactSpeed)
      {
        var r := byPriority[k];
        if Compatible(r.attr, want, exactSpeed) {
          assert r in regions && r.Valid();
          page := r.FindBlock(o);
          RoomBound(r.top, FreePages(r.pages[..]), o);
          if page != -1 {
            return;
          }
        }
        k := k + 1;
      }
      k := -1;
    }

    /** The region has an aligned run of 2^o free pages. */
    ghost predicate HasRoom(r: Region, o: nat)
      reads r, r.pages
    {
      RoomFor(r.top, FreePages(r.pages[..]), o)
    }

    /** Region r could serve the request. */
    ghost predicate Serves(r: Region, o: nat, flags: bv32)
      reads r, r.pages
    {
      Suits(r.attr, flags) && HasRoom(r, o)
    }

    ghost predicate NoneServes(o: nat, flags: bv32)
      reads Repr()
    {
      forall r :: r in regions ==> !Serves(r, o, flags)
    }

    /** A region as good as one with attributes `have`: with all that was asked for, if that has. */
    ghost predicate Rival(r: Region, o: nat, flags: bv32, have: bv32)
      reads r, r.pages
    {
      Serves(r, o, flags) && (SuitsAll(have, flags) ==> SuitsAll(r.attr, flags))
    }

    /**
     Region r is the right one for the request. It lacks the speed asked for only if no region that
     has it all has room, and no region ahead of it in the order of priority would do as well.
     */
    ghost predicate RightRegion(r: Region, o: nat, flags: bv32)
      reads Repr()
    {
      && r in regions && Serves(r, o, flags)
      && (!SuitsAll(r.attr, flags) ==> forall x :: x in regions && SuitsAll(x.attr, flags) ==> !HasRoom(x, o))
      && exists k :: FirstRival(r, k, o, flags)
    }

    ghost predicate FirstRival(r: Region, k: int, o: nat, flags: bv32)
      requires r in regions
      reads Repr()
    {
      && 0 <= k < |byPriority| && byPriority[k] == r
      && forall j :: 0 <= j < k && byPriority[j] in regions ==> !Rival(byPriority[j], o, flags, r.attr)
    }

    /** What a turn of the search at the attributes asked for, or without the speed, has found out. */
    lemma TurnServes(r: Region, o: nat, flags: bv32)
      ensures CanServe(r, o, Wanted(flags), Exact(flags)) <==> Serves(r, o, flags) && SuitsAll(r.attr, flags)
      ensures !Exact(flags) ==> (CanServe(r, o, AnySpeed(Wanted(flags)), false) <==> Serves(r, o, flags))
      ensures Exact(flags) || !HasSpeed(Wanted(flags)) ==> (Serves(r, o, flags) ==> SuitsAll(r.attr, flags))
    {
      hide Compatible, Wanted, AnySpeed, HasSpeed, Exact, Suits, SuitsAll, RoomFor;
      CompatibleBits(r.attr, flags);
      WithoutSpeed(Wanted(flags));
    }

    /** The whole search of page_alloc_order, with its fall back to slower regions. */
    method Search(o: nat, flags: bv32) returns (i: int, page: int)
      requires Valid()
      ensures -1 <= i < |regions|
      ensures i == -1 <==> NoneServes(o, flags)
      ensures i >= 0 ==> 0 <= page && Aligned(page, o) && AllFree(regions[i].pages[..], page, page + Pow2(o))
      ensures i >= 0 ==> o <= regions[i].top && RightRegion(regions[i], o, flags)
    {
      hide Region.Valid, BuddyTree.Aligned, RoomFor, AllFree, Powers.Pow2, CanServe, Serves, Wanted, AnySpeed, HasSpeed, Exact, SuitsAll;
      forall r | r in regions
        ensures CanServe(r, o, Wanted(flags), Exact(flags)) <==> Serves(r, o, flags) && SuitsAll(r.attr, flags)
        ensures !Exact(flags) ==> (CanServe(r, o, AnySpeed(Wanted(flags)), false) <==> Serves(r, o, flags))
        ensures Exact(flags) || !HasSpeed(Wanted(flags)) ==> (Serves(r, o, flags) ==> SuitsAll(r.attr, flags))
      {
        TurnServes(r, o, flags);
      }
      var exact := Exact(flags);
      var attr := Wanted(flags);
      var k: int;
      k, page := FindRoom(o, attr, exact);
      if k == -1 && !exact && HasSpeed(attr) {
        // try again allowing slower regions
        attr := AnySpeed(attr);
        k, page := FindRoom(o, attr, exact);
      }
      if k == -1 {
        // can't find suitable pages
        return -1, page;
      }
      i :| 0 <= i < |regions| && regions[i] == byPriority[k];
      assert FirstRival(regions[i], k, o, flags);
      NoneHasAll(regions[i], o, flags);
    }

    lemma NoneHasAll(r: Region, o: nat, flags: bv32)
      requires r in regions && Serves(r, o, flags)
      requires SuitsAll(r.attr, flags) || forall x :: x in regions ==> !(Serves(x, o, flags) && SuitsAll(x.attr, flags))
      requires Exact(flags) ==> SuitsAll(r.attr, flags)
      ensures !SuitsAll(r.attr, flags) ==> forall x :: x in regions && SuitsAll(x.attr, flags) ==> !HasRoom(x, o)
    {
      hide RoomFor, Suits, SuitsAll, Exact;
      forall x | x in regions && SuitsAll(x.attr, flags)
        ensures !SuitsAll(r.attr, flags) ==> !HasRoom(x, o)
      {
        CompatibleBits(x.attr, flags);
      }
    }

    method PageAllocOrder(o: nat, flags: bv32, owner: Owner) returns (ptr: PagePtr, i: int, page: int)
      requires Valid()
      modifies Repr()
      ensures Valid()
      ensures -1 <= i < |regions|
      ensures i == -1 <==> old(NoneServes(o, flags))
      ensures i == -1 ==> ptr == Null && Tables() == old(Tables())
      ensures i >= 0 ==> old(RightRegion(regions[i], o, flags))
      ensures i >= 0 ==> 0 <= page && Aligned(page, o) && AllFree(old(Tables())[i], page, page + Pow2(o))
      ensures i >= 0 ==> FreeUnowned(old(Tables())[i])
      ensures i >= 0 ==> Tables() == TakenTables(old(Tables()), i, page, page + Pow2(o), Page(Kind(flags), owner))
      ensures i >= 0 ==> ptr == PagePtr(PageAddr(regions[i].base, page), PageBytes(Pow2(o)), owner)
    {
      hide Valid, BuddyTree.Aligned, NoneServes, RightRegion, TakenTables, Powers.Pow2, FreeUnowned;
      i, page := Search(o, flags);
      if i == -1 {
        return Null, i, page;
      }
      UnownedIn(i);
      AllocIn(i, page, o, Kind(flags), owner);
      ptr := PagePtr(PageAddr(regions[i].base, page), PageBytes(Pow2(o)), owner);
    }

    method ReserveIn(i: nat, lo: nat, hi: nat, realloc: bool, owner: Owner) returns (ok: bool)
      requires Valid() && i < |regions| && lo <= hi <= |Tables()[i]|
      modifies Repr()
      ensures Valid()
      ensures ok == CanReserve(old(Tables())[i], lo, hi, Fixed, realloc, owner)
      ensures Tables() == if ok then old(Tables())[i := Reserved(old(Tables())[i], lo, hi, Fixed, owner)] else old(Tables())
    {
      hide Region.Valid, CanReserve;
      var reg := regions[i];
      assert reg.Valid() && reg.Placed();
      ghost var was := Tables();
      HolesKeptReserved(was[i], reg.base, reg.begin, reg.end, lo, hi, Fixed, owner);
      hide HolesOutside;
      ok := reg.PageReserve(lo, hi, Fixed, realloc, owner);
      forall j | 0 <= j < |regions| && j != i
        ensures regions[j].Valid() && regions[j].Placed() && regions[j].pages[..] == was[j]
      {
      }
      assert Tables() == was[i := reg.pages[..]];
    }

    /** page_reserve by address; i is the region found, if any. Mapped pages fail its assertion. */
    method PageReserve(addr: nat, len: nat, flags: bv32, owner: Owner) returns (ptr: PagePtr, i: int, asserts: bool)
      requires Valid()
      modifies Repr()
      ensures Valid()
      ensures -1 <= i < |regions|
      ensures i == -1 ==> ptr == Null && Tables() == old(Tables())
      ensures i == -1 ==>
                forall j :: 0 <= j < |regions| ==> !(regions[j].begin <= addr && addr + len <= regions[j].end)
      ensures i >= 0 ==> regions[i].base <= regions[i].begin <= addr && addr + len <= regions[i].end
      ensures asserts <==> i >= 0 && Kind(flags) == Mapped
      ensures asserts ==> ptr == Null && Tables() == old(Tables())
      ensures i >= 0 && !asserts && len == 0 ==> ptr == PagePtr(addr, 0, owner) && Tables() == old(Tables())
      ensures i >= 0 && !asserts && len > 0 ==> EndPage(regions[i].base, addr, len) <= |old(Tables())[i]|
      ensures i >= 0 && !asserts && len > 0 && ptr == Null ==>
                && !CanReserve(old(Tables())[i], FirstPage(regions[i].base, addr), EndPage(regions[i].base, addr, len), Fixed,
                               flags & PAF_REALLOC != 0, owner)
                && Tables() == old(Tables())
      ensures i >= 0 && !asserts && len > 0 && ptr != Null ==>
                && CanReserve(old(Tables())[i], FirstPage(regions[i].base, addr), EndPage(regions[i].base, addr, len), Fixed,
                              flags & PAF_REALLOC != 0, owner)
                && ptr == PagePtr(PageAddr(regions[i].base, FirstPage(regions[i].base, addr)), len, owner)
                && Tables() == old(Tables())[i := Reserved(old(Tables())[i], FirstPage(regions[i].base, addr),
                                                           EndPage(regions[i].base, addr, len), Fixed, owner)]
    {
      hide Valid, Tables, Reserved, CanReserve, Kind, FirstPage, EndPage, PageAddr;
      i := FindRegion(addr, len);
      asserts := i != -1 && Kind(flags) == Mapped;
      if i >= 0 {
        InTable(i, addr, len);
      }
      if i == -1 || asserts {
        return Null, i, asserts;
      }
      if len == 0 {
        return PagePtr(addr, 0, owner), i, asserts;
      }
      var lo := FirstPage(regions[i].base, addr);
      var ok := ReserveIn(i, lo, EndPage(regions[i].base, addr, len), flags & PAF_REALLOC != 0, owner);
      ptr := if ok then PagePtr(PageAddr(regions[i].base, lo), len, owner) else Null;
    }

    /** Pages that are not holes have their address in the region, and in no other. */
    lemma AddressFound(i: nat, lo: nat, hi: nat, j: nat)
      requires Valid() && i < |regions| && j < |regions| && lo < hi <= |Tables()[i]|
      requires forall p :: lo <= p < hi ==> Tables()[i][p].state != Hole
      ensures regions[i].begin <= regions[i].base + lo * PAGE_SIZE
      ensures regions[i].base + hi * PAGE_SIZE <= regions[i].end
      ensures regions[j].begin <= regions[i].base + lo * PAGE_SIZE && regions[i].base + hi * PAGE_SIZE <= regions[j].end ==> j == i
    {
      hide Region.Valid, HolesOutside;
      assert regions[i].Placed() && regions[j].Placed();
      NoHoles(Tables()[i], regions[i].base, regions[i].begin, regions[i].end, lo, hi);
    }

    /** No region can serve a request of `len` bytes. */
    ghost predicate NoRoom(len: nat, flags: bv32)
      requires len > 0
      reads Repr()
    {
      NoneServes(AllocOrder(len), flags)
    }

    /**
     page_alloc: the smallest block of a power of two pages that holds `len` bytes, with the pages
     in excess, at its start, given back.
     */
    method PageAlloc(len: nat, flags: bv32, owner: Owner) returns (ptr: PagePtr, i: int, page: int)
      requires Valid()
      modifies Repr()
      ensures Valid()
      ensures -1 <= i < |regions|
      ensures i == -1 ==> ptr == Null && Tables() == old(Tables())
      ensures i == -1 <==> len == 0 || old(NoRoom(len, flags))
      ensures i >= 0 ==> old(RightRegion(regions[i], AllocOrder(len), flags))
      ensures i >= 0 ==> 0 <= page && AllFree(old(Tables())[i], page, page + PageCount(len))
      ensures i >= 0 ==> Tables() == TakenTables(old(Tables()), i, page, page + PageCount(len), Page(Kind(flags), owner))
      ensures i >= 0 ==> ptr == PagePtr(PageAddr(regions[i].base, page), PageBytes(PageCount(len)), owner)
    {
      hide Valid, Tables, Repr, NoneServes, RightRegion, AllFree, TakenTables, PageCount, AllocOrder, Kind, Powers.CeilLog2, Powers.Pow2;
      if len == 0 {
        return Null, -1, -1;
      }
      ptr, i, page := AllocTrimmed(AllocOrder(len), PageCount(len), flags, owner);
    }

    /** The last n pages of a block of order o. */
    method AllocTrimmed(o: nat, n: nat, flags: bv32, owner: Owner) returns (ptr: PagePtr, i: int, page: int)
      requires Valid() && n <= Pow2(o)
      modifies Repr()
      ensures Valid()
      ensures -1 <= i < |regions|
      ensures i == -1 <==> old(NoneServes(o, flags))
      ensures i == -1 ==> ptr == Null && Tables() == old(Tables())
      ensures i >= 0 ==> old(RightRegion(regions[i], o, flags))
      ensures i >= 0 ==> 0 <= page && AllFree(old(Tables())[i], page, page + n)
      ensures i >= 0 ==> Tables() == TakenTables(old(Tables()), i, page, page + n, Page(Kind(flags), owner))
      ensures i >= 0 ==> ptr == PagePtr(PageAddr(regions[i].base, page), PageBytes(n), owner)
    {
      hide Valid, Tables, FreeUnowned, NoneServes, RightRegion, BuddyTree.Aligned, AllFree, TakenTables, Powers.Pow2, Kind,
        PageAddr, PageBytes, Repr;
      ghost var was := Tables();
      ptr, i, page := PageAllocOrder(o, flags, owner);
      if i == -1 {
        return;
      }
      var v := Page(Kind(flags), owner);
      var start := page + Pow2(o) - n;
      TrimPages(i, page, start, start + n, v, was);
      page := start;
      ptr := PagePtr(PageAddr(regions[i].base, page), PageBytes(n), owner);
    }

    lemma UnownedIn(i: nat)
      requires Valid() && i < |regions|
      ensures FreeUnowned(Tables()[i])
    {
      assert regions[i].Valid();
    }

    /** Pages that may be released are found by their address. */
    lemma FoundByAddress(i: nat, lo: nat, hi: nat, owner: Owner)
      requires Valid() && i < |regions| && lo < hi <= |Tables()[i]| && FreeVerdict(Tables()[i], lo, hi, owner) == Freed
      ensures FirstPage(regions[i].base, PageAddr(regions[i].base, lo)) == lo
      ensures EndPage(regions[i].base, PageAddr(regions[i].base, lo), PageBytes(hi - lo)) == hi
      ensures forall j :: 0 <= j < |regions| ==>
                (j == i <==> regions[j].begin <= PageAddr(regions[i].base, lo)
                             && PageAddr(regions[i].base, lo) + PageBytes(hi - lo) <= regions[j].end)
    {
      hide Valid;
      PageAligned(regions[i].base, lo, hi);
      forall j: nat | j < |regions|
        ensures regions[i].begin <= regions[i].base + lo * PAGE_SIZE
        ensures regions[i].base + hi * PAGE_SIZE <= regions[i].end
        ensures regions[j].begin <= regions[i].base + lo * PAGE_SIZE && regions[i].base + hi * PAGE_SIZE <= regions[j].end ==> j == i
      {
        AddressFound(i, lo, hi, j);
      }
    }

    /** page_free of pages of region i that the caller owns. */
    method FreeOwned(i: nat, lo: nat, hi: nat, owner: Owner) returns (r: FreeResult)
      requires Valid() && i < |regions| && lo < hi <= |Tables()[i]| && FreeVerdict(Tables()[i], lo, hi, owner) == Freed
      modifies Repr()
      ensures Valid() && r == Freed && Tables() == FreedTables(old(Tables()), i, lo, hi)
    {
      hide Valid, Tables, Repr, FreeVerdict, SetRange, FirstPage, EndPage, PageAddr, PageBytes;
      FoundByAddress(i, lo, hi, owner);
      assert PageBytes(hi - lo) > 0 by { SomeBytes(hi - lo); }
      var k;
      r, k := PageFree(PageAddr(regions[i].base, lo), PageBytes(hi - lo), owner);
    }

    lemma SomeBytes(n: nat)
      requires n > 0
      ensures PageBytes(n) > 0
    {
    }

    /** Give back the pages [lo, mid) of a block [lo, hi) just taken from the page tables `was`. */
    method TrimPages(i: nat, lo: nat, mid: nat, ghost hi: nat, v: Page, ghost was: seq<seq<Page>>)
      requires Valid() && i < |regions| == |was| && lo <= mid <= hi
      requires v.state == Fixed || v.state == Mapped
      requires AllFree(was[i], lo, hi)
      requires FreeUnowned(was[i])
      requires Tables() == TakenTables(was, i, lo, hi, v)
      modifies Repr()
      ensures Valid()
      ensures Tables() == TakenTables(was, i, mid, hi, v) && AllFree(was[i], mid, hi)
    {
      hide Valid, Repr, TakenTables, FreeVerdict, SetRange;
      TrimLemma(i, lo, mid, hi, v, was);
      if lo < mid {
        var r := FreeOwned(i, lo, mid, v.owner);
      }
    }

    lemma TrimLemma(i: nat, lo: nat, mid: nat, hi: nat, v: Page, was: seq<seq<Page>>)
      requires i < |regions| == |was| && lo <= mid <= hi
      requires v.state == Fixed || v.state == Mapped
      requires AllFree(was[i], lo, hi)
      requires FreeUnowned(was[i])
      requires Tables() == TakenTables(was, i, lo, hi, v)
      ensures lo == mid ==> Tables() == TakenTables(was, i, mid, hi, v)
      ensures mid <= |Tables()[i]| && FreeVerdict(Tables()[i], lo, mid, v.owner) == Freed
      ensures FreedTables(Tables(), i, lo, mid) == TakenTables(was, i, mid, hi, v)
    {
      hide Valid;
      TakeThenTrim(was[i], lo, mid, hi, v);
      assert Tables()[i] == SetRange(was[i], lo, hi, v);
    }
  }
}
