/** Calls that leave pages and segments out of step, each from the start: sys/mem/vm.cpp and untranslated.cpp. */
module VmWitness {
  import opened KernelConfig
  import opened Powers
  import opened Queues
  import opened BuddyTree
  import opened BuddyLists
  import opened Regions
  import opened Pages
  import opened Segments
  import opened SegFiles
  import opened VmSpec
  import opened VmMap
  import opened Vm

  /** A region of 2^top pages at base, all free. */
  method NewRegion(base: nat, top: nat) returns (r: Region)
    requires OnPage(base)
    ensures fresh(r) && fresh(r.pages) && fresh(r.bitmap) && r.Valid() && r.Placed()
    ensures r.attr == 0 && r.base == r.begin == base && r.end == base + PageBytes(Pow2(top)) && r.top == top
    ensures r.pages.Length == Pow2(top) && forall p :: 0 <= p < r.pages.Length ==> r.pages[p] == Page(Free, NO_OWNER)
  {
    hide Region.Describes, Powers.Pow2;
    r := new Region(0, base, base, base + PageBytes(Pow2(top)), top);
    AllInside(r.pages[..], base, Pow2(top));
  }

  lemma AllInside(table: seq<Page>, base: nat, n: nat)
    requires OnPage(base) && |table| == n
    ensures HolesOutside(table, base, base, base + PageBytes(n))
  {
  }

  // ----- a segment across two regions -----

  /** Two regions of a page each that touch. */
  method TwoRegions() returns (mem: PageAllocator)
    ensures fresh(mem) && fresh(mem.Repr()) && mem.Valid()
    ensures SpansOf(mem) == TouchingSpans() && mem.Tables() == [[Page(Free, NO_OWNER)], [Page(Free, NO_OWNER)]]
  {
    hide Region.Valid, Region.Placed;
    var r0 := NewRegion(0, 0);
    var r1 := NewRegion(PAGE_SIZE, 0);
    OnePage(r0);
    OnePage(r1);
    mem := new PageAllocator([r0, r1], [r0, r1]);
    assert forall r :: r in [r0, r1] <==> r == r0 || r == r1;
    assert SpansOf(mem) == TouchingSpans();
  }

  lemma OnePage(r: Region)
    requires r.pages.Length == Pow2(0) && forall p :: 0 <= p < r.pages.Length ==> r.pages[p] == Page(Free, NO_OWNER)
    ensures r.pages[..] == [Page(Free, NO_OWNER)]
  {
  }

  lemma NewPage(x: nat)
    requires OnPage(x)
    ensures PageStart(x) == x && Touched(x, PAGE_SIZE) == Touched(0, PAGE_SIZE) == PageCount(PAGE_SIZE) == 1
    ensures NewSeg(x, PAGE_SIZE, 3, PAF_REALLOC, None, 0) == PageSeg(x)
  {
  }

  /** The flags of mmap: it replaces what is mapped. */
  lemma ReallocFlag()
    ensures Kind(PAF_REALLOC) == Fixed && PAF_REALLOC & PAF_REALLOC != 0
  {
  }

  /** A free page of region i can be taken. */
  lemma CanTakePage(t: seq<seq<Page>>, i: nat)
    requires |t| == 2 && i < 2 && t[i] == [Page(Free, NO_OWNER)]
    ensures CanTake(t, TouchingSpans(), 1, i * PAGE_SIZE, PAGE_SIZE, true)
  {
    var at := TouchingSpans();
    assert at[i].Holds(i * PAGE_SIZE, PAGE_SIZE) && FirstPage(at[i].base, i * PAGE_SIZE) == 0 && EndPage(at[i].base, i * PAGE_SIZE, PAGE_SIZE) == 1;
  }

  /** Mapping the page of the first region leaves that of the second free. */
  lemma SecondFree(t: seq<seq<Page>>)
    requires Owns(t, TouchingSpans(), 1, [PageSeg(0)])
    requires Touches([[Page(Free, NO_OWNER)], [Page(Free, NO_OWNER)]], t, 1)
    ensures |t| == 2 && t[1] == [Page(Free, NO_OWNER)]
  {
    var at := TouchingSpans();
    AtFirst([PageSeg(0)], PAGE_SIZE);
    assert OwnsIn(t[1], at[1], 1, [PageSeg(0)]) && at[1].Has(at[1].Addr(0)) && at[1].Addr(0) == PAGE_SIZE;
    hide At;
    assert t[1][0].owner != 1;
  }

  lemma MapsFirst()
    ensures FixedSegs(MapResult.Mapped, [], PageSeg(0)) == [PageSeg(0)] && !Splits([], 0, PAGE_SIZE)
    ensures !Splits([PageSeg(0)], PAGE_SIZE, 2 * PAGE_SIZE)
  {
    assert Inserted([], PageSeg(0)) == [PageSeg(0)];
  }

  /** mmap of one page in the first of two regions that touch. */
  method MapOne() returns (a: AddressSpace)
    ensures fresh(a) && fresh(a.mem.Repr()) && a.Valid() && a.id == 1 && a.Spans() == TouchingSpans() && a.segs == [PageSeg(0)]
    ensures Touches([[Page(Free, NO_OWNER)], [Page(Free, NO_OWNER)]], a.mem.Tables(), 1)
  {
    hide PageAllocator.Valid, PageAllocator.Tables, Owns, Touches, Apart, Ordered, Unmapped, Combined, Inserted, FixedSegs, Splits, CanTake,
      SpansOf, AddressSpace.Spans, PageStart, Touched, PageCount, NewSeg, Kind, Unowned, MapsFile, JoinsKeep;
    var mem := TwoRegions();
    SegmentAcross();
    NoneOwned();
    a := new AddressSpace(1, mem);
    a.SpansAre();
    ReallocFlag();
    NewPage(0);
    MapsFirst();
    CanTakePage(mem.Tables(), 0);
    var r := a.MapFixed(0, PAGE_SIZE, 3, None, 0, PAF_REALLOC, false, 1);
  }

  /** And of one in the second: one segment. */
  method MapAcross() returns (a: AddressSpace)
    ensures fresh(a) && fresh(a.mem.Repr()) && a.Valid() && a.Spans() == TouchingSpans() && a.segs == [TwoPages()]
  {
    hide PageAllocator.Valid, PageAllocator.Tables, Owns, Touches, Apart, Ordered, Unmapped, Combined, Inserted, FixedSegs, Splits, CanTake,
      SpansOf, AddressSpace.Spans, PageStart, Touched, PageCount, NewSeg, Kind, MapsFile, JoinsKeep;
    a := MapOne();
    SegmentAcross();
    ReallocFlag();
    NewPage(PAGE_SIZE);
    MapsFirst();
    SecondFree(a.mem.Tables());
    CanTakePage(a.mem.Tables(), 1);
    var r := a.MapFixed(PAGE_SIZE, PAGE_SIZE, 3, None, 0, PAF_REALLOC, false, 1);
  }

  lemma NoneOwned()
    ensures Unowned([[Page(Free, NO_OWNER)], [Page(Free, NO_OWNER)]], 1)
  {
  }

  /** munmap of a segment that lies across two regions. */
  method UnmapTwoPages(a: AddressSpace, room: nat) returns (r: Outcome)
    requires a.Valid() && a.segs == [TwoPages()] && a.Spans() == TouchingSpans()
    modifies a`segs, a.mem.Repr()
    ensures r == Fault && a.segs == []
    ensures !a.Exact() && Owns(a.mem.Tables(), a.Spans(), a.id, old(a.segs))
  {
    hide AddressSpace.Sound, Owns, PageAllocator.Tables, PageAllocator.Repr, Touches, Apart,
      AddressSpace.Spans, Ordered, PartsInOne, Splits, Unmapped, FixedSegs, PartUnmapped;
    SegmentAcross();
    var rest;
    ghost var k;
    AcrossUnmapped();
    r, rest, k := a.Munmap(0, 2 * PAGE_SIZE, false, room);
  }

  lemma AcrossUnmapped()
    ensures var was := [TwoPages()];
            && !Splits(was, 0, 2 * PAGE_SIZE) && OnPage(0) && OnPage(2 * PAGE_SIZE)
            && PartUnmapped(was, 0, 0, 2 * PAGE_SIZE) == was && PartUnmapped(was, 1, 0, 2 * PAGE_SIZE) == []
  {
    var was := [TwoPages()];
    assert was[..1] == was;
    assert Unmapped(was, 0, 2 * PAGE_SIZE) == Cut(was[0], 0, 2 * PAGE_SIZE) + Unmapped([], 0, 2 * PAGE_SIZE);
  }

  /**
     Two mmaps and one munmap: the munmap faults, nothing is mapped any more, and both pages are still owned.
   */
  method UnmapAcross(room: nat) returns (a: AddressSpace, r: Outcome)
    ensures fresh(a) && r == Fault && a.segs == [] && !a.Exact() && Owns(a.mem.Tables(), a.Spans(), a.id, [TwoPages()])
  {
    hide Owns, PageAllocator.Tables, PageAllocator.Valid, Apart, Ordered;
    a := MapAcross();
    r := UnmapTwoPages(a, room);
  }

  // ----- a page taken and not mapped -----

  lemma OrderOfTwo()
    ensures 1 % PAGE_SIZE == 1 && AllocOrder(1 + PAGE_SIZE) == 1 && Touched(1, PAGE_SIZE) == 2 && Touched(0, PAGE_SIZE) == 1
  {
    assert PageCount(1 + PAGE_SIZE) == 2;
    assert Pow2(1) == 2 && Pow2(0) == 1;
    var o := CeilLog2(2);
    if o > 1 { Pow2Monotone(1, o - 1); }
  }

  lemma ServesAll(mem: PageAllocator, r: Region)
    requires r in mem.regions && r.attr == 0 && r.pages.Length == Pow2(r.top)
    requires forall p :: 0 <= p < r.pages.Length ==> r.pages[p] == Page(Free, NO_OWNER)
    ensures !mem.NoneServes(r.top, PAF_REALLOC)
  {
    hide FreePages, Block;
    WholeRegion(r.pages[..], r.top);
    assert Suits(0, PAF_REALLOC);
    assert mem.Serves(r, r.top, PAF_REALLOC);
  }

  lemma OneSpan(mem: PageAllocator)
    requires |mem.regions| == 1 && mem.regions[0].base == mem.regions[0].begin == 0 && mem.regions[0].end == PageBytes(Pow2(1))
    ensures Apart(SpansOf(mem))
  {
    assert Pow2(1) == 2;
  }

  lemma AllUnowned(mem: PageAllocator)
    requires |mem.regions| == 1
    requires forall p :: 0 <= p < mem.regions[0].pages.Length ==> mem.regions[0].pages[p] == Page(Free, NO_OWNER)
    ensures Unowned(mem.Tables(), 1)
  {
  }

  /** mmap of one page near an address that is not on a page boundary takes two and maps one. */
  method MapNearby() returns (a: AddressSpace, r: MapResult, x: nat)
    ensures fresh(a) && r == MapResult.Mapped && !a.Valid()
  {
    hide Region.Valid, Region.Placed, PageAllocator.Tables, Apart, Unowned, AllocOrder, Touched, Kind, Powers.Pow2, PageAllocator.NoneServes,
      MapsFile, JoinsKeep, Combined, Inserted, NewSeg, Vacancy, Touches, AddressSpace.Valid, SpansOf;
    var reg := NewRegion(0, 1);
    var mem := new PageAllocator([reg], [reg]);
    OneSpan(mem);
    AllUnowned(mem);
    a := new AddressSpace(1, mem);
    OrderOfTwo();
    ReallocFlag();
    ServesAll(mem, reg);
    r, x := a.MapAnywhere(1, PAGE_SIZE, 3, None, 0, PAF_REALLOC, false, 1);
  }

  // ----- a page mapped and not owned -----

  /** The page mapped can be taken again. */
  lemma CanTakeAgain(t: seq<seq<Page>>)
    requires Owns(t, TouchingSpans(), 1, [PageSeg(0)])
    requires Touches([[Page(Free, NO_OWNER)], [Page(Free, NO_OWNER)]], t, 1)
    ensures |t| == 2 && CanTake(t, TouchingSpans(), 1, 0, PAGE_SIZE, true)
    ensures !Vacancy([PageSeg(0)], 0, 1)
  {
    var at := TouchingSpans();
    AtFirst([PageSeg(0)], 0);
    assert At([PageSeg(0)], Nth(0, 0)).Some?;
    assert OwnsIn(t[0], at[0], 1, [PageSeg(0)]) && at[0].Has(at[0].Addr(0)) && at[0].Addr(0) == 0;
    hide At;
    assert t[0][0] == Page(Fixed, 1);
    assert at[0].Holds(0, PAGE_SIZE) && FirstPage(at[0].base, 0) == 0 && EndPage(at[0].base, 0, PAGE_SIZE) == 1;
  }

  /** mmap over it of a file that cannot be read fails: the page stays mapped and is given away. */
  method DropMapped() returns (a: AddressSpace, r: MapResult)
    ensures fresh(a) && r == MapResult.Dropped && a.segs == [PageSeg(0)] && !a.Exact()
  {
    hide PageAllocator.Valid, PageAllocator.Tables, Owns, Touches, Apart, Ordered, Unmapped, Combined, Inserted, Splits, CanTake,
      SpansOf, AddressSpace.Spans, PageStart, Touched, PageCount, NewSeg, Kind, MapsFile, JoinsKeep, Vacancy;
    a := MapOne();
    ReallocFlag();
    NewPage(0);
    NewFilePage();
    CanTakeAgain(a.mem.Tables());
    r := a.MapFixed(0, PAGE_SIZE, 3, Some(7), 0, PAF_REALLOC, false, 1);
  }

  lemma NewFilePage()
    ensures 0 % PAGE_SIZE == 0
    ensures NewSeg(0, PAGE_SIZE, 3, PAF_REALLOC, Some(7), 0) == Seg(0, PAGE_SIZE, 3, PAF_REALLOC, Some(7), 0, PAGE_SIZE)
  {
  }
}
