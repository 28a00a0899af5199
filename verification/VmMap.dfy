/** What mapping memory does to pages and segments: as_map and as_insert of untranslated.cpp and vm.cpp. */
module VmMap {
  import opened KernelConfig
  import opened Queues
  import opened Regions
  import opened Pages
  import opened Segments
  import opened SegFiles
  import opened VmSpec

  /** Start of the page of an address, and the number of pages that `len` bytes from it on touch. */
  function PageStart(a: nat): (x: nat)
    ensures x % PAGE_SIZE == 0 && x <= a < x + PAGE_SIZE
  {
    a - a % PAGE_SIZE
  }

  function Touched(a: nat, len: nat): (n: nat)
    ensures a % PAGE_SIZE + len <= n * PAGE_SIZE < a % PAGE_SIZE + len + PAGE_SIZE
  {
    PageCount(a % PAGE_SIZE + len)
  }

  /** Pages [first, first + n) of region i taken by `id`, where they were free. */
  ghost function Taken(t: seq<seq<Page>>, i: nat, first: nat, n: nat, id: Owner): seq<seq<Page>>
    requires i < |t|
  {
    t[i := Reserved(t[i], first, first + n, Fixed, id)]
  }

  ghost function GivenBack(t: seq<seq<Page>>, i: nat, first: nat, n: nat): seq<seq<Page>>
    requires i < |t|
  {
    t[i := SetRange(t[i], first, first + n, Page(Free, NO_OWNER))]
  }

  /** The range of pages of a request by address. */
  lemma RequestPages(at: Span, addr: nat, len: nat)
    requires OnPage(at.base) && OnPage(at.begin) && OnPage(at.end) && at.base <= at.begin
    requires len > 0 && at.Holds(addr, len)
    ensures var x, n := PageStart(addr), Touched(addr, len);
            && n > 0 && OnPage(x) && at.Holds(x, n * PAGE_SIZE)
            && FirstPage(at.base, addr) == FirstPage(at.base, x)
            && at.Addr(FirstPage(at.base, x)) == x
            && EndPage(at.base, addr, len) == FirstPage(at.base, x) + n
  {
  }

  /** Pages of the region and addresses of the range [x, x + n pages). */
  ghost predicate Range(at: Span, table: seq<Page>, x: nat, n: nat) {
    && OnPage(at.base) && OnPage(x) && at.base <= at.begin && at.Holds(x, n * PAGE_SIZE)
    && at.end <= at.Addr(|table|)
  }

  lemma RangePages(at: Span, table: seq<Page>, x: nat, n: nat, p: nat)
    requires Range(at, table, x, n)
    ensures FirstPage(at.base, x) <= p < FirstPage(at.base, x) + n <==> x <= at.Addr(p) < x + n * PAGE_SIZE
    ensures at.Addr(FirstPage(at.base, x)) == x && FirstPage(at.base, x) + n <= |table|
  {
  }

  /** The address of page q of the range. */
  function Nth(x: nat, q: nat): nat {
    x + q * PAGE_SIZE
  }

  lemma NthOrder(x: nat, q: nat, m: nat)
    ensures x <= Nth(x, q)
    ensures q < m <==> Nth(x, q) < x + m * PAGE_SIZE
    ensures Nth(x, m) == x + m * PAGE_SIZE
  {
  }

  predicate Agree(table: seq<Page>, id: Owner, segs: seq<Seg>, first: nat, x: nat, q: nat)
    requires first + q < |table|
  {
    table[first + q].owner == id <==> At(segs, Nth(x, q)).Some?
  }

  /** Pages and segments agree on the pages of the range. */
  ghost predicate AgreeOn(table: seq<Page>, id: Owner, segs: seq<Seg>, first: nat, x: nat, n: nat)
    requires first + n <= |table|
  {
    forall q: nat :: q < n ==> Agree(table, id, segs, first, x, q)
  }

  /** A change confined to a range keeps an address space owning what it maps when pages and segments agree on the range. */
  lemma RangeIff(t: seq<seq<Page>>, t': seq<seq<Page>>, at: seq<Span>, id: Owner, segs: seq<Seg>, segs': seq<Seg>,
                 i: nat, x: nat, n: nat)
    requires Owns(t, at, id, segs) && Apart(at) && i < |t| == |t'| && Range(at[i], t[i], x, n) && |t'[i]| == |t[i]|
    requires forall j :: 0 <= j < |t| && j != i ==> t'[j] == t[j]
    requires var first := FirstPage(at[i].base, x);
             forall p :: 0 <= p < |t[i]| ==>
               if first <= p < first + n then t'[i][p].owner == id ==> t'[i][p].state == Fixed else t'[i][p] == t[i][p]
    requires forall a: nat :: !(x <= a < x + n * PAGE_SIZE) ==> At(segs', a).Some? == At(segs, a).Some?
    ensures FirstPage(at[i].base, x) + n <= |t'[i]|
    ensures Owns(t', at, id, segs') <==> AgreeOn(t'[i], id, segs', FirstPage(at[i].base, x), x, n)
  {
    var first := FirstPage(at[i].base, x);
    forall p: nat ensures first <= p < first + n <==> x <= at[i].Addr(p) < x + n * PAGE_SIZE {
      RangePages(at[i], t[i], x, n, p);
    }
    RangePages(at[i], t[i], x, n, 0);
    hide At, OnPage, FirstPage;
    assert Housed(at, segs') by {
      forall a: nat | At(segs', a).Some? ensures exists j :: 0 <= j < |at| && at[j].Has(a) {
        if x <= a < x + n * PAGE_SIZE { assert at[i].Has(a); }
      }
    }
    forall j | 0 <= j < |t| && j != i ensures OwnsIn(t'[j], at[j], id, segs') {
      assert OwnsIn(t[j], at[j], id, segs);
      assert forall a: nat :: at[j].Has(a) ==> !at[i].Has(a);
      OtherRegion(t[j], at[j], id, segs, segs');
    }
    RangeIffIn(t[i], t'[i], at[i], id, segs, segs', first, x, n);
  }

  lemma RangeIffIn(table: seq<Page>, table': seq<Page>, at: Span, id: Owner, segs: seq<Seg>, segs': seq<Seg>,
                   first: nat, x: nat, n: nat)
    requires OwnsIn(table, at, id, segs) && |table'| == |table| && at.Addr(first) == x && first + n <= |table|
    requires forall p :: 0 <= p < |table| ==>
               if first <= p < first + n then (table'[p].owner == id ==> table'[p].state == Fixed) && at.Has(at.Addr(p))
               else table'[p] == table[p]
    requires forall p: nat :: !(first <= p < first + n) ==> At(segs', at.Addr(p)).Some? == At(segs, at.Addr(p)).Some?
    ensures OwnsIn(table', at, id, segs') <==> AgreeOn(table', id, segs', first, x, n)
  {
    hide At;
    if OwnsIn(table', at, id, segs') {
      forall q: nat | q < n ensures Agree(table', id, segs', first, x, q) {
        assert at.Addr(first + q) == Nth(x, q);
      }
    }
    if AgreeOn(table', id, segs', first, x, n) {
      forall p | first <= p < first + n ensures table'[p].owner == id <==> At(segs', at.Addr(p)).Some? {
        assert at.Addr(p) == Nth(x, p - first);
        assert Agree(table', id, segs', first, x, p - first);
      }
    }
  }

  /** Where the pages of the range are, and that `id` may take them. */
  ghost predicate Takes(t: seq<seq<Page>>, at: seq<Span>, id: Owner, i: nat, x: nat, n: nat) {
    && i < |t| == |at| && n > 0 && id != NO_OWNER && Range(at[i], t[i], x, n)
    && FreeUnowned(t[i])
    && (forall p :: FirstPage(at[i].base, x) <= p < FirstPage(at[i].base, x) + n && p < |t[i]| ==>
          t[i][p].state == Free || t[i][p] == Page(Fixed, id))
  }

  /** Before the change, pages and segments agree on the range. */
  lemma AgreeBefore(t: seq<seq<Page>>, at: seq<Span>, id: Owner, segs: seq<Seg>, i: nat, x: nat, n: nat)
    requires Owns(t, at, id, segs) && Apart(at) && i < |t| && Range(at[i], t[i], x, n)
    ensures FirstPage(at[i].base, x) + n <= |t[i]| && AgreeOn(t[i], id, segs, FirstPage(at[i].base, x), x, n)
  {
    assert OwnsIn(t[i], at[i], id, segs);
    hide At;
    RangeIff(t, t, at, id, segs, segs, i, x, n);
  }

  /**
     A fixed mapping: n pages are taken and m of them mapped. All that the address space owns is then
     mapped exactly when the counts agree or the page left over was mapped before.
   */
  lemma MappedOwns(t: seq<seq<Page>>, at: seq<Span>, id: Owner, segs: seq<Seg>, segs': seq<Seg>, i: nat, x: nat, m: nat, n: nat)
    requires Owns(t, at, id, segs) && Apart(at) && Takes(t, at, id, i, x, n) && m <= n <= m + 1
    requires forall a: nat :: At(segs', a).Some? == (x <= a < x + m * PAGE_SIZE || At(segs, a).Some?)
    ensures Owns(Taken(t, i, FirstPage(at[i].base, x), n, id), at, id, segs') <==> n == m || At(segs, Nth(x, m)).Some?
  {
    var first := FirstPage(at[i].base, x);
    var t' := Taken(t, i, first, n, id);
    RangeIff(t, t', at, id, segs, segs', i, x, n);
    forall q: nat ensures At(segs', Nth(x, q)).Some? == (q < m || At(segs, Nth(x, q)).Some?) {
      NthOrder(x, q, m);
    }
    hide At, FirstPage, Range, Owns, Nth;
    if AgreeOn(t'[i], id, segs', first, x, n) && m < n {
      assert Agree(t'[i], id, segs', first, x, m);
    }
  }

  /** Nothing in the range is mapped. */
  ghost predicate Vacancy(segs: seq<Seg>, x: nat, k: nat) {
    forall q: nat :: q < k ==> At(segs, Nth(x, q)).None?
  }

  /**
     A fixed mapping that fails gives back the first k of the n pages taken. The pages of a mapping
     that was there before go with them.
   */
  lemma DroppedOwns(t: seq<seq<Page>>, at: seq<Span>, id: Owner, segs: seq<Seg>, i: nat, x: nat, k: nat, n: nat)
    requires Owns(t, at, id, segs) && Apart(at) && Takes(t, at, id, i, x, n) && k <= n <= k + 1
    ensures var first := FirstPage(at[i].base, x);
            Owns(GivenBack(Taken(t, i, first, n, id), i, first, k), at, id, segs) <==>
              Vacancy(segs, x, k) && (k == n || At(segs, Nth(x, k)).Some?)
  {
    var first := FirstPage(at[i].base, x);
    var t' := GivenBack(Taken(t, i, first, n, id), i, first, k);
    RangeIff(t, t', at, id, segs, segs, i, x, n);
    hide At, FirstPage, Range, Owns, Nth, Apart, AgreeOn;
    AgreeFrom(t'[i], id, segs, first, x, k, n);
  }

  /** Of the pages of the range only those from page k on are owned. */
  lemma AgreeFrom(table: seq<Page>, id: Owner, segs: seq<Seg>, first: nat, x: nat, k: nat, n: nat)
    requires first + n <= |table| && k <= n <= k + 1
    requires forall p :: first <= p < first + n ==> (table[p].owner == id <==> p >= first + k)
    ensures AgreeOn(table, id, segs, first, x, n) <==> Vacancy(segs, x, k) && (k == n || At(segs, Nth(x, k)).Some?)
  {
    hide At, Nth;
    if AgreeOn(table, id, segs, first, x, n) {
      forall q: nat | q < k ensures At(segs, Nth(x, q)).None? {
        assert Agree(table, id, segs, first, x, q);
      }
      assert k < n ==> Agree(table, id, segs, first, x, k);
    }
  }

  /** The same where the old mapping of the first m pages is gone as well. */
  lemma LostOwns(t: seq<seq<Page>>, at: seq<Span>, id: Owner, segs: seq<Seg>, segs': seq<Seg>, i: nat, x: nat, k: nat, m: nat, n: nat)
    requires Owns(t, at, id, segs) && Apart(at) && Takes(t, at, id, i, x, n) && k <= m <= n <= k + 1
    requires Unmaps(segs, segs', x, m * PAGE_SIZE)
    ensures var first := FirstPage(at[i].base, x);
            Owns(GivenBack(Taken(t, i, first, n, id), i, first, k), at, id, segs') <==>
              k == n || (k == m && At(segs, Nth(x, k)).Some?)
  {
    hide At, FirstPage, Owns, Nth, Apart, OnPage;
    var first := FirstPage(at[i].base, x);
    var t' := GivenBack(Taken(t, i, first, n, id), i, first, k);
    RangeIff(t, t', at, id, segs, segs', i, x, n);
    forall q: nat ensures At(segs', Nth(x, q)).Some? == (q >= m && At(segs, Nth(x, q)).Some?) {
      NthOrder(x, q, m);
    }
    hide Range;
    if AgreeOn(t'[i], id, segs', first, x, n) && k < n {
      assert Agree(t'[i], id, segs', first, x, k);
    }
  }

  /** Pages taken and nothing mapped. */
  lemma AssertsOwns(t: seq<seq<Page>>, at: seq<Span>, id: Owner, segs: seq<Seg>, i: nat, x: nat, n: nat)
    requires Owns(t, at, id, segs) && Apart(at) && Takes(t, at, id, i, x, n)
    ensures Owns(Taken(t, i, FirstPage(at[i].base, x), n, id), at, id, segs) <==> forall q: nat :: q < n ==> At(segs, Nth(x, q)).Some?
  {
    hide At, FirstPage, Owns, Nth, Apart, OnPage;
    var first := FirstPage(at[i].base, x);
    var t' := Taken(t, i, first, n, id);
    RangeIff(t, t', at, id, segs, segs, i, x, n);
    hide Range;
    forall q: nat | q < n ensures Agree(t'[i], id, segs, first, x, q) <==> At(segs, Nth(x, q)).Some? {
    }
  }

  lemma TakenTouches(t: seq<seq<Page>>, at: seq<Span>, id: Owner, i: nat, x: nat, k: nat, n: nat)
    requires Takes(t, at, id, i, x, n) && k <= n
    ensures var first := FirstPage(at[i].base, x);
            var t1 := Taken(t, i, first, n, id);
            && Touches(t, t1, id) && Touches(t, GivenBack(t1, i, first, k), id)
            && first + n <= |t[i]| && FreeVerdict(t1[i], first, first + k, id) == Freed
  {
    RangePages(at[i], t[i], x, n, 0);
    hide FirstPage, Range;
    var first := FirstPage(at[i].base, x);
    var t1 := Taken(t, i, first, n, id);
    forall p | first <= p < first + k ensures Releasable(t1[i][p], id) {
    }
  }

  // ----- a mapping anywhere -----

  /** Free pages are not mapped. */
  lemma FreeVacant(t: seq<seq<Page>>, at: seq<Span>, id: Owner, segs: seq<Seg>, i: nat, x: nat, n: nat)
    requires Owns(t, at, id, segs) && Apart(at) && Takes(t, at, id, i, x, n)
    requires AllFree(t[i], FirstPage(at[i].base, x), FirstPage(at[i].base, x) + n)
    ensures Vacancy(segs, x, n)
  {
    AgreeBefore(t, at, id, segs, i, x, n);
    var first := FirstPage(at[i].base, x);
    hide At, FirstPage, Range, Owns, Nth, Apart;
    forall q: nat | q < n ensures At(segs, Nth(x, q)).None? {
      assert Agree(t[i], id, segs, first, x, q);
    }
  }

  lemma VacancyAll(segs: seq<Seg>, x: nat, n: nat, a: nat)
    requires Ordered(segs) && OnPage(x) && Vacancy(segs, x, n) && x <= a < x + n * PAGE_SIZE
    ensures At(segs, a).None?
  {
    var q := (a - x) / PAGE_SIZE;
    assert q < n && Nth(x, q) == Span(x, 0, 0).Addr(q);
    if At(segs, a).Some? {
      PageWide(segs, Span(x, 0, 0), a);
    }
  }

  lemma VacancyVacant(segs: seq<Seg>, s: Seg, n: nat)
    requires Ordered(segs) && OnPage(s.base) && Vacancy(segs, s.base, n) && s.len <= n * PAGE_SIZE
    ensures Vacant(segs, s)
  {
    hide At, Ordered, OnPage, Vacancy;
    forall a: nat | s.Has(a) ensures At(segs, a) == None {
      VacancyAll(segs, s.base, n, a);
    }
  }

  /** The list with the new segment, where nothing was mapped. */
  lemma InsertVacant(segs: seq<Seg>, s: Seg, n: nat)
    requires Ordered(segs) && OnPage(s.base) && OnPage(s.len) && s.len > 0
    requires Vacancy(segs, s.base, n) && s.len <= n * PAGE_SIZE
    ensures Ordered(Combined(Inserted(segs, s)))
    ensures forall a: nat :: At(Combined(Inserted(segs, s)), a) == if s.Has(a) then Some(s.Gives()) else At(segs, a)
  {
    forall a: nat | s.Has(a) ensures At(segs, a) == None {
      VacancyAll(segs, s.base, n, a);
    }
    InsertedOrdered(segs, s);
    CombinedOrdered(Inserted(segs, s));
    hide At, Inserted, Combined, Ordered;
    forall a: nat ensures At(Combined(Inserted(segs, s)), a) == if s.Has(a) then Some(s.Gives()) else At(segs, a) {
      InsertedAt(segs, s, a);
      CombinedAt(Inserted(segs, s), a);
    }
  }

  /** A new segment longer than the room for it runs into the next one. */
  lemma InsertClash(segs: seq<Seg>, s: Seg, a: nat)
    requires Ordered(segs) && s.len > 0 && s.Has(a) && s.base < a && At(segs, a).Some? && At(segs, s.base).None?
    ensures !Ordered(Combined(Inserted(segs, s)))
  {
    var j, k := Find(segs, a), Place(segs, s.base);
    if segs[j].base <= s.base {
      AtIs(segs, s.base, j);
      assert false;
    }
    assert k <= j && segs[k].base <= segs[j].base by {
      assert k < j ==> segs[k].End() <= segs[j].base;
    }
    var ins := Inserted(segs, s);
    assert ins[k] == s && ins[k + 1] == segs[k];
    CombinedClash(ins);
  }

  lemma InsertMaps(segs: seq<Seg>, s: Seg, a: nat)
    ensures At(Combined(Inserted(segs, s)), a).Some? == (s.Has(a) || At(segs, a).Some?)
  {
    var k := Place(segs, s.base);
    CombinedAt(Inserted(segs, s), a);
    AtConcat(segs[..k], [s], a);
    AtConcat(segs[..k] + [s], segs[k..], a);
    assert segs == segs[..k] + segs[k..];
    AtConcat(segs[..k], segs[k..], a);
    AtFirst([s], a);
    hide At, Combined;
  }

  /** A page past those taken is mapped by the new segment but not owned. */
  lemma OverhangNotOwned(t: seq<seq<Page>>, at: seq<Span>, id: Owner, segs: seq<Seg>, segs': seq<Seg>, i: nat, x: nat, n: nat)
    requires Owns(t, at, id, segs) && Apart(at) && Takes(t, at, id, i, x, n)
    requires At(segs, Nth(x, n)).None? && At(segs', Nth(x, n)).Some?
    ensures !Owns(Taken(t, i, FirstPage(at[i].base, x), n, id), at, id, segs')
  {
    var first := FirstPage(at[i].base, x);
    var t' := Taken(t, i, first, n, id);
    var a := Nth(x, n);
    forall p: nat ensures at[i].Addr(p) == a ==> !(first <= p < first + n) {
      RangePages(at[i], t[i], x, n, p);
    }
    NthOnPage(x, n);
    hide At, FirstPage, Nth, OnPage, Apart;
    if Owns(t', at, id, segs') {
      var j, p := OwnedPage(t', at, id, segs', a);
    }
  }

  lemma NthOnPage(x: nat, n: nat)
    requires OnPage(x)
    ensures OnPage(Nth(x, n))
  {
  }

  /** Memory mapped where the allocator finds room: n pages taken, m mapped. Nothing is lost or shared exactly when these agree. */
  lemma AnywhereOwns(t: seq<seq<Page>>, at: seq<Span>, id: Owner, segs: seq<Seg>, s: Seg, i: nat, m: nat, n: nat)
    requires Owns(t, at, id, segs) && Apart(at) && Ordered(segs) && Takes(t, at, id, i, s.base, n)
    requires AllFree(t[i], FirstPage(at[i].base, s.base), FirstPage(at[i].base, s.base) + n)
    requires s.len == m * PAGE_SIZE && m > 0 && m <= n + 1 && n <= m + 1
    ensures var segs' := Combined(Inserted(segs, s));
            Ordered(segs') && Owns(Taken(t, i, FirstPage(at[i].base, s.base), n, id), at, id, segs') <==> n == m
  {
    var segs' := Combined(Inserted(segs, s));
    FreeVacant(t, at, id, segs, i, s.base, n);
    NthOrder(s.base, n, m);
    NthOrder(s.base, 0, n);
    if m <= n {
      InsertVacant(segs, s, n);
      hide At, FirstPage, Range, Owns, Ordered, Combined, Inserted, Nth;
      MappedOwns(t, at, id, segs, segs', i, s.base, m, n);
      assert m < n ==> At(segs, Nth(s.base, m)).None?;
    } else {
      assert At(segs, Nth(s.base, 0)).None?;
      InsertMaps(segs, s, Nth(s.base, n));
      hide At, FirstPage, Range, Owns, Ordered, Combined, Inserted;
      if At(segs, Nth(s.base, n)).Some? {
        InsertClash(segs, s, Nth(s.base, n));
      } else {
        OverhangNotOwned(t, at, id, segs, segs', i, s.base, n);
      }
    }
  }

  // ----- a mapping at a fixed address -----

  /** Some region has all the memory asked for, and every page of it is free or, with `realloc`, owned already. */
  ghost predicate CanTake(t: seq<seq<Page>>, at: seq<Span>, id: Owner, addr: nat, len: nat, realloc: bool)
    requires |t| == |at| && len > 0
  {
    exists i :: 0 <= i < |t| && at[i].Holds(addr, len) && at[i].base <= at[i].begin
                && EndPage(at[i].base, addr, len) <= |t[i]|
                && CanReserve(t[i], FirstPage(at[i].base, addr), EndPage(at[i].base, addr, len), Fixed, realloc, id)
  }

  lemma NoneHolds(t: seq<seq<Page>>, at: seq<Span>, id: Owner, addr: nat, len: nat, realloc: bool)
    requires |t| == |at| && len > 0 && forall j :: 0 <= j < |at| ==> !at[j].Holds(addr, len)
    ensures !CanTake(t, at, id, addr, len, realloc)
  {
  }

  /** The region that has the memory decides, and if it can give it the pages are there to be taken. */
  lemma RegionHolds(t: seq<seq<Page>>, at: seq<Span>, id: Owner, addr: nat, len: nat, realloc: bool, i: nat)
    requires Reach(t, at) && Apart(at) && len > 0 && id != NO_OWNER && i < |t| && at[i].Holds(addr, len)
    requires FreeUnowned(t[i])
    ensures var x, n := PageStart(addr), Touched(addr, len);
            var first, end := FirstPage(at[i].base, addr), EndPage(at[i].base, addr, len);
            && at[i].base <= addr && first == FirstPage(at[i].base, x) && end == first + n && end <= |t[i]|
            && at[i].Addr(first) == x
            && (CanTake(t, at, id, addr, len, realloc) <==> CanReserve(t[i], first, end, Fixed, realloc, id))
            && (CanReserve(t[i], first, end, Fixed, realloc, id) ==> Takes(t, at, id, i, x, n))
  {
    var x, n := PageStart(addr), Touched(addr, len);
    RequestPages(at[i], addr, len);
    RangePages(at[i], t[i], x, n, 0);
    hide FirstPage, EndPage, PageStart, Touched, OnPage;
    forall j | 0 <= j < |at| && at[j].Holds(addr, len) ensures j == i {
    }
  }

  /** The segment as_insert makes. */
  function NewSeg(x: nat, len: nat, prot: Prot, attr: bv32, vn: Option<nat>, off: nat): Seg {
    Seg(x, Touched(off, len) * PAGE_SIZE, prot, attr, vn, off, if vn.Some? then len else 0)
  }

  /** Exactly the addresses of the range are given these rights. */
  ghost predicate RangeMapped(was: seq<Seg>, segs: seq<Seg>, x: nat, bytes: nat, prot: Prot, attr: bv32) {
    forall a: nat :: At(segs, a) == if x <= a < x + bytes then Some(Rights(prot, attr)) else At(was, a)
  }

  /** Exactly the addresses of the range are given the file, from the offset on, or no file. */
  ghost predicate RangeFile(was: seq<Seg>, segs: seq<Seg>, x: nat, bytes: nat, vn: Option<nat>, off: nat) {
    forall a: nat ::
      FileOf(segs, a) ==
        if !(x <= a < x + bytes) then FileOf(was, a) else if vn.None? then None else Some((vn.value, off + (a - x)))
  }

  /** What the list says about the new segment is what was asked for. */
  lemma NewSegMaps(was: seq<Seg>, segs: seq<Seg>, x: nat, len: nat, prot: Prot, attr: bv32, vn: Option<nat>, off: nat)
    ensures var s := NewSeg(x, len, prot, attr, vn, off);
            (forall a: nat :: At(segs, a) == if s.Has(a) then Some(s.Gives()) else At(was, a)) ==>
              RangeMapped(was, segs, x, Touched(off, len) * PAGE_SIZE, prot, attr)
    ensures MapsFile(was, segs, NewSeg(x, len, prot, attr, vn, off)) <==>
              RangeFile(was, segs, x, Touched(off, len) * PAGE_SIZE, vn, off)
  {
    hide At, FileOf, Touched;
  }

  /** Page counts: of the pages given back on failure, mapped and taken. */
  lemma Counts(addr: nat, off: nat, len: nat)
    requires len > 0
    ensures 0 < PageCount(len) <= Touched(addr, len) <= PageCount(len) + 1
    ensures off == 0 ==> Touched(off, len) == PageCount(len)
    ensures addr % PAGE_SIZE == off % PAGE_SIZE ==> Touched(off, len) == Touched(addr, len)
  {
  }

  /** The list after a fixed mapping: in order, and changed in the range of the new segment only. */
  lemma FixedMaps(segs: seq<Seg>, s: Seg)
    requires Ordered(segs) && OnPage(s.base) && OnPage(s.len) && s.len > 0
    ensures var segs' := Combined(Inserted(Unmapped(segs, s.base, s.End()), s));
            && Ordered(segs')
            && forall a: nat :: At(segs', a) == if s.Has(a) then Some(s.Gives()) else At(segs, a)
  {
    var u := Unmapped(segs, s.base, s.End());
    PageArithmetic(s.base, s.len);
    UnmappedOrdered(segs, s.base, s.End(), 0);
    forall a: nat ensures At(u, a) == if s.Has(a) then None else At(segs, a) {
      UnmappedAt(segs, s.base, s.End(), a);
    }
    InsertedOrdered(u, s);
    CombinedOrdered(Inserted(u, s));
    hide At, Inserted, Combined, Ordered;
    forall a: nat ensures At(Combined(Inserted(u, s)), a) == if s.Has(a) then Some(s.Gives()) else At(segs, a) {
      InsertedAt(u, s, a);
      CombinedAt(Inserted(u, s), a);
    }
  }

  lemma UnmappedUnmaps(segs: seq<Seg>, x: nat, len: nat)
    requires Ordered(segs) && OnPage(x) && OnPage(len) && len > 0
    ensures Ordered(Unmapped(segs, x, x + len)) && Unmaps(segs, Unmapped(segs, x, x + len), x, len)
  {
    hide At, Unmapped, Ordered, OnPage;
    var u := Unmapped(segs, x, x + len);
    PageArithmetic(x, len);
    UnmappedOrdered(segs, x, x + len, 0);
    forall a: nat ensures At(u, a) == if x <= a < x + len then None else At(segs, a) {
      UnmappedAt(segs, x, x + len, a);
    }
    assert Unmaps(segs, u, x, len);
  }

  /**
     Refused: nothing was done. Dropped: the pages were given back. Lost: that, and the old mapping is
     gone. Asserts: an assertion of the code fails, the pages having been taken.
   */
  datatype MapResult = Refused | Dropped | Lost | Mapped | Asserts

  ghost function FixedTables(r: MapResult, t: seq<seq<Page>>, i: nat, first: nat, k: nat, n: nat, id: Owner): seq<seq<Page>>
    requires i < |t|
  {
    match r
    case Refused => t
    case Mapped => Taken(t, i, first, n, id)
    case Asserts => Taken(t, i, first, n, id)
    case _ => GivenBack(Taken(t, i, first, n, id), i, first, k)
  }

  function FixedSegs(r: MapResult, segs: seq<Seg>, s: Seg): seq<Seg>
    requires s.len > 0
  {
    match r
    case Mapped => Combined(Inserted(Unmapped(segs, s.base, s.End()), s))
    case Lost => Unmapped(segs, s.base, s.End())
    case _ => segs
  }

  /**
     When a fixed mapping leaves the address space owning exactly what it maps: n pages taken, m
     mapped, k given back on failure.
   */
  ghost predicate FixedExact(r: MapResult, segs: seq<Seg>, x: nat, k: nat, m: nat, n: nat) {
    match r
    case Refused => true
    case Dropped => Vacancy(segs, x, k) && (k == n || At(segs, Nth(x, k)).Some?)
    case Lost => k == n || (k == m && At(segs, Nth(x, k)).Some?)
    case Mapped => n == m || At(segs, Nth(x, m)).Some?
    case Asserts => forall q: nat :: q < n ==> At(segs, Nth(x, q)).Some?
  }

  lemma FixedOutcome(r: MapResult, t: seq<seq<Page>>, at: seq<Span>, id: Owner, segs: seq<Seg>, s: Seg,
                     i: nat, k: nat, m: nat, n: nat)
    requires Owns(t, at, id, segs) && Apart(at) && Ordered(segs) && Takes(t, at, id, i, s.base, n)
    requires 0 < k <= m <= n <= k + 1 && s.len == m * PAGE_SIZE && OnPage(s.base) && OnPage(s.len)
    ensures var first := FirstPage(at[i].base, s.base);
            && Ordered(FixedSegs(r, segs, s))
            && Touches(t, FixedTables(r, t, i, first, k, n, id), id)
            && (Owns(FixedTables(r, t, i, first, k, n, id), at, id, FixedSegs(r, segs, s)) <==>
                  FixedExact(r, segs, s.base, k, m, n))
  {
    hide At, Owns, Ordered, Touches, Takes, Taken, GivenBack, Apart, Combined, Inserted, Unmapped, OnPage, Nth, Vacancy, FirstPage, Unmaps;
    TouchesSelf(t, id);
    TakenTouches(t, at, id, i, s.base, k, n);
    match r {
      case Refused =>
      case Dropped =>
        DroppedOwns(t, at, id, segs, i, s.base, k, n);
      case Lost =>
        UnmappedUnmaps(segs, s.base, s.len);
        LostOwns(t, at, id, segs, Unmapped(segs, s.base, s.End()), i, s.base, k, m, n);
      case Mapped =>
        FixedMaps(segs, s);
        MappedOwns(t, at, id, segs, FixedSegs(r, segs, s), i, s.base, m, n);
      case Asserts =>
        AssertsOwns(t, at, id, segs, i, s.base, n);
    }
  }

  /** The pages given back on failure. */
  lemma DropRegion(t: seq<seq<Page>>, at: seq<Span>, id: Owner, i: nat, x: nat, len: nat, n: nat, j: nat)
    requires Apart(at) && Takes(t, at, id, i, x, n) && len > 0 && PageCount(len) <= n && j < |at|
    ensures at[i].Holds(x, len)
    ensures at[j].Holds(x, len) ==> j == i
    ensures at[i].base <= x && EndPage(at[i].base, x, len) == FirstPage(at[i].base, x) + PageCount(len)
  {
    DropPages(at[i].base, x, len);
    hide FirstPage, EndPage, OnPage;
    assert len <= n * PAGE_SIZE;
  }

  lemma DropPages(base: nat, x: nat, len: nat)
    requires OnPage(base) && OnPage(x) && base <= x && len > 0
    ensures EndPage(base, x, len) == FirstPage(base, x) + PageCount(len)
  {
  }

  lemma SegPages(x: nat, len: nat, prot: Prot, attr: bv32, vn: Option<nat>, off: nat)
    requires len > 0
    ensures OnPage(NewSeg(x, len, prot, attr, vn, off).len) && NewSeg(x, len, prot, attr, vn, off).len > 0
  {
  }

  lemma StartPage(addr: nat)
    ensures OnPage(PageStart(addr))
  {
  }

  /** Taking free pages and giving them all back changes nothing. */
  lemma TakeFree(t: seq<seq<Page>>, i: nat, first: nat, n: nat, id: Owner)
    requires i < |t| && AllFree(t[i], first, first + n) && FreeUnowned(t[i])
    ensures Taken(t, i, first, n, id) == t[i := SetRange(t[i], first, first + n, Page(Fixed, id))]
    ensures GivenBack(Taken(t, i, first, n, id), i, first, n) == t
  {
    var a, b := Reserved(t[i], first, first + n, Fixed, id), SetRange(t[i], first, first + n, Page(Fixed, id));
    assert forall p :: 0 <= p < |t[i]| ==> a[p] == b[p];
    assert a == b;
    var c := SetRange(a, first, first + n, Page(Free, NO_OWNER));
    assert forall p :: 0 <= p < |t[i]| ==> c[p] == t[i][p];
    assert c == t[i];
    assert t[i := t[i]] == t;
  }

  /** Free pages of a region can be taken. */
  lemma FreeTakes(t: seq<seq<Page>>, at: seq<Span>, id: Owner, i: nat, page: nat, n: nat)
    requires Reach(t, at) && Apart(at) && i < |t| && n > 0 && id != NO_OWNER && FreeUnowned(t[i])
    requires AllFree(t[i], page, page + n) && at[i].Holds(at[i].Addr(page), n * PAGE_SIZE)
    ensures at[i].base <= at[i].Addr(page) && FirstPage(at[i].base, at[i].Addr(page)) == page
    ensures Takes(t, at, id, i, at[i].Addr(page), n) && OnPage(at[i].Addr(page))
  {
    PageOn(at[i].base, page);
    hide OnPage, FirstPage;
  }

  /** Free pages are memory of their region. */
  lemma InMemory(table: seq<Page>, base: nat, begin: nat, end: nat, page: nat, n: nat)
    requires HolesOutside(table, base, begin, end) && n > 0 && AllFree(table, page, page + n)
    ensures begin <= base + page * PAGE_SIZE && base + page * PAGE_SIZE + n * PAGE_SIZE <= end
  {
    assert table[page].state == Free && table[page + n - 1].state == Free;
  }

  lemma PageOn(base: nat, page: nat)
    requires OnPage(base)
    ensures OnPage(base + page * PAGE_SIZE) && FirstPage(base, base + page * PAGE_SIZE) == page
  {
  }

  // ----- states that show where mmap does not keep pages and segments in step -----

  /** A page at x, as mmap of anonymous memory makes it. */
  function PageSeg(x: nat): Seg {
    Seg(x, PAGE_SIZE, 3, PAF_REALLOC, None, 0, 0)
  }

  /** One page of memory, mapped; a fixed mapping over it whose file cannot be read gives the page away and keeps the segment. */
  lemma DropBreaks()
    ensures var at, t, segs := [Span(0, 0, PAGE_SIZE)], [[Page(Fixed, 1)]], [PageSeg(0)];
            && Apart(at) && Owns(t, at, 1, segs) && Takes(t, at, 1, 0, 0, 1)
            && !Owns(GivenBack(Taken(t, 0, 0, 1, 1), 0, 0, 1), at, 1, segs)
  {
    var at, t, segs := [Span(0, 0, PAGE_SIZE)], [[Page(Fixed, 1)]], [PageSeg(0)];
    forall a: nat ensures At(segs, a).Some? <==> a < PAGE_SIZE {
      AtFirst(segs, a);
    }
    hide At;
    assert OwnsIn(t[0], at[0], 1, segs);
    assert FirstPage(0, 0) == 0;
    DroppedOwns(t, at, 1, segs, 0, 0, 1, 1);
    assert At(segs, Nth(0, 0)).Some?;
  }

  /** Two regions of a page each that touch. */
  function TouchingSpans(): seq<Span> {
    [Span(0, 0, PAGE_SIZE), Span(PAGE_SIZE, PAGE_SIZE, 2 * PAGE_SIZE)]
  }

  function TwoPages(): Seg {
    Seg(0, 2 * PAGE_SIZE, 3, PAF_REALLOC, None, 0, 0)
  }

  /**
     Two fixed mappings, one in each region, become one segment. Pages and segments are in step, yet
     the segment lies in no one region.
   */
  lemma SegmentAcross()
    ensures var at, t, s := TouchingSpans(), [[Page(Fixed, 1)], [Page(Fixed, 1)]], PageSeg(0);
            && FixedSegs(MapResult.Mapped, FixedSegs(MapResult.Mapped, [], s), s.(base := PAGE_SIZE)) == [TwoPages()]
            && Apart(at) && Ordered([TwoPages()]) && Owns(t, at, 1, [TwoPages()])
            && !PartsInOne(at, [TwoPages()], 0, 2 * PAGE_SIZE)
  {
    hide At, Owns, Ordered, FixedSegs, PartsInOne;
    AcrossList(PageSeg(0));
    AcrossOwns();
    AcrossParts();
  }

  lemma AcrossParts()
    ensures Ordered([TwoPages()]) && !PartsInOne(TouchingSpans(), [TwoPages()], 0, 2 * PAGE_SIZE)
  {
    assert !PartInOne(TouchingSpans(), [TwoPages()][0], 0, 2 * PAGE_SIZE);
  }

  lemma AcrossOwns()
    ensures Owns([[Page(Fixed, 1)], [Page(Fixed, 1)]], TouchingSpans(), 1, [TwoPages()])
  {
    var at, t, segs := TouchingSpans(), [[Page(Fixed, 1)], [Page(Fixed, 1)]], [TwoPages()];
    forall a: nat ensures At(segs, a).Some? <==> a < 2 * PAGE_SIZE {
      AtFirst(segs, a);
    }
    hide At;
    assert OwnsIn(t[0], at[0], 1, segs) && OwnsIn(t[1], at[1], 1, segs);
    assert Housed(at, segs) by {
      forall a: nat | At(segs, a).Some? ensures exists i :: 0 <= i < |at| && at[i].Has(a) {
        assert at[0].Has(a) || at[1].Has(a);
      }
    }
  }

  lemma AcrossList(s: Seg)
    requires s == PageSeg(0)
    ensures FixedSegs(MapResult.Mapped, FixedSegs(MapResult.Mapped, [], s), s.(base := PAGE_SIZE)) == [TwoPages()]
  {
    var b := s.(base := PAGE_SIZE);
    assert Unmapped([], 0, PAGE_SIZE) == [];
    assert Inserted([], s) == [s] && Combined([s]) == [s];
    assert Unmapped([s], PAGE_SIZE, 2 * PAGE_SIZE) == [s] + Unmapped([], PAGE_SIZE, 2 * PAGE_SIZE);
    assert Inserted([s], b) == [s, b];
    assert [s.(len := s.len + b.len)] + [s, b][2..] == [TwoPages()];
    assert Combined([s, b]) == Combined([TwoPages()]);
  }
}
