/** How the pages an address space owns correspond to the segments it maps: sys/mem/vm.cpp and untranslated.cpp. */
module VmSpec {
  import opened KernelConfig
  import opened Queues
  import opened Regions
  import opened Pages
  import opened Segments

  /** Where the page table of a region lies, and the memory it has. */
  datatype Span = Span(base: nat, begin: nat, end: nat) {
    predicate Has(a: nat) {
      begin <= a < end
    }

    predicate Holds(x: nat, len: nat) {
      begin <= x && x + len <= end
    }

    function Addr(p: nat): nat {
      base + p * PAGE_SIZE
    }
  }

  /** Regions on page boundaries, in order, no two overlapping. */
  ghost predicate Apart(at: seq<Span>) {
    && (forall i :: 0 <= i < |at| ==>
          && OnPage(at[i].base) && OnPage(at[i].begin) && OnPage(at[i].end)
          && at[i].base <= at[i].begin <= at[i].end)
    && (forall i, j :: 0 <= i < j < |at| ==> at[i].end <= at[j].begin)
  }

  /** The page tables reach over the memory of their regions. */
  ghost predicate Reach(t: seq<seq<Page>>, at: seq<Span>) {
    |t| == |at| && forall i :: 0 <= i < |t| ==> at[i].end <= at[i].Addr(|t[i]|)
  }

  /** In one region, the pages that belong to `id` are exactly those the segments map. */
  ghost predicate OwnsIn(table: seq<Page>, at: Span, id: Owner, segs: seq<Seg>) {
    && (forall p :: 0 <= p < |table| && at.Has(at.Addr(p)) ==>
          (table[p].owner == id <==> At(segs, at.Addr(p)).Some?))
    && (forall p :: 0 <= p < |table| && table[p].owner == id ==> table[p].state == Fixed && at.Has(at.Addr(p)))
  }

  /** Every address mapped is memory of some region. */
  ghost predicate Housed(at: seq<Span>, segs: seq<Seg>) {
    forall a: nat :: At(segs, a).Some? ==> exists i :: 0 <= i < |at| && at[i].Has(a)
  }

  ghost predicate Owns(t: seq<seq<Page>>, at: seq<Span>, id: Owner, segs: seq<Seg>) {
    && Reach(t, at)
    && Housed(at, segs)
    && (forall i :: 0 <= i < |t| ==> OwnsIn(t[i], at[i], id, segs))
  }

  ghost predicate Unowned(t: seq<seq<Page>>, id: Owner) {
    forall i, p :: 0 <= i < |t| && 0 <= p < |t[i]| ==> t[i][p].owner != id
  }

  lemma OwnsNothing(t: seq<seq<Page>>, at: seq<Span>, id: Owner)
    requires Reach(t, at) && Unowned(t, id)
    ensures Owns(t, at, id, []) && Ordered([])
  {
    forall a: nat ensures At([], a).None? {
    }
  }

  /** The segments map the same addresses. */
  ghost predicate SameDomain(segs: seq<Seg>, segs': seq<Seg>) {
    forall a: nat :: At(segs', a).Some? == At(segs, a).Some?
  }

  lemma OwnsSame(t: seq<seq<Page>>, at: seq<Span>, id: Owner, segs: seq<Seg>, segs': seq<Seg>)
    requires SameDomain(segs, segs')
    ensures Owns(t, at, id, segs) == Owns(t, at, id, segs')
  {
    assert Housed(at, segs) == Housed(at, segs');
    hide At;
    forall i | 0 <= i < |t| && Reach(t, at) ensures OwnsIn(t[i], at[i], id, segs) == OwnsIn(t[i], at[i], id, segs') {
    }
  }

  // ----- what an operation of one address space leaves alone -----

  predicate Available(v: Page, id: Owner) {
    v.owner == id || v == Page(Free, NO_OWNER)
  }

  /** Pages that differ were, and are, either free or owned by `id`. */
  ghost predicate Touches(t: seq<seq<Page>>, t': seq<seq<Page>>, id: Owner) {
    && |t| == |t'|
    && (forall i :: 0 <= i < |t| ==> |t[i]| == |t'[i]|)
    && (forall i, p :: 0 <= i < |t| && 0 <= p < |t[i]| && t[i][p] != t'[i][p] ==>
          Available(t[i][p], id) && Available(t'[i][p], id))
  }

  lemma TouchesSelf(t: seq<seq<Page>>, id: Owner)
    ensures Touches(t, t, id)
  {
  }

  lemma TouchesTrans(t: seq<seq<Page>>, u: seq<seq<Page>>, v: seq<seq<Page>>, id: Owner)
    requires Touches(t, u, id) && Touches(u, v, id)
    ensures Touches(t, v, id)
  {
    hide Available;
  }

  /** An operation of one address space leaves every other one owning exactly what it maps. */
  lemma OthersKept(t: seq<seq<Page>>, t': seq<seq<Page>>, at: seq<Span>, id: Owner, other: Owner, segs: seq<Seg>)
    requires Touches(t, t', id) && other != id && other != NO_OWNER
    requires Owns(t, at, other, segs)
    ensures Owns(t', at, other, segs)
  {
    forall i | 0 <= i < |t| ensures OwnsIn(t'[i], at[i], other, segs) {
      assert OwnsIn(t[i], at[i], other, segs);
      hide At;
      forall p | 0 <= p < |t[i]| ensures t'[i][p].owner == other <==> t[i][p].owner == other
                                 ensures t'[i][p].owner == other ==> t'[i][p] == t[i][p] {
      }
    }
  }

  /** The page of a mapped address belongs to the address space. */
  lemma PageOwned(table: seq<Page>, at: Span, id: Owner, segs: seq<Seg>, a: nat)
    requires OwnsIn(table, at, id, segs) && Ordered(segs)
    requires OnPage(at.base) && OnPage(at.begin) && OnPage(at.end) && at.base <= at.begin && at.end <= at.Addr(|table|)
    requires at.Has(a) && At(segs, a).Some?
    ensures (a - at.base) / PAGE_SIZE < |table| && table[(a - at.base) / PAGE_SIZE].owner == id
  {
    PageOfAddress(at, a, |table|);
    PageWide(segs, at, a);
    hide At, OnPage, Ordered;
  }

  /** Two address spaces that each own exactly what they map never map the same address. */
  lemma NoSharing(t: seq<seq<Page>>, at: seq<Span>, id: Owner, segs: seq<Seg>, other: Owner, segs2: seq<Seg>, a: nat)
    requires Apart(at) && id != other && Owns(t, at, id, segs) && Owns(t, at, other, segs2)
    requires Ordered(segs) && Ordered(segs2)
    ensures At(segs, a).None? || At(segs2, a).None?
  {
    hide At, Ordered, OnPage, OwnsIn;
    if At(segs, a).Some? && At(segs2, a).Some? {
      var i :| 0 <= i < |at| && at[i].Has(a);
      PageOwned(t[i], at[i], id, segs, a);
      PageOwned(t[i], at[i], other, segs2, a);
    }
  }

  /** The page of an address of a region lies in the table, and in the region. */
  lemma PageOfAddress(at: Span, a: nat, n: nat)
    requires OnPage(at.base) && OnPage(at.begin) && OnPage(at.end) && at.base <= at.begin && at.Has(a) && at.end <= at.Addr(n)
    ensures (a - at.base) / PAGE_SIZE < n && at.Has(at.Addr((a - at.base) / PAGE_SIZE))
  {
  }

  /** Segments map whole pages. */
  lemma PageWide(segs: seq<Seg>, at: Span, a: nat)
    requires Ordered(segs) && OnPage(at.base) && at.base <= a && At(segs, a).Some?
    ensures At(segs, at.Addr((a - at.base) / PAGE_SIZE)).Some?
  {
    var k := Find(segs, a);
    var b := at.Addr((a - at.base) / PAGE_SIZE);
    PageFloor(segs[k].base, segs[k].len, at.base, a);
    AtIs(segs, b, k);
  }

  lemma PageFloor(x: nat, len: nat, base: nat, a: nat)
    requires OnPage(x) && OnPage(len) && OnPage(base) && base <= a && x <= a < x + len
    ensures x <= base + (a - base) / PAGE_SIZE * PAGE_SIZE <= a
  {
  }

  // ----- freeing what is mapped -----

  /** segs' is segs with [x, x + len) unmapped. */
  ghost predicate Unmaps(segs: seq<Seg>, segs': seq<Seg>, x: nat, len: nat) {
    forall a: nat :: At(segs', a) == if x <= a < x + len then None else At(segs, a)
  }

  ghost predicate Maps(segs: seq<Seg>, x: nat, len: nat) {
    forall a: nat :: x <= a < x + len ==> At(segs, a).Some?
  }

  lemma PageRange(at: Span, x: nat, len: nat)
    requires OnPage(at.base) && OnPage(x) && OnPage(len) && at.base <= x && len > 0
    ensures at.Addr(FirstPage(at.base, x)) == x
    ensures at.Addr(EndPage(at.base, x, len)) == x + len
  {
  }

  /** Page numbers of a range of addresses. */
  lemma InPages(at: Span, x: nat, len: nat, p: nat)
    requires OnPage(at.base) && OnPage(x) && OnPage(len) && at.base <= x && len > 0
    ensures FirstPage(at.base, x) <= p < EndPage(at.base, x, len) <==> x <= at.Addr(p) < x + len
  {
    PageRange(at, x, len);
  }

  ghost function FreedAt(t: seq<seq<Page>>, at: seq<Span>, i: nat, x: nat, len: nat): seq<seq<Page>>
    requires i < |t| == |at| && at[i].base <= x && len > 0
  {
    t[i := SetRange(t[i], FirstPage(at[i].base, x), EndPage(at[i].base, x, len), Page(Free, NO_OWNER))]
  }

  lemma FreeOwnedIn(table: seq<Page>, at: Span, id: Owner, segs: seq<Seg>, segs': seq<Seg>, x: nat, len: nat)
    requires OwnsIn(table, at, id, segs) && id != NO_OWNER && at.end <= at.Addr(|table|)
    requires OnPage(at.base) && at.base <= at.begin
    requires OnPage(x) && OnPage(len) && len > 0 && at.Holds(x, len)
    requires Maps(segs, x, len) && Unmaps(segs, segs', x, len)
    ensures EndPage(at.base, x, len) <= |table|
    ensures FreeVerdict(table, FirstPage(at.base, x), EndPage(at.base, x, len), id) == Freed
    ensures OwnsIn(SetRange(table, FirstPage(at.base, x), EndPage(at.base, x, len), Page(Free, NO_OWNER)), at, id, segs')
  {
    hide At, FirstPage, EndPage, OnPage;
    var lo, hi := FirstPage(at.base, x), EndPage(at.base, x, len);
    PageRange(at, x, len);
    forall p: nat ensures lo <= p < hi <==> x <= at.Addr(p) < x + len {
      InPages(at, x, len, p);
    }
    assert hi <= |table|;
    forall p | lo <= p < hi ensures Releasable(table[p], id) {
      assert at.Has(at.Addr(p));
    }
    var after := SetRange(table, lo, hi, Page(Free, NO_OWNER));
    forall p | 0 <= p < |after| ensures lo <= p < hi <==> x <= at.Addr(p) < x + len
                                ensures after[p] == if lo <= p < hi then Page(Free, NO_OWNER) else table[p] {
    }
  }

  lemma OtherRegion(table: seq<Page>, at: Span, id: Owner, segs: seq<Seg>, segs': seq<Seg>)
    requires OwnsIn(table, at, id, segs)
    requires forall a: nat :: at.Has(a) ==> At(segs', a).Some? == At(segs, a).Some?
    ensures OwnsIn(table, at, id, segs')
  {
    hide At;
  }

  lemma FreeOwned(t: seq<seq<Page>>, at: seq<Span>, id: Owner, segs: seq<Seg>, segs': seq<Seg>, x: nat, len: nat, i: nat)
    requires Owns(t, at, id, segs) && Apart(at) && id != NO_OWNER
    requires OnPage(x) && OnPage(len) && len > 0 && i < |at| && at[i].Holds(x, len)
    requires Maps(segs, x, len) && Unmaps(segs, segs', x, len)
    ensures EndPage(at[i].base, x, len) <= |t[i]|
    ensures FreeVerdict(t[i], FirstPage(at[i].base, x), EndPage(at[i].base, x, len), id) == Freed
    ensures Owns(FreedAt(t, at, i, x, len), at, id, segs')
    ensures Touches(t, FreedAt(t, at, i, x, len), id)
  {
    var after := FreedAt(t, at, i, x, len);
    FreeOwnedIn(t[i], at[i], id, segs, segs', x, len);
    hide At, OwnsIn, OnPage, FirstPage, EndPage;
    assert Housed(at, segs');
    forall j | 0 <= j < |after| ensures OwnsIn(after[j], at[j], id, segs') {
      if j != i {
        assert forall a: nat :: at[j].Has(a) ==> !at[i].Has(a);
        OtherRegion(t[j], at[j], id, segs, segs');
      }
    }
  }

  /** One region has the whole range, as page_free wants it. */
  ghost predicate InOne(at: seq<Span>, x: nat, len: nat) {
    exists i :: 0 <= i < |at| && at[i].Holds(x, len)
  }

  ghost function RegionOf(at: seq<Span>, x: nat, len: nat): (i: nat)
    requires InOne(at, x, len)
    ensures i < |at| && at[i].Holds(x, len)
  {
    var i :| 0 <= i < |at| && at[i].Holds(x, len);
    i
  }

  /** What page_free of a mapped range that one region has comes to. */
  lemma FreeMapped(t: seq<seq<Page>>, at: seq<Span>, id: Owner, segs: seq<Seg>, segs': seq<Seg>, x: nat, len: nat)
    requires Owns(t, at, id, segs) && Apart(at) && id != NO_OWNER && InOne(at, x, len)
    requires OnPage(x) && OnPage(len) && len > 0 && Maps(segs, x, len) && Unmaps(segs, segs', x, len)
    ensures var i := RegionOf(at, x, len);
            && at[i].base <= x && |t| == |at| && EndPage(at[i].base, x, len) <= |t[i]|
            && FreeVerdict(t[i], FirstPage(at[i].base, x), EndPage(at[i].base, x, len), id) == Freed
            && Owns(FreedAt(t, at, i, x, len), at, id, segs') && Touches(t, FreedAt(t, at, i, x, len), id)
            && (forall j :: 0 <= j < |at| && at[j].Holds(x, len) ==> j == i)
  {
    var i := RegionOf(at, x, len);
    FreeOwned(t, at, id, segs, segs', x, len, i);
    hide Owns, Touches, Maps, Unmaps, OnPage, FirstPage, EndPage;
    forall j | 0 <= j < |at| && at[j].Holds(x, len) ensures j == i {
      OnlyOne(at, x, len, i, j);
    }
  }

  lemma OnlyOne(at: seq<Span>, x: nat, len: nat, i: nat, j: nat)
    requires Apart(at) && len > 0 && i < |at| && j < |at| && at[i].Holds(x, len) && at[j].Holds(x, len)
    ensures i == j
  {
  }

  /** Pages that stay owned when their range is unmapped put pages and segments out of step. */
  lemma LeftOwned(t: seq<seq<Page>>, at: seq<Span>, id: Owner, segs: seq<Seg>, segs': seq<Seg>, x: nat, len: nat)
    requires Owns(t, at, id, segs) && Apart(at) && OnPage(x) && len > 0 && Maps(segs, x, len) && Unmaps(segs, segs', x, len)
    ensures !Owns(t, at, id, segs')
  {
    hide At, OnPage, Apart;
    var i, p := OwnedPage(t, at, id, segs, x);
  }

  /** The page that starts at a mapped address. */
  lemma OwnedPage(t: seq<seq<Page>>, at: seq<Span>, id: Owner, segs: seq<Seg>, a: nat) returns (i: nat, p: nat)
    requires Owns(t, at, id, segs) && Apart(at) && OnPage(a) && At(segs, a).Some?
    ensures i < |t| == |at| && p < |t[i]| && at[i].Has(a) && at[i].Addr(p) == a && t[i][p].owner == id
  {
    hide At;
    i :| 0 <= i < |at| && at[i].Has(a);
    PageOfAddress(at[i], a, |t[i]|);
    PageStartsAt(at[i], a);
    p := (a - at[i].base) / PAGE_SIZE;
    assert OwnsIn(t[i], at[i], id, segs);
  }

  lemma PageStartsAt(at: Span, x: nat)
    requires OnPage(x) && OnPage(at.base) && at.base <= x
    ensures at.Addr((x - at.base) / PAGE_SIZE) == x
  {
  }

  // ----- one segment at a time -----

  /** The list when munmap has dealt with the first k segments. */
  ghost function PartUnmapped(segs: seq<Seg>, k: nat, lo: nat, hi: nat): seq<Seg>
    requires k <= |segs| && lo < hi
  {
    Unmapped(segs[..k], lo, hi) + segs[k..]
  }

  function Later(a: nat, b: nat): nat {
    if a < b then b else a
  }

  function Sooner(a: nat, b: nat): nat {
    if a < b then a else b
  }

  /** The segment maps part of the range. */
  predicate Meets(s: Seg, lo: nat, hi: nat) {
    s.base < hi && lo < s.End()
  }

  /** The part lies in one region. */
  ghost predicate PartInOne(at: seq<Span>, s: Seg, lo: nat, hi: nat) {
    Meets(s, lo, hi) && lo < hi && s.len > 0 ==> InOne(at, Later(s.base, lo), Sooner(s.End(), hi) - Later(s.base, lo))
  }

  /** Every part of the range that a segment maps lies in one region. */
  ghost predicate PartsInOne(at: seq<Span>, segs: seq<Seg>, lo: nat, hi: nat) {
    forall k :: 0 <= k < |segs| ==> PartInOne(at, segs[k], lo, hi)
  }

  lemma PartsNext(at: seq<Span>, segs: seq<Seg>, k: nat, lo: nat, hi: nat)
    requires k < |segs| && PartsInOne(at, segs[..k], lo, hi) && PartInOne(at, segs[k], lo, hi)
    ensures PartsInOne(at, segs[..k + 1], lo, hi)
  {
    hide PartInOne;
    assert segs[..k + 1] == segs[..k] + [segs[k]];
  }

  /** Segments past the range have no part of it. */
  lemma PartsRest(at: seq<Span>, segs: seq<Seg>, k: nat, lo: nat, hi: nat)
    requires Ordered(segs) && k <= |segs| && PartsInOne(at, segs[..k], lo, hi)
    requires k == |segs| || segs[k].base >= hi || (k > 0 && segs[k - 1].End() >= hi)
    ensures PartsInOne(at, segs, lo, hi)
  {
    hide OnPage, InOne;
    forall j | 0 <= j < |segs| ensures PartInOne(at, segs[j], lo, hi) {
      if j < k {
        assert segs[..k][j] == segs[j];
      } else {
        assert k < j ==> segs[k].End() <= segs[j].base;
      }
    }
  }

  /** The list while munmap goes through it is in order. */
  lemma PartUnmappedOrdered(segs: seq<Seg>, k: nat, lo: nat, hi: nat)
    requires Ordered(segs) && OnPage(lo) && OnPage(hi) && k <= |segs| && lo < hi
    ensures Ordered(PartUnmapped(segs, k, lo, hi))
  {
    OrderedSplit(segs, k);
    UnmappedOrdered(segs[..k], lo, hi, 0);
    var u := Unmapped(segs[..k], lo, hi);
    if k < |segs| {
      UnmappedBelow(segs[..k], lo, hi, segs[k].base);
      assert forall j :: k <= j < |segs| ==> segs[k].base <= segs[j].base;
    }
    hide Ordered, Unmapped, OnPage;
    OrderedConcat(u, segs[k..]);
  }

  lemma {:induction false} UnmappedBelow(segs: seq<Seg>, lo: nat, hi: nat, top: nat)
    requires lo < hi && forall i :: 0 <= i < |segs| ==> segs[i].End() <= top
    ensures forall i :: 0 <= i < |Unmapped(segs, lo, hi)| ==> Unmapped(segs, lo, hi)[i].End() <= top
  {
    if segs != [] {
      UnmappedBelow(segs[1..], lo, hi, top);
    }
  }

  /** Dealing with segment k unmaps the part of the range that it maps. */
  lemma StepUnmaps(segs: seq<Seg>, k: nat, lo: nat, hi: nat)
    requires Ordered(segs) && k < |segs| && lo < hi && segs[k].base < hi && lo < segs[k].End()
    ensures var x, e := Later(segs[k].base, lo), Sooner(segs[k].End(), hi);
            && x < e
            && Maps(PartUnmapped(segs, k, lo, hi), x, e - x)
            && Unmaps(PartUnmapped(segs, k, lo, hi), PartUnmapped(segs, k + 1, lo, hi), x, e - x)
  {
    var x, e := Later(segs[k].base, lo), Sooner(segs[k].End(), hi);
    assert segs[k].len > 0;
    hide At, PartUnmapped, Ordered;
    var now, next := PartUnmapped(segs, k, lo, hi), PartUnmapped(segs, k + 1, lo, hi);
    forall a: nat ensures x <= a < x + (e - x) ==> At(now, a).Some? {
      StepAt(segs, k, lo, hi, a);
    }
    forall a: nat ensures At(next, a) == if x <= a < x + (e - x) then None else At(now, a) {
      StepAt(segs, k, lo, hi, a);
    }
  }

  lemma StepAt(segs: seq<Seg>, k: nat, lo: nat, hi: nat, a: nat)
    requires Ordered(segs) && k < |segs| && lo < hi && segs[k].base < hi && lo < segs[k].End()
    ensures segs[k].Has(a) && lo <= a < hi ==> At(PartUnmapped(segs, k, lo, hi), a).Some?
    ensures At(PartUnmapped(segs, k + 1, lo, hi), a) ==
            if segs[k].Has(a) && lo <= a < hi then None else At(PartUnmapped(segs, k, lo, hi), a)
  {
    var u, c, rest := Unmapped(segs[..k], lo, hi), Cut(segs[k], lo, hi), segs[k + 1..];
    UnmappedNext(segs, k, lo, hi);
    UnmappedAt(segs[..k], lo, hi, a);
    CutAt(segs[k], lo, hi, a);
    AtConcat(u + c, rest, a);
    AtConcat(u, c, a);
    AtConcat(u, segs[k..], a);
    AtFirst(segs[k..], a);
    assert segs[k..][1..] == rest;
    if segs[k].Has(a) {
      AtNone(rest, a);
    }
    hide At, Unmapped, Cut;
  }

  lemma StepPages(s: Seg, lo: nat, hi: nat)
    requires Ordered([s]) && lo < hi && OnPage(lo) && OnPage(hi)
    requires s.base < hi && lo < s.End()
    ensures OnPage(Later(s.base, lo)) && OnPage(Sooner(s.End(), hi) - Later(s.base, lo))
  {
    assert [s][0] == s;
    PageArithmetic(s.base, s.len);
    if s.base < lo { PageArithmetic(lo, s.base); }
    if s.base < hi { PageArithmetic(hi, s.base); }
    if lo < s.End() { PageArithmetic(s.End(), lo); }
    if lo < hi { PageArithmetic(hi, lo); }
    hide OnPage;
  }

  /** What a step of munmap does to the list and to what is mapped. */
  lemma Step(segs: seq<Seg>, k: nat, lo: nat, hi: nat)
    requires Ordered(segs) && k < |segs| && lo < hi && OnPage(lo) && OnPage(hi) && segs[k].base < hi && lo < segs[k].End()
    ensures var now, next, i := PartUnmapped(segs, k, lo, hi), PartUnmapped(segs, k + 1, lo, hi), |Unmapped(segs[..k], lo, hi)|;
            var x, e := Later(segs[k].base, lo), Sooner(segs[k].End(), hi);
            && i < |now| && now[i] == segs[k] && next == now[..i] + Cut(segs[k], lo, hi) + now[i + 1..]
            && x < e && OnPage(x) && OnPage(e - x) && Maps(now, x, e - x) && Unmaps(now, next, x, e - x)
  {
    StepUnmaps(segs, k, lo, hi);
    UnmappedNext(segs, k, lo, hi);
    StepPages(segs[k], lo, hi);
    hide Unmapped, Cut, Ordered, OnPage, Maps, Unmaps;
    var u, c := Unmapped(segs[..k], lo, hi), Cut(segs[k], lo, hi);
    var now := u + segs[k..];
    assert now[..|u|] == u && now[|u| + 1..] == segs[k + 1..];
  }

  /** A segment that reaches past both ends of the range, and would be split in two. */
  ghost predicate Splits(segs: seq<Seg>, lo: nat, hi: nat) {
    exists k :: 0 <= k < |segs| && segs[k].base < lo && segs[k].End() > hi
  }

  /** The first k segments of `was` are dealt with; i is where the rest starts in `segs`. */
  ghost predicate Progress(was: seq<Seg>, segs: seq<Seg>, k: nat, i: nat, lo: nat, hi: nat)
    requires lo < hi
  {
    && k <= |was| && segs == PartUnmapped(was, k, lo, hi) && i == |Unmapped(was[..k], lo, hi)|
    && !Splits(was[..k], lo, hi)
    && (k == 0 || was[k - 1].End() <= lo ==> segs == was)
  }

  lemma ProgressStart(was: seq<Seg>, lo: nat, hi: nat)
    requires lo < hi
    ensures Progress(was, was, 0, 0, lo, hi)
  {
  }

  lemma ProgressSeg(was: seq<Seg>, segs: seq<Seg>, k: nat, i: nat, lo: nat, hi: nat)
    requires lo < hi && Progress(was, segs, k, i, lo, hi)
    ensures i <= |segs| && k <= |was|
    ensures i == |segs| <==> k == |was|
    ensures i < |segs| ==> segs[i] == was[k]
  {
  }

  /** A segment before the range is left alone. */
  lemma ProgressSkip(was: seq<Seg>, segs: seq<Seg>, k: nat, i: nat, lo: nat, hi: nat)
    requires lo < hi && Ordered(was) && Progress(was, segs, k, i, lo, hi) && k < |was| && was[k].End() <= lo
    ensures Progress(was, segs, k + 1, i + 1, lo, hi)
    ensures k == 0 || was[k - 1].End() <= lo
  {
    hide Unmapped, OnPage, Cut;
    UnmappedNext(was, k, lo, hi);
    CutBefore(was[k], lo, hi);
    assert was[k..] == [was[k]] + was[k + 1..];
    assert PartUnmapped(was, k + 1, lo, hi) == segs;
    assert was[k].len > 0;
    assert was[..k + 1] == was[..k] + [was[k]];
  }

  lemma CutBefore(s: Seg, lo: nat, hi: nat)
    requires lo < hi && s.End() <= lo
    ensures Cut(s, lo, hi) == [s]
  {
  }

  lemma ProgressCut(was: seq<Seg>, segs: seq<Seg>, k: nat, i: nat, lo: nat, hi: nat)
    requires lo < hi && Progress(was, segs, k, i, lo, hi) && k < |was| && was[k].End() > lo
    requires !(was[k].base < lo && was[k].End() > hi)
    ensures Progress(was, PartUnmapped(was, k + 1, lo, hi), k + 1, i + |Cut(was[k], lo, hi)|, lo, hi)
  {
    UnmappedNext(was, k, lo, hi);
    hide Unmapped, Cut, OnPage;
    assert was[..k + 1] == was[..k] + [was[k]];
  }

  /** Nothing was changed yet when a segment that would be split is met. */
  lemma ProgressSplit(was: seq<Seg>, segs: seq<Seg>, k: nat, i: nat, lo: nat, hi: nat)
    requires lo < hi && Ordered(was) && Progress(was, segs, k, i, lo, hi) && k < |was|
    requires was[k].base < lo && was[k].End() > hi
    ensures segs == was && (k == 0 || was[k - 1].End() <= lo) && Splits(was, lo, hi)
  {
  }

  /** Where the rest of the list is past the range, munmap is done. */
  lemma ProgressDone(was: seq<Seg>, segs: seq<Seg>, k: nat, i: nat, lo: nat, hi: nat)
    requires lo < hi && Ordered(was) && Progress(was, segs, k, i, lo, hi)
    requires k == |was| || was[k].base >= hi
    ensures segs == Unmapped(was, lo, hi) && !Splits(was, lo, hi)
  {
    UnmappedRest(was, k, lo, hi);
    hide Unmapped, OnPage;
    forall j | 0 <= j < |was| ensures !(was[j].base < lo && was[j].End() > hi) {
      if j < k {
        assert was[..k][j] == was[j];
      } else if j > k {
        assert was[k].End() <= was[j].base;
      }
    }
  }

  // ----- protection -----

  /** The list when mprotect has dealt with the first k segments. */
  ghost function PartRecolored(segs: seq<Seg>, k: nat, lo: nat, hi: nat, prot: Prot): seq<Seg>
    requires k <= |segs| && lo < hi
  {
    Recolored(segs[..k], lo, hi, prot) + segs[k..]
  }

  /** How many segment headers mprotect of segment s has to allocate. */
  function Headers(s: Seg, lo: nat, hi: nat, prot: Prot): nat {
    if !Meets(s, lo, hi) || s.prot == prot then 0
    else (if s.base < lo then 1 else 0) + (if hi < s.End() then 1 else 0)
  }

  function AllHeaders(segs: seq<Seg>, lo: nat, hi: nat, prot: Prot): nat {
    if segs == [] then 0 else AllHeaders(segs[..|segs| - 1], lo, hi, prot) + Headers(segs[|segs| - 1], lo, hi, prot)
  }

  lemma HeadersNext(segs: seq<Seg>, k: nat, lo: nat, hi: nat, prot: Prot)
    requires k < |segs|
    ensures AllHeaders(segs[..k + 1], lo, hi, prot) == AllHeaders(segs[..k], lo, hi, prot) + Headers(segs[k], lo, hi, prot)
  {
    assert segs[..k + 1][..k] == segs[..k];
  }

  lemma {:induction false} HeadersMore(segs: seq<Seg>, k: nat, lo: nat, hi: nat, prot: Prot)
    requires k <= |segs|
    ensures AllHeaders(segs[..k], lo, hi, prot) <= AllHeaders(segs, lo, hi, prot)
    decreases |segs|
  {
    if k < |segs| {
      var n := |segs| - 1;
      HeadersMore(segs[..n], k, lo, hi, prot);
      assert segs[..n][..k] == segs[..k];
    } else {
      assert segs[..k] == segs;
    }
  }

  /** Segments past the range need none. */
  lemma {:induction false} HeadersRest(segs: seq<Seg>, k: nat, lo: nat, hi: nat, prot: Prot)
    requires Ordered(segs) && k <= |segs|
    requires k == |segs| || segs[k].base >= hi || (k > 0 && segs[k - 1].End() >= hi)
    ensures AllHeaders(segs, lo, hi, prot) == AllHeaders(segs[..k], lo, hi, prot)
    decreases |segs|
  {
    hide OnPage;
    if k < |segs| {
      var n := |segs| - 1;
      assert k < n ==> segs[k].End() <= segs[n].base;
      assert segs[..n][..k] == segs[..k];
      HeadersRest(segs[..n], k, lo, hi, prot);
    } else {
      assert segs[..k] == segs;
    }
  }

  /** At most the range changes, each address of it to the new protection or not at all. */
  lemma PartRecoloredAt(segs: seq<Seg>, k: nat, lo: nat, hi: nat, prot: Prot, a: nat)
    requires k <= |segs| && lo < hi
    ensures !(lo <= a < hi) ==> At(PartRecolored(segs, k, lo, hi, prot), a) == At(segs, a)
    ensures At(PartRecolored(segs, k, lo, hi, prot), a) in {At(segs, a), Reprotect(At(segs, a), prot)}
  {
    RecoloredAt(segs[..k], lo, hi, prot, a);
    AtConcat(Recolored(segs[..k], lo, hi, prot), segs[k..], a);
    assert segs == segs[..k] + segs[k..];
    AtConcat(segs[..k], segs[k..], a);
    hide At, Recolored;
  }

  lemma PartRecoloredOrdered(segs: seq<Seg>, k: nat, lo: nat, hi: nat, prot: Prot)
    requires Ordered(segs) && OnPage(lo) && OnPage(hi) && k <= |segs| && lo < hi
    ensures Ordered(PartRecolored(segs, k, lo, hi, prot))
  {
    OrderedSplit(segs, k);
    var least := if k == 0 then 0 else segs[0].base;
    hide OnPage;
    forall i | 0 <= i < |segs[..k]| ensures least <= segs[..k][i].base {
      assert segs[0].len > 0;
    }
    RecoloredOrdered(segs[..k], lo, hi, prot, least);
    RecoloredBelow(segs[..k], lo, hi, prot);
    var u := Recolored(segs[..k], lo, hi, prot);
    forall i, j | 0 <= i < |u| && 0 <= j < |segs[k..]| ensures u[i].End() <= segs[k..][j].base {
      var m :| 0 <= m < k && u[i].End() <= segs[..k][m].End();
      assert segs[m].End() <= segs[k + j].base;
    }
    hide Ordered, Recolored;
    OrderedConcat(u, segs[k..]);
  }

  /** Every part ends where some segment it came from ends, or before. */
  lemma {:induction false} RecoloredBelow(segs: seq<Seg>, lo: nat, hi: nat, prot: Prot)
    requires lo < hi
    ensures forall i :: 0 <= i < |Recolored(segs, lo, hi, prot)| ==>
              exists m :: 0 <= m < |segs| && Recolored(segs, lo, hi, prot)[i].End() <= segs[m].End()
  {
    if segs == [] {
      assert Recolored(segs, lo, hi, prot) == [];
    } else {
      RecoloredBelow(segs[1..], lo, hi, prot);
      var c, u := Recolor(segs[0], lo, hi, prot), Recolored(segs[1..], lo, hi, prot);
      var r := Recolored(segs, lo, hi, prot);
      assert r == c + u;
      forall i | 0 <= i < |r| ensures exists m :: 0 <= m < |segs| && r[i].End() <= segs[m].End() {
        if i < |c| {
          assert c[i].End() <= segs[0].End();
        } else {
          var m :| 0 <= m < |segs[1..]| && u[i - |c|].End() <= segs[1..][m].End();
          assert segs[1..][m] == segs[m + 1];
        }
      }
    }
  }

  lemma SameDomainRecolored(segs: seq<Seg>, k: nat, lo: nat, hi: nat, prot: Prot)
    requires k <= |segs| && lo < hi
    ensures SameDomain(segs, PartRecolored(segs, k, lo, hi, prot))
  {
    hide At, PartRecolored;
    forall a: nat ensures At(PartRecolored(segs, k, lo, hi, prot), a).Some? == At(segs, a).Some? {
      PartRecoloredAt(segs, k, lo, hi, prot, a);
    }
  }

  lemma SameDomainCombined(segs: seq<Seg>)
    ensures SameDomain(segs, Combined(segs))
  {
    hide At, Combined;
    forall a: nat ensures At(Combined(segs), a).Some? == At(segs, a).Some? {
      CombinedAt(segs, a);
    }
  }

  /** mprotect has dealt with the first k segments of `was`, and has `rest` of `room` headers left. */
  ghost predicate Recoloring(was: seq<Seg>, segs: seq<Seg>, k: nat, i: nat, lo: nat, hi: nat, prot: Prot, room: nat, rest: nat)
    requires lo < hi
  {
    && k <= |was| && segs == PartRecolored(was, k, lo, hi, prot) && i == |Recolored(was[..k], lo, hi, prot)|
    && room == rest + AllHeaders(was[..k], lo, hi, prot)
  }

  lemma RecoloringStart(was: seq<Seg>, lo: nat, hi: nat, prot: Prot, room: nat)
    requires lo < hi
    ensures Recoloring(was, was, 0, 0, lo, hi, prot, room, room)
  {
  }

  lemma RecoloringSeg(was: seq<Seg>, segs: seq<Seg>, k: nat, i: nat, lo: nat, hi: nat, prot: Prot, room: nat, rest: nat)
    requires lo < hi && Recoloring(was, segs, k, i, lo, hi, prot, room, rest)
    ensures i <= |segs| && k <= |was|
    ensures i == |segs| <==> k == |was|
    ensures i < |segs| ==> segs[i] == was[k]
    ensures segs == PartRecolored(was, k, lo, hi, prot)
    ensures k < |was| && Headers(was[k], lo, hi, prot) > rest ==>
              && AllHeaders(was[..k], lo, hi, prot) <= room < AllHeaders(was[..k + 1], lo, hi, prot)
              && room < AllHeaders(was, lo, hi, prot)
  {
    hide Headers, Recolored;
    if k < |was| {
      HeadersNext(was, k, lo, hi, prot);
      HeadersMore(was, k + 1, lo, hi, prot);
    }
  }

  lemma RecoloringNext(was: seq<Seg>, segs: seq<Seg>, k: nat, i: nat, lo: nat, hi: nat, prot: Prot, room: nat, rest: nat)
    requires lo < hi && Recoloring(was, segs, k, i, lo, hi, prot, room, rest) && i < |segs| && k < |was|
    requires Headers(was[k], lo, hi, prot) <= rest
    ensures var parts := Recolor(was[k], lo, hi, prot);
            Recoloring(was, segs[..i] + parts + segs[i + 1..], k + 1, i + |parts|, lo, hi, prot, room, rest - Headers(was[k], lo, hi, prot))
  {
    hide Recolored, Recolor, Headers, AllHeaders;
    RecoloredNext(was, k, lo, hi, prot);
    HeadersNext(was, k, lo, hi, prot);
    var u, parts := Recolored(was[..k], lo, hi, prot), Recolor(was[k], lo, hi, prot);
    assert segs[..i] == u && segs[i + 1..] == was[k + 1..];
    assert PartRecolored(was, k + 1, lo, hi, prot) == u + parts + was[k + 1..];
  }

  /** Where the rest of the list is past the range, mprotect is done. */
  lemma RecoloringDone(was: seq<Seg>, segs: seq<Seg>, k: nat, i: nat, lo: nat, hi: nat, prot: Prot, room: nat, rest: nat)
    requires lo < hi && Ordered(was) && Recoloring(was, segs, k, i, lo, hi, prot, room, rest)
    requires k == |was| || was[k].base >= hi || (k > 0 && was[k - 1].End() >= hi)
    ensures segs == Recolored(was, lo, hi, prot)
    ensures AllHeaders(was, lo, hi, prot) <= room
  {
    RecoloredRest(was, k, lo, hi, prot);
    HeadersRest(was, k, lo, hi, prot);
  }

  /** mprotect, finished or not, keeps the list in order and the pages owned. */
  lemma MprotectKeeps(t: seq<seq<Page>>, at: seq<Span>, id: Owner, segs: seq<Seg>, k: nat, lo: nat, hi: nat, prot: Prot)
    requires Owns(t, at, id, segs) && Ordered(segs) && OnPage(lo) && OnPage(hi) && k <= |segs| && lo < hi
    ensures Owns(t, at, id, PartRecolored(segs, k, lo, hi, prot)) && Ordered(PartRecolored(segs, k, lo, hi, prot))
  {
    PartRecoloredOrdered(segs, k, lo, hi, prot);
    SameDomainRecolored(segs, k, lo, hi, prot);
    hide *;
    OwnsSame(t, at, id, segs, PartRecolored(segs, k, lo, hi, prot));
  }

  lemma CombineKeeps(t: seq<seq<Page>>, at: seq<Span>, id: Owner, segs: seq<Seg>)
    requires Owns(t, at, id, segs) && Ordered(segs)
    ensures Owns(t, at, id, Combined(segs)) && Ordered(Combined(segs))
  {
    CombinedOrdered(segs);
    SameDomainCombined(segs);
    hide *;
    OwnsSame(t, at, id, segs, Combined(segs));
  }

  lemma AllRecolored(segs: seq<Seg>, lo: nat, hi: nat, prot: Prot)
    requires lo < hi
    ensures PartRecolored(segs, |segs|, lo, hi, prot) == Recolored(segs, lo, hi, prot)
  {
    assert segs[..|segs|] == segs;
  }
}
