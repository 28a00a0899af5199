/**
 Address space segments and what they map: sys/mem/vm.cpp.

 A segment gives a range of addresses a protection. The list of segments is specified by the map
 from addresses to rights that it stands for (`At`).
 */
module Segments {
  import opened KernelConfig
  import opened Queues

  type Prot = bv8

  /** Rights of an address: its protection, and the memory attributes it was asked for with. */
  datatype Rights = Rights(prot: Prot, attr: bv32)

  /** A segment; the file it maps, if any, is its number with the offset and the length mapped. */
  datatype Seg = Seg(base: nat, len: nat, prot: Prot, attr: bv32, vn: Option<nat>, off: nat, mapped: nat) {
    function End(): nat {
      base + len
    }

    function Gives(): Rights {
      Rights(prot, attr)
    }

    predicate Has(a: nat) {
      base <= a < End()
    }
  }

  /** as_find_seg: the first segment that contains address a, as an index. */
  function Find(segs: seq<Seg>, a: nat): (i: nat)
    ensures i <= |segs|
    ensures i < |segs| ==> segs[i].Has(a)
    ensures forall j :: 0 <= j < i ==> !segs[j].Has(a)
  {
    if segs == [] || segs[0].Has(a) then 0 else 1 + Find(segs[1..], a)
  }

  /** What the segments say about address a. */
  function At(segs: seq<Seg>, a: nat): Option<Rights> {
    var i := Find(segs, a);
    if i < |segs| then Some(segs[i].Gives()) else None
  }

  predicate OnPage(a: nat) {
    a % PAGE_SIZE == 0
  }

  lemma PageArithmetic(a: nat, b: nat)
    requires OnPage(a) && OnPage(b)
    ensures OnPage(a + b)
    ensures a >= b ==> OnPage(a - b)
  {
  }

  /** Segments in ascending order, not empty, not overlapping, on page boundaries. */
  ghost predicate Ordered(segs: seq<Seg>) {
    && (forall i :: 0 <= i < |segs| ==> segs[i].len > 0 && OnPage(segs[i].base) && OnPage(segs[i].len))
    && (forall i, j :: 0 <= i < j < |segs| ==> segs[i].End() <= segs[j].base)
  }

  /** In an ordered list, an address has the rights of whichever segment contains it. */
  lemma AtIs(segs: seq<Seg>, a: nat, k: nat)
    requires Ordered(segs) && k < |segs| && segs[k].Has(a)
    ensures At(segs, a) == Some(segs[k].Gives())
  {
    assert Find(segs, a) <= k;
  }

  lemma AtNone(segs: seq<Seg>, a: nat)
    requires forall k :: 0 <= k < |segs| ==> !segs[k].Has(a)
    ensures At(segs, a) == None
  {
  }

  lemma {:induction false} FindConcat(x: seq<Seg>, y: seq<Seg>, a: nat)
    ensures Find(x + y, a) == if Find(x, a) < |x| then Find(x, a) else |x| + Find(y, a)
  {
    if x == [] {
      assert x + y == y;
    } else if !x[0].Has(a) {
      assert (x + y)[1..] == x[1..] + y;
      FindConcat(x[1..], y, a);
    }
  }

  /** The map of two lists is that of the first where it maps, and else that of the second. */
  lemma AtConcat(x: seq<Seg>, y: seq<Seg>, a: nat)
    ensures At(x + y, a) == if At(x, a).Some? then At(x, a) else At(y, a)
  {
    FindConcat(x, y, a);
  }

  lemma AtFirst(segs: seq<Seg>, a: nat)
    requires segs != []
    ensures At(segs, a) == if segs[0].Has(a) then Some(segs[0].Gives()) else At(segs[1..], a)
  {
  }

  // ----- unmapping -----

  /** What is left of a segment when [lo, hi) is unmapped. */
  function Cut(s: Seg, lo: nat, hi: nat): (r: seq<Seg>)
    requires lo < hi
    ensures |r| <= 2
    ensures forall i :: 0 <= i < |r| ==> s.base <= r[i].base && r[i].End() <= s.End() && r[i].Gives() == s.Gives()
  {
    if s.End() <= lo || s.base >= hi then [s]
    else if s.base >= lo && s.End() <= hi then []
    else if s.base < lo && s.End() > hi then
      [s.(len := lo - s.base),
       s.(base := hi, len := s.End() - hi, off := if s.vn.Some? then s.off + (hi - s.base) else s.off)]
    else if s.base < lo then [s.(len := lo - s.base)]
    else [s.(base := hi, len := s.End() - hi, off := if s.vn.Some? then s.off + (hi - s.base) else s.off)]
  }

  function Unmapped(segs: seq<Seg>, lo: nat, hi: nat): seq<Seg>
    requires lo < hi
  {
    if segs == [] then [] else Cut(segs[0], lo, hi) + Unmapped(segs[1..], lo, hi)
  }

  lemma {:induction false} UnmappedConcat(x: seq<Seg>, y: seq<Seg>, lo: nat, hi: nat)
    requires lo < hi
    ensures Unmapped(x + y, lo, hi) == Unmapped(x, lo, hi) + Unmapped(y, lo, hi)
  {
    hide Cut;
    if x == [] {
      assert x + y == y;
    } else {
      assert (x + y)[1..] == x[1..] + y;
      UnmappedConcat(x[1..], y, lo, hi);
      assert Cut(x[0], lo, hi) + (Unmapped(x[1..], lo, hi) + Unmapped(y, lo, hi))
          == Cut(x[0], lo, hi) + Unmapped(x[1..], lo, hi) + Unmapped(y, lo, hi);
    }
  }

  /** One more segment of the list is dealt with. */
  lemma UnmappedNext(segs: seq<Seg>, k: nat, lo: nat, hi: nat)
    requires lo < hi && k < |segs|
    ensures Unmapped(segs[..k + 1], lo, hi) == Unmapped(segs[..k], lo, hi) + Cut(segs[k], lo, hi)
  {
    assert segs[..k + 1] == segs[..k] + [segs[k]];
    UnmappedConcat(segs[..k], [segs[k]], lo, hi);
    assert Unmapped([segs[k]], lo, hi) == Cut(segs[k], lo, hi) + Unmapped([], lo, hi);
  }

  /** Segments past the range are left alone. */
  lemma {:induction false} UnmappedPast(segs: seq<Seg>, lo: nat, hi: nat)
    requires lo < hi && forall i :: 0 <= i < |segs| ==> segs[i].base >= hi
    ensures Unmapped(segs, lo, hi) == segs
  {
    if segs != [] {
      UnmappedPast(segs[1..], lo, hi);
      assert segs == [segs[0]] + segs[1..];
    }
  }

  /** The rest of the list, from segment k on, lies past the range. */
  lemma UnmappedRest(segs: seq<Seg>, k: nat, lo: nat, hi: nat)
    requires Ordered(segs) && lo < hi && k <= |segs|
    requires k == |segs| || segs[k].base >= hi || (k > 0 && segs[k - 1].End() >= hi)
    ensures Unmapped(segs, lo, hi) == Unmapped(segs[..k], lo, hi) + segs[k..]
  {
    assert segs == segs[..k] + segs[k..];
    UnmappedConcat(segs[..k], segs[k..], lo, hi);
    forall i | 0 <= i < |segs[k..]| ensures segs[k..][i].base >= hi {
      if i > 0 { assert segs[k].End() <= segs[k + i].base; }
    }
    UnmappedPast(segs[k..], lo, hi);
  }

  lemma CutAt(s: Seg, lo: nat, hi: nat, a: nat)
    requires lo < hi
    ensures At(Cut(s, lo, hi), a) == if s.Has(a) && !(lo <= a < hi) then Some(s.Gives()) else None
  {
    var c := Cut(s, lo, hi);
    assert c == [] || c == [c[0]] || c == [c[0], c[1]];
    if |c| == 2 { assert c[1..] == [c[1]]; }
  }

  /** Unmapping a range changes what that range maps, and nothing else. */
  lemma {:induction false} UnmappedAt(segs: seq<Seg>, lo: nat, hi: nat, a: nat)
    requires lo < hi
    ensures At(Unmapped(segs, lo, hi), a) == if lo <= a < hi then None else At(segs, a)
  {
    if segs != [] {
      UnmappedAt(segs[1..], lo, hi, a);
      CutAt(segs[0], lo, hi, a);
      AtConcat(Cut(segs[0], lo, hi), Unmapped(segs[1..], lo, hi), a);
      AtFirst(segs, a);
      hide At, Cut;
    }
  }

  /** Lists one before the other. */
  lemma OrderedConcat(x: seq<Seg>, y: seq<Seg>)
    requires Ordered(x) && Ordered(y)
    requires forall i, j :: 0 <= i < |x| && 0 <= j < |y| ==> x[i].End() <= y[j].base
    ensures Ordered(x + y)
  {
  }

  lemma CutOrdered(s: Seg, lo: nat, hi: nat)
    requires lo < hi && Ordered([s]) && OnPage(lo) && OnPage(hi)
    ensures Ordered(Cut(s, lo, hi))
  {
    assert [s][0] == s;
    PageArithmetic(s.base, s.len);
    if s.base < lo { PageArithmetic(lo, s.base); }
    if s.base < hi { PageArithmetic(hi, s.base); }
    if lo < s.End() { PageArithmetic(s.End(), lo); }
    if hi < s.End() { PageArithmetic(s.End(), hi); }
    PageArithmetic(hi, lo);
    hide OnPage;
  }

  lemma OrderedFirst(segs: seq<Seg>)
    requires Ordered(segs) && segs != []
    ensures Ordered([segs[0]]) && Ordered(segs[1..])
    ensures forall i :: 0 <= i < |segs[1..]| ==> segs[0].End() <= segs[1..][i].base
  {
  }

  lemma {:induction false} UnmappedOrdered(segs: seq<Seg>, lo: nat, hi: nat, least: nat)
    requires lo < hi && Ordered(segs) && OnPage(lo) && OnPage(hi)
    requires forall i :: 0 <= i < |segs| ==> least <= segs[i].base
    ensures Ordered(Unmapped(segs, lo, hi))
    ensures forall i :: 0 <= i < |Unmapped(segs, lo, hi)| ==> least <= Unmapped(segs, lo, hi)[i].base
    decreases |segs|
  {
    if segs != [] {
      var c, u := Cut(segs[0], lo, hi), Unmapped(segs[1..], lo, hi);
      OrderedFirst(segs);
      CutOrdered(segs[0], lo, hi);
      UnmappedOrdered(segs[1..], lo, hi, segs[0].End());
      hide Cut, Ordered;
      OrderedConcat(c, u);
    }
  }

  // ----- changing protection -----

  /** A segment after mprotect of [lo, hi): in up to three parts. */
  function Recolor(s: Seg, lo: nat, hi: nat, prot: Prot): (r: seq<Seg>)
    requires lo < hi
    ensures 1 <= |r| <= 3
    ensures forall i :: 0 <= i < |r| ==> s.base <= r[i].base && r[i].End() <= s.End()
  {
    if s.End() <= lo || s.base >= hi || s.prot == prot then [s]
    else if s.base >= lo && s.End() <= hi then [s.(prot := prot)]
    else if s.base < lo && s.End() > hi then
      var l := lo - s.base;
      [s.(len := l),
       s.(base := lo, len := hi - lo, prot := prot, off := FileOff(s, l)),
       s.(base := hi, len := s.End() - hi, off := FileOff(s, l + (hi - lo)))]
    else if s.base < lo then
      // the offset of the new segment is advanced by the length before the split
      [s.(len := lo - s.base),
       s.(base := lo, len := s.End() - lo, prot := prot, off := FileOff(s, s.len))]
    else
      var l := hi - s.base;
      [s.(len := l, prot := prot), s.(base := hi, len := s.len - l, off := FileOff(s, l))]
  }

  function FileOff(s: Seg, n: nat): nat {
    if s.vn.Some? then s.off + n else s.off
  }

  function Recolored(segs: seq<Seg>, lo: nat, hi: nat, prot: Prot): seq<Seg>
    requires lo < hi
  {
    if segs == [] then [] else Recolor(segs[0], lo, hi, prot) + Recolored(segs[1..], lo, hi, prot)
  }

  /** The rights of an address after mprotect. */
  function Reprotect(r: Option<Rights>, prot: Prot): Option<Rights> {
    match r case None => None case Some(v) => Some(v.(prot := prot))
  }

  lemma {:induction false} RecoloredConcat(x: seq<Seg>, y: seq<Seg>, lo: nat, hi: nat, prot: Prot)
    requires lo < hi
    ensures Recolored(x + y, lo, hi, prot) == Recolored(x, lo, hi, prot) + Recolored(y, lo, hi, prot)
  {
    hide Recolor;
    if x == [] {
      assert x + y == y;
    } else {
      assert (x + y)[1..] == x[1..] + y;
      RecoloredConcat(x[1..], y, lo, hi, prot);
      assert Recolor(x[0], lo, hi, prot) + (Recolored(x[1..], lo, hi, prot) + Recolored(y, lo, hi, prot))
          == Recolor(x[0], lo, hi, prot) + Recolored(x[1..], lo, hi, prot) + Recolored(y, lo, hi, prot);
    }
  }

  lemma RecoloredNext(segs: seq<Seg>, k: nat, lo: nat, hi: nat, prot: Prot)
    requires lo < hi && k < |segs|
    ensures Recolored(segs[..k + 1], lo, hi, prot) == Recolored(segs[..k], lo, hi, prot) + Recolor(segs[k], lo, hi, prot)
  {
    assert segs[..k + 1] == segs[..k] + [segs[k]];
    RecoloredConcat(segs[..k], [segs[k]], lo, hi, prot);
    assert Recolored([segs[k]], lo, hi, prot) == Recolor(segs[k], lo, hi, prot) + Recolored([], lo, hi, prot);
  }

  lemma {:induction false} RecoloredPast(segs: seq<Seg>, lo: nat, hi: nat, prot: Prot)
    requires lo < hi && forall i :: 0 <= i < |segs| ==> segs[i].base >= hi
    ensures Recolored(segs, lo, hi, prot) == segs
  {
    if segs != [] {
      RecoloredPast(segs[1..], lo, hi, prot);
      assert segs == [segs[0]] + segs[1..];
    }
  }

  lemma RecoloredRest(segs: seq<Seg>, k: nat, lo: nat, hi: nat, prot: Prot)
    requires Ordered(segs) && lo < hi && k <= |segs|
    requires k == |segs| || segs[k].base >= hi || (k > 0 && segs[k - 1].End() >= hi)
    ensures Recolored(segs, lo, hi, prot) == Recolored(segs[..k], lo, hi, prot) + segs[k..]
  {
    assert segs == segs[..k] + segs[k..];
    RecoloredConcat(segs[..k], segs[k..], lo, hi, prot);
    forall i | 0 <= i < |segs[k..]| ensures segs[k..][i].base >= hi {
      if i > 0 { assert segs[k].End() <= segs[k + i].base; }
    }
    RecoloredPast(segs[k..], lo, hi, prot);
  }

  lemma RecolorAt(s: Seg, lo: nat, hi: nat, prot: Prot, a: nat)
    requires lo < hi
    ensures At(Recolor(s, lo, hi, prot), a) ==
            if !s.Has(a) then None
            else Some(Rights(if lo <= a < hi then prot else s.prot, s.attr))
  {
    var c := Recolor(s, lo, hi, prot);
    AtFirst(c, a);
    if |c| > 1 { AtFirst(c[1..], a); }
    if |c| > 2 { AtFirst(c[1..][1..], a); }
  }

  /** mprotect changes the protection of what is mapped in the range, and nothing else. */
  lemma {:induction false} RecoloredAt(segs: seq<Seg>, lo: nat, hi: nat, prot: Prot, a: nat)
    requires lo < hi
    ensures At(Recolored(segs, lo, hi, prot), a) == if lo <= a < hi then Reprotect(At(segs, a), prot) else At(segs, a)
  {
    if segs != [] {
      RecoloredAt(segs[1..], lo, hi, prot, a);
      RecolorAt(segs[0], lo, hi, prot, a);
      AtConcat(Recolor(segs[0], lo, hi, prot), Recolored(segs[1..], lo, hi, prot), a);
      AtFirst(segs, a);
      hide At, Recolor;
    }
  }

  lemma RecolorOrdered(s: Seg, lo: nat, hi: nat, prot: Prot)
    requires lo < hi && Ordered([s]) && OnPage(lo) && OnPage(hi)
    ensures Ordered(Recolor(s, lo, hi, prot))
  {
    assert [s][0] == s;
    PageArithmetic(s.base, s.len);
    if s.base < lo { PageArithmetic(lo, s.base); }
    if s.base < hi { PageArithmetic(hi, s.base); }
    if lo < s.End() { PageArithmetic(s.End(), lo); }
    if hi < s.End() { PageArithmetic(s.End(), hi); }
    PageArithmetic(hi, lo);
    hide OnPage;
  }

  lemma {:induction false} RecoloredOrdered(segs: seq<Seg>, lo: nat, hi: nat, prot: Prot, least: nat)
    requires lo < hi && Ordered(segs) && OnPage(lo) && OnPage(hi)
    requires forall i :: 0 <= i < |segs| ==> least <= segs[i].base
    ensures Ordered(Recolored(segs, lo, hi, prot))
    ensures forall i :: 0 <= i < |Recolored(segs, lo, hi, prot)| ==> least <= Recolored(segs, lo, hi, prot)[i].base
    decreases |segs|
  {
    if segs != [] {
      var c, u := Recolor(segs[0], lo, hi, prot), Recolored(segs[1..], lo, hi, prot);
      OrderedFirst(segs);
      RecolorOrdered(segs[0], lo, hi, prot);
      RecoloredOrdered(segs[1..], lo, hi, prot, segs[0].End());
      hide Recolor, Ordered;
      OrderedConcat(c, u);
    }
  }

  // ----- combining -----

  /** The test of seg_combine on two neighbours. */
  predicate CanCombine(p: Seg, s: Seg) {
    && p.prot == s.prot && p.End() == s.base && p.attr == s.attr
    && (s.vn.Some? ==>
          && p.vn == s.vn
          && (p.off + p.mapped) % PAGE_SIZE == 0 && p.off + p.mapped == s.off)
  }

  function Combined(segs: seq<Seg>): (r: seq<Seg>)
    ensures |r| <= |segs| && (r == [] <==> segs == [])
    decreases |segs|
  {
    if |segs| < 2 then segs
    else if CanCombine(segs[0], segs[1]) then Combined([segs[0].(len := segs[0].len + segs[1].len)] + segs[2..])
    else [segs[0]] + Combined(segs[1..])
  }

  /** The list with segment p and the next one made into one. */
  function Joined(segs: seq<Seg>, p: nat): seq<Seg>
    requires p + 1 < |segs|
  {
    segs[..p] + [segs[p].(len := segs[p].len + segs[p + 1].len)] + segs[p + 2..]
  }

  /** One turn of seg_combine, the segments before p being done. */
  lemma CombinedStep(segs: seq<Seg>, p: nat)
    requires p + 1 < |segs|
    ensures CanCombine(segs[p], segs[p + 1]) ==>
              Joined(segs, p)[..p] == segs[..p] && Combined(Joined(segs, p)[p..]) == Combined(segs[p..])
    ensures !CanCombine(segs[p], segs[p + 1]) ==>
              segs[..p] + Combined(segs[p..]) == segs[..p + 1] + Combined(segs[p + 1..])
  {
    var rest := segs[p..];
    assert rest[0] == segs[p] && rest[1] == segs[p + 1] && rest[1..] == segs[p + 1..] && rest[2..] == segs[p + 2..];
    assert Joined(segs, p)[p..] == [rest[0].(len := rest[0].len + rest[1].len)] + rest[2..];
    assert segs[..p + 1] == segs[..p] + [segs[p]];
  }

  /** Combining leaves what is mapped alone. */
  lemma {:induction false} CombinedAt(segs: seq<Seg>, a: nat)
    ensures At(Combined(segs), a) == At(segs, a)
    decreases |segs|
  {
    if |segs| >= 2 {
      AtFirst(segs, a);
      if CanCombine(segs[0], segs[1]) {
        var m := [segs[0].(len := segs[0].len + segs[1].len)] + segs[2..];
        assert m[1..] == segs[2..] && segs[1..][1..] == segs[2..];
        CombinedAt(m, a);
        AtFirst(m, a);
        AtFirst(segs[1..], a);
      } else {
        CombinedAt(segs[1..], a);
        var c := [segs[0]] + Combined(segs[1..]);
        AtFirst(c, a);
        assert c[1..] == Combined(segs[1..]);
      }
    }
  }

  /** Combining keeps the list in order, and no two neighbours are left that could be combined. */
  lemma {:induction false} CombinedOrdered(segs: seq<Seg>)
    requires Ordered(segs)
    ensures Ordered(Combined(segs))
    ensures segs != [] ==> Combined(segs)[0].(len := segs[0].len) == segs[0]
    ensures forall i :: 0 <= i < |Combined(segs)| - 1 ==> !CanCombine(Combined(segs)[i], Combined(segs)[i + 1])
    decreases |segs|
  {
    if |segs| >= 2 {
      if CanCombine(segs[0], segs[1]) {
        var m := [segs[0].(len := segs[0].len + segs[1].len)] + segs[2..];
        MergedOrdered(segs);
        CombinedOrdered(m);
      } else {
        OrderedFirst(segs);
        CombinedOrdered(segs[1..]);
        CombinedTail(segs);
        assert !CanCombine(segs[0], Combined(segs[1..])[0]);
      }
    }
  }

  lemma MergedOrdered(segs: seq<Seg>)
    requires Ordered(segs) && |segs| >= 2 && segs[0].End() == segs[1].base
    ensures Ordered([segs[0].(len := segs[0].len + segs[1].len)] + segs[2..])
  {
    PageArithmetic(segs[0].len, segs[1].len);
    hide OnPage;
    var m := [segs[0].(len := segs[0].len + segs[1].len)] + segs[2..];
    assert forall i :: 0 < i < |m| ==> m[i] == segs[i + 1];
  }

  lemma CombinedTail(segs: seq<Seg>)
    requires Ordered(segs) && |segs| >= 2 && Ordered(Combined(segs[1..]))
    requires Combined(segs[1..])[0].base == segs[1].base
    ensures Ordered([segs[0]] + Combined(segs[1..]))
  {
    var c := Combined(segs[1..]);
    forall i | 0 <= i < |c| ensures segs[0].End() <= c[i].base {
      if i > 0 { assert c[0].End() <= c[i].base; }
    }
    OrderedFirst(segs);
    OrderedConcat([segs[0]], c);
  }

  /** A segment that runs into the next one. */
  ghost predicate Clash(segs: seq<Seg>) {
    exists k :: 0 <= k < |segs| - 1 && segs[k].End() > segs[k + 1].base
  }

  lemma {:induction false} CombinedHead(segs: seq<Seg>)
    requires segs != []
    ensures Combined(segs)[0].base == segs[0].base && Combined(segs)[0].End() >= segs[0].End()
    decreases |segs|
  {
    if |segs| >= 2 && CanCombine(segs[0], segs[1]) {
      CombinedHead([segs[0].(len := segs[0].len + segs[1].len)] + segs[2..]);
    }
  }

  lemma ClashAt(segs: seq<Seg>, k: nat)
    requires k + 1 < |segs| && segs[k].End() > segs[k + 1].base
    ensures Clash(segs)
  {
  }

  /** Combining does not repair an overlap. */
  lemma {:induction false} CombinedClash(segs: seq<Seg>)
    requires Clash(segs)
    ensures Clash(Combined(segs))
    decreases |segs|
  {
    var k :| 0 <= k < |segs| - 1 && segs[k].End() > segs[k + 1].base;
    hide Clash;
    if CanCombine(segs[0], segs[1]) {
      var m := [segs[0].(len := segs[0].len + segs[1].len)] + segs[2..];
      assert k > 0 && m[k - 1].End() == segs[k].End() && m[k] == segs[k + 1];
      ClashAt(m, k - 1);
      CombinedClash(m);
    } else {
      var c := [segs[0]] + Combined(segs[1..]);
      assert Combined(segs) == c;
      hide CanCombine;
      if k == 0 {
        CombinedHead(segs[1..]);
        ClashAt(c, 0);
      } else {
        ClashAt(segs[1..], k - 1);
        CombinedClash(segs[1..]);
        ClashAfter(segs[0], Combined(segs[1..]));
      }
    }
  }

  lemma ClashAfter(s: Seg, segs: seq<Seg>)
    requires Clash(segs)
    ensures Clash([s] + segs)
  {
    var k :| 0 <= k < |segs| - 1 && segs[k].End() > segs[k + 1].base;
    ClashAt([s] + segs, k + 1);
  }

  // ----- inserting -----

  /** The insertion point of as_insert: before the first segment with a higher base. */
  function Place(segs: seq<Seg>, base: nat): (k: nat)
    ensures k <= |segs|
    ensures forall i :: 0 <= i < k ==> segs[i].base <= base
    ensures k < |segs| ==> segs[k].base > base
  {
    if segs == [] || segs[0].base > base then 0 else 1 + Place(segs[1..], base)
  }

  function Inserted(segs: seq<Seg>, n: Seg): seq<Seg> {
    var k := Place(segs, n.base);
    segs[..k] + [n] + segs[k..]
  }

  /** Addresses of n that no segment maps. */
  ghost predicate Vacant(segs: seq<Seg>, n: Seg) {
    forall a :: n.Has(a) ==> At(segs, a) == None
  }

  lemma VacantApart(segs: seq<Seg>, n: Seg, i: nat)
    requires Ordered(segs) && Vacant(segs, n) && n.len > 0 && i < |segs|
    ensures segs[i].base <= n.base ==> segs[i].End() <= n.base
    ensures segs[i].base > n.base ==> n.End() <= segs[i].base
  {
    assert n.Has(n.base);
    if segs[i].Has(n.base) { AtIs(segs, n.base, i); }
    if n.Has(segs[i].base) { AtIs(segs, segs[i].base, i); }
  }

  lemma OrderedSplit(segs: seq<Seg>, k: nat)
    requires Ordered(segs) && k <= |segs|
    ensures Ordered(segs[..k]) && Ordered(segs[k..])
  {
    hide OnPage;
  }

  lemma InsertedOrdered(segs: seq<Seg>, n: Seg)
    requires Ordered(segs) && Vacant(segs, n) && n.len > 0 && OnPage(n.base) && OnPage(n.len)
    ensures Ordered(Inserted(segs, n))
  {
    hide Ordered, Vacant;
    var k := Place(segs, n.base);
    var x, y := segs[..k], segs[k..];
    InsertedApart(segs, n);
    OrderedSplit(segs, k);
    OneOrdered(n);
    OrderedConcat(x, [n]);
    OrderedConcat(x + [n], y);
  }

  lemma OneOrdered(n: Seg)
    requires n.len > 0 && OnPage(n.base) && OnPage(n.len)
    ensures Ordered([n])
  {
  }

  lemma InsertedApart(segs: seq<Seg>, n: Seg)
    requires Ordered(segs) && Vacant(segs, n) && n.len > 0
    ensures var k := Place(segs, n.base);
            && (forall i :: 0 <= i < k ==> segs[i].End() <= n.base)
            && (forall i :: k <= i < |segs| ==> n.End() <= segs[i].base)
            && (forall i, j :: 0 <= i < k <= j < |segs| ==> segs[i].End() <= segs[j].base)
  {
    hide OnPage, Vacant;
    var k := Place(segs, n.base);
    forall i | 0 <= i < k ensures segs[i].End() <= n.base {
      VacantApart(segs, n, i);
    }
    forall i | k <= i < |segs| ensures n.End() <= segs[i].base {
      if i > k { assert segs[k].End() <= segs[i].base; }
      VacantApart(segs, n, i);
    }
  }

  lemma InsertedAt(segs: seq<Seg>, n: Seg, a: nat)
    requires Vacant(segs, n)
    ensures At(Inserted(segs, n), a) == if n.Has(a) then Some(n.Gives()) else At(segs, a)
  {
    var k := Place(segs, n.base);
    AtConcat(segs[..k], [n], a);
    AtConcat(segs[..k] + [n], segs[k..], a);
    assert segs == segs[..k] + segs[k..];
    AtConcat(segs[..k], segs[k..], a);
    AtFirst([n], a);
  }

  // ----- access checks -----

  /** u_access_okfor */
  function AccessOk(segs: seq<Seg>, addr: nat, len: nat, access: Prot): bool {
    var i := Find(segs, addr);
    i < |segs| && segs[i].End() - addr >= len && access & segs[i].prot == access
  }

  /** The check passes only when the whole range is mapped with the rights asked for. */
  lemma AccessSound(segs: seq<Seg>, addr: nat, len: nat, access: Prot, a: nat)
    requires Ordered(segs) && AccessOk(segs, addr, len, access) && addr <= a < addr + len
    ensures At(segs, a).Some? && access & At(segs, a).value.prot == access
  {
    AtIs(segs, a, Find(segs, addr));
  }

  /** It passes exactly when one segment holds the address and the whole range, with the rights. */
  lemma AccessExact(segs: seq<Seg>, addr: nat, len: nat, access: Prot)
    requires Ordered(segs)
    ensures AccessOk(segs, addr, len, access) <==>
              exists i :: 0 <= i < |segs| && segs[i].Has(addr) && addr + len <= segs[i].End() && access & segs[i].prot == access
  {
    forall i | 0 <= i < |segs| && segs[i].Has(addr) ensures Find(segs, addr) == i {
      var j := Find(segs, addr);
      assert j <= i;
    }
  }
}
