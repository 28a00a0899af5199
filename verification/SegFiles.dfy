/** The file and the offset in it behind each address, and which changes to the segments keep them: sys/mem/vm.cpp. */
module SegFiles {
  import opened KernelConfig
  import opened Queues
  import opened Segments

  /** The file and the offset in it that a segment says are at address a. */
  function FileAt(s: Seg, a: nat): Option<(nat, nat)>
    requires s.Has(a)
  {
    match s.vn case None => None case Some(v) => Some((v, s.off + (a - s.base)))
  }

  /** What the segments say is at address a. */
  function FileOf(segs: seq<Seg>, a: nat): Option<(nat, nat)> {
    var i := Find(segs, a);
    if i < |segs| then FileAt(segs[i], a) else None
  }

  ghost predicate SameFiles(segs: seq<Seg>, segs': seq<Seg>) {
    forall a: nat :: FileOf(segs', a) == FileOf(segs, a)
  }

  lemma FileConcat(x: seq<Seg>, y: seq<Seg>, a: nat)
    ensures FileOf(x + y, a) == if At(x, a).Some? then FileOf(x, a) else FileOf(y, a)
  {
    FindConcat(x, y, a);
  }

  lemma FileFirst(segs: seq<Seg>, a: nat)
    requires segs != []
    ensures FileOf(segs, a) == if segs[0].Has(a) then FileAt(segs[0], a) else FileOf(segs[1..], a)
  {
  }

  lemma FileIs(segs: seq<Seg>, a: nat, k: nat)
    requires Ordered(segs) && k < |segs| && segs[k].Has(a)
    ensures FileOf(segs, a) == FileAt(segs[k], a)
  {
    assert Find(segs, a) <= k;
  }

  lemma FileNone(segs: seq<Seg>, a: nat)
    requires At(segs, a) == None
    ensures FileOf(segs, a) == None
  {
  }

  // ----- unmapping -----

  /** Parts of a segment that keep the file offset of every address they hold. */
  ghost predicate KeepsFile(s: Seg, parts: seq<Seg>) {
    forall a: nat :: At(parts, a).Some? && s.Has(a) ==> FileOf(parts, a) == FileAt(s, a)
  }

  lemma CutKeepsFile(s: Seg, lo: nat, hi: nat)
    requires lo < hi
    ensures KeepsFile(s, Cut(s, lo, hi))
  {
  }

  /** Unmapping a range leaves every other address the file and offset it had. */
  lemma {:induction false} UnmappedFiles(segs: seq<Seg>, lo: nat, hi: nat, a: nat)
    requires lo < hi
    ensures FileOf(Unmapped(segs, lo, hi), a) == if lo <= a < hi then None else FileOf(segs, a)
  {
    if segs != [] {
      var c, u := Cut(segs[0], lo, hi), Unmapped(segs[1..], lo, hi);
      UnmappedFiles(segs[1..], lo, hi, a);
      CutAt(segs[0], lo, hi, a);
      CutKeepsFile(segs[0], lo, hi);
      FileConcat(c, u, a);
      FileFirst(segs, a);
      hide At, Cut, FileOf;
    }
  }

  /** The range has no file any more, and every other address what it had. */
  ghost predicate UnmapsFiles(segs: seq<Seg>, segs': seq<Seg>, lo: nat, hi: nat) {
    forall a: nat :: FileOf(segs', a) == if lo <= a < hi then None else FileOf(segs, a)
  }

  lemma UnmapFiles(segs: seq<Seg>, lo: nat, hi: nat)
    requires lo < hi
    ensures UnmapsFiles(segs, Unmapped(segs, lo, hi), lo, hi)
  {
    hide FileOf, Unmapped;
    forall a: nat ensures FileOf(Unmapped(segs, lo, hi), a) == if lo <= a < hi then None else FileOf(segs, a) {
      UnmappedFiles(segs, lo, hi, a);
    }
  }

  // ----- combining -----

  /** Neighbours that stay right when joined: of the same file, the first mapping it up to its end, or both of none. */
  predicate Continues(p: Seg, s: Seg) {
    p.vn == s.vn && (p.vn.Some? ==> s.off == p.off + (s.base - p.base))
  }

  /** Whenever seg_combine joins two neighbours, they continue each other. */
  predicate JoinsKeep(segs: seq<Seg>)
    decreases |segs|
  {
    if |segs| < 2 then true
    else if CanCombine(segs[0], segs[1]) then
      Continues(segs[0], segs[1]) && JoinsKeep(Merged(segs))
    else JoinsKeep(segs[1..])
  }

  /** Joining the first two segments keeps every file offset exactly when they continue each other. */
  lemma JoinFiles(segs: seq<Seg>)
    requires Ordered(segs) && |segs| >= 2 && CanCombine(segs[0], segs[1])
    ensures SameFiles(segs, Merged(segs)) <==> Continues(segs[0], segs[1])
  {
    var p, s, m := segs[0], segs[1], Merged(segs);
    assert m[1..] == segs[2..] && segs[1..][1..] == segs[2..];
    hide OnPage;
    forall a: nat ensures FileOf(m, a) == if p.Has(a) || s.Has(a) then FileAt(m[0], a) else FileOf(segs[2..], a)
                  ensures FileOf(segs, a) == if p.Has(a) then FileAt(p, a) else if s.Has(a) then FileAt(s, a) else FileOf(segs[2..], a) {
      FileFirst(m, a);
      FileFirst(segs, a);
      FileFirst(segs[1..], a);
    }
    hide FileOf;
    if SameFiles(segs, m) {
      assert s.Has(s.base) && FileOf(m, s.base) == FileOf(segs, s.base);
    }
  }

  /** The first segment of the combined list says what the first segment said. */
  lemma CombinedFirst(segs: seq<Seg>, a: nat)
    requires Ordered(segs) && segs != [] && segs[0].Has(a)
    ensures FileOf(Combined(segs), a) == FileAt(segs[0], a)
  {
    CombinedOrdered(segs);
    CombinedHead(segs);
    hide Combined, Ordered;
    FileFirst(Combined(segs), a);
  }

  function Merged(segs: seq<Seg>): seq<Seg>
    requires |segs| >= 2
  {
    [segs[0].(len := segs[0].len + segs[1].len)] + segs[2..]
  }

  lemma CombineJoin(segs: seq<Seg>)
    requires |segs| >= 2 && CanCombine(segs[0], segs[1])
    ensures Combined(segs) == Combined(Merged(segs))
    ensures JoinsKeep(segs) <==> Continues(segs[0], segs[1]) && JoinsKeep(Merged(segs))
  {
  }

  lemma CombineSkip(segs: seq<Seg>)
    requires |segs| >= 2 && !CanCombine(segs[0], segs[1])
    ensures JoinsKeep(segs) <==> JoinsKeep(segs[1..])
  {
  }

  lemma CombineNone(segs: seq<Seg>)
    requires |segs| < 2
    ensures JoinsKeep(segs) && Combined(segs) == segs
  {
  }

  lemma SameTrans(x: seq<Seg>, y: seq<Seg>, z: seq<Seg>)
    requires SameFiles(x, y)
    ensures SameFiles(x, z) <==> SameFiles(y, z)
  {
    hide FileOf;
  }

  /** seg_combine keeps the file and offset of every address exactly when all that it joins continue each other. */
  lemma {:induction false} CombinedFiles(segs: seq<Seg>)
    requires Ordered(segs)
    ensures SameFiles(segs, Combined(segs)) <==> JoinsKeep(segs)
    decreases |segs|
  {
    hide SameFiles, Combined, CanCombine, Ordered, JoinsKeep, Continues;
    if |segs| < 2 {
      CombineNone(segs);
      SameSelf(segs);
    } else if CanCombine(segs[0], segs[1]) {
      CombineJoin(segs);
      JoinOrdered(segs);
      CombinedFiles(Merged(segs));
      JoinFiles(segs);
      if SameFiles(segs, Combined(segs)) {
        JoinedFirst(segs);
      }
      if Continues(segs[0], segs[1]) {
        SameTrans(segs, Merged(segs), Combined(segs));
      }
    } else {
      CombineSkip(segs);
      OrderedFirst(segs);
      CombinedFiles(segs[1..]);
      SkipFiles(segs);
    }
  }

  lemma SameSelf(segs: seq<Seg>)
    ensures SameFiles(segs, segs)
  {
  }

  lemma JoinOrdered(segs: seq<Seg>)
    requires Ordered(segs) && |segs| >= 2 && CanCombine(segs[0], segs[1])
    ensures Ordered(Merged(segs)) && |Merged(segs)| < |segs|
  {
    MergedOrdered(segs);
  }

  /** What the merged segment says of the second one's start is what the combined list says. */
  lemma JoinedFirst(segs: seq<Seg>)
    requires Ordered(segs) && |segs| >= 2 && CanCombine(segs[0], segs[1]) && SameFiles(segs, Combined(segs))
    ensures Continues(segs[0], segs[1])
  {
    var p, s, m := segs[0], segs[1], Merged(segs);
    MergedOrdered(segs);
    assert s.len > 0 && s.Has(s.base) && m[0].Has(s.base) && !p.Has(s.base);
    CombinedFirst(m, s.base);
    FileIs(segs, s.base, 1);
    assert FileOf(Combined(segs), s.base) == FileOf(segs, s.base);
  }

  lemma SkipFiles(segs: seq<Seg>)
    requires Ordered(segs) && |segs| >= 2 && !CanCombine(segs[0], segs[1])
    ensures SameFiles(segs, Combined(segs)) <==> SameFiles(segs[1..], Combined(segs[1..]))
  {
    var c := Combined(segs[1..]);
    var d := [segs[0]] + c;
    assert Combined(segs) == d && d[1..] == c;
    forall a: nat ensures segs[0].Has(a) ==> FileOf(segs[1..], a) == None && FileOf(c, a) == None {
      if segs[0].Has(a) {
        AtNone(segs[1..], a);
        CombinedAt(segs[1..], a);
        FileNone(segs[1..], a);
        FileNone(c, a);
      }
    }
    hide Combined, Ordered;
    forall a: nat ensures FileOf(d, a) == (if segs[0].Has(a) then FileAt(segs[0], a) else FileOf(c, a))
                  ensures FileOf(segs, a) == if segs[0].Has(a) then FileAt(segs[0], a) else FileOf(segs[1..], a) {
      FileFirst(d, a);
      FileFirst(segs, a);
    }
    hide FileOf;
  }

  // ----- changing protection -----

  /** mprotect of [lo, hi) splits off the end of a file segment. */
  predicate EndSplit(s: Seg, lo: nat, hi: nat, prot: Prot) {
    s.vn.Some? && s.prot != prot && s.base < lo < s.End() <= hi
  }

  ghost predicate NoEndSplit(segs: seq<Seg>, lo: nat, hi: nat, prot: Prot) {
    forall k :: 0 <= k < |segs| ==> !EndSplit(segs[k], lo, hi, prot)
  }

  lemma RecolorFile(s: Seg, lo: nat, hi: nat, prot: Prot, a: nat)
    requires lo < hi && s.Has(a) && !EndSplit(s, lo, hi, prot)
    ensures FileOf(Recolor(s, lo, hi, prot), a) == FileAt(s, a)
  {
    var c := Recolor(s, lo, hi, prot);
    FileFirst(c, a);
    if |c| > 1 { FileFirst(c[1..], a); }
    if |c| > 2 { FileFirst(c[1..][1..], a); }
  }

  /** Without such a split, dividing and recolouring segments keeps every file offset. */
  lemma {:induction false} RecoloredFiles(segs: seq<Seg>, lo: nat, hi: nat, prot: Prot, a: nat)
    requires lo < hi && NoEndSplit(segs, lo, hi, prot)
    ensures FileOf(Recolored(segs, lo, hi, prot), a) == FileOf(segs, a)
  {
    if segs != [] {
      var c, u := Recolor(segs[0], lo, hi, prot), Recolored(segs[1..], lo, hi, prot);
      RecoloredFiles(segs[1..], lo, hi, prot, a);
      RecolorAt(segs[0], lo, hi, prot, a);
      assert !EndSplit(segs[0], lo, hi, prot);
      if segs[0].Has(a) { RecolorFile(segs[0], lo, hi, prot, a); }
      FileConcat(c, u, a);
      FileFirst(segs, a);
      hide At, Recolor, FileOf;
    }
  }

  /** A segment whose left neighbour has another protection is not joined to anything before it. */
  lemma {:induction false} RunStart(x: seq<Seg>, n: Seg, y: seq<Seg>)
    requires Ordered(x + [n] + y) && x != [] && x[|x| - 1].prot != n.prot
    ensures FileOf(Combined(x + [n] + y), n.base) == FileAtStart(n)
    decreases |x|
  {
    var r := x + [n] + y;
    assert r[|x|] == n && n.len > 0;
    if |x| == 1 {
      assert r[1..] == [n] + y;
      OrderedFirst(r);
      RunStartNext(r, n);
      CombinedFirst([n] + y, n.base);
    } else if CanCombine(r[0], r[1]) {
      var x' := Merged(x);
      assert r[0] == x[0] && r[1] == x[1];
      assert Merged(r) == x' + [n] + y;
      JoinOrdered(r);
      CombineJoin(r);
      RunStart(x', n, y);
    } else {
      assert r[1..] == x[1..] + [n] + y;
      OrderedFirst(r);
      RunStart(x[1..], n, y);
      RunStartSkip(r, n);
    }
  }

  function FileAtStart(n: Seg): Option<(nat, nat)> {
    match n.vn case None => None case Some(v) => Some((v, n.off))
  }

  lemma RunStartNext(r: seq<Seg>, n: Seg)
    requires |r| >= 2 && r[1] == n && r[0].prot != n.prot && Ordered(r)
    ensures FileOf(Combined(r), n.base) == FileOf(Combined(r[1..]), n.base)
  {
    RunStartSkip(r, n);
  }

  lemma RunStartSkip(r: seq<Seg>, n: Seg)
    requires |r| >= 2 && !CanCombine(r[0], r[1]) && r[0].End() <= n.base
    ensures FileOf(Combined(r), n.base) == FileOf(Combined(r[1..]), n.base)
  {
    var d := [r[0]] + Combined(r[1..]);
    FileFirst(d, n.base);
    assert d[1..] == Combined(r[1..]);
  }

  lemma RecoloredAround(segs: seq<Seg>, k: nat, lo: nat, hi: nat, prot: Prot)
    requires lo < hi && k < |segs|
    ensures Recolored(segs, lo, hi, prot)
         == Recolored(segs[..k], lo, hi, prot) + Recolor(segs[k], lo, hi, prot) + Recolored(segs[k + 1..], lo, hi, prot)
  {
    hide Recolored, Recolor;
    RecoloredNext(segs, k, lo, hi, prot);
    RecoloredConcat(segs[..k + 1], segs[k + 1..], lo, hi, prot);
    assert segs == segs[..k + 1] + segs[k + 1..];
  }

  lemma EndSplitParts(s: Seg, lo: nat, hi: nat, prot: Prot) returns (a: Seg, b: Seg)
    requires lo < hi && EndSplit(s, lo, hi, prot)
    ensures Recolor(s, lo, hi, prot) == [a, b] && a.prot != b.prot && b.base == lo
    ensures s.Has(lo) && FileAtStart(b) != FileAt(s, lo)
  {
    var c := Recolor(s, lo, hi, prot);
    a, b := c[0], c[1];
  }

  /** The end split off has the wrong offset, and seg_combine does not mend it. */
  lemma EndSplitMoves(segs: seq<Seg>, k: nat, lo: nat, hi: nat, prot: Prot)
    requires Ordered(segs) && OnPage(lo) && OnPage(hi) && lo < hi && k < |segs| && EndSplit(segs[k], lo, hi, prot)
    ensures FileOf(Combined(Recolored(segs, lo, hi, prot)), lo) != FileOf(segs, lo)
  {
    hide Ordered, Recolored, Recolor, Combined, FileOf, FileAt, FileAtStart, EndSplit, OnPage;
    var u, v := Recolored(segs[..k], lo, hi, prot), Recolored(segs[k + 1..], lo, hi, prot);
    var a, b := EndSplitParts(segs[k], lo, hi, prot);
    RecoloredOrdered(segs, lo, hi, prot, 0);
    RecoloredAround(segs, k, lo, hi, prot);
    FileIs(segs, lo, k);
    assert u + [a, b] + v == (u + [a]) + [b] + v;
    RunStart(u + [a], b, v);
  }

  /**
     mprotect keeps the file and offset of every address exactly when it does not split off the end
     of a file segment and all neighbours that seg_combine then joins continue each other.
   */
  lemma MprotectFiles(segs: seq<Seg>, lo: nat, hi: nat, prot: Prot)
    requires Ordered(segs) && OnPage(lo) && OnPage(hi) && lo < hi
    ensures SameFiles(segs, Combined(Recolored(segs, lo, hi, prot))) <==>
              NoEndSplit(segs, lo, hi, prot) && JoinsKeep(Recolored(segs, lo, hi, prot))
  {
    hide Ordered, Recolored, Combined, FileOf, JoinsKeep, OnPage, EndSplit;
    var r := Recolored(segs, lo, hi, prot);
    if !NoEndSplit(segs, lo, hi, prot) {
      var k :| 0 <= k < |segs| && EndSplit(segs[k], lo, hi, prot);
      EndSplitMoves(segs, k, lo, hi, prot);
    } else {
      forall a: nat ensures FileOf(r, a) == FileOf(segs, a) {
        RecoloredFiles(segs, lo, hi, prot, a);
      }
      RecoloredOrdered(segs, lo, hi, prot, 0);
      CombinedFiles(r);
      SameTrans(segs, r, Combined(r));
    }
  }

  /** The same of an mprotect that has dealt with the first k segments only. */
  lemma PartRecoloredFiles(segs: seq<Seg>, k: nat, lo: nat, hi: nat, prot: Prot)
    requires lo < hi && k <= |segs| && Ordered(segs) && Ordered(Recolored(segs[..k], lo, hi, prot) + segs[k..])
    ensures SameFiles(segs, Recolored(segs[..k], lo, hi, prot) + segs[k..]) <==> NoEndSplit(segs[..k], lo, hi, prot)
  {
    hide Recolored, Recolor, FileOf, EndSplit, At;
    var u := Recolored(segs[..k], lo, hi, prot);
    assert segs == segs[..k] + segs[k..];
    if !NoEndSplit(segs[..k], lo, hi, prot) {
      var j :| 0 <= j < k && EndSplit(segs[..k][j], lo, hi, prot);
      PartSplitMoves(segs, j, k, lo, hi, prot);
    } else {
      forall a: nat ensures FileOf(u + segs[k..], a) == FileOf(segs, a) {
        RecoloredFiles(segs[..k], lo, hi, prot, a);
        RecoloredAt(segs[..k], lo, hi, prot, a);
        FileConcat(u, segs[k..], a);
        FileConcat(segs[..k], segs[k..], a);
      }
    }
  }

  lemma PartSplitMoves(segs: seq<Seg>, j: nat, k: nat, lo: nat, hi: nat, prot: Prot)
    requires lo < hi && j < k <= |segs| && Ordered(segs) && Ordered(Recolored(segs[..k], lo, hi, prot) + segs[k..])
    requires EndSplit(segs[j], lo, hi, prot)
    ensures FileOf(Recolored(segs[..k], lo, hi, prot) + segs[k..], lo) != FileOf(segs, lo)
  {
    hide Recolored, Recolor, FileOf, EndSplit;
    var r := Recolored(segs[..k], lo, hi, prot) + segs[k..];
    var a, b := EndSplitParts(segs[j], lo, hi, prot);
    RecoloredAround(segs[..k], j, lo, hi, prot);
    var m := |Recolored(segs[..k][..j], lo, hi, prot)| + 1;
    assert r[m] == b && b.Has(lo);
    FileIs(r, lo, m);
    FileIs(segs, lo, j);
  }

  /** Two pages of a file, the second made read-only: it is then taken to lie one page further in the file. */
  lemma MprotectShiftsFile()
    ensures var segs := [Seg(0, 2 * PAGE_SIZE, 3, 0, Some(7), 0, 2 * PAGE_SIZE)];
            var r := Combined(Recolored(segs, PAGE_SIZE, 2 * PAGE_SIZE, 1));
            FileOf(segs, PAGE_SIZE) == Some((7, PAGE_SIZE)) && FileOf(r, PAGE_SIZE) == Some((7, 2 * PAGE_SIZE))
  {
    var segs := [Seg(0, 2 * PAGE_SIZE, 3, 0, Some(7), 0, 2 * PAGE_SIZE)];
    var c := Recolor(segs[0], PAGE_SIZE, 2 * PAGE_SIZE, 1);
    assert Recolored(segs, PAGE_SIZE, 2 * PAGE_SIZE, 1) == c + Recolored([], PAGE_SIZE, 2 * PAGE_SIZE, 1) == c;
    assert c == [c[0], c[1]] && c[1..] == [c[1]];
    assert Combined(c) == [c[0]] + Combined(c[1..]) == c;
    FileFirst(c, PAGE_SIZE);
  }

  /**
     A page of a file whose second page has been unmapped, and the third page of the file behind it:
     joined, the latter is taken for the second.
   */
  lemma JoinMovesFile()
    ensures var p, s := Seg(0, PAGE_SIZE, 3, 0, Some(7), 0, 2 * PAGE_SIZE), Seg(PAGE_SIZE, PAGE_SIZE, 1, 0, Some(7), 2 * PAGE_SIZE, PAGE_SIZE);
            var r := Combined(Recolored([p, s], PAGE_SIZE, 2 * PAGE_SIZE, 3));
            && Cut(p.(len := 2 * PAGE_SIZE), PAGE_SIZE, 2 * PAGE_SIZE) == [p] && Ordered([p, s])
            && FileOf([p, s], PAGE_SIZE) == Some((7, 2 * PAGE_SIZE)) && FileOf(r, PAGE_SIZE) == Some((7, PAGE_SIZE))
  {
    var p, s := Seg(0, PAGE_SIZE, 3, 0, Some(7), 0, 2 * PAGE_SIZE), Seg(PAGE_SIZE, PAGE_SIZE, 1, 0, Some(7), 2 * PAGE_SIZE, PAGE_SIZE);
    JoinedByMprotect(p, s);
    FileFirst([p, s], PAGE_SIZE);
  }

  /** An anonymous page behind a page of a file: joined, it is taken for the next page of the file. */
  lemma JoinGivesFile()
    ensures var p, s := Seg(0, PAGE_SIZE, 3, 0, Some(7), 0, PAGE_SIZE), Seg(PAGE_SIZE, PAGE_SIZE, 1, 0, None, 0, 0);
            var r := Combined(Recolored([p, s], PAGE_SIZE, 2 * PAGE_SIZE, 3));
            Ordered([p, s]) && FileOf([p, s], PAGE_SIZE) == None && FileOf(r, PAGE_SIZE) == Some((7, PAGE_SIZE))
  {
    var p, s := Seg(0, PAGE_SIZE, 3, 0, Some(7), 0, PAGE_SIZE), Seg(PAGE_SIZE, PAGE_SIZE, 1, 0, None, 0, 0);
    JoinedByMprotect(p, s);
    FileFirst([p, s], PAGE_SIZE);
  }

  lemma JoinedByMprotect(p: Seg, s: Seg)
    requires p.base == 0 && p.len == s.base == s.len == PAGE_SIZE && p.prot == 3 && s.prot == 1 && CanCombine(p, s.(prot := 3))
    ensures Combined(Recolored([p, s], PAGE_SIZE, 2 * PAGE_SIZE, 3)) == [p.(len := 2 * PAGE_SIZE)]
  {
    hide CanCombine;
    assert [p, s][1..] == [s] && [s][1..] == [];
    assert Recolored([s], PAGE_SIZE, 2 * PAGE_SIZE, 3) == [s.(prot := 3)] + Recolored([], PAGE_SIZE, 2 * PAGE_SIZE, 3);
    assert Recolored([p, s], PAGE_SIZE, 2 * PAGE_SIZE, 3) == [p] + [s.(prot := 3)];
    CombineJoin([p, s.(prot := 3)]);
    CombineNone([p.(len := 2 * PAGE_SIZE)]);
    assert Merged([p, s.(prot := 3)]) == [p.(len := 2 * PAGE_SIZE)];
  }

  // ----- mapping -----

  /** Every address of the new segment has what that says, and every other what it had. */
  ghost predicate MapsFile(segs: seq<Seg>, segs': seq<Seg>, s: Seg) {
    forall a: nat :: FileOf(segs', a) == if s.Has(a) then FileAt(s, a) else FileOf(segs, a)
  }

  lemma InsertedFiles(segs: seq<Seg>, n: Seg, a: nat)
    requires Vacant(segs, n)
    ensures FileOf(Inserted(segs, n), a) == if n.Has(a) then FileAt(n, a) else FileOf(segs, a)
  {
    var k := Place(segs, n.base);
    assert segs == segs[..k] + segs[k..];
    FileConcat(segs[..k] + [n], segs[k..], a);
    FileConcat(segs[..k], [n], a);
    FileConcat(segs[..k], segs[k..], a);
    AtConcat(segs[..k], [n], a);
    AtConcat(segs[..k], segs[k..], a);
    FileFirst([n], a);
    AtFirst([n], a);
    hide FileOf, At;
  }

  /** A mapping where nothing was mapped gives its range its file, and leaves all others theirs, exactly when what is joined continues. */
  lemma InsertFiles(segs: seq<Seg>, s: Seg)
    requires Ordered(segs) && Vacant(segs, s) && OnPage(s.base) && OnPage(s.len) && s.len > 0
    ensures MapsFile(segs, Combined(Inserted(segs, s)), s) <==> JoinsKeep(Inserted(segs, s))
  {
    hide Ordered, Combined, Inserted, FileOf, JoinsKeep, Vacant, OnPage;
    var r := Inserted(segs, s);
    forall a: nat ensures FileOf(r, a) == if s.Has(a) then FileAt(s, a) else FileOf(segs, a) {
      InsertedFiles(segs, s, a);
    }
    InsertedOrdered(segs, s);
    CombinedFiles(r);
  }

  /** The same of a mapping that replaces what was mapped. */
  lemma MapFiles(segs: seq<Seg>, s: Seg)
    requires Ordered(segs) && OnPage(s.base) && OnPage(s.len) && s.len > 0
    ensures var r := Inserted(Unmapped(segs, s.base, s.End()), s);
            MapsFile(segs, Combined(r), s) <==> JoinsKeep(r)
  {
    hide Ordered, Combined, Inserted, FileOf, JoinsKeep, OnPage, Unmapped, At;
    var u := Unmapped(segs, s.base, s.End());
    PageArithmetic(s.base, s.len);
    UnmappedOrdered(segs, s.base, s.End(), 0);
    forall a: nat ensures FileOf(u, a) == (if s.Has(a) then None else FileOf(segs, a)) && (s.Has(a) ==> At(u, a) == None) {
      UnmappedFiles(segs, s.base, s.End(), a);
      UnmappedAt(segs, s.base, s.End(), a);
    }
    InsertFiles(u, s);
  }

  /** An anonymous page mapped behind a page of a file is taken for the next page of the file. */
  lemma MmapGivesFile()
    ensures var p, s := Seg(0, PAGE_SIZE, 3, 0, Some(7), 0, PAGE_SIZE), Seg(PAGE_SIZE, PAGE_SIZE, 3, 0, None, 0, 0);
            var ins := Inserted(Unmapped([p], s.base, s.End()), s);
            && Ordered([p]) && !JoinsKeep(ins) && s.Has(PAGE_SIZE) && FileAt(s, PAGE_SIZE) == None
            && FileOf(Combined(ins), PAGE_SIZE) == Some((7, PAGE_SIZE)) && !MapsFile([p], Combined(ins), s)
  {
    var p, s := Seg(0, PAGE_SIZE, 3, 0, Some(7), 0, PAGE_SIZE), Seg(PAGE_SIZE, PAGE_SIZE, 3, 0, None, 0, 0);
    assert Unmapped([p], s.base, s.End()) == Cut(p, s.base, s.End()) + Unmapped([], s.base, s.End()) == [p];
    assert Inserted([p], s) == [p, s];
    CombineJoin([p, s]);
    CombineNone([p.(len := 2 * PAGE_SIZE)]);
    assert Merged([p, s]) == [p.(len := 2 * PAGE_SIZE)];
    FileFirst([p.(len := 2 * PAGE_SIZE)], PAGE_SIZE);
  }
}
