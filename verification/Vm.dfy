/** Address spaces: the segment list and the pages behind it, changed together (sys/mem/vm.cpp, untranslated.cpp). */
module Vm {
  import opened KernelConfig
  import opened Queues
  import opened Regions
  import opened Pages
  import opened Segments
  import opened SegFiles
  import opened VmSpec
  import opened VmMap

  /** What a call returns; Asserts where an assertion of the code fails instead. */
  datatype Outcome = Done | Invalid | NoMemory | Fault | Asserts

  /** Where the regions of the allocator are. */
  ghost function SpansOf(mem: PageAllocator): (at: seq<Span>)
    ensures |at| == |mem.regions|
  {
    seq(|mem.regions|, i requires 0 <= i < |mem.regions| =>
      Span(mem.regions[i].base, mem.regions[i].begin, mem.regions[i].end))
  }

  class AddressSpace {
    const id: Owner
    const mem: PageAllocator
    var segs: seq<Seg>

    /** A new address space, nothing being mapped. */
    constructor (id: Owner, mem: PageAllocator)
      requires mem.Valid() && Apart(SpansOf(mem)) && id != NO_OWNER
      requires Unowned(mem.Tables(), id)
      ensures Valid() && this.id == id && this.mem == mem && segs == []
    {
      this.id, this.mem, this.segs := id, mem, [];
      new;
      SoundFacts();
      OwnsNothing(mem.Tables(), Spans(), id);
    }

    ghost function Spans(): (at: seq<Span>)
      ensures |at| == |mem.regions|
    {
      SpansOf(mem)
    }

    lemma SpansAre()
      ensures Spans() == SpansOf(mem)
    {
    }

    /** The allocator is sound and its regions lie on page boundaries. */
    ghost predicate Sound()
      reads mem.Repr()
    {
      mem.Valid() && Apart(Spans()) && id != NO_OWNER
    }

    ghost predicate Exact()
      reads this, mem.Repr()
    {
      Owns(mem.Tables(), Spans(), id, segs)
    }

    ghost predicate Valid()
      reads this, mem.Repr()
    {
      Sound() && Ordered(segs) && Exact()
    }

    lemma NotMemory()
      ensures this !in mem.Repr()
    {
    }

    /**
     as_unmap: the pages of a mapped range go back to the allocator, which refuses them exactly when
     no one region has them all.
     */
    method Release(x: nat, len: nat, ghost now: seq<Seg>, ghost next: seq<Seg>) returns (r: FreeResult)
      requires Sound() && Owns(mem.Tables(), Spans(), id, now)
      requires OnPage(x) && OnPage(len) && len > 0 && Maps(now, x, len) && Unmaps(now, next, x, len)
      modifies mem.Repr()
      ensures Sound() && r == if InOne(Spans(), x, len) then Freed else BadAddress
      ensures r == Freed ==> Owns(mem.Tables(), Spans(), id, next)
      ensures r != Freed ==> mem.Tables() == old(mem.Tables())
      ensures Touches(old(mem.Tables()), mem.Tables(), id)
    {
      hide Owns, Maps, Unmaps, Touches, Apart, FreeVerdict, PageAllocator.Valid, SetRange, FirstPage, EndPage, OnPage;
      ghost var at, t := Spans(), mem.Tables();
      if InOne(at, x, len) {
        FreeMapped(t, at, id, now, next, x, len);
      }
      TouchesSelf(t, id);
      var j: int;
      r, j := mem.PageFree(x, len, id);
      assert j >= 0 ==> at[j].Holds(x, len);
    }

    method ReleaseUnless(remap: bool, x: nat, len: nat, ghost next: seq<Seg>) returns (r: FreeResult)
      requires Sound()
      requires OnPage(x) && OnPage(len) && len > 0 && Maps(segs, x, len) && Unmaps(segs, next, x, len)
      requires !remap ==> Exact()
      modifies mem.Repr()
      ensures Sound() && segs == old(segs) && r == if remap || InOne(Spans(), x, len) then Freed else BadAddress
      ensures !remap && r == Freed ==> Owns(mem.Tables(), Spans(), id, next)
      ensures remap || r != Freed ==> mem.Tables() == old(mem.Tables())
      ensures Touches(old(mem.Tables()), mem.Tables(), id)
    {
      hide Sound, Ordered, Maps, Unmaps, OnPage, PageAllocator.Tables, PageAllocator.Repr, Owns, InOne, Touches;
      NotMemory();
      TouchesSelf(mem.Tables(), id);
      r := Freed;
      if !remap {
        r := Release(x, len, segs, next);
      }
    }

    /** The four ways a segment can meet the range: the part to unmap, and the segments left. */
    method CutSeg(s: Seg, lo: nat, hi: nat) returns (x: nat, l: nat, parts: seq<Seg>)
      requires lo < hi && s.base < hi && lo < s.End()
      ensures x == Later(s.base, lo) && x + l == Sooner(s.End(), hi)
      ensures parts == Cut(s, lo, hi)
    {
      if s.base >= lo && s.End() <= hi {
        // entire segment
        return s.base, s.len, [];
      } else if s.base < lo && s.End() > hi {
        // hole in segment
        var ns := s.(base := hi, len := s.End() - hi);
        if ns.vn.Some? {
          ns := ns.(off := ns.off + (hi - s.base));
        }
        return lo, hi - lo, [s.(len := lo - s.base), ns];
      } else if s.base < lo {
        // end of segment
        var n := lo - s.base;
        return lo, s.len - n, [s.(len := n)];
      } else {
        // start of segment
        var n := hi - s.base;
        var ns := s.(base := s.base + n, len := s.len - n);
        if ns.vn.Some? {
          ns := ns.(off := ns.off + n);
        }
        return s.base, n, [ns];
      }
    }

    /**
     The body of do_munmapfor's loop: segment i, the k-th of the list `was`, has part of the range.
     Says how many segments are left of it. The list is changed even if the pages are refused.
     */
    method UnmapSeg(i: nat, lo: nat, hi: nat, remap: bool, ghost was: seq<Seg>, ghost k: nat) returns (left: nat, ok: bool)
      requires Sound() && Ordered(was) && k < |was| && lo < hi && OnPage(lo) && OnPage(hi)
      requires segs == PartUnmapped(was, k, lo, hi) && i == |Unmapped(was[..k], lo, hi)|
      requires Meets(was[k], lo, hi)
      requires !remap ==> Exact()
      modifies this`segs, mem.Repr()
      ensures Sound() && ok == (remap || PartInOne(Spans(), was[k], lo, hi))
      ensures segs == PartUnmapped(was, k + 1, lo, hi) && left == |Cut(was[k], lo, hi)|
      ensures !remap && ok ==> Exact()
      ensures !remap && !ok ==> !Exact() && Owns(mem.Tables(), Spans(), id, PartUnmapped(was, k, lo, hi))
      ensures remap || !ok ==> mem.Tables() == old(mem.Tables())
      ensures Touches(old(mem.Tables()), mem.Tables(), id)
    {
      hide Sound, Ordered, Maps, Unmaps, Touches, OnPage, Unmapped, PartUnmapped, Cut, PageAllocator.Tables, Owns, Spans, InOne;
      ghost var next, now := PartUnmapped(was, k + 1, lo, hi), segs;
      NotMemory();
      Step(was, k, lo, hi);
      HasBytes(was, k);
      var s := segs[i];
      var x, l, parts := CutSeg(s, lo, hi);
      var r := ReleaseUnless(remap, x, l, next);
      ok := r == Freed;
      if !ok {
        SoundApart();
        LeftOwned(mem.Tables(), Spans(), id, now, next, x, l);
      }
      segs := segs[..i] + parts + segs[i + 1..];
      left := |parts|;
    }

    lemma HasBytes(was: seq<Seg>, k: nat)
      requires Ordered(was) && k < |was|
      ensures was[k].len > 0
    {
    }

    lemma SoundApart()
      requires Sound()
      ensures Apart(Spans())
    {
    }

    /** What munmap keeps while it goes through the list `was`, the page tables having been t. */
    ghost predicate Unmapping(was: seq<Seg>, t: seq<seq<Page>>, k: nat, i: nat, lo: nat, hi: nat, remap: bool)
      requires lo < hi
      reads this, mem.Repr()
    {
      && Sound() && Ordered(was) && OnPage(lo) && OnPage(hi)
      && Progress(was, segs, k, i, lo, hi)
      && (!remap ==> Exact() && PartsInOne(Spans(), was[..k], lo, hi))
      && (remap || k == 0 || was[k - 1].End() <= lo ==> mem.Tables() == t)
      && Touches(t, mem.Tables(), id)
    }

    /** munmap has stopped at segment k of `was`, whose part no one region has: cut from the list, but still owned. */
    ghost predicate Stopped(was: seq<Seg>, k: nat, lo: nat, hi: nat)
      reads this, mem.Repr()
    {
      && lo < hi && k < |was| && PartsInOne(Spans(), was[..k], lo, hi) && !PartInOne(Spans(), was[k], lo, hi)
      && segs == PartUnmapped(was, k + 1, lo, hi) && Owns(mem.Tables(), Spans(), id, PartUnmapped(was, k, lo, hi))
      && !Exact()
    }

    /** Where munmap leaves the address space: done, or stopped before the segment it would have to split, or at one it cannot release. */
    ghost predicate UnmapEnd(was: seq<Seg>, t: seq<seq<Page>>, k: nat, lo: nat, hi: nat, remap: bool, r: Outcome)
      requires lo < hi
      reads this, mem.Repr()
    {
      && Sound() && Ordered(segs)
      && (match r
          case Done => segs == Unmapped(was, lo, hi) && (!remap ==> Exact() && PartsInOne(Spans(), was, lo, hi))
          case NoMemory => segs == was && mem.Tables() == t && (!remap ==> Exact())
          case Fault => !remap && Stopped(was, k, lo, hi)
          case _ => false)
      && (remap ==> mem.Tables() == t)
      && Touches(t, mem.Tables(), id)
    }

    lemma UnmappingSeg(was: seq<Seg>, t: seq<seq<Page>>, k: nat, i: nat, lo: nat, hi: nat, remap: bool)
      requires lo < hi && Unmapping(was, t, k, i, lo, hi, remap) && i < |segs|
      ensures k < |was| && segs[i] == was[k]
      ensures segs[i].End() <= lo ==> Unmapping(was, t, k + 1, i + 1, lo, hi, remap)
      ensures segs[i].base < lo && segs[i].End() > hi ==>
                Splits(was, lo, hi) && UnmapEnd(was, t, k, lo, hi, remap, NoMemory)
    {
      hide Sound, Ordered, OnPage, Owns, Spans, Progress, Touches, PageAllocator.Tables, PageAllocator.Repr, PartsInOne;
      ProgressSeg(was, segs, k, i, lo, hi);
      if was[k].End() <= lo {
        ProgressSkip(was, segs, k, i, lo, hi);
        if !remap { PartsNext(Spans(), was, k, lo, hi); }
      }
      if was[k].base < lo && was[k].End() > hi {
        ProgressSplit(was, segs, k, i, lo, hi);
      }
    }

    lemma UnmappingDone(was: seq<Seg>, t: seq<seq<Page>>, k: nat, i: nat, lo: nat, hi: nat, remap: bool)
      requires lo < hi && k <= |was| && Unmapping(was, t, k, i, lo, hi, remap)
      requires i >= |segs| || (k < |was| && was[k].base >= hi)
      ensures UnmapEnd(was, t, k, lo, hi, remap, Done) && !Splits(was, lo, hi)
    {
      hide Sound, Ordered, OnPage, Owns, Spans, Progress, Touches, PageAllocator.Tables, PageAllocator.Repr, PartsInOne, Unmapped;
      ProgressSeg(was, segs, k, i, lo, hi);
      ProgressDone(was, segs, k, i, lo, hi);
      UnmappedOrdered(was, lo, hi, 0);
      if !remap { PartsRest(Spans(), was, k, lo, hi); }
    }

    lemma UnmapStart(lo: nat, hi: nat, remap: bool)
      requires Sound() && Ordered(segs) && lo < hi && OnPage(lo) && OnPage(hi)
      requires !remap ==> Exact()
      ensures Unmapping(segs, mem.Tables(), 0, 0, lo, hi, remap)
    {
      hide Sound, Ordered, OnPage, Owns, Spans, Progress, Touches, PageAllocator.Tables, PageAllocator.Repr;
      ProgressStart(segs, lo, hi);
      TouchesSelf(mem.Tables(), id);
    }

    method UnmapNext(i: nat, lo: nat, hi: nat, remap: bool, ghost was: seq<Seg>, ghost t: seq<seq<Page>>, ghost k: nat)
      returns (left: nat, ok: bool)
      requires lo < hi && Unmapping(was, t, k, i, lo, hi, remap) && k < |was|
      requires Meets(was[k], lo, hi) && !(was[k].base < lo && was[k].End() > hi)
      modifies this`segs, mem.Repr()
      ensures ok == (remap || PartInOne(Spans(), was[k], lo, hi))
      ensures ok ==> Unmapping(was, t, k + 1, i + left, lo, hi, remap)
      ensures !ok ==> UnmapEnd(was, t, k, lo, hi, remap, Fault)
    {
      hide Sound, Ordered, OnPage, Owns, Spans, Touches, PageAllocator.Tables, PageAllocator.Repr, Unmapped, Cut, PartsInOne, PartInOne;
      ProgressCut(was, segs, k, i, lo, hi);
      PartUnmappedOrdered(was, k + 1, lo, hi);
      ghost var u := mem.Tables();
      left, ok := UnmapSeg(i, lo, hi, remap, was, k);
      TouchesTrans(t, u, mem.Tables(), id);
      if !remap && ok { PartsNext(Spans(), was, k, lo, hi); }
    }

    /** The segment that reaches past both ends of the range is the last one to be dealt with. */
    method UnmapLast(i: nat, lo: nat, hi: nat, remap: bool, ghost was: seq<Seg>, ghost t: seq<seq<Page>>, ghost k: nat)
      returns (ok: bool)
      requires lo < hi && Unmapping(was, t, k, i, lo, hi, remap) && k < |was|
      requires was[k].base < lo && was[k].End() > hi
      modifies this`segs, mem.Repr()
      ensures ok == (remap || PartInOne(Spans(), was[k], lo, hi))
      ensures UnmapEnd(was, t, k, lo, hi, remap, if ok then Done else Fault)
    {
      hide Sound, Ordered, OnPage, Owns, Spans, Touches, PageAllocator.Tables, PageAllocator.Repr, Unmapped, Cut, PartsInOne, PartInOne;
      UnmappedRest(was, k + 1, lo, hi);
      PartUnmappedOrdered(was, k + 1, lo, hi);
      ghost var u := mem.Tables();
      var n;
      n, ok := UnmapSeg(i, lo, hi, remap, was, k);
      TouchesTrans(t, u, mem.Tables(), id);
      if !remap && ok {
        PartsNext(Spans(), was, k, lo, hi);
        PartsRest(Spans(), was, k + 1, lo, hi);
      }
    }

    /** What munmap of [lo, hi) returns, with `room` segment headers to be had. */
    ghost function UnmapVerdict(was: seq<Seg>, lo: nat, hi: nat, remap: bool, room: nat): Outcome {
      if room == 0 && Splits(was, lo, hi) then NoMemory
      else if !remap && !PartsInOne(Spans(), was, lo, hi) then Fault
      else Done
    }

    /**
     munmapfor on a locked address space, with `room` segment headers to be had, of which `rest` are
     left. With `remap` the pages stay. Otherwise pages and segments stay in step exactly when every
     part cut from a segment lies in one region.
     */
    method Munmap(addr: nat, len: nat, remap: bool, room: nat) returns (r: Outcome, rest: nat, ghost k: nat)
      requires Sound() && Ordered(segs)
      requires !remap ==> Exact()
      modifies this`segs, mem.Repr()
      ensures Sound() && Ordered(segs)
      ensures r == if !OnPage(addr) || !OnPage(len) then Invalid else if len == 0 then Done
                   else UnmapVerdict(old(segs), addr, addr + len, remap, room)
      ensures r == Done ==> segs == if len > 0 then Unmapped(old(segs), addr, addr + len) else old(segs)
      ensures r == Done ==> UnmapsFiles(old(segs), segs, addr, addr + len)
      ensures r == Fault ==> Stopped(old(segs), k, addr, addr + len)
      ensures r == Invalid || r == NoMemory ==> segs == old(segs)
      ensures r == Invalid || r == NoMemory || len == 0 || remap ==> mem.Tables() == old(mem.Tables())
      ensures rest == room - if (r == Done || r == Fault) && len > 0 && Splits(old(segs), addr, addr + len) then 1 else 0
      ensures !remap ==> (Exact() <==> r != Fault)
      ensures Touches(old(mem.Tables()), mem.Tables(), id)
    {
      hide Sound, Splits, Ordered, Unmapped, PageAllocator.Tables, PageAllocator.Repr, Owns, Spans, PartsInOne, PartInOne, Touches, PartUnmapped,
        FileOf;
      k := 0;
      TouchesSelf(mem.Tables(), id);
      if !OnPage(addr) || !OnPage(len) {
        return Invalid, room, k;
      }
      if len == 0 {
        return Done, room, k;
      }
      PageArithmetic(addr, len);
      UnmapFiles(segs, addr, addr + len);
      r, rest, k := UnmapLoop(addr, addr + len, remap, room);
    }

    method UnmapLoop(lo: nat, hi: nat, remap: bool, room: nat) returns (r: Outcome, rest: nat, ghost k: nat)
      requires Sound() && Ordered(segs) && lo < hi && OnPage(lo) && OnPage(hi)
      requires !remap ==> Exact()
      modifies this`segs, mem.Repr()
      ensures r == UnmapVerdict(old(segs), lo, hi, remap, room)
      ensures rest == room - if r != NoMemory && Splits(old(segs), lo, hi) then 1 else 0
      ensures UnmapEnd(old(segs), old(mem.Tables()), k, lo, hi, remap, r)
    {
      hide Unmapping, UnmapEnd, Splits, Sound, Exact, Ordered, OnPage, PageAllocator.Tables, PageAllocator.Repr, PartsInOne, PartInOne;
      ghost var was, t := segs, mem.Tables();
      k, rest := 0, room;
      UnmapStart(lo, hi, remap);
      var i := 0;
      while i < |segs|
        invariant 0 <= i && k <= |was|
        invariant Unmapping(was, t, k, i, lo, hi, remap)
        decreases |was| - k
      {
        var s := segs[i];
        UnmappingSeg(was, t, k, i, lo, hi, remap);
        if s.End() <= lo {
          i, k := i + 1, k + 1;
          continue;
        }
        if s.base >= hi {
          break;
        }
        if s.base < lo && s.End() > hi {
          if room == 0 {
            return NoMemory, rest, k;
          }
          var ok := UnmapLast(i, lo, hi, remap, was, t, k);
          UnmapEndParts(was, t, k, lo, hi, remap, if ok then Done else Fault);
          return if ok then Done else Fault, room - 1, k;
        }
        NoneSplits(was, t, k, i, lo, hi, remap);
        var left, ok := UnmapNext(i, lo, hi, remap, was, t, k);
        if !ok {
          UnmapEndParts(was, t, k, lo, hi, remap, Fault);
          return Fault, rest, k;
        }
        i, k := i + left, k + 1;
      }
      UnmappingDone(was, t, k, i, lo, hi, remap);
      UnmapEndParts(was, t, k, lo, hi, remap, Done);
      r := Done;
    }

    lemma UnmapEndParts(was: seq<Seg>, t: seq<seq<Page>>, k: nat, lo: nat, hi: nat, remap: bool, r: Outcome)
      requires lo < hi && UnmapEnd(was, t, k, lo, hi, remap, r)
      ensures r == Done && !remap ==> PartsInOne(Spans(), was, lo, hi)
      ensures r == Fault ==> !PartsInOne(Spans(), was, lo, hi)
    {
      hide Sound, Ordered, Owns, Touches, PartUnmapped, Unmapped, PartInOne, Exact;
    }

    /** A range that reaches into a segment from outside splits no other. */
    lemma NoneSplits(was: seq<Seg>, t: seq<seq<Page>>, k: nat, i: nat, lo: nat, hi: nat, remap: bool)
      requires lo < hi && Unmapping(was, t, k, i, lo, hi, remap) && k < |was|
      requires Meets(was[k], lo, hi) && !(was[k].base < lo && was[k].End() > hi)
      ensures !Splits(was, lo, hi)
    {
      hide Sound, Exact, Touches, PartsInOne, Unmapped, PartUnmapped, OnPage;
      forall j | 0 <= j < |was| ensures !(was[j].base < lo && was[j].End() > hi) {
        assert j < k ==> was[j].End() <= was[k].base;
        assert k < j ==> was[k].End() <= was[j].base;
      }
    }

    // ----- mprotect -----

    /** seg_combine */
    method SegCombine()
      modifies this`segs
      ensures segs == Combined(old(segs))
    {
      hide CanCombine;
      var p := 0;
      assert segs[..0] + Combined(segs[0..]) == Combined(segs) by { assert segs[0..] == segs; }
      while p + 1 < |segs|
        invariant 0 <= p <= |segs| && (p < |segs| || segs == [])
        invariant Combined(old(segs)) == segs[..p] + Combined(segs[p..])
        decreases |segs| - p
      {
        hide Combined, Joined;
        CombinedStep(segs, p);
        if !CanCombine(segs[p], segs[p + 1]) {
          p := p + 1;
        } else {
          // segments are contiguous, combine
          JoinedSize(segs, p);
          segs := Joined(segs, p);
        }
      }
      assert segs == segs[..p] + segs[p..];
    }

    lemma JoinedSize(segs: seq<Seg>, p: nat)
      requires p + 1 < |segs|
      ensures |Joined(segs, p)| == |segs| - 1
    {
    }

    /** The four ways mprotect can meet a segment, with `room` headers to be had. */
    method RecolorSeg(s: Seg, lo: nat, hi: nat, prot: Prot, room: nat) returns (ok: bool, parts: seq<Seg>, used: nat)
      requires lo < hi && s.base < hi
      ensures ok == (Headers(s, lo, hi, prot) <= room) && (ok ==> used == Headers(s, lo, hi, prot))
      ensures ok ==> parts == Recolor(s, lo, hi, prot)
    {
      if s.End() <= lo || s.prot == prot {
        return true, [s], 0;
      } else if s.base >= lo && s.End() <= hi {
        // entire segment
        return true, [s.(prot := prot)], 0;
      } else if s.base < lo && s.End() > hi {
        // hole in segment
        if room < 2 {
          // the first header, if there was one, is freed again
          return false, [], 0;
        }
        var s0 := s.(len := lo - s.base);
        var ns1 := s0.(prot := prot, base := lo, len := hi - lo, off := FileOff(s, s0.len));
        var ns2 := s0.(base := hi, len := s.End() - hi, off := FileOff(s, s0.len + ns1.len));
        return true, [s0, ns1, ns2], 2;
      } else if room == 0 {
        return false, [], 0;
      } else if s.base < lo {
        // end of segment
        var l := lo - s.base;
        var ns := s.(prot := prot, base := lo, len := s.len - l, off := FileOff(s, s.len));
        return true, [s.(len := l), ns], 1;
      } else {
        // start of segment
        var l := hi - s.base;
        return true, [s.(prot := prot, len := l), s.(off := FileOff(s, l), base := s.base + l, len := s.len - l)], 1;
      }
    }

    const PROT_ALL: Prot := 7

    ghost function MprotectVerdict(segs: seq<Seg>, addr: nat, len: nat, prot: Prot, room: nat): Outcome {
      if !OnPage(addr) || !OnPage(len) || prot & PROT_ALL != prot then Invalid
      else if len == 0 then Done
      else if segs == [] then Outcome.Asserts
      else if AllHeaders(segs, addr, addr + len, prot) > room then NoMemory
      else Done
    }

    /** What mprotect makes of the list `was`; k is the segment for which there were not headers enough. */
    ghost predicate Mprotected(was: seq<Seg>, segs: seq<Seg>, r: Outcome, k: nat, addr: nat, len: nat, prot: Prot, room: nat) {
      match r
      case Done => segs == if len == 0 then was else Combined(Recolored(was, addr, addr + len, prot))
      case NoMemory =>
        && len > 0 && k < |was|
        && AllHeaders(was[..k], addr, addr + len, prot) <= room < AllHeaders(was[..k + 1], addr, addr + len, prot)
        && segs == PartRecolored(was, k, addr, addr + len, prot)
      case _ => segs == was
    }

    /**
     mprotectfor, with `room` segment headers to be had. Where there are not enough, the segments
     before the one that could not be divided have changed and the rest have not.
     */
    method Mprotect(addr: nat, len: nat, prot: Prot, room: nat) returns (r: Outcome, ghost k: nat)
      requires Valid()
      modifies this`segs
      ensures Valid()
      ensures r == MprotectVerdict(old(segs), addr, len, prot, room)
      ensures Mprotected(old(segs), segs, r, k, addr, len, prot, room)
      ensures r == Done && len > 0 ==>
                (SameFiles(old(segs), segs) <==>
                   NoEndSplit(old(segs), addr, addr + len, prot) && JoinsKeep(Recolored(old(segs), addr, addr + len, prot)))
      ensures r == NoMemory ==> (SameFiles(old(segs), segs) <==> NoEndSplit(old(segs)[..k], addr, addr + len, prot))
    {
      hide Valid, Recolored, PartRecolored, Combined, Headers, AllHeaders, SameFiles, NoEndSplit, JoinsKeep;
      k := 0;
      if !OnPage(addr) || !OnPage(len) {
        return Invalid, k;
      }
      if prot & PROT_ALL != prot {
        return Invalid, k;
      }
      if len == 0 {
        return Done, k;
      }
      if segs == [] {
        // no turn of the loop; seg_combine wants a segment
        return Outcome.Asserts, k;
      }
      PageArithmetic(addr, len);
      ValidParts();
      MprotectFiles(segs, addr, addr + len, prot);
      ghost var was := segs;
      r, k := MprotectRange(addr, addr + len, prot, room);
      if r == NoMemory {
        PartFiles(was, k, addr, addr + len, prot);
      }
    }

    lemma PartFiles(was: seq<Seg>, k: nat, lo: nat, hi: nat, prot: Prot)
      requires Ordered(was) && OnPage(lo) && OnPage(hi) && k <= |was| && lo < hi
      ensures SameFiles(was, PartRecolored(was, k, lo, hi, prot)) <==> NoEndSplit(was[..k], lo, hi, prot)
    {
      hide Ordered, OnPage, SameFiles, NoEndSplit, Recolored;
      PartRecoloredOrdered(was, k, lo, hi, prot);
      PartRecoloredFiles(was, k, lo, hi, prot);
    }

    method MprotectRange(lo: nat, hi: nat, prot: Prot, room: nat) returns (r: Outcome, ghost k: nat)
      requires Valid() && lo < hi && OnPage(lo) && OnPage(hi)
      modifies this`segs
      ensures Valid()
      ensures r == if AllHeaders(old(segs), lo, hi, prot) > room then NoMemory else Done
      ensures Mprotected(old(segs), segs, r, k, lo, hi - lo, prot, room)
    {
      hide Recolored, PartRecolored, Combined, Headers, AllHeaders, Ordered, Owns, OnPage, Spans;
      ghost var was, t := segs, mem.Tables();
      assert Exact();
      r, k := RecolorLoop(lo, hi, prot, room);
      assert Sound() && mem.Tables() == t;
      MprotectKeeps(t, Spans(), id, was, k, lo, hi, prot);
      if r == NoMemory {
        assert Exact();
        return;
      }
      AllRecolored(was, lo, hi, prot);
      CombineKeeps(t, Spans(), id, segs);
      SegCombine();
      assert Sound() && mem.Tables() == t;
      assert Exact();
    }

    method RecolorNext(i: nat, lo: nat, hi: nat, prot: Prot, ghost room: nat, rest: nat, ghost was: seq<Seg>, ghost k: nat)
      returns (ok: bool, n: nat, left: nat)
      requires lo < hi && Recoloring(was, segs, k, i, lo, hi, prot, room, rest)
      requires k < |was| && i < |segs| && segs[i] == was[k] && was[k].base < hi
      modifies this`segs
      ensures ok == (Headers(was[k], lo, hi, prot) <= rest)
      ensures ok ==> Recoloring(was, segs, k + 1, i + n, lo, hi, prot, room, left)
      ensures !ok ==> segs == old(segs)
    {
      hide Recolor, Recoloring, Headers;
      var parts, used;
      ok, parts, used := RecolorSeg(segs[i], lo, hi, prot, rest);
      n, left := |parts|, rest;
      if ok {
        RecoloringNext(was, segs, k, i, lo, hi, prot, room, rest);
        segs := segs[..i] + parts + segs[i + 1..];
        left := rest - used;
      }
    }

    method RecolorLoop(lo: nat, hi: nat, prot: Prot, room: nat) returns (r: Outcome, ghost k: nat)
      requires Ordered(segs) && lo < hi
      modifies this`segs
      ensures k <= |old(segs)|
      ensures r == if AllHeaders(old(segs), lo, hi, prot) > room then NoMemory else Done
      ensures r == NoMemory ==> k < |old(segs)| && AllHeaders(old(segs)[..k], lo, hi, prot) <= room < AllHeaders(old(segs)[..k + 1], lo, hi, prot)
      ensures r == NoMemory ==> segs == PartRecolored(old(segs), k, lo, hi, prot)
      ensures r == Done ==> k == |old(segs)| && segs == Recolored(old(segs), lo, hi, prot)
    {
      hide Recolored, Recolor, PartRecolored, Recoloring, Ordered, Headers, AllHeaders;
      ghost var was := segs;
      k := 0;
      var i, rest := 0, room;
      RecoloringStart(was, lo, hi, prot, room);
      while i < |segs|
        invariant 0 <= i && k <= |was| && Recoloring(was, segs, k, i, lo, hi, prot, room, rest)
        decreases |was| - k
      {
        var s := segs[i];
        RecoloringSeg(was, segs, k, i, lo, hi, prot, room, rest);
        if s.base >= hi {
          break;
        }
        var ok, n, left := RecolorNext(i, lo, hi, prot, room, rest, was, k);
        if !ok {
          return NoMemory, k;
        }
        if s.base < lo && s.End() > hi && s.prot != prot {
          RecoloringDone(was, segs, k + 1, i + n, lo, hi, prot, room, left);
          return Done, |was|;
        }
        i, k, rest := i + n, k + 1, left;
      }
      RecoloringSeg(was, segs, k, i, lo, hi, prot, room, rest);
      RecoloringDone(was, segs, k, i, lo, hi, prot, room, rest);
      r, k := Done, |was|;
    }

    // ----- mmap -----

    /** page_reserve of the pages behind [addr, addr + len). */
    method TakePages(addr: nat, len: nat, attr: bv32) returns (ptr: PagePtr, ghost i: nat)
      requires Sound() && len > 0 && Kind(attr) == Fixed
      modifies mem.Repr()
      ensures Sound() && segs == old(segs)
      ensures ptr != Null <==> CanTake(old(mem.Tables()), Spans(), id, addr, len, attr & PAF_REALLOC != 0)
      ensures ptr == Null ==> mem.Tables() == old(mem.Tables())
      ensures ptr != Null ==>
                && Takes(old(mem.Tables()), Spans(), id, i, PageStart(addr), Touched(addr, len))
                && mem.Tables() == Taken(old(mem.Tables()), i, FirstPage(Spans()[i].base, PageStart(addr)), Touched(addr, len), id)
                && ptr == PagePtr(PageStart(addr), len, id)
    {
      hide Apart, Reach, FreeUnowned, CanTake, Takes, Taken, CanReserve, FirstPage, EndPage, PageStart, Touched, Kind, Reserved, PageAddr,
        PageAllocator.Valid, PageAllocator.Tables, PageAllocator.Repr;
      ghost var t, at := mem.Tables(), Spans();
      SoundFacts();
      NotMemory();
      var j: int, asserts: bool;
      ptr, j, asserts := mem.PageReserve(addr, len, attr, id);
      if j == -1 {
        NoneFound(t, addr, len, attr & PAF_REALLOC != 0);
        i := 0;
      } else {
        FoundRegion(t, addr, len, attr & PAF_REALLOC != 0, j);
        i := j;
      }
    }

    lemma NoneFound(t: seq<seq<Page>>, addr: nat, len: nat, realloc: bool)
      requires len > 0 && |t| == |mem.regions|
      requires forall j :: 0 <= j < |mem.regions| ==> !(mem.regions[j].begin <= addr && addr + len <= mem.regions[j].end)
      ensures !CanTake(t, Spans(), id, addr, len, realloc)
    {
      NoneHolds(t, Spans(), id, addr, len, realloc);
    }

    lemma FoundRegion(t: seq<seq<Page>>, addr: nat, len: nat, realloc: bool, i: nat)
      requires Reach(t, Spans()) && Apart(Spans()) && len > 0 && id != NO_OWNER && i < |t| && FreeUnowned(t[i])
      requires mem.regions[i].begin <= addr && addr + len <= mem.regions[i].end
      ensures var x, n := PageStart(addr), Touched(addr, len);
              mem.regions[i].base <= addr && Spans()[i].base == mem.regions[i].base &&
              var first, end := FirstPage(mem.regions[i].base, addr), EndPage(mem.regions[i].base, addr, len);
              && mem.regions[i].base <= x && first == FirstPage(mem.regions[i].base, x) && end == first + n && end <= |t[i]|
              && PageAddr(mem.regions[i].base, first) == x
              && (CanTake(t, Spans(), id, addr, len, realloc) <==> CanReserve(t[i], first, end, Fixed, realloc, id))
              && (CanReserve(t[i], first, end, Fixed, realloc, id) ==> Takes(t, Spans(), id, i, x, n))
              && Taken(t, i, first, n, id) == t[i := Reserved(t[i], first, end, Fixed, id)]
    {
      assert Spans()[i].Holds(addr, len);
      hide Apart, Reach, CanTake, Takes, CanReserve, FirstPage, EndPage, PageStart, Touched;
      RegionHolds(t, Spans(), id, addr, len, realloc, i);
    }

    lemma SoundFacts()
      requires Sound()
      ensures Reach(mem.Tables(), Spans())
      ensures forall i :: 0 <= i < |mem.Tables()| ==> FreeUnowned(mem.Tables()[i])
    {
      hide Region.Valid, FreeUnowned;
      forall i | 0 <= i < |mem.regions|
        ensures FreeUnowned(mem.Tables()[i]) && Spans()[i].end <= Spans()[i].Addr(|mem.Tables()[i]|)
      {
        assert mem.regions[i].Placed();
        mem.UnownedIn(i);
      }
    }

    /** ~page_ptr: pages just taken from the tables t are given back. */
    method DropPages(x: nat, len: nat, ghost t: seq<seq<Page>>, ghost i: nat, ghost n: nat)
      requires Sound() && Takes(t, Spans(), id, i, x, n) && len > 0 && PageCount(len) <= n
      requires mem.Tables() == Taken(t, i, FirstPage(Spans()[i].base, x), n, id)
      modifies mem.Repr()
      ensures Sound() && segs == old(segs)
      ensures mem.Tables() == GivenBack(old(mem.Tables()), i, FirstPage(Spans()[i].base, x), PageCount(len))
    {
      hide Apart, Takes, Taken, FreeVerdict, SetRange, FirstPage, EndPage, PageCount, GivenBack, Spans,
        PageAllocator.Valid, PageAllocator.Tables, PageAllocator.Repr;
      DropReady(x, len, t, i, n);
      NotMemory();
      var r, j := mem.PageFree(x, len, id);
    }

    /** The region that the pages are given back to, and that it takes them. */
    lemma DropReady(x: nat, len: nat, t: seq<seq<Page>>, i: nat, n: nat)
      requires Apart(Spans()) && Takes(t, Spans(), id, i, x, n) && len > 0 && PageCount(len) <= n
      ensures i < |mem.regions|
      ensures mem.regions[i].begin <= x && x + len <= mem.regions[i].end && mem.regions[i].base == Spans()[i].base <= x
      ensures forall j: nat :: j < |mem.regions| && mem.regions[j].begin <= x && x + len <= mem.regions[j].end ==> j == i
      ensures var first, taken := FirstPage(Spans()[i].base, x), Taken(t, i, FirstPage(Spans()[i].base, x), n, id);
              && EndPage(Spans()[i].base, x, len) == first + PageCount(len)
              && first + n <= |t[i]| == |taken[i]| && |taken| == |t|
              && FreeVerdict(taken[i], first, first + PageCount(len), id) == Freed
              && GivenBack(taken, i, first, PageCount(len)) == mem.FreedTables(taken, i, first, first + PageCount(len))
    {
      var at := Spans();
      DropRegion(t, at, id, i, x, len, n, i);
      TakenTouches(t, at, id, i, x, PageCount(len), n);
      hide Apart, Takes, FirstPage, EndPage, PageCount;
      forall j: nat | j < |mem.regions| && mem.regions[j].begin <= x && x + len <= mem.regions[j].end ensures j == i {
        assert at[j].Holds(x, len);
        DropRegion(t, at, id, i, x, len, n, j);
      }
    }

    /** The end of as_insert: the new segment goes before the first one with a higher base, then neighbours are combined. */
    method InsertSeg(s: Seg)
      modifies this`segs
      ensures segs == Combined(Inserted(old(segs), s))
    {
      var k := 0;
      while k < |segs| && segs[k].base <= s.base
        invariant 0 <= k <= |segs|
        invariant Place(segs, s.base) == k + Place(segs[k..], s.base)
      {
        assert segs[k..][1..] == segs[k + 1..];
        k := k + 1;
      }
      segs := segs[..k] + [s] + segs[k..];
      SegCombine();
    }

    /**
     What a fixed mapping comes to, the pages being available: `read` says whether the file could be
     read, `room` how many segment headers can be had. One is for the new segment and one for the end
     of a segment split in two.
     */
    ghost function FixedVerdict(segs: seq<Seg>, s: Seg, read: bool, room: nat): MapResult {
      var split := if Splits(segs, s.base, s.End()) then 1 else 0;
      if s.vn.Some? && !read then Dropped
      else if room < split then Dropped
      else if room == split then Lost
      else MapResult.Mapped
    }

    /** as_map from the point where n pages at s.base have been taken from the tables t. */
    method MapTaken(s: Seg, len: nat, read: bool, room: nat, ghost t: seq<seq<Page>>, ghost i: nat, ghost n: nat) returns (r: MapResult)
      requires Sound() && Ordered(segs) && Takes(t, Spans(), id, i, s.base, n) && len > 0 && PageCount(len) <= n
      requires mem.Tables() == Taken(t, i, FirstPage(Spans()[i].base, s.base), n, id)
      requires OnPage(s.base) && OnPage(s.len) && s.len > 0
      modifies this`segs, mem.Repr()
      ensures Sound()
      ensures r == FixedVerdict(old(segs), s, read, room)
      ensures segs == FixedSegs(r, old(segs), s)
      ensures mem.Tables() == FixedTables(r, t, i, FirstPage(Spans()[i].base, s.base), PageCount(len), n, id)
    {
      hide Ordered, Takes, Taken, GivenBack, OnPage, FirstPage, PageCount, Unmapped, Combined, Inserted, Splits, Touches, Owns,
        Spans, Apart, PageAllocator.Valid;
      NotMemory();
      if s.vn.Some? && !read {
        DropPages(s.base, len, t, i, n);
        return Dropped;
      }
      var u, rest;
      ghost var k;
      u, rest, k := Munmap(s.base, s.len, true, room);
      if u != Done {
        DropPages(s.base, len, t, i, n);
        return Dropped;
      }
      if rest == 0 {
        DropPages(s.base, len, t, i, n);
        return Lost;
      }
      InsertSeg(s);
      return MapResult.Mapped;
    }

    /**
     mmapfor with MAP_FIXED, from the checks of do_mmapfor to as_insert: what becomes of the list,
     and exactly when the address space still owns what it maps.
     */
    method MapFixed(addr: nat, len: nat, prot: Prot, vn: Option<nat>, off: nat, attr: bv32, read: bool, room: nat)
      returns (r: MapResult)
      requires Valid() && Kind(attr) == Fixed
      modifies this`segs, mem.Repr()
      ensures Sound() && Ordered(segs) && Touches(old(mem.Tables()), mem.Tables(), id)
      ensures r == if len == 0 || (vn.Some? && addr % PAGE_SIZE != off % PAGE_SIZE)
                      || !CanTake(old(mem.Tables()), Spans(), id, addr, len, attr & PAF_REALLOC != 0)
                   then Refused
                   else if vn.None? && off != 0 then MapResult.Asserts
                   else FixedVerdict(old(segs), NewSeg(PageStart(addr), len, prot, attr, vn, off), read, room)
      ensures r == Refused ==> segs == old(segs) && mem.Tables() == old(mem.Tables())
      ensures r != Refused ==> NewSeg(PageStart(addr), len, prot, attr, vn, off).len > 0
      ensures r != Refused ==> segs == FixedSegs(r, old(segs), NewSeg(PageStart(addr), len, prot, attr, vn, off))
      ensures Exact() <==> FixedExact(r, old(segs), PageStart(addr), PageCount(len), Touched(off, len), Touched(addr, len))
      ensures r == MapResult.Mapped ==> RangeMapped(old(segs), segs, PageStart(addr), Touched(off, len) * PAGE_SIZE, prot, attr)
      ensures r == MapResult.Mapped ==>
                var s := NewSeg(PageStart(addr), len, prot, attr, vn, off);
                RangeFile(old(segs), segs, PageStart(addr), Touched(off, len) * PAGE_SIZE, vn, off) <==>
                JoinsKeep(Inserted(Unmapped(old(segs), s.base, s.End()), s))
    {
      hide MapsFile, JoinsKeep, Inserted, Unmapped, Combined, Valid, Sound, Exact, Ordered, CanTake, FixedVerdict, RangeMapped, RangeFile, At,
        PageStart, PageCount, Touched, Touches, Vacancy, OnPage,
        PageAllocator.Repr, PageAllocator.Tables, Spans;
      if len == 0 || (vn.Some? && addr % PAGE_SIZE != off % PAGE_SIZE) {
        ValidParts();
        return Refused;
      }
      SegPages(PageStart(addr), len, prot, attr, vn, off);
      if vn.None? && off != 0 {
        r := TakeAndAssert(addr, len, attr);
        return;
      }
      Counts(addr, off, len);
      StartPage(addr);
      ValidParts();
      MapFiles(segs, NewSeg(PageStart(addr), len, prot, attr, vn, off));
      FixedMaps(segs, NewSeg(PageStart(addr), len, prot, attr, vn, off));
      ghost var was := segs;
      r := MapRequest(addr, len, NewSeg(PageStart(addr), len, prot, attr, vn, off), read, room);
      NewSegMaps(was, segs, PageStart(addr), len, prot, attr, vn, off);
    }

    /** as_map of anonymous memory with an offset: as_insert asserts that there is none. */
    method TakeAndAssert(addr: nat, len: nat, attr: bv32) returns (r: MapResult)
      requires Valid() && Kind(attr) == Fixed && len > 0
      modifies mem.Repr()
      ensures Sound() && Ordered(segs) && segs == old(segs) && Touches(old(mem.Tables()), mem.Tables(), id)
      ensures r == if CanTake(old(mem.Tables()), Spans(), id, addr, len, attr & PAF_REALLOC != 0) then MapResult.Asserts else Refused
      ensures r == Refused ==> mem.Tables() == old(mem.Tables())
      ensures Exact() <==> r == Refused || forall q: nat :: q < Touched(addr, len) ==> At(segs, Nth(PageStart(addr), q)).Some?
    {
      hide Sound, Ordered, CanTake, Takes, Taken, PageStart, PageCount, Touched, Owns, Spans, FirstPage, OnPage, Touches, Kind,
        PageAllocator.Tables, At, Nth;
      ghost var t, n := mem.Tables(), Touched(addr, len);
      NotMemory();
      ValidParts();
      SoundApart();
      var ptr;
      ghost var i;
      ptr, i := TakePages(addr, len, attr);
      if ptr == Null {
        assert Exact();
        return Refused;
      }
      AssertsOwns(t, Spans(), id, segs, i, PageStart(addr), n);
      TakenTouches(t, Spans(), id, i, PageStart(addr), n, n);
      r := MapResult.Asserts;
    }

    lemma ValidParts()
      requires Valid()
      ensures Sound() && Ordered(segs) && Exact() && Touches(mem.Tables(), mem.Tables(), id)
    {
      TouchesSelf(mem.Tables(), id);
    }

    method MapRequest(addr: nat, len: nat, s: Seg, read: bool, room: nat) returns (r: MapResult)
      requires Valid() && Kind(s.attr) == Fixed && s.base == PageStart(addr)
      requires len > 0 && s.len > 0 && OnPage(s.len) && s.len == Touched(s.off, len) * PAGE_SIZE
      requires 0 < PageCount(len) <= Touched(s.off, len) <= Touched(addr, len) <= PageCount(len) + 1
      modifies this`segs, mem.Repr()
      ensures Sound() && Ordered(segs) && Touches(old(mem.Tables()), mem.Tables(), id)
      ensures r == if CanTake(old(mem.Tables()), Spans(), id, addr, len, s.attr & PAF_REALLOC != 0)
                   then FixedVerdict(old(segs), s, read, room) else Refused
      ensures segs == FixedSegs(r, old(segs), s)
      ensures r == Refused ==> mem.Tables() == old(mem.Tables())
      ensures Exact() <==> FixedExact(r, old(segs), s.base, PageCount(len), Touched(s.off, len), Touched(addr, len))
    {
      ghost var t, was := mem.Tables(), segs;
      ghost var n := Touched(addr, len);
      ValidParts();
      StartPage(addr);
      hide Sound, Ordered, CanTake, Takes, Taken, FixedTables, FixedSegs, FixedExact, FixedVerdict, PageStart, PageCount, Touched, Owns, Spans,
        FirstPage, OnPage, Touches, Kind, PageAllocator.Tables;
      var ptr;
      ghost var i;
      ptr, i := TakePages(addr, len, s.attr);
      if ptr == Null {
        assert Exact();
        RefusedExact(was, s, PageCount(len), Touched(s.off, len), n);
        return Refused;
      }
      r := MapTaken(s, len, read, room, t, i, n);
      FixedOutcome(r, t, Spans(), id, was, s, i, PageCount(len), Touched(s.off, len), n);
    }

    lemma RefusedExact(was: seq<Seg>, s: Seg, k: nat, m: nat, n: nat)
      requires s.len > 0
      ensures FixedExact(Refused, was, s.base, k, m, n) && FixedSegs(Refused, was, s) == was
    {
    }

    /** page_alloc, for the address space. */
    method AllocPages(size: nat, attr: bv32) returns (got: bool, x: nat, ghost i: nat)
      requires Sound() && Kind(attr) == Fixed && size > 0
      modifies mem.Repr()
      ensures Sound() && segs == old(segs)
      ensures got <==> !old(mem.NoRoom(size, attr))
      ensures !got ==> mem.Tables() == old(mem.Tables())
      ensures got ==> TookFresh(old(mem.Tables()), mem.Tables(), i, x, PageCount(size))
    {
      ghost var t, n := mem.Tables(), PageCount(size);
      assert n > 0;
      hide Sound, PageAllocator.NoRoom, PageAllocator.Tables, PageAllocator.Repr, TookFresh, FoundFree, PageCount;
      ghost var page;
      got, x, i, page := FindPages(size, attr);
      if got {
        Fresh(t, mem.Tables(), i, page, n, x);
      }
    }

    method FindPages(size: nat, attr: bv32) returns (got: bool, x: nat, ghost i: nat, ghost page: nat)
      requires Sound() && Kind(attr) == Fixed && size > 0
      modifies mem.Repr()
      ensures Sound() && segs == old(segs)
      ensures got <==> !old(mem.NoRoom(size, attr))
      ensures !got ==> mem.Tables() == old(mem.Tables())
      ensures got ==> FoundFree(old(mem.Tables()), mem.Tables(), i, page, PageCount(size), x)
    {
      hide Apart, AllFree, PageAllocator.Valid, PageAllocator.NoRoom, PageAllocator.TakenTables,
        PageAllocator.Tables, PageAllocator.Repr, Kind, Spans, PageCount, Laid, PageAddr, PageBytes;
      SoundLaid();
      NotMemory();
      var ptr, j, p := mem.PageAlloc(size, attr, id);
      if j == -1 {
        return false, 0, 0, 0;
      }
      return true, ptr.addr, j, p;
    }

    /** The n pages at page number `page` of region i, at address x, were free in t and are taken in t'. */
    ghost predicate FoundFree(t: seq<seq<Page>>, t': seq<seq<Page>>, i: nat, page: nat, n: nat, x: nat) {
      && Laid(t) && i < |t| && AllFree(t[i], page, page + n) && x == PageAddr(mem.regions[i].base, page)
      && t' == mem.TakenTables(t, i, page, page + n, Page(Fixed, id))
    }

    /** The page tables t lie where the regions are. */
    ghost predicate Laid(t: seq<seq<Page>>) {
      && |t| == |mem.regions| && Apart(Spans()) && id != NO_OWNER && Reach(t, Spans())
      && (forall i :: 0 <= i < |t| ==>
            FreeUnowned(t[i]) && HolesOutside(t[i], mem.regions[i].base, mem.regions[i].begin, mem.regions[i].end))
    }

    lemma SoundLaid()
      requires Sound()
      ensures Laid(mem.Tables())
    {
      SoundFacts();
      hide Region.Valid, FreeUnowned, Apart, Reach, HolesOutside;
      forall i | 0 <= i < |mem.regions|
        ensures HolesOutside(mem.Tables()[i], mem.regions[i].base, mem.regions[i].begin, mem.regions[i].end)
      {
        assert mem.regions[i].Placed();
      }
    }

    /** n free pages at x, in region i. */
    ghost predicate FreshPages(t: seq<seq<Page>>, i: nat, x: nat, n: nat) {
      && OnPage(x) && Takes(t, Spans(), id, i, x, n)
      && AllFree(t[i], FirstPage(Spans()[i].base, x), FirstPage(Spans()[i].base, x) + n)
    }

    ghost predicate TookFresh(t: seq<seq<Page>>, t': seq<seq<Page>>, i: nat, x: nat, n: nat) {
      FreshPages(t, i, x, n) && t' == Taken(t, i, FirstPage(Spans()[i].base, x), n, id)
    }

    lemma Fresh(t: seq<seq<Page>>, t': seq<seq<Page>>, i: nat, page: nat, n: nat, x: nat)
      requires FoundFree(t, t', i, page, n, x) && n > 0
      ensures TookFresh(t, t', i, x, n)
    {
      InMemory(t[i], mem.regions[i].base, mem.regions[i].begin, mem.regions[i].end, page, n);
      TakeFree(t, i, page, n, id);
      hide Apart, FirstPage, Reach, FreeUnowned, Taken, AllFree, Takes, OnPage, HolesOutside;
      FreeTakes(t, Spans(), id, i, page, n);
    }

    /** A segment made for s, on pages the allocator has free. */
    method MapFree(size: nat, s: Seg, m: nat, read: bool, room: nat) returns (r: MapResult, x: nat)
      requires Valid() && Kind(s.attr) == Fixed && size > 0
      requires s.len == m * PAGE_SIZE && m > 0 && m <= PageCount(size) + 1 && PageCount(size) <= m + 1
      modifies this`segs, mem.Repr()
      ensures r == if old(mem.NoRoom(size, s.attr)) then Refused
                   else if (s.vn.Some? && !read) || room == 0 then Dropped
                   else MapResult.Mapped
      ensures r != MapResult.Mapped ==> segs == old(segs) && mem.Tables() == old(mem.Tables())
      ensures r == MapResult.Mapped ==> segs == Combined(Inserted(old(segs), s.(base := x)))
      ensures r == MapResult.Mapped ==> OnPage(x) && Vacancy(old(segs), x, PageCount(size))
      ensures Valid() <==> r != MapResult.Mapped || PageCount(size) == m
      ensures Touches(old(mem.Tables()), mem.Tables(), id)
    {
      ghost var t, was := mem.Tables(), segs;
      ValidParts();
      hide Sound, Ordered, Taken, Touches, Vacancy, PageAllocator.Tables, Spans, FreshPages,
        PageAllocator.NoRoom, Combined, Inserted, PageCount, FirstPage, Owns, Kind;
      var got;
      ghost var i;
      got, x, i := AllocPages(size, s.attr);
      if !got {
        assert Exact();
        return Refused, x;
      }
      r := MapFresh(x, size, s, m, read, room, t, i);
    }

    method MapFresh(x: nat, size: nat, s: Seg, m: nat, read: bool, room: nat, ghost t: seq<seq<Page>>, ghost i: nat)
      returns (r: MapResult)
      requires Sound() && Ordered(segs) && Owns(t, Spans(), id, segs) && TookFresh(t, mem.Tables(), i, x, PageCount(size))
      requires s.len == m * PAGE_SIZE && m > 0 && m <= PageCount(size) + 1 && PageCount(size) <= m + 1
      modifies this`segs, mem.Repr()
      ensures r == if (s.vn.Some? && !read) || room == 0 then Dropped else MapResult.Mapped
      ensures r != MapResult.Mapped ==> segs == old(segs) && mem.Tables() == t
      ensures r == MapResult.Mapped ==> segs == Combined(Inserted(old(segs), s.(base := x)))
      ensures r == MapResult.Mapped ==> OnPage(x) && Vacancy(old(segs), x, PageCount(size))
      ensures Valid() <==> r != MapResult.Mapped || PageCount(size) == m
      ensures Touches(t, mem.Tables(), id)
    {
      hide Apart, PageAllocator.Valid, Ordered, Taken, Touches, Vacancy, FreshPages, Combined, Inserted, PageCount, FirstPage, Owns, Spans;
      FreshOutcome(t, segs, s, i, x, m, PageCount(size));
      if (s.vn.Some? && !read) || room == 0 {
        GiveBack(x, size, t, i);
        assert Exact();
        TouchesSelf(t, id);
        return Dropped;
      }
      ghost var t' := mem.Tables();
      InsertSeg(s.(base := x));
      assert Sound() && mem.Tables() == t';
      r := MapResult.Mapped;
    }

    /** ~page_ptr of the pages from page_alloc: everything is as before. */
    method GiveBack(x: nat, size: nat, ghost t: seq<seq<Page>>, ghost i: nat)
      requires Sound() && TookFresh(t, mem.Tables(), i, x, PageCount(size))
      modifies mem.Repr()
      ensures Sound() && segs == old(segs) && mem.Tables() == t
    {
      var n := PageCount(size);
      assert PageCount(n * PAGE_SIZE) == n;
      TakeFree(t, i, FirstPage(Spans()[i].base, x), n, id);
      hide Taken, GivenBack, Spans, Sound, PageCount, FirstPage, PageAllocator.Tables, PageAllocator.Repr, AllFree, OnPage;
      DropPages(x, n * PAGE_SIZE, t, i, n);
    }

    lemma FreshOutcome(t: seq<seq<Page>>, was: seq<Seg>, s: Seg, i: nat, x: nat, m: nat, n: nat)
      requires Sound() && FreshPages(t, i, x, n) && Owns(t, Spans(), id, was) && Ordered(was)
      requires s.len == m * PAGE_SIZE && m > 0 && m <= n + 1 && n <= m + 1
      ensures OnPage(x) && Vacancy(was, x, n)
      ensures Touches(t, Taken(t, i, FirstPage(Spans()[i].base, x), n, id), id)
      ensures var segs' := Combined(Inserted(was, s.(base := x)));
              Ordered(segs') && Owns(Taken(t, i, FirstPage(Spans()[i].base, x), n, id), Spans(), id, segs') <==> n == m
    {
      hide Ordered, Owns, Taken, Touches, Vacancy, Takes, Combined, Inserted, AllFree, FirstPage, OnPage, Apart, PageAllocator.Valid, Spans;
      FreeVacant(t, Spans(), id, was, i, x, n);
      TakenTouches(t, Spans(), id, i, x, n, n);
      AnywhereOwns(t, Spans(), id, was, s.(base := x), i, m, n);
    }

    method AllocAndAssert(size: nat, attr: bv32) returns (r: MapResult, x: nat)
      requires Valid() && Kind(attr) == Fixed && size > 0
      modifies mem.Repr()
      ensures r == if old(mem.NoRoom(size, attr)) then Refused else MapResult.Asserts
      ensures segs == old(segs) && (r == Refused ==> mem.Tables() == old(mem.Tables()))
      ensures (Valid() <==> r == Refused) && Touches(old(mem.Tables()), mem.Tables(), id)
    {
      hide Sound, Ordered, Taken, Touches, Vacancy, PageAllocator.Tables, Spans, FreshPages,
        PageAllocator.NoRoom, PageCount, FirstPage, Owns, Kind, At;
      ghost var t, was := mem.Tables(), segs;
      NotMemory();
      ValidParts();
      var got;
      ghost var i;
      got, x, i := AllocPages(size, attr);
      if !got {
        assert Exact();
        return Refused, x;
      }
      FreshUnmapped(t, was, i, x, PageCount(size));
      r := MapResult.Asserts;
    }

    lemma FreshUnmapped(t: seq<seq<Page>>, was: seq<Seg>, i: nat, x: nat, n: nat)
      requires Sound() && FreshPages(t, i, x, n) && Owns(t, Spans(), id, was)
      ensures !Owns(Taken(t, i, FirstPage(Spans()[i].base, x), n, id), Spans(), id, was)
      ensures Touches(t, Taken(t, i, FirstPage(Spans()[i].base, x), n, id), id)
    {
      hide Owns, Taken, Touches, AllFree, FirstPage, OnPage, Apart, PageAllocator.Valid, Spans, At, Nth;
      FreeVacant(t, Spans(), id, was, i, x, n);
      TakenTouches(t, Spans(), id, i, x, n, n);
      AssertsOwns(t, Spans(), id, was, i, x, n);
      assert At(was, Nth(x, 0)).None?;
    }

    /**
     mmapfor without MAP_FIXED: memory is mapped wherever there is room. The address space is left
     as it should be exactly when the pages taken are as many as the segment maps.
     */
    method MapAnywhere(addr: nat, len: nat, prot: Prot, vn: Option<nat>, off: nat, attr: bv32, read: bool, room: nat)
      returns (r: MapResult, x: nat)
      requires Valid() && Kind(attr) == Fixed
      modifies this`segs, mem.Repr()
      ensures r == if len == 0 || old(mem.NoRoom(addr % PAGE_SIZE + len, attr)) then Refused
                   else if vn.None? && off != 0 then MapResult.Asserts
                   else if (vn.Some? && !read) || room == 0 then Dropped
                   else MapResult.Mapped
      ensures r != MapResult.Mapped ==> segs == old(segs) && (r != MapResult.Asserts ==> mem.Tables() == old(mem.Tables()))
      ensures r == MapResult.Mapped ==> segs == Combined(Inserted(old(segs), NewSeg(x, len, prot, attr, vn, off)))
      ensures r == MapResult.Mapped ==> Vacancy(old(segs), x, Touched(addr, len))
      ensures Valid() <==> r != MapResult.Asserts && (r == MapResult.Mapped ==> Touched(addr, len) == Touched(off, len))
      ensures Touches(old(mem.Tables()), mem.Tables(), id)
      ensures r == MapResult.Mapped && Touched(off, len) <= Touched(addr, len) ==>
                && RangeMapped(old(segs), segs, x, Touched(off, len) * PAGE_SIZE, prot, attr)
                && (RangeFile(old(segs), segs, x, Touched(off, len) * PAGE_SIZE, vn, off) <==>
                    JoinsKeep(Inserted(old(segs), NewSeg(x, len, prot, attr, vn, off))))
    {
      hide MapsFile, JoinsKeep, RangeMapped, RangeFile, At, Valid, Sound, Exact, Ordered, Touches, Vacancy, PageAllocator.Repr, PageAllocator.Tables, Spans,
        PageAllocator.NoRoom, Combined, Inserted, Kind;
      if len == 0 {
        ValidParts();
        return Refused, 0;
      }
      if vn.None? && off != 0 {
        r, x := AllocAndAssert(addr % PAGE_SIZE + len, attr);
        return;
      }
      Counts(addr, off, len);
      Counts(off, off, len);
      hide PageCount;
      ghost var was := segs;
      ValidParts();
      r, x := MapFree(addr % PAGE_SIZE + len, NewSeg(0, len, prot, attr, vn, off), Touched(off, len), read, room);
      if r == MapResult.Mapped && Touched(off, len) <= Touched(addr, len) {
        ghost var s := NewSeg(x, len, prot, attr, vn, off);
        SegPages(x, len, prot, attr, vn, off);
        VacancyVacant(was, s, Touched(addr, len));
        InsertFiles(was, s);
        InsertVacant(was, s, Touched(addr, len));
        NewSegMaps(was, segs, x, len, prot, attr, vn, off);
      }
    }

    // ----- access checks -----

    /** as_find_seg */
    method FindSeg(a: nat) returns (i: nat)
      ensures i == Find(segs, a)
    {
      i := 0;
      while i < |segs|
        invariant i <= |segs| && forall j :: 0 <= j < i ==> !segs[j].Has(a)
      {
        if segs[i].base <= a && segs[i].End() > a {
          return;
        }
        i := i + 1;
      }
    }

    /** u_access_okfor: passes exactly when one segment holds the whole range with the rights, and then all of it is owned. */
    method AccessOkFor(addr: nat, len: nat, access: Prot) returns (ok: bool)
      requires Valid()
      ensures ok == AccessOk(segs, addr, len, access)
      ensures ok ==> forall a: nat :: addr <= a < addr + len ==> At(segs, a).Some? && access & At(segs, a).value.prot == access
    {
      hide Sound, Exact, Ordered, At;
      var i := FindSeg(addr);
      ok := i < |segs| && segs[i].End() - addr >= len && access & segs[i].prot == access;
      if ok {
        forall a: nat | addr <= a < addr + len ensures At(segs, a).Some? && access & At(segs, a).value.prot == access {
          AccessSound(segs, addr, len, access, a);
        }
      }
    }
  }
}
