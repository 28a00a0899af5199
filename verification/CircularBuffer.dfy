/** The kernel's circular buffer, for plain elements: sys/lib/circular_buffer.h. */
module CircularBuffers {
  import opened Modular
  import opened RingMoves

  /**
   `begin` and `end` run on through all values of the unsigned size type, of which there are
   `modulus`; the number of slots is a power of two and divides it, so that masking an index gives
   its remainder.
   */
  class CircularBuffer<T(0)> {
    const b: array<T>
    const modulus: nat
    var begin: nat
    var end: nat

    ghost predicate Shape() {
      0 < b.Length < modulus && modulus % b.Length == 0
    }

    function Size(): nat
      requires modulus > 0
      reads this
    {
      Dist(begin, end, modulus)
    }

    ghost predicate Valid()
      reads this
    {
      Shape() && begin < modulus && end < modulus && Size() <= b.Length
    }

    ghost function Contents(): seq<T>
      requires Valid()
      reads this, b
    {
      View(b[..], begin, Size())
    }

    constructor (capacity: nat, modulus: nat)
      requires 0 < capacity < modulus && modulus % capacity == 0
      ensures Valid() && Contents() == [] && fresh(b) && b.Length == capacity && this.modulus == modulus
    {
      b := new T[capacity];
      this.modulus := modulus;
      begin, end := 0, 0;
      new;
      Small(0, modulus);
    }

    method MemMove(d: nat, s: nat, n: nat)
      requires d + n <= b.Length && s + n <= b.Length
      modifies b
      ensures Copied(old(b[..]), b[..], d, s, n)
    {
      forall k | d <= k < d + n {
        b[k] := b[s + (k - d)];
      }
    }

    /** move_left; `need` of the count elements have to arrive. */
    method MoveLeft(dst: nat, src: nat, count: nat, ghost len: nat, ghost need: nat)
      requires Shape() && count <= b.Length && need + len <= b.Length && Slot(b.Length, src) == Slot(b.Length, dst + len)
      modifies b
      ensures Moved(old(b[..]), b[..], dst, dst + len, 0, Min(count, need), count)
    {
      hide Slot, Dist, Moved, Copied, Fwd, Back;
      ghost var a, m, done := b[..], b.Length, 0;
      var c, d, s := count, dst, src;
      MovedNone(a, dst, dst + len, 0);
      while c > 0
        invariant done + c == count
        invariant Slot(m, d) == Slot(m, dst + done) && Slot(m, s) == Slot(m, dst + len + done)
        invariant Moved(a, b[..], dst, dst + len, 0, Min(done, need), done)
        decreases c
      {
        var lin := Min(b.Length - Max(Slot(b.Length, d), Slot(b.Length, s)), c);
        ghost var before := b[..];
        MemMove(Slot(b.Length, d), Slot(b.Length, s), lin);
        LeftStep(a, before, b[..], dst, len, done, lin, need);
        FwdSlot(d, dst + done, lin);
        FwdSlot(s, dst + len + done, lin);
        c, s, d := c - lin, Fwd(s, lin, modulus), Fwd(d, lin, modulus);
        done := done + lin;
      }
    }

    lemma FwdSlot(x: nat, y: int, k: nat)
      requires Shape() && Slot(b.Length, x) == Slot(b.Length, y)
      ensures Slot(b.Length, Fwd(x, k, modulus)) == Slot(b.Length, y + k)
    {
      SlotStep(b.Length, modulus, x, y, k);
    }

    lemma BackSlot(x: nat, y: int, k: nat)
      requires Shape() && Slot(b.Length, x) == Slot(b.Length, y)
      ensures Slot(b.Length, Back(x, k, modulus)) == Slot(b.Length, y - k)
    {
      ghost var j: int := k;
      SlotStep(b.Length, modulus, x, y, -j);
    }

    /** move_right */
    method MoveRight(dst: nat, src: nat, count: nat, ghost len: nat)
      requires Shape() && 0 < len && count + len <= b.Length && Slot(b.Length, dst) == Slot(b.Length, src + len)
      modifies b
      ensures Moved(old(b[..]), b[..], src + len, src, 0, count, count)
    {
      hide Slot, Dist, Moved, Copied, Fwd, Back;
      ghost var a, m := b[..], b.Length;
      var c, d, s := count, Fwd(dst, count, modulus), Fwd(src, count, modulus);
      MovedNone(a, src + len, src, count);
      FwdSlot(dst, src + len, count);
      FwdSlot(src, src, count);
      while c > 0
        invariant 0 <= c <= count
        invariant Slot(m, d) == Slot(m, src + len + c) && Slot(m, s) == Slot(m, src + c)
        invariant Moved(a, b[..], src + len, src, c, count, count)
        decreases c
      {
        var lin := ChunkBelow(Slot(b.Length, d), Slot(b.Length, s), c);
        NotBoth(m, src + c, len);
        assert src + c + len == src + len + c;
        RunBelow(m, src + len + c, lin);
        RunBelow(m, src + c, lin);
        BackSlot(d, src + len + c, lin);
        BackSlot(s, src + c, lin);
        s, d := Back(s, lin, modulus), Back(d, lin, modulus);
        ghost var before := b[..];
        assert src + len + c - lin == src + len + (c - lin) && src + c - lin == src + (c - lin);
        MemMove(Slot(b.Length, d), Slot(b.Length, s), lin);
        RightStep(a, before, b[..], src, len, c, lin, count);
        c := c - lin;
      }
    }

    /** How many elements below slots d and s can be moved at once. */
    function ChunkBelow(d: nat, s: nat, c: nat): (lin: nat)
      requires Shape() && 0 < c < modulus
      ensures 0 < lin <= c && (d > 0 ==> lin <= d) && (s > 0 ==> lin <= s)
    {
      Min(Min(if d == 0 then modulus - 1 else d, if s == 0 then modulus - 1 else s), c)
    }

    function Max(x: nat, y: nat): nat {
      if x < y then y else x
    }

    /** How far index `it` is past the first element. */
    function Pos(it: nat): nat
      requires modulus > 0
      reads this`begin
    {
      Dist(begin, it, modulus)
    }

    /** Where an index points to, by its position. */
    lemma PosSlot(it: nat)
      requires Shape()
      ensures Slot(b.Length, it) == Slot(b.Length, begin + Pos(it))
    {
      ModMod(it - begin, modulus, b.Length);
      SameAdd(Pos(it), it - begin, begin, b.Length);
    }

    /** expand: open a gap of len elements before index it. */
    method Expand(it: nat, len: nat) returns (r: nat)
      requires Valid() && it < modulus && Pos(it) <= Size() && Size() + len <= b.Length
      modifies this, b
      ensures Valid() && Size() == old(Size()) + len
      ensures r < modulus && Pos(r) == old(Pos(it))
      ensures Gapped(old(Contents()), b[..], begin, Pos(r), len)
    {
      hide Gapped, View, Slot, Dist, Fwd, Back;
      ghost var a, n, p := b[..], Size(), Pos(it);
      GapBack(a, begin, n, len);
      if len == 0 {
        GapNone(a, begin, n, p);
        return it;
      }
      if it == end {
        EndFwd(begin, end, len, modulus);
        end := Fwd(it, len, modulus);
        return it;
      }
      if it == begin {
        DistZero(begin, begin, modulus);
        GapFront(a, begin, n, len);
        BeginBack(begin, end, len, modulus);
        BackSlot(begin, begin, len);
        GapSame(Contents(), a, begin - len, Back(begin, len, modulus), 0, len);
        begin := Back(begin, len, modulus);
        DistZero(begin, begin, modulus);
        return begin;
      }
      r := ExpandMiddle(it, len);
    }

    lemma MiddleSpan(it: nat, len: nat)
      requires Valid() && it < modulus && Pos(it) <= Size() && Size() + len <= b.Length && it != end && it != begin
      ensures 0 < Pos(it) < Size()
      ensures 0 < len ==> Slot(b.Length, Dist(begin, Fwd(it, len, modulus), modulus)) == Pos(it) + len
      ensures Slot(b.Length, Dist(it, end, modulus)) == Size() - Pos(it)
    {
      hide Slot, Dist, Fwd;
      DistZero(begin, it, modulus);
      DistZero(it, end, modulus);
      DistSplit(begin, it, end, modulus);
      EndFwd(begin, it, len, modulus);
      SlotSmall(b.Length, Pos(it) + len);
      SlotSmall(b.Length, Size() - Pos(it));
    }

    method ExpandMiddle(it: nat, len: nat) returns (r: nat)
      requires Valid() && it < modulus && Pos(it) <= Size() && Size() + len <= b.Length && 0 < len && it != end && it != begin
      modifies this, b
      ensures Valid() && Size() == old(Size()) + len
      ensures r < modulus && Pos(r) == old(Pos(it))
      ensures Gapped(old(Contents()), b[..], begin, Pos(r), len)
    {
      hide Gapped, View, Slot, Dist, Fwd, Back, Moved;
      ghost var a, m, n, p := b[..], b.Length, Size(), Pos(it);
      MiddleSpan(it, len);
      var lmoves := Slot(b.Length, Dist(begin, Fwd(it, len, modulus), modulus)) - 1;
      var rmoves := Slot(b.Length, Dist(it, end, modulus));
      if lmoves <= rmoves {
        var first := Back(begin, len, modulus);
        BackSlot(begin, begin, len);
        SlotShift(m, first, begin - len, len);
        assert begin - len + len == begin;
        MoveLeft(first, begin, lmoves, len, p);
        assert first + len - len == first;
        GapLeft(a, b[..], first + len, n, p, len);
        ViewSame(a, first + len, begin, n);
        BeginBack(begin, end, len, modulus);
        BothBack(begin, it, len, modulus);
        begin := first;
        return Back(it, len, modulus);
      } else {
        FwdSlot(it, it, len);
        MoveRight(Fwd(it, len, modulus), it, rmoves, len);
        PosSlot(it);
        GapRightAt(a, b[..], it, begin, n, p, len);
        EndFwd(begin, end, len, modulus);
        end := Fwd(end, len, modulus);
        return it;
      }
    }

    /** collapse, and erase: elements p to p + len are taken out. */
    method Collapse(it: nat, len: nat) returns (r: nat)
      requires Valid() && it < modulus && Pos(it) + len <= Size()
      modifies this, b
      ensures Valid() && r < modulus && Pos(r) == old(Pos(it))
      ensures Contents() == old(Contents()[..Pos(it)] + Contents()[Pos(it) + len..])
    {
      hide View, Slot, Dist, Fwd, Back;
      ghost var a, n, p := b[..], Size(), Pos(it);
      ghost var s := Contents();
      if len == 0 {
        assert s == s[..p] + s[p..];
        return it;
      }
      if it == begin {
        DistZero(begin, begin, modulus);
        BeginFwd(begin, end, len, modulus);
        FwdSlot(begin, begin, len);
        ViewSame(a, begin + len, Fwd(begin, len, modulus), n - len);
        ViewParts(a, begin, n, len);
        begin := Fwd(begin, len, modulus);
        DistZero(begin, begin, modulus);
        return begin;
      }
      EraseSpan(it, len);
      if Fwd(it, len, modulus) == end {
        EndBack(begin, end, len, modulus);
        ViewParts(a, begin, n, len);
        end := Back(end, len, modulus);
        return end;
      }
      r := CollapseMiddle(it, len);
    }

    lemma EraseSpan(it: nat, len: nat)
      requires Valid() && it < modulus && Pos(it) + len <= Size() && it != begin
      ensures 0 < Pos(it)
      ensures Fwd(it, len, modulus) == end <==> Pos(it) + len == Size()
      ensures Slot(b.Length, Dist(Fwd(it, len, modulus), end, modulus)) == Size() - Pos(it) - len
      ensures 0 < len ==> Slot(b.Length, Pos(it)) == Pos(it)
    {
      hide Slot, Dist, Fwd;
      var e := Fwd(it, len, modulus);
      DistZero(begin, it, modulus);
      EndFwd(begin, it, len, modulus);
      DistSplit(begin, e, end, modulus);
      DistZero(e, end, modulus);
      SlotSmall(b.Length, Size() - Pos(it) - len);
      if 0 < len { SlotSmall(b.Length, Pos(it)); }
    }

    method CollapseMiddle(it: nat, len: nat) returns (r: nat)
      requires Valid() && it < modulus && 0 < len && Pos(it) + len < Size() && it != begin
      modifies this, b
      ensures Valid() && r < modulus && Pos(r) == old(Pos(it))
      ensures Contents() == old(Contents()[..Pos(it)] + Contents()[Pos(it) + len..])
    {
      hide View, Slot, Dist, Fwd, Back, Moved;
      ghost var a, m, n, p := b[..], b.Length, Size(), Pos(it);
      EraseSpan(it, len);
      var e := Fwd(it, len, modulus);
      var lmoves := Slot(b.Length, Dist(e, end, modulus));
      var rmoves := Slot(b.Length, Pos(it));
      if lmoves <= rmoves {
        FwdSlot(it, it, len);
        MoveLeft(it, e, lmoves, len, lmoves);
        PosSlot(it);
        CloseLeftAt(a, b[..], it, begin, n, p, len);
        EndBack(begin, end, len, modulus);
        end := Back(end, len, modulus);
        return it;
      } else {
        FwdSlot(begin, begin, len);
        MoveRight(Fwd(begin, len, modulus), begin, rmoves, len);
        MovedSize(a, b[..], begin + len, begin, 0, p, p);
        CloseRight(a, b[..], begin, n, p, len);
        ViewSame(b[..], begin + len, Fwd(begin, len, modulus), n - len);
        BeginFwd(begin, end, len, modulus);
        BothFwd(begin, it, len, modulus);
        begin := Fwd(begin, len, modulus);
        return e;
      }
    }

    method MemCopy(d: nat, vs: seq<T>, from: nat, n: nat)
      requires d + n <= b.Length && from + n <= |vs|
      modifies b
      ensures Filled(old(b[..]), b[..], d, vs, from, n)
    {
      forall k | d <= k < d + n {
        b[k] := vs[from + (k - d)];
      }
    }

    /** The loop of insert that copies plain elements in. */
    method Store(it: nat, vs: seq<T>)
      requires Shape() && |vs| <= b.Length
      modifies b
      ensures Stored(old(b[..]), b[..], it, vs, |vs|)
    {
      hide Slot, Dist, Fwd, Stored, Filled;
      ghost var a := b[..];
      StoredNone(a, it, vs);
      var c, p := 0, it;
      while c < |vs|
        invariant 0 <= c <= |vs| && Slot(b.Length, p) == Slot(b.Length, it + c)
        invariant Stored(a, b[..], it, vs, c)
      {
        var lin := Min(b.Length - Slot(b.Length, p), |vs| - c);
        ghost var before := b[..];
        MemCopy(Slot(b.Length, p), vs, c, lin);
        StoreStep(a, before, b[..], it, vs, c, lin);
        FwdSlot(p, it + c, lin);
        c, p := c + lin, Fwd(p, lin, modulus);
      }
    }

    /** insert of a range before index it. */
    method Insert(it: nat, vs: seq<T>) returns (r: nat)
      requires Valid() && it < modulus && Pos(it) <= Size() && Size() + |vs| <= b.Length
      modifies this, b
      ensures Valid() && r < modulus && Pos(r) == old(Pos(it))
      ensures Contents() == old(Contents()[..Pos(it)]) + vs + old(Contents()[Pos(it)..])
    {
      hide Slot, Dist, View, Gapped, Stored;
      r := Expand(it, |vs|);
      ghost var a := b[..];
      PosSlot(r);
      Store(r, vs);
      GapFilledAt(old(Contents()), a, b[..], r, begin, Pos(r), vs);
    }

    method PushBack(v: T)
      requires Valid() && Size() < b.Length
      modifies this`end, b
      ensures Valid() && Contents() == old(Contents()) + [v]
    {
      hide Slot, Dist, Fwd, View;
      ghost var a, n := b[..], Size();
      EndFwd(begin, end, 1, modulus);
      PosSlot(end);
      PushedBack(a, begin, end, n, v);
      b[Slot(b.Length, end)] := v;
      end := Fwd(end, 1, modulus);
      assert b[..] == a[Slot(b.Length, old(end)) := v];
    }

    method PushFront(v: T)
      requires Valid() && Size() < b.Length
      modifies this`begin, b
      ensures Valid() && Contents() == [v] + old(Contents())
    {
      hide Slot, Dist, Back, View;
      ghost var a, n := b[..], Size();
      BeginBack(begin, end, 1, modulus);
      BackSlot(begin, begin, 1);
      begin := Back(begin, 1, modulus);
      PushedFront(a, begin, old(begin), n, v);
      b[Slot(b.Length, begin)] := v;
      assert b[..] == a[Slot(b.Length, begin) := v];
    }

    method PopFront() returns (v: T)
      requires Valid() && Size() > 0
      modifies this`begin
      ensures Valid() && old(Contents()) == [v] + Contents()
    {
      hide Slot, Dist, Fwd;
      ghost var n := Size();
      BeginFwd(begin, end, 1, modulus);
      FwdSlot(begin, begin, 1);
      ViewSame(b[..], begin + 1, Fwd(begin, 1, modulus), n - 1);
      ViewParts(b[..], begin, n, 1);
      v := b[Slot(b.Length, begin)];
      assert View(b[..], begin, 1) == [v];
      begin := Fwd(begin, 1, modulus);
    }

    method PopBack() returns (v: T)
      requires Valid() && Size() > 0
      modifies this`end
      ensures Valid() && old(Contents()) == Contents() + [v]
    {
      hide Slot, Dist, Back;
      ghost var n, was := Size(), Contents();
      PosSlot(end);
      BackSlot(end, begin + n, 1);
      EndBack(begin, end, 1, modulus);
      ViewParts(b[..], begin, n, 1);
      end := Back(end, 1, modulus);
      v := b[Slot(b.Length, end)];
      assert begin + n - 1 == begin + (n - 1);
      assert was[n - 1] == v;
      assert was == was[..n - 1] + [was[n - 1]];
    }

    /** linear: elements from index it that follow each other in memory, of those before index `to`. */
    function Linear(it: nat, to: nat): (n: nat)
      requires Shape()
      ensures n <= Dist(it, to, modulus) && Slot(b.Length, it) + n <= b.Length
      ensures n == Dist(it, to, modulus) || Slot(b.Length, it) + n == b.Length
    {
      Min(Dist(it, to, modulus), b.Length - Slot(b.Length, it))
    }

    /** Spans of the first `done` elements from index `from`; index `it` is next. */
    ghost predicate Spanning(a: seq<T>, spans: seq<(nat, nat)>, from: nat, it: nat, to: nat, done: nat)
      requires Shape()
    {
      && |a| == b.Length && it < modulus
      && (forall i :: 0 <= i < |spans| ==> 0 < spans[i].1 && spans[i].0 + spans[i].1 <= |a|)
      && Slot(b.Length, it) == Slot(b.Length, from + done)
      && Joined(a, spans) == View(a, from, done)
      && Dist(it, to, modulus) + done == Dist(from, to, modulus)
      && (|spans| == 0 || (|spans| == 1 && Slot(b.Length, it) == 0) || (|spans| <= 2 && it == to))
    }

    lemma SpanStep(a: seq<T>, spans: seq<(nat, nat)>, from: nat, it: nat, to: nat, done: nat)
      requires Shape() && Spanning(a, spans, from, it, to, done) && it != to && to < modulus && Dist(from, to, modulus) <= b.Length
      ensures Linear(it, to) > 0
      ensures Spanning(a, spans + [(Slot(b.Length, it), Linear(it, to))], from, Fwd(it, Linear(it, to), modulus), to, done + Linear(it, to))
    {
      hide Slot, Dist, Fwd, View, Joined;
      var lin := Linear(it, to);
      DistZero(it, to, modulus);
      JoinedNext(a, spans, from, it, lin, done);
      FwdSlot(it, from + done, lin);
      BeginFwd(it, to, lin, modulus);
      DistZero(Fwd(it, lin, modulus), to, modulus);
      if Slot(b.Length, it) + lin == b.Length {
        RunToEnd(b.Length, it, lin);
        SlotShift(b.Length, it, from + done, lin);
      }
    }

    /** data: at most two spans of memory, which joined are the elements asked for. */
    method Data(from: nat, to: nat) returns (spans: seq<(nat, nat)>)
      requires Valid() && from < modulus && to < modulus && Pos(from) <= Pos(to) <= Size()
      ensures |spans| <= 2
      ensures forall i :: 0 <= i < |spans| ==> 0 < spans[i].1 && spans[i].0 + spans[i].1 <= b.Length
      ensures Joined(b[..], spans) == Contents()[Pos(from)..Pos(to)]
    {
      hide Slot, Dist, Fwd, View, Joined, Linear;
      ghost var a, done := b[..], 0;
      DistSplit(begin, from, to, modulus);
      spans := [];
      JoinedNone(a, from);
      var it := from;
      while it != to
        invariant Spanning(a, spans, from, it, to, done)
        decreases Dist(from, to, modulus) - done
      {
        SpanStep(a, spans, from, it, to, done);
        var lin := Linear(it, to);
        spans := spans + [(Slot(b.Length, it), lin)];
        it := Fwd(it, lin, modulus);
        done := done + lin;
      }
      DistZero(to, to, modulus);
      PosSlot(from);
      ViewSlice(a, begin, Size(), from, Pos(from), done);
    }
  }
}
