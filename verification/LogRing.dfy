/**
 The records of the kernel log and where they lie in its buffer: sys/kern/syslog.cpp.

 A record is a header and its text. Records follow each other from `tail` to `head`; where the next
 record does not fit before the end of the buffer the writer goes on at the start, leaving a header
 of length 0 (a sentinel) behind if there is space for one.
 */
module LogRing {
  import opened Modular

  /** Size of the buffer, size and alignment of a header. */
  datatype Layout = Layout(size: nat, hdr: nat, algn: nat) {
    ghost predicate Valid() {
      && algn > 0 && hdr > 0 && hdr % algn == 0 && size % algn == 0 && hdr < size
    }
  }

  /** What the buffer has at an address: the length and sequence number of a header, or other bytes. */
  datatype Cell = Head(len: int, num: int) | Other

  datatype Rec = Rec(pos: nat, len: nat, num: int)

  /** Where the record after r starts, before any wrap. */
  function After(l: Layout, r: Rec): nat
    requires l.algn > 0
  {
    AlignUp(r.pos + l.hdr + r.len, l.algn)
  }

  /** Records that follow each other from `from` to `to`. */
  ghost predicate Chain(l: Layout, recs: seq<Rec>, from: nat, to: nat)
    requires l.algn > 0
  {
    if recs == [] then from == to
    else recs[0].pos == from && recs[0].len > 0 && from + l.hdr + recs[0].len <= l.size && Chain(l, recs[1..], After(l, recs[0]), to)
  }

  /** A chain lies between its ends, record after record. */
  lemma {:induction false} ChainBounds(l: Layout, recs: seq<Rec>, from: nat, to: nat)
    requires l.Valid() && from % l.algn == 0 && from <= l.size && Chain(l, recs, from, to)
    ensures from <= to <= l.size && to % l.algn == 0
    ensures forall i :: 0 <= i < |recs| ==> from <= recs[i].pos && recs[i].pos + l.hdr + recs[i].len <= to && recs[i].len > 0
    ensures forall i, j :: 0 <= i < j < |recs| ==> recs[i].pos + l.hdr + recs[i].len <= recs[j].pos
  {
    if recs != [] {
      AlignBelow(from + l.hdr + recs[0].len, l.size, l.algn);
      ChainBounds(l, recs[1..], After(l, recs[0]), to);
      hide AlignUp;
      forall i | 0 < i < |recs| ensures recs[i] == recs[1..][i - 1] {
      }
    }
  }

  lemma {:induction false} ChainAppend(l: Layout, recs: seq<Rec>, from: nat, to: nat, r: Rec)
    requires l.algn > 0 && Chain(l, recs, from, to) && r.pos == to && r.len > 0 && to + l.hdr + r.len <= l.size
    ensures Chain(l, recs + [r], from, After(l, r))
  {
    if recs == [] {
      assert recs + [r] == [r];
    } else {
      ChainAppend(l, recs[1..], After(l, recs[0]), to, r);
      assert (recs + [r])[1..] == recs[1..] + [r];
    }
  }

  /** The header of every record is in the buffer. */
  ghost predicate Written(buf: seq<Cell>, recs: seq<Rec>) {
    forall i :: 0 <= i < |recs| ==> recs[i].pos < |buf| && buf[recs[i].pos] == Head(recs[i].len, recs[i].num)
  }

  /** Where a run of records up to the end of the buffer stops: no header fits there, or a sentinel is there. */
  ghost predicate Ends(l: Layout, buf: seq<Cell>, e: nat) {
    e <= l.size && (e + l.hdr >= l.size || (e < |buf| && buf[e].Head? && buf[e].len == 0))
  }

  /**
     How records lie in the buffer. `up` are those from the tail to the end of the buffer when the
     writer has gone on at its start, and stop at e; `low` are the others, up to the head.
   */
  datatype Shape = Shape(up: seq<Rec>, low: seq<Rec>, e: nat) {
    function Recs(): seq<Rec> {
      up + low
    }
  }

  /** The layout of the log; `full` allows the head to have caught up with the tail. */
  ghost predicate Laid(l: Layout, buf: seq<Cell>, s: Shape, head: nat, tail: nat, full: bool) {
    && l.Valid() && |buf| == l.size
    && head % l.algn == 0 && tail % l.algn == 0 && head + l.hdr < l.size && tail + l.hdr < l.size
    && Written(buf, s.up) && Written(buf, s.low)
    && (if s.up == [] then
          Chain(l, s.low, tail, head) && (s.low == [] ==> tail == 0)
        else
          && Chain(l, s.up, tail, s.e) && Chain(l, s.low, 0, head) && Ends(l, buf, s.e)
          && (head < tail || (full && head == tail)))
  }

  lemma LaidBuf(l: Layout, buf: seq<Cell>, s: Shape, head: nat, tail: nat, full: bool)
    requires Laid(l, buf, s, head, tail, full)
    ensures l.Valid() && |buf| == l.size && head + l.hdr < l.size && tail + l.hdr < l.size
    ensures s.up == [] ==> tail <= head
    ensures s.up != [] ==> head <= tail && (full || head < tail)
    ensures s.up == [] && head == 0 ==> s.low == [] && tail == 0
  {
    if s.up == [] {
      ChainBounds(l, s.low, tail, head);
    }
  }

  lemma NotFull(l: Layout, buf: seq<Cell>, s: Shape, head: nat, tail: nat)
    requires Laid(l, buf, s, head, tail, true) && head != tail
    ensures Laid(l, buf, s, head, tail, false)
  {
  }

  lemma NowFull(l: Layout, buf: seq<Cell>, s: Shape, head: nat, tail: nat)
    requires Laid(l, buf, s, head, tail, false)
    ensures Laid(l, buf, s, head, tail, true)
  {
  }

  ghost predicate Suffix(recs: seq<Rec>, rest: seq<Rec>) {
    |rest| <= |recs| && rest == recs[|recs| - |rest|..]
  }

  lemma SuffixLength(recs: seq<Rec>, rest: seq<Rec>)
    requires Suffix(recs, rest)
    ensures |rest| <= |recs| && forall i :: 0 <= i < |rest| ==> rest[i] == recs[|recs| - |rest| + i]
  {
  }

  lemma SuffixPush(recs: seq<Rec>, rest: seq<Rec>, r: Rec)
    requires Suffix(recs, rest)
    ensures Suffix(recs + [r], rest + [r])
  {
  }

  lemma SuffixDrop(recs: seq<Rec>, rest: seq<Rec>)
    requires Suffix(recs, rest) && rest != []
    ensures Suffix(recs, rest[1..])
  {
  }

  /** The newest of the d records dropped, if any were, starts within the n bytes at p. */
  ghost predicate InTheWay(recs: seq<Rec>, d: int, p: nat, n: nat) {
    0 < d <= |recs| ==> p <= recs[d - 1].pos < p + n
  }

  /** The newest record of recs dropped is in the way of the n bytes at p, or where the head is. */
  ghost predicate DropsNeeded(recs: seq<Rec>, d: int, p: nat, n: nat, head: nat) {
    0 < d <= |recs| ==> recs[d - 1].pos == head || p <= recs[d - 1].pos < p + n
  }

  /** The oldest record that is left goes too, and it was in the way. */
  lemma DropOne(recs: seq<Rec>, now: seq<Rec>, left: seq<Rec>, p: nat, n: nat)
    requires Suffix(recs, now) && now != [] && left == now[1..] && p <= now[0].pos < p + n
    ensures Suffix(recs, left) && InTheWay(recs, |recs| - |left|, p, n) && |left| == |now| - 1
  {
  }

  lemma DropNone(recs: seq<Rec>, p: nat, n: nat)
    ensures Suffix(recs, recs) && InTheWay(recs, |recs| - |recs|, p, n)
  {
  }

  lemma SuffixWhole(recs: seq<Rec>, now: seq<Rec>)
    requires Suffix(recs, now) && |now| >= |recs|
    ensures now == recs
  {
  }

  lemma StillNeeded(recs: seq<Rec>, rest: seq<Rec>, rec: Rec, now: seq<Rec>, p: nat, n: nat, head: nat)
    requires Suffix(recs, rest) && InTheWay(recs, |recs| - |rest|, p, n)
    requires now == rest + [rec] || (now == (rest + [rec])[1..] && rest != [] && (rest + [rec])[0].pos == head)
    ensures DropsNeeded(recs, |recs| + 1 - |now|, p, n, head)
  {
    SuffixLength(recs, rest);
  }

  /** Records are numbered one after the other, from first to last. */
  ghost predicate Numbered(recs: seq<Rec>, first: int, last: int) {
    |recs| == last - first + 1 && forall i :: 0 <= i < |recs| ==> recs[i].num == first + i
  }

  ghost predicate Inv(l: Layout, buf: seq<Cell>, s: Shape, head: nat, tail: nat, first: int, last: int) {
    Laid(l, buf, s, head, tail, false) && Numbered(s.Recs(), first, last)
  }

  // ----- what the layout means -----

  /** advance, and the jump of a reader over a sentinel. */
  function Next(l: Layout, buf: seq<Cell>, p: nat): nat
    requires l.algn > 0 && p < |buf| == l.size && buf[p].Head? && buf[p].len > 0
  {
    var q := AlignUp(p + l.hdr + buf[p].len, l.algn);
    if q + l.hdr >= l.size || (buf[q].Head? && buf[q].len == 0) then 0 else q
  }

  /** Records do not overlap and lie within the buffer. */
  lemma Separate(l: Layout, buf: seq<Cell>, s: Shape, head: nat, tail: nat, full: bool)
    requires Laid(l, buf, s, head, tail, full)
    ensures forall i :: 0 <= i < |s.Recs()| ==> s.Recs()[i].pos + l.hdr + s.Recs()[i].len <= l.size && s.Recs()[i].len > 0
    ensures forall i, j :: 0 <= i < j < |s.Recs()| ==>
              || s.Recs()[i].pos + l.hdr + s.Recs()[i].len <= s.Recs()[j].pos
              || s.Recs()[j].pos + l.hdr + s.Recs()[j].len <= s.Recs()[i].pos
  {
    hide Written, Ends;
    if s.up == [] {
      ChainBounds(l, s.low, tail, head);
    } else {
      ChainBounds(l, s.up, tail, s.e);
      ChainBounds(l, s.low, 0, head);
    }
  }

  /** The log is empty exactly when head and tail meet, and they then meet at the start of the buffer. */
  lemma EmptyIff(l: Layout, buf: seq<Cell>, s: Shape, head: nat, tail: nat)
    requires Laid(l, buf, s, head, tail, false)
    ensures s.Recs() == [] <==> head == tail
    ensures s.Recs() == [] ==> head == 0 && tail == 0
  {
    if s.up == [] {
      ChainBounds(l, s.low, tail, head);
    }
  }

  /** A walk along a chain visits its records in order. */
  lemma ChainWalk(l: Layout, buf: seq<Cell>, recs: seq<Rec>, from: nat, to: nat, i: nat)
    requires l.Valid() && |buf| == l.size && from % l.algn == 0 && from <= l.size && Chain(l, recs, from, to) && Written(buf, recs)
    requires i < |recs|
    ensures recs[0].pos == from && recs[i].len > 0
    ensures i + 1 < |recs| ==> Next(l, buf, recs[i].pos) == recs[i + 1].pos
    ensures i + 1 == |recs| ==> After(l, recs[i]) == to
  {
    hide Chain, AlignUp;
    ChainBounds(l, recs, from, to);
    ChainStep(l, recs, from, to, i);
  }

  /** A walk from the tail visits the records in order, and after the last comes to the head. */
  lemma WalkStep(l: Layout, buf: seq<Cell>, s: Shape, head: nat, tail: nat, i: nat)
    requires Laid(l, buf, s, head, tail, false) && i < |s.Recs()|
    ensures i == 0 ==> s.Recs()[i].pos == tail
    ensures s.Recs()[i].pos < |buf| && buf[s.Recs()[i].pos] == Head(s.Recs()[i].len, s.Recs()[i].num) && s.Recs()[i].len > 0
    ensures i + 1 < |s.Recs()| ==> Next(l, buf, s.Recs()[i].pos) == s.Recs()[i + 1].pos
    ensures i + 1 == |s.Recs()| ==> After(l, s.Recs()[i]) == head || (Ends(l, buf, After(l, s.Recs()[i])) && head == 0)
  {
    hide Chain, AlignUp, After;
    if s.up == [] {
      ChainWalk(l, buf, s.low, tail, head, i);
    } else if i < |s.up| {
      ChainWalk(l, buf, s.up, tail, s.e, i);
      if i + 1 == |s.up| {
        LastWalk(l, buf, s.up[i], s.e);
        if s.low != [] {
          ChainFirst(l, s.low, 0, head);
        } else {
          ChainNone(l, s.low, 0, head);
        }
      }
    } else {
      ChainWalk(l, buf, s.low, 0, head, i - |s.up|);
    }
  }

  lemma LastWalk(l: Layout, buf: seq<Cell>, r: Rec, e: nat)
    requires l.algn > 0 && |buf| == l.size && r.pos < |buf| && buf[r.pos] == Head(r.len, r.num) && r.len > 0
    requires After(l, r) == e && Ends(l, buf, e)
    ensures Next(l, buf, r.pos) == 0
  {
    hide AlignUp;
  }

  lemma {:induction false} ChainStep(l: Layout, recs: seq<Rec>, from: nat, to: nat, i: nat)
    requires l.algn > 0 && Chain(l, recs, from, to) && i < |recs|
    ensures recs[0].pos == from
    ensures After(l, recs[i]) == if i + 1 < |recs| then recs[i + 1].pos else to
  {
    if i > 0 {
      ChainStep(l, recs[1..], After(l, recs[0]), to, i - 1);
    }
  }

  /** Walking from p, with advance and jumps over sentinels, one meets exactly these records. */
  ghost predicate Visits(l: Layout, buf: seq<Cell>, p: nat, recs: seq<Rec>)
    requires l.algn > 0 && |buf| == l.size
    decreases |recs|
  {
    recs != [] ==>
      && recs[0].pos == p && p < |buf| && buf[p] == Head(recs[0].len, recs[0].num) && recs[0].len > 0
      && (|recs| > 1 ==> Visits(l, buf, Next(l, buf, p), recs[1..]))
  }

  /** The walk from the tail meets all the records, and no others, before it comes to the head. */
  lemma WalkAll(l: Layout, buf: seq<Cell>, s: Shape, head: nat, tail: nat)
    requires Laid(l, buf, s, head, tail, false)
    ensures Visits(l, buf, tail, s.Recs())
    ensures s.Recs() != [] ==> var e := After(l, s.Recs()[|s.Recs()| - 1]); e == head || (Ends(l, buf, e) && head == 0)
  {
    if s.Recs() != [] {
      WalkFrom(l, buf, s, head, tail, 0);
      WalkStep(l, buf, s, head, tail, 0);
      WalkStep(l, buf, s, head, tail, |s.Recs()| - 1);
      assert s.Recs()[0..] == s.Recs();
    }
  }

  lemma {:induction false} WalkFrom(l: Layout, buf: seq<Cell>, s: Shape, head: nat, tail: nat, i: nat)
    requires Laid(l, buf, s, head, tail, false) && i < |s.Recs()|
    ensures Visits(l, buf, s.Recs()[i].pos, s.Recs()[i..])
    decreases |s.Recs()| - i
  {
    hide Laid, Next;
    WalkStep(l, buf, s, head, tail, i);
    if i + 1 < |s.Recs()| {
      WalkFrom(l, buf, s, head, tail, i + 1);
      assert s.Recs()[i..][1..] == s.Recs()[i + 1..];
    }
  }

  // ----- the steps of the writer -----

  /** The shape without its oldest record. */
  function Trimmed(s: Shape): Shape
    requires s.up != []
  {
    if |s.up| > 1 then s.(up := s.up[1..]) else Shape([], s.low, 0)
  }

  lemma TrimLaid(l: Layout, buf: seq<Cell>, s: Shape, head: nat, tail: nat, num: int)
    requires Laid(l, buf, s, head, tail, true) && s.up != []
    ensures tail < |buf| && buf[tail] == Head(s.up[0].len, s.up[0].num) && s.up[0].len > 0 && s.up[0].pos == tail
    ensures |s.up| == 1 ==> Next(l, buf, tail) == 0
    ensures Laid(l, buf[tail := Head(-1, num)], Trimmed(s), head, Next(l, buf, tail), false)
    ensures Trimmed(s).Recs() == s.Recs()[1..]
  {
    hide Chain, AlignUp;
    var buf' := buf[tail := Head(-1, num)];
    ChainBounds(l, s.up, tail, s.e);
    ChainBounds(l, s.low, 0, head);
    ChainFirst(l, s.up, tail, s.e);
    var t := Trimmed(s);
    if |s.up| > 1 {
      ChainFirst(l, s.up[1..], After(l, s.up[0]), s.e);
      assert s.up[1].pos == After(l, s.up[0]);
    } else {
      ChainNone(l, s.up[1..], After(l, s.up[0]), s.e);
      assert s.up + s.low == s.up[..1] + s.low;
      ChainZero(l, s.low, head);
    }
  }

  /** A record whose text, of len bytes, leaves no space for another header anywhere in the buffer. */
  predicate FillsLog(l: Layout, len: nat)
    requires l.algn > 0
  {
    AlignUp(l.hdr + len, l.algn) + l.hdr >= l.size
  }

  /** There are lengths that are not refused and fill the log. */
  lemma AcceptedYetFills()
    ensures var l := Layout(128, 32, 8); l.Valid() && l.hdr + 70 <= l.size && FillsLog(l, 70)
  {
  }

  lemma FillsAfter(l: Layout, r: Rec)
    requires l.algn > 0 && r.pos == 0
    ensures FillsLog(l, r.len) <==> After(l, r) + l.hdr >= l.size
  {
  }

  /** Such a record fits only into an empty log. */
  lemma FillsEmpty(l: Layout, buf: seq<Cell>, s: Shape, head: nat, tail: nat, len: nat)
    requires Laid(l, buf, s, head, tail, false) && FillsLog(l, len) && len > 0
    requires head + l.hdr + len <= if s.up == [] then l.size else tail
    ensures s.Recs() == []
  {
    hide Written, Ends;
    if s.up != [] {
      AlignBelow(l.hdr + len, tail, l.algn);
    } else if s.low != [] {
      ChainBounds(l, s.low, tail, head);
      hide AlignUp, Chain;
      DiffMultiple(l.size, head, l.algn);
      AlignBelow(l.hdr + len, l.size - head, l.algn);
    }
  }

  lemma ChainFirst(l: Layout, recs: seq<Rec>, from: nat, to: nat)
    requires l.algn > 0 && Chain(l, recs, from, to) && recs != []
    ensures recs[0].pos == from && recs[0].len > 0 && from + l.hdr + recs[0].len <= l.size
    ensures Chain(l, recs[1..], After(l, recs[0]), to)
  {
  }

  lemma ChainNone(l: Layout, recs: seq<Rec>, from: nat, to: nat)
    requires l.algn > 0 && Chain(l, recs, from, to) && recs == []
    ensures from == to
  {
  }

  lemma ChainZero(l: Layout, recs: seq<Rec>, to: nat)
    requires l.algn > 0 && Chain(l, recs, 0, to)
    ensures recs == [] ==> to == 0
  {
  }

  /** The writer gives up the end of the buffer and goes on at its start. */
  lemma WrapLaid(l: Layout, buf: seq<Cell>, s: Shape, head: nat, tail: nat, num: int)
    requires Laid(l, buf, s, head, tail, false) && s.up == [] && head > 0
    ensures Laid(l, buf[head := Head(0, num)], Shape(s.low, [], head), 0, tail, true)
    ensures s.low != []
  {
    ChainBounds(l, s.low, tail, head);
    hide AlignUp;
  }

  /** The text of a record, and the header before it, are written over [p, p + n). */
  ghost predicate Wrote(buf: seq<Cell>, buf': seq<Cell>, p: nat, n: nat, len: int, num: int) {
    && |buf'| == |buf| && p < |buf| && buf'[p] == Head(len, num)
    && (forall i :: 0 <= i < |buf| && !(p <= i < p + n) ==> buf'[i] == buf[i])
  }

  lemma WroteHead(buf: seq<Cell>, buf': seq<Cell>, p: nat, n: nat, len: int, num: int)
    requires Wrote(buf, buf', p, n, len, num)
    ensures |buf'| == |buf| && p < |buf| && buf'[p] == Head(len, num)
  {
  }

  /** The record r put at the head. */
  function Pushed(l: Layout, s: Shape, r: Rec): Shape
    requires l.algn > 0
  {
    if After(l, r) + l.hdr >= l.size then Shape(s.low + [r], [], After(l, r)) else s.(low := s.low + [r])
  }

  lemma PushLaid(l: Layout, buf: seq<Cell>, buf': seq<Cell>, s: Shape, head: nat, tail: nat, r: Rec)
    requires Laid(l, buf, s, head, tail, false) && r.pos == head && r.len > 0
    requires head + l.hdr + r.len <= if s.up == [] then l.size else tail
    requires Wrote(buf, buf', head, l.hdr + r.len, r.len, r.num)
    ensures var head' := if After(l, r) + l.hdr >= l.size then 0 else After(l, r);
            && Laid(l, buf', Pushed(l, s, r), head', tail, true)
            && (head' == tail ==> Pushed(l, s, r).up != [])
            && (head' != tail ==> Laid(l, buf', Pushed(l, s, r), head', tail, false))
    ensures Pushed(l, s, r).Recs() == s.Recs() + [r]
  {
    hide Chain, AlignUp;
    if s.up == [] {
      PushLow(l, buf, buf', s, head, tail, r);
    } else {
      PushUp(l, buf, buf', s, head, tail, r);
    }
    assert s.up == [] ==> s.low + [r] == s.Recs() + [r];
    assert s.up + (s.low + [r]) == s.Recs() + [r];
  }

  lemma PushLow(l: Layout, buf: seq<Cell>, buf': seq<Cell>, s: Shape, head: nat, tail: nat, r: Rec)
    requires Laid(l, buf, s, head, tail, false) && r.pos == head && r.len > 0 && s.up == [] && head + l.hdr + r.len <= l.size
    requires Wrote(buf, buf', head, l.hdr + r.len, r.len, r.num)
    ensures var head' := if After(l, r) + l.hdr >= l.size then 0 else After(l, r);
            && Laid(l, buf', Pushed(l, s, r), head', tail, true)
            && (head' == tail ==> Pushed(l, s, r).up != [])
            && (head' != tail ==> Laid(l, buf', Pushed(l, s, r), head', tail, false))
  {
    hide Chain, AlignUp;
    ChainEmpty(l);
    ChainBounds(l, s.low, tail, head);
    ChainAppend(l, s.low, tail, head, r);
    AlignBelow(head + l.hdr + r.len, l.size, l.algn);
  }

  lemma PushUp(l: Layout, buf: seq<Cell>, buf': seq<Cell>, s: Shape, head: nat, tail: nat, r: Rec)
    requires Laid(l, buf, s, head, tail, false) && r.pos == head && r.len > 0 && s.up != [] && head + l.hdr + r.len <= tail
    requires Wrote(buf, buf', head, l.hdr + r.len, r.len, r.num)
    ensures After(l, r) + l.hdr < l.size
    ensures Laid(l, buf', Pushed(l, s, r), After(l, r), tail, true)
    ensures After(l, r) != tail ==> Laid(l, buf', Pushed(l, s, r), After(l, r), tail, false)
  {
    hide Chain, AlignUp;
    ChainBounds(l, s.low, 0, head);
    ChainBounds(l, s.up, tail, s.e);
    ChainAppend(l, s.low, 0, head, r);
    AlignBelow(head + l.hdr + r.len, tail, l.algn);
    ChainFirst(l, s.up, tail, s.e);
  }

  lemma ChainEmpty(l: Layout)
    requires l.algn > 0
    ensures Chain(l, [], 0, 0)
  {
  }
}
