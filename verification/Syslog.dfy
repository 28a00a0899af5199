/** The writer of the kernel log: sys/kern/syslog.cpp. */
module Syslog {
  import opened Modular
  import opened LogRing

  datatype Outcome = NoSpace | Logged(pos: nat, num: int)

  class Log {
    const l: Layout
    const buf: array<Cell>
    var head: nat
    var tail: nat
    var firstSeq: int
    var lastSeq: int
    ghost var shape: Shape

    ghost predicate Valid()
      reads this, buf
    {
      Inv(l, buf[..], shape, head, tail, firstSeq, lastSeq)
    }

    lemma ValidLayout()
      requires Valid()
      ensures l.Valid()
    {
    }

    /** All but the last step of log_trim: the head may have caught up with the tail. */
    ghost predicate Full()
      reads this, buf
    {
      Laid(l, buf[..], shape, head, tail, true) && Numbered(shape.Recs(), firstSeq, lastSeq) && shape.up != []
    }

    constructor (l: Layout)
      requires l.Valid()
      ensures Valid() && fresh(buf) && this.l == l && shape.Recs() == []
      ensures firstSeq == 1 && lastSeq == 0
    {
      this.l := l;
      buf := new Cell[l.size](i => Other);
      head, tail, firstSeq, lastSeq := 0, 0, 1, 0;
      shape := Shape([], [], 0);
    }

    /** advance */
    method Advance(p: nat) returns (q: nat)
      requires l.Valid() && buf.Length == l.size && p < buf.Length && buf[p].Head? && buf[p].len > 0
      ensures var a := AlignUp(p + l.hdr + buf[p].len, l.algn); q == if a + l.hdr >= l.size then 0 else a
    {
      q := AlignUp(p + l.hdr + buf[p].len, l.algn);
      if q + l.hdr >= l.size {
        q := 0;
      }
    }

    /** log_trim: drop the oldest record. */
    method Trim()
      requires Full()
      modifies this`tail, this`firstSeq, this`shape, buf
      ensures Valid()
      ensures shape.Recs() == old(shape.Recs())[1..] && firstSeq == old(firstSeq) + 1
      ensures old(shape.Recs())[0].pos == old(tail) && (shape.up == [] ==> tail == 0)
    {
      hide Laid, AlignUp;
      TrimLaid(l, buf[..], shape, head, tail, shape.up[0].num);
      LaidBuf(l, buf[..], shape, head, tail, true);
      ghost var was := buf[..];
      var entry := tail;
      firstSeq := firstSeq + 1;
      tail := Advance(tail);
      if buf[tail].Head? && buf[tail].len == 0 {
        // sentinel: wrap
        tail := 0;
      }
      buf[entry] := Head(-1, buf[entry].num);
      assert buf[..] == was[entry := Head(-1, shape.up[0].num)];
      shape := Trimmed(shape);
    }

    /** The head goes back to the start of the buffer, and a sentinel stays where it was. */
    method Wrap()
      requires Valid() && shape.up == [] && head > 0
      modifies this`head, this`tail, this`firstSeq, this`shape, buf
      ensures Valid() && head == 0 && firstSeq - old(firstSeq) == |old(shape.Recs())| - |shape.Recs()|
      ensures old(tail) > 0 ==> shape.Recs() == old(shape.Recs()) && tail == old(tail) && shape.up != []
      ensures old(tail) == 0 ==>
                && old(shape.Recs()) != [] && shape.Recs() == old(shape.Recs())[1..]
                && old(shape.Recs())[0].pos == 0 && (shape.up == [] ==> tail == 0)
    {
      hide Laid;
      LaidBuf(l, buf[..], shape, head, tail, false);
      WrapLaid(l, buf[..], shape, head, tail, 0);
      ghost var was, recs := buf[..], shape.Recs();
      buf[head] := Head(0, 0);
      assert buf[..] == was[head := Head(0, 0)];
      shape := Shape(shape.low, [], head);
      assert shape.Recs() == recs;
      head := 0;
      if tail == head {
        // catch wrap to completely full
        Trim();
      } else {
        NotFull(l, buf[..], shape, head, tail);
      }
    }

    /** There is space for n bytes at the head, with no record dropped. */
    ghost predicate Fits(n: nat)
      reads this
    {
      head + n <= if shape.up == [] then l.size else tail
    }

    /**
     The loop of syslog_begin: afterwards a record of n bytes fits at the head, and the last record
     to go was in its way.
     */
    method MakeSpace(n: nat)
      requires Valid() && 0 < n <= l.size
      modifies this`head, this`tail, this`firstSeq, this`shape, buf
      ensures Valid()
      ensures Suffix(old(shape.Recs()), shape.Recs()) && firstSeq - old(firstSeq) == |old(shape.Recs())| - |shape.Recs()|
      ensures Fits(n) && InTheWay(old(shape.Recs()), |old(shape.Recs())| - |shape.Recs()|, head, n)
      ensures old(Fits(n)) ==> shape == old(shape) && head == old(head) && tail == old(tail) && buf[..] == old(buf[..])
    {
      hide Laid, Suffix, InTheWay;
      ghost var recs, first := shape.Recs(), firstSeq;
      DropNone(recs, head, n);
      while true
        invariant Valid()
        invariant Suffix(recs, shape.Recs()) && firstSeq - first == |recs| - |shape.Recs()|
        invariant InTheWay(recs, |recs| - |shape.Recs()|, head, n)
        invariant |shape.Recs()| < |recs| && shape.up == [] ==> tail == 0
        invariant old(Fits(n)) ==> shape == old(shape) && head == old(head) && tail == old(tail) && buf[..] == old(buf[..])
        decreases head, |shape.Recs()|
      {
        LaidBuf(l, buf[..], shape, head, tail, false);
        ghost var now, end := shape.Recs(), tail;
        var rem := tail - head;
        if rem > 0 {
          if rem >= n {
            return;
          }
          NowFull(l, buf[..], shape, head, tail);
          Trim();
          DropOne(recs, now, shape.Recs(), head, n);
        } else {
          rem := l.size - head;
          if rem >= n {
            return;
          }
          // not enough space to end of log
          Wrap();
          if end == 0 {
            DropOne(recs, now, shape.Recs(), head, n);
          } else {
            SuffixWhole(recs, now);
            DropNone(recs, head, n);
          }
        }
      }
    }

    /** The header and text of a record at p: n bytes in all. */
    method Write(p: nat, n: nat, len: nat, num: int)
      requires 0 < n && p + n <= buf.Length
      modifies buf
      ensures Wrote(old(buf[..]), buf[..], p, n, len, num)
    {
      buf[p] := Head(len, num);
      for i := p + 1 to p + n
        invariant buf[p] == Head(len, num)
        invariant forall j :: 0 <= j < buf.Length && !(p <= j < p + n) ==> buf[j] == old(buf[j])
      {
        buf[i] := Other;
      }
    }

    /** The end of syslog_begin: the record is written at the head, where it fits. */
    method Push(lenTerm: nat) returns (pos: nat)
      requires Valid() && lenTerm > 0 && Fits(l.hdr + lenTerm)
      modifies this, buf
      ensures Valid() && lastSeq == old(lastSeq) + 1
      ensures pos == old(head)
      ensures var recs := old(shape.Recs()) + [Rec(pos, lenTerm, lastSeq)];
              if FillsLog(l, lenTerm) then shape.Recs() == [] == old(shape.Recs())
              else shape.Recs() == recs || (shape.Recs() == recs[1..] && recs[0].pos == head && old(shape.Recs()) != [])
    {
      hide Laid, AlignUp, Wrote, Pushed, FillsLog;
      LaidBuf(l, buf[..], shape, head, tail, false);
      EmptyIff(l, buf[..], shape, head, tail);
      if FillsLog(l, lenTerm) { FillsEmpty(l, buf[..], shape, head, tail, lenTerm); }
      if head == 0 { FillsAfter(l, Rec(head, lenTerm, lastSeq + 1)); }
      pos := head;
      ghost var was, rec := buf[..], Rec(head, lenTerm, lastSeq + 1);
      Write(head, l.hdr + lenTerm, lenTerm, lastSeq + 1);
      PushLaid(l, was, buf[..], shape, head, tail, rec);
      WroteHead(was, buf[..], head, l.hdr + lenTerm, lenTerm, lastSeq + 1);
      lastSeq := lastSeq + 1;
      shape := Pushed(l, shape, rec);
      head := Advance(head);
      if tail == head {
        // catch wrap to completely full
        Trim();
      }
    }

    /**
     A message of len characters is logged, from syslog_begin to syslog_end: the log is what it was
     and the new record, without as many of the oldest as had to go. The newest of these is in the
     way of the new record, or where the head comes to be. A record that fills the log is lost at
     once, and any other is in it.
     */
    method Append(len: nat) returns (r: Outcome)
      requires Valid()
      modifies this, buf
      ensures Valid()
      ensures r == NoSpace <==> l.hdr + len + 1 > l.size
      ensures r == NoSpace ==> shape == old(shape) && buf[..] == old(buf[..]) && lastSeq == old(lastSeq) && firstSeq == old(firstSeq)
      ensures r != NoSpace ==> lastSeq == old(lastSeq) + 1 && r.num == lastSeq
      ensures r != NoSpace ==> Suffix(old(shape.Recs()) + [Rec(r.pos, len + 1, lastSeq)], shape.Recs())
      ensures r != NoSpace ==> (shape.Recs() == [] <==> FillsLog(l, len + 1))
      ensures r != NoSpace && !FillsLog(l, len + 1) ==>
                DropsNeeded(old(shape.Recs()), |old(shape.Recs())| + 1 - |shape.Recs()|, r.pos, l.hdr + len + 1, head)
      ensures r != NoSpace && old(Fits(l.hdr + len + 1)) && !FillsLog(l, len + 1) ==> |shape.Recs()| >= |old(shape.Recs())|
    {
      hide Inv, Suffix, FillsLog, InTheWay, DropsNeeded, Laid, AlignUp;
      if l.hdr + len + 1 > l.size {
        return NoSpace;
      }
      ghost var recs := shape.Recs();
      ValidLayout();
      MakeSpace(l.hdr + len + 1);
      ghost var rest := shape.Recs();
      var pos := Push(len + 1);
      r := Logged(pos, lastSeq);
      ghost var rec := Rec(pos, len + 1, lastSeq);
      SuffixPush(recs, rest, rec);
      SuffixDrop(recs + [rec], rest + [rec]);
      SuffixLength(recs, rest);
      if !FillsLog(l, len + 1) {
        StillNeeded(recs, rest, rec, shape.Recs(), pos, l.hdr + len + 1, head);
      }
    }
  }
}
