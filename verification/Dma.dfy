/** Splitting a list of buffers into DMA transfers: dma_iterate of sys/kern/dma.cpp. */
module Dma {
  import opened Modular
  import opened Powers

  /** A buffer of the list: whether DMA reaches it, whether it is cache coherent, or neither is known. */
  datatype Iov = Iov(base: nat, len: nat, known: bool, dma: bool, coherent: bool)

  /** Limits of the device and of the cache. */
  datatype Limits = Limits(fromIov: bool, least: nat, most: nat, modulo: nat, algn: nat, line: nat) {
    ghost predicate Valid() {
      least > 0 && modulo > 0 && algn > 0 && line > 0
    }
  }

  /** A transfer: straight from or to memory, or of what the bounce buffer holds from `at` on. */
  datatype Transfer = Direct(addr: nat, len: nat) | Bounced(at: nat, bytes: seq<nat>)

  /** Addresses of len bytes from a on. */
  function Run(a: nat, len: nat): (r: seq<nat>)
    ensures |r| == len
  {
    seq(len, i => a + i)
  }

  /** The addresses that transfers move, in order. */
  function Moved(ts: seq<Transfer>): seq<nat> {
    if ts == [] then []
    else Moved(ts[..|ts| - 1]) + match ts[|ts| - 1] { case Direct(a, l) => Run(a, l) case Bounced(_, b) => b }
  }

  /** Bytes that buffers k on have. */
  function Left(iov: seq<Iov>, k: nat): nat
    requires k <= |iov|
    decreases |iov| - k
  {
    if k == |iov| then 0 else iov[k].len + Left(iov, k + 1)
  }

  /** The addresses of the next n bytes from offset off of buffer k. */
  function Rest(iov: seq<Iov>, k: nat, off: nat, n: nat): seq<nat>
    requires k <= |iov| && off + n <= Left(iov, k)
    decreases |iov| - k
  {
    if n == 0 then []
    else if off >= iov[k].len then Rest(iov, k + 1, off - iov[k].len, n)
    else if iov[k].len - off >= n then Run(iov[k].base + off, n)
    else Run(iov[k].base + off, iov[k].len - off) + Rest(iov, k + 1, 0, n - (iov[k].len - off))
  }

  lemma RunSplit(a: nat, l: nat, m: nat)
    ensures Run(a, l + m) == Run(a, l) + Run(a + l, m)
  {
  }

  lemma RestNone(iov: seq<Iov>, k: nat, off: nat)
    requires k <= |iov| && off <= Left(iov, k)
    ensures Rest(iov, k, off, 0) == []
  {
  }

  /** Taking l bytes of the current buffer. */
  lemma RestStep(iov: seq<Iov>, k: nat, off: nat, n: nat, l: nat)
    requires k < |iov| && off + n <= Left(iov, k) && l <= n && off + l <= iov[k].len
    ensures Rest(iov, k, off, n) == Run(iov[k].base + off, l) + Rest(iov, k, off + l, n - l)
  {
    var b := iov[k].base + off;
    if off + l < iov[k].len {
      var m := if iov[k].len - off >= n then n else iov[k].len - off;
      RunSplit(b, l, m - l);
    }
  }

  function Min(a: nat, b: nat): nat {
    if a < b then a else b
  }

  function Max(a: nat, b: nat): nat {
    if a < b then b else a
  }

  function Trunc(x: nat, n: nat): (r: nat)
    requires n > 0
    ensures r <= x && x - r < n
  {
    x - x % n
  }

  lemma TruncIs(x: nat, n: nat)
    requires n > 0
    ensures Trunc(x, n) % n == 0
  {
    assert x == n * (x / n) + x % n;
    QuotientIs(x - x % n, n, x / n, 0);
  }

  /** How many bytes are missing from a bounce of `pending` bytes to make a transfer. */
  function Missing(lim: Limits, pending: nat): nat
    requires lim.Valid()
  {
    AlignUp(Max(pending, lim.least), lim.modulo) - pending
  }

  lemma MissingNone(lim: Limits, pending: nat)
    requires lim.Valid()
    ensures Missing(lim, pending) == 0 <==> pending >= lim.least && pending % lim.modulo == 0
  {
    if pending >= lim.least && pending % lim.modulo == 0 {
      AlignBelow(pending, pending, lim.modulo);
    }
  }

  /** A full bounce buffer makes a transfer exactly when its size is a multiple of the modulo. */
  lemma FullBounce(lim: Limits, room: nat, bp: nat)
    requires lim.Valid() && bp % lim.modulo == 0 && bp < room && room - bp >= Shortest(lim)
    ensures Missing(lim, room - bp) == 0 <==> room % lim.modulo == 0
  {
    hide AlignUp;
    MissingNone(lim, room - bp);
    if room % lim.modulo == 0 {
      DiffMultiple(room, bp, lim.modulo);
    }
    if (room - bp) % lim.modulo == 0 {
      SumMultiple(room - bp, bp, lim.modulo);
    }
  }

  /**
     Limits and sizes of the bounce buffer with which some list of buffers makes the loop turn for
     ever: bounces and direct transfers are both possible, and a full buffer is not a transfer.
   */
  predicate CanHang(lim: Limits, room: nat)
    requires lim.Valid()
  {
    room % lim.modulo != 0 && Shortest(lim) <= room && Shortest(lim) <= lim.most
  }

  lemma SumMultiple(a: nat, b: nat, m: nat)
    requires m > 0 && a % m == 0 && b % m == 0
    ensures (a + b) % m == 0
  {
    assert a == m * (a / m);
    AddMultiple(b, m, a / m);
  }

  /** Every limit on a direct transfer. */
  predicate WithinLimits(lim: Limits, t: Transfer)
    requires lim.Valid()
  {
    t.Direct? ==> t.addr % lim.algn == 0 && lim.least <= t.len <= lim.most && t.len % lim.modulo == 0
  }

  /** Bounces between direct transfers are of a length the device takes. */
  predicate Whole(lim: Limits, t: Transfer)
    requires lim.Valid()
  {
    t.Bounced? ==> |t.bytes| >= lim.least && |t.bytes| % lim.modulo == 0
  }

  lemma MovedSnoc(ts: seq<Transfer>, t: Transfer)
    ensures Moved(ts + [t]) == Moved(ts) + match t { case Direct(a, l) => Run(a, l) case Bounced(_, b) => b }
  {
    assert (ts + [t])[..|ts|] == ts;
  }

  function Size(t: Transfer): nat {
    match t
    case Direct(_, l) => l
    case Bounced(_, b) => |b|
  }

  /** The modulo divides n. */
  predicate Divides(lim: Limits, n: nat)
    requires lim.Valid()
  {
    n % lim.modulo == 0
  }

  predicate Multiple(lim: Limits, t: Transfer)
    requires lim.Valid()
  {
    Divides(lim, Size(t))
  }

  /** Transfers of multiples of the modulo move a multiple of it. */
  lemma {:induction false} MovedMultiple(lim: Limits, ts: seq<Transfer>)
    requires lim.Valid() && forall i :: 0 <= i < |ts| ==> Multiple(lim, ts[i])
    ensures |Moved(ts)| % lim.modulo == 0
  {
    if ts != [] {
      MovedMultiple(lim, ts[..|ts| - 1]);
      SumMultiple(|Moved(ts[..|ts| - 1])|, Size(ts[|ts| - 1]), lim.modulo);
    }
  }

  /** The shortest transfer the device takes. */
  function Shortest(lim: Limits): nat
    requires lim.Valid()
  {
    AlignUp(lim.least, lim.modulo)
  }

  /**
     A bounce starts at a multiple of the modulo, with space for a transfer from there to the end of
     the buffer. Only behind an earlier bounce and a direct transfer does it not start at 0.
   */
  predicate Placed(lim: Limits, room: nat, t: Transfer)
    requires lim.Valid()
  {
    t.Bounced? ==>
      && t.bytes != [] && t.at + |t.bytes| <= room
      && Divides(lim, t.at) && t.at + Shortest(lim) <= room && (t.at > 0 ==> Shortest(lim) <= t.at && Shortest(lim) <= lim.most)
  }

  /** Limits and sizes of the bounce buffer with which some list of buffers makes a misaligned bounce. */
  ghost predicate CanMisalign(lim: Limits, room: nat)
    requires lim.Valid()
  {
    Shortest(lim) <= lim.most && exists bp: nat :: MisalignedAt(lim, room, bp)
  }

  predicate MisalignedAt(lim: Limits, room: nat, bp: nat)
    requires lim.Valid()
  {
    Divides(lim, bp) && Shortest(lim) <= bp && bp + Shortest(lim) <= room && bp % lim.algn != 0
  }

  /** The same without a search: the first or the second place a bounce behind another can start at. */
  lemma MisalignCheck(lim: Limits, room: nat)
    requires lim.Valid()
    ensures CanMisalign(lim, room) <==>
              && Shortest(lim) <= lim.most
              && (|| (Shortest(lim) % lim.algn != 0 && 2 * Shortest(lim) <= room)
                  || (lim.modulo % lim.algn != 0 && 2 * Shortest(lim) + lim.modulo <= room))
  {
    hide AlignUp, MisalignedAt;
    var a, m := Shortest(lim), lim.modulo;
    if CanMisalign(lim, room) {
      var bp: nat :| MisalignedAt(lim, room, bp);
      MisalignedSecond(lim, room, bp);
    }
    if a % lim.algn != 0 && 2 * a <= room {
      assert MisalignedAt(lim, room, a) by { FirstPlace(lim, room); }
    } else if m % lim.algn != 0 && 2 * a + m <= room {
      assert MisalignedAt(lim, room, a + m) by { SecondPlace(lim, room); }
    }
  }

  lemma MisalignedSecond(lim: Limits, room: nat, bp: nat)
    requires lim.Valid() && MisalignedAt(lim, room, bp)
    ensures || (Shortest(lim) % lim.algn != 0 && 2 * Shortest(lim) <= room)
            || (lim.modulo % lim.algn != 0 && 2 * Shortest(lim) + lim.modulo <= room)
  {
    hide AlignUp;
    if lim.modulo % lim.algn == 0 {
      ModMod(bp, lim.modulo, lim.algn);
      assert false;
    }
    if bp < Shortest(lim) + lim.modulo {
      Near(bp, Shortest(lim), lim.modulo);
    }
  }

  lemma FirstPlace(lim: Limits, room: nat)
    requires lim.Valid() && Shortest(lim) % lim.algn != 0 && 2 * Shortest(lim) <= room
    ensures MisalignedAt(lim, room, Shortest(lim))
  {
    hide AlignUp;
  }

  lemma SecondPlace(lim: Limits, room: nat)
    requires lim.Valid() && Shortest(lim) % lim.algn == 0 && lim.modulo % lim.algn != 0 && 2 * Shortest(lim) + lim.modulo <= room
    ensures MisalignedAt(lim, room, Shortest(lim) + lim.modulo)
  {
    hide AlignUp;
    assert Shortest(lim) == lim.algn * (Shortest(lim) / lim.algn);
    AddMultiple(lim.modulo, lim.algn, Shortest(lim) / lim.algn);
    AddMultiple(Shortest(lim), lim.modulo, 1);
  }

  /** Limits and sizes with which some list of buffers makes a bounce longer than the device takes. */
  predicate CanOverrun(lim: Limits, room: nat)
    requires lim.Valid()
  {
    Shortest(lim) <= room && lim.most < room
  }

  /** Limits and sizes with which some list of buffers makes a bounce twice: both bounces and direct transfers are possible. */
  predicate CanRepeat(lim: Limits, room: nat)
    requires lim.Valid()
  {
    Shortest(lim) <= room && Shortest(lim) <= lim.most
  }

  /** A bounce misses a limit of the device only where some list can make one do so. */
  ghost predicate BounceLimits(lim: Limits, room: nat, t: Transfer)
    requires lim.Valid()
  {
    t.Bounced? ==> (t.at % lim.algn != 0 ==> CanMisalign(lim, room)) && (|t.bytes| > lim.most ==> CanOverrun(lim, room))
  }

  lemma PlacedLimits(lim: Limits, room: nat, t: Transfer)
    requires lim.Valid() && Placed(lim, room, t)
    ensures BounceLimits(lim, room, t)
  {
    hide AlignUp;
    if t.Bounced? && t.at % lim.algn != 0 {
      if t.at == 0 { Small(0, lim.algn); }
      assert MisalignedAt(lim, room, t.at);
    }
  }

  /** A bounce lies at an address that is aligned exactly when its place in the buffer is, the buffer being aligned. */
  lemma BounceAddress(lim: Limits, base: nat, at: nat)
    requires lim.Valid() && base % lim.algn == 0
    ensures (base + at) % lim.algn == 0 <==> at % lim.algn == 0
  {
    assert base == lim.algn * (base / lim.algn);
    AddMultiple(at, lim.algn, base / lim.algn);
  }

  /**
     The length of a direct transfer: as much of the len bytes at p as the limits allow, and never
     so much that a rest shorter than the least transfer is left.
   */
  function DirectSize(lim: Limits, p: nat, len: nat, cacheOk: bool, bufEnd: nat): (d: nat)
    requires lim.Valid() && lim.least <= len && p + len <= bufEnd && (cacheOk || lim.line <= len)
    ensures d <= len && d <= lim.most && d % lim.modulo == 0
    ensures d == len || len - d >= lim.least
    ensures !cacheOk ==> p + d <= Trunc(bufEnd, lim.line)
  {
    var d0 := if cacheOk then len else Min(len, Trunc(bufEnd, lim.line) - p);
    TruncIs(Min(d0, lim.most), lim.modulo);
    var d := Trunc(Min(d0, lim.most), lim.modulo);
    if d < len then
      TruncIs(Min(d, len - lim.least), lim.modulo);
      Trunc(Min(d, len - lim.least), lim.modulo)
    else d
  }

  /** The buffer that the byte `off` bytes from the start of buffer k is in, and where in it. */
  function Skip(iov: seq<Iov>, k: nat, off: nat): (r: (nat, nat))
    requires k <= |iov| && off < Left(iov, k)
    ensures k <= r.0 < |iov| && r.1 < iov[r.0].len
    decreases |iov| - k
  {
    if off < iov[k].len then (k, off) else Skip(iov, k + 1, off - iov[k].len)
  }

  // ----- direct transfers keep to the memory that was asked for -----

  /** The device writes to memory that the cache may hold parts of. */
  predicate CacheMatters(lim: Limits, i: Iov) {
    !i.coherent && !lim.fromIov
  }

  /** Bytes that the buffers before k have. */
  function Before(iov: seq<Iov>, k: nat): nat
    requires k <= |iov|
  {
    if k == 0 then 0 else Before(iov, k - 1) + iov[k - 1].len
  }

  /** Where in buffer m the bytes from `start` of the list on begin. */
  function PartStart(iov: seq<Iov>, start: nat, m: nat): nat
    requires m < |iov|
  {
    iov[m].base + if start > Before(iov, m) then start - Before(iov, m) else 0
  }

  /**
     A direct transfer lies in buffer m, which DMA reaches. Where the cache matters, it touches no line
     that the buffer, from where it is asked for on, shares with other memory.
   */
  ghost predicate InBuffer(iov: seq<Iov>, lim: Limits, start: nat, t: Transfer, m: int)
    requires lim.Valid() && t.Direct?
  {
    && 0 <= m < |iov| && iov[m].known && iov[m].dma
    && PartStart(iov, start, m) <= t.addr && t.addr + t.len <= iov[m].base + iov[m].len
    && (CacheMatters(lim, iov[m]) ==>
          && AlignUp(PartStart(iov, start, m), lim.line) <= t.addr
          && t.addr + t.len <= Trunc(iov[m].base + iov[m].len, lim.line))
  }

  ghost predicate Housed(iov: seq<Iov>, lim: Limits, start: nat, t: Transfer)
    requires lim.Valid()
  {
    t.Direct? ==> exists m :: InBuffer(iov, lim, start, t, m)
  }

  ghost predicate AllHoused(iov: seq<Iov>, lim: Limits, start: nat, out: seq<Transfer>)
    requires lim.Valid()
  {
    forall i :: 0 <= i < |out| ==> Housed(iov, lim, start, out[i])
  }

  /** Buffer k is known to be memory, and its first partial line is behind. */
  ghost predicate Seen(iov: seq<Iov>, lim: Limits, start: nat, k: nat, off: nat)
    requires lim.Valid()
  {
    && k < |iov| && iov[k].known
    && (CacheMatters(lim, iov[k]) ==> AlignUp(PartStart(iov, start, k), lim.line) <= iov[k].base + off)
  }

  /** What the loop has done and looked at so far keeps to that. */
  ghost predicate Clean(iov: seq<Iov>, lim: Limits, start: nat, s: Plan, nb: bool)
    requires lim.Valid()
  {
    && s.k <= |iov| && start <= Before(iov, s.k) + s.off
    && (!nb ==> Seen(iov, lim, start, s.k, s.off))
    && AllHoused(iov, lim, start, s.out)
  }

  lemma {:induction false} SkipBefore(iov: seq<Iov>, k: nat, off: nat)
    requires k <= |iov| && off < Left(iov, k)
    ensures var at := Skip(iov, k, off); Before(iov, at.0) + at.1 == Before(iov, k) + off && (at.0 == k ==> at.1 == off)
    decreases |iov| - k
  {
    if off >= iov[k].len { SkipBefore(iov, k + 1, off - iov[k].len); }
  }

  lemma FlushedHoused(iov: seq<Iov>, lim: Limits, start: nat, s: Plan)
    requires lim.Valid() && s.bp <= |s.bounce| && AllHoused(iov, lim, start, s.out)
    ensures AllHoused(iov, lim, start, Flushed(s))
  {
  }

  /** Where a buffer has been looked at, now or before, its first partial line is behind. */
  lemma LookedSeen(iov: seq<Iov>, lim: Limits, start: nat, k: nat, off: nat, total: nat, nb: bool)
    requires lim.Valid() && k < |iov| && off < iov[k].len && total > 0 && start <= Before(iov, k) + off
    requires !nb ==> Seen(iov, lim, start, k, off)
    requires var r := RouteOf(iov[k], lim, off, total, nb); r.Straight? || (r.Bounce? && r.looked)
    ensures Seen(iov, lim, start, k, off)
  {
    hide AlignUp, RouteOf, WithinLimits;
    if nb && CacheMatters(lim, iov[k]) {
      AlignBelow(PartStart(iov, start, k), iov[k].base + off, lim.line);
    }
  }

  lemma SeenOn(iov: seq<Iov>, lim: Limits, start: nat, k: nat, off: nat, off': nat)
    requires lim.Valid() && Seen(iov, lim, start, k, off) && off <= off'
    ensures Seen(iov, lim, start, k, off')
  {
  }

  /** A direct transfer of the next piece. */
  lemma StraightHoused(iov: seq<Iov>, lim: Limits, start: nat, k: nat, off: nat, total: nat, nb: bool)
    requires lim.Valid() && k < |iov| && off < iov[k].len && total > 0 && start <= Before(iov, k) + off
    requires !nb ==> Seen(iov, lim, start, k, off)
    requires RouteOf(iov[k], lim, off, total, nb).Straight?
    ensures Housed(iov, lim, start, Direct(iov[k].base + off, RouteOf(iov[k], lim, off, total, nb).len))
  {
    LookedSeen(iov, lim, start, k, off, total, nb);
    hide RouteOf, AlignUp;
    assert InBuffer(iov, lim, start, Direct(iov[k].base + off, RouteOf(iov[k], lim, off, total, nb).len), k);
  }

  /** What to do with the next piece: `looked` when its buffer needs no second look. */
  datatype Route = Unknown | Bounce(len: nat, looked: bool) | Straight(len: nat)

  /** Where the rest of a buffer goes, `nb` when it has not been looked at. */
  function RouteOf(i: Iov, lim: Limits, off: nat, total: nat, nb: bool): (r: Route)
    requires lim.Valid() && off < i.len && total > 0
    ensures !r.Unknown? ==> 0 < r.len <= Min(i.len - off, total)
    ensures r.Straight? ==> WithinLimits(lim, Direct(i.base + off, r.len))
    ensures r.Straight? ==> i.dma && (CacheMatters(lim, i) ==> i.base + off + r.len <= Trunc(i.base + i.len, lim.line))
    ensures nb && (r.Straight? || (r.Bounce? && r.looked)) ==>
              i.known && (CacheMatters(lim, i) ==> AlignUp(i.base + off, lim.line) == i.base + off)
  {
    var p := i.base + off;
    var len := Min(i.len - off, total);
    var cacheOk := i.coherent || lim.fromIov;
    if nb && !i.known then Unknown
    // bounce if destination cannot be written by DMA, or is misaligned
    else if !i.dma || p % lim.algn != 0 then Bounce(len, false)
    // bounce short requests
    else if len < Max(lim.least, if cacheOk then 0 else lim.line) then Bounce(len, false)
    // partial cacheline at start of buffer or transfer
    else if nb && !cacheOk && p < AlignUp(p, lim.line) then Bounce(AlignUp(p, lim.line) - p, false)
    else
      var d := DirectSize(lim, p, len, cacheOk, i.base + i.len);
      // bounce short requests
      if d < lim.least then Bounce(len, true) else Straight(d)
  }

  /** How a turn ends the loop or does not; Last: the device took the bounce as the last transfer before a direct one. */
  datatype Go = Again | Stop | Last | Fault

  /** How far the loop has come. */
  datatype Plan = Plan(k: nat, off: nat, total: nat, bounce: seq<nat>, bp: nat, out: seq<Transfer>, slots: nat)

  /** What waits in the bounce buffer, if anything, is a transfer. */
  predicate Ready(lim: Limits, pending: nat)
    requires lim.Valid()
  {
    pending == 0 || Missing(lim, pending) == 0
  }

  /** The transfers made once what waits in the bounce buffer is flushed. */
  function Flushed(s: Plan): seq<Transfer>
    requires s.bp <= |s.bounce|
  {
    if |s.bounce| == s.bp then s.out else s.out + [Bounced(s.bp, s.bounce[s.bp..])]
  }

  /** A turn from s to n that sends len bytes of the piece at `at` through the bounce buffer. */
  ghost predicate BounceTurn(lim: Limits, room: nat, s: Plan, at: (nat, nat), len: nat, n: Plan, go: Go)
    requires lim.Valid() && s.bp <= |s.bounce| <= room
  {
    var ok := |s.bounce| < room && room - s.bp >= Shortest(lim);
    var l := if ok then Min(room - |s.bounce|, len) else 0;
    && go == (if ok then Again else Stop)
    && n.k == at.0 && n.off == at.1 + l && n.total == s.total - l && n.bp == s.bp && n.out == s.out && n.slots == s.slots
    && s.bounce <= n.bounce && |n.bounce| == |s.bounce| + l
  }

  /** A turn from s to n whose piece at `at`, at address p, is to go straight. */
  ghost predicate StraightTurn(lim: Limits, room: nat, s: Plan, at: (nat, nat), p: nat, d: nat, n: Plan, go: Go)
    requires lim.Valid() && s.bp <= |s.bounce| <= room && s.slots > 0
  {
    && n.k == at.0
    && if Ready(lim, |s.bounce| - s.bp) then
         if s.bp < |s.bounce| && s.slots == 1 then
           // the bounce takes the last slot and is not marked as sent
           go == Last && n == s.(k := at.0, off := at.1, out := Flushed(s), slots := 0)
         else
           && n.off == at.1 + d && n.total == s.total - d && n.bounce == s.bounce && n.bp == |s.bounce|
           && n.out == Flushed(s) + [Direct(p, d)] && n.slots == s.slots - (if s.bp < |s.bounce| then 2 else 1)
           && go == (if n.slots == 0 then Stop else Again)
       else
         && go == Again && n.bp == s.bp && n.out == s.out && n.slots == s.slots
         && n.total <= s.total && n.off == at.1 + s.total - n.total && |n.bounce| == |s.bounce| + s.total - n.total
         && s.bounce <= n.bounce && (n.total == s.total <==> |s.bounce| == room)
  }

  ghost predicate Turned(lim: Limits, room: nat, s: Plan, at: (nat, nat), p: nat, r: Route, n: Plan, go: Go)
    requires lim.Valid() && s.bp <= |s.bounce| <= room && s.slots > 0
  {
    match r
    case Unknown => go == Fault && n == s.(k := at.0, off := at.1)
    case Bounce(len, _) => BounceTurn(lim, room, s, at, len, n, go)
    case Straight(d) => StraightTurn(lim, room, s, at, p, d, n, go)
  }

  /** Every turn keeps to the memory that was asked for. */
  lemma TurnClean(iov: seq<Iov>, lim: Limits, room: nat, start: nat, s: Plan, nb: bool, n: Plan, nb': bool, go: Go)
    requires lim.Valid() && s.bp <= |s.bounce| <= room && s.slots > 0 && s.total > 0
    requires s.k <= |iov| && s.off < Left(iov, s.k) && Clean(iov, lim, start, s, nb)
    requires var at := Skip(iov, s.k, s.off);
             var r := RouteOf(iov[at.0], lim, at.1, s.total, nb || at.0 != s.k);
             && Turned(lim, room, s, at, iov[at.0].base + at.1, r, n, go)
             && nb' == ((nb || at.0 != s.k) && !(r.Straight? || (r.Bounce? && r.looked)))
    ensures Clean(iov, lim, start, n, nb')
  {
    hide AlignUp, RouteOf, Skip, WithinLimits, AllHoused, Seen, Housed, Missing;
    var at := Skip(iov, s.k, s.off);
    var seen := nb || at.0 != s.k;
    var r := RouteOf(iov[at.0], lim, at.1, s.total, seen);
    SkipBefore(iov, s.k, s.off);
    if r.Straight? || (r.Bounce? && r.looked) {
      LookedSeen(iov, lim, start, at.0, at.1, s.total, seen);
    }
    if !nb' {
      TurnOn(lim, room, s, at, iov[at.0].base + at.1, r, n, go);
      SeenOn(iov, lim, start, at.0, at.1, n.off);
    }
    if r.Straight? {
      FlushedHoused(iov, lim, start, s);
      StraightHoused(iov, lim, start, at.0, at.1, s.total, seen);
      SnocHoused(iov, lim, start, Flushed(s), Direct(iov[at.0].base + at.1, r.len));
    }
  }

  lemma TurnOn(lim: Limits, room: nat, s: Plan, at: (nat, nat), p: nat, r: Route, n: Plan, go: Go)
    requires lim.Valid() && s.bp <= |s.bounce| <= room && s.slots > 0 && Turned(lim, room, s, at, p, r, n, go)
    ensures n.k == at.0 && at.1 <= n.off
  {
    hide Missing, AlignUp;
  }

  lemma SnocHoused(iov: seq<Iov>, lim: Limits, start: nat, out: seq<Transfer>, t: Transfer)
    requires lim.Valid() && AllHoused(iov, lim, start, out) && Housed(iov, lim, start, t)
    ensures AllHoused(iov, lim, start, out + [t])
  {
    hide Housed;
  }

  /** The bounce buffer is full and what waits in it is not a transfer. */
  predicate Jammed(lim: Limits, room: nat, s: Plan)
    requires lim.Valid() && s.bp <= |s.bounce|
  {
    |s.bounce| == room && !Ready(lim, |s.bounce| - s.bp)
  }

  /** A turn goes on without anything done exactly when the buffer is jammed and the next piece goes straight. */
  lemma Progress(lim: Limits, room: nat, s: Plan, at: (nat, nat), p: nat, r: Route, n: Plan, go: Go)
    requires lim.Valid() && s.bp <= |s.bounce| <= room && s.slots > 0 && Turned(lim, room, s, at, p, r, n, go)
    requires !r.Unknown? ==> 0 < r.len <= s.total
    ensures go == Again && n.total == s.total <==> Jammed(lim, room, s) && r.Straight?
    ensures go == Again && n.total == s.total ==> n == s.(k := at.0, off := at.1)
    ensures n.total <= s.total && |n.out| + n.slots == |s.out| + s.slots && (go == Again ==> n.slots > 0)
  {
    hide Missing, AlignUp;
  }

  /**
     How dma_iterate ends: done, with EFAULT, never, its loop changing nothing any more, or with a
     bounce made once more than the device takes.
   */
  datatype End = Complete | Faulted | Spins | Repeats

  class Planner {
    const iov: seq<Iov>
    const lim: Limits
    const room: nat         // size of the bounce buffer
    const start: nat        // offset in the list that was asked for
    var k: nat              // current buffer and offset in it
    var off: nat
    var total: nat          // bytes still to do
    var bounce: seq<nat>    // addresses of the bytes copied to the bounce buffer
    var bp: nat             // start of what is not yet transferred of them
    var out: seq<Transfer>
    var nb: bool            // the current buffer has not been looked at
    var slots: nat          // how many more transfers the device takes

    constructor (iov: seq<Iov>, off: nat, total: nat, lim: Limits, room: nat, slots: nat)
      requires lim.Valid() && off + total <= Left(iov, 0)
      ensures Steady() && this.iov == iov && this.lim == lim && this.room == room && All() == Rest(iov, 0, off, total)
      ensures Now() == Plan(0, off, total, [], 0, [], slots) && nb && start == off
    {
      this.iov, this.lim, this.room, this.slots, this.start := iov, lim, room, slots, off;
      this.k, this.off, this.total, this.bounce, this.bp, this.out, this.nb := 0, off, total, [], 0, [], true;
      new;
      assert Moved([]) == [];
    }

    function Now(): Plan
      reads this
    {
      Plan(k, off, total, bounce, bp, out, slots)
    }

    /** All bytes: those transferred, those waiting in the bounce buffer and those still to do. */
    ghost function All(): seq<nat>
      requires k <= |iov| && off + total <= Left(iov, k) && bp <= |bounce|
      reads this`k, this`off, this`total, this`bounce, this`bp, this`out
    {
      Moved(out) + bounce[bp..] + Rest(iov, k, off, total)
    }

    ghost predicate Valid()
      reads this`k, this`off, this`total, this`bounce, this`bp, this`out
    {
      && lim.Valid() && k <= |iov| && off + total <= Left(iov, k) && bp <= |bounce| <= room
      && (forall i :: 0 <= i < |out| ==> WithinLimits(lim, out[i]) && Placed(lim, room, out[i]))
    }

    /** What holds at the start of every turn of the loop. */
    ghost predicate Steady()
      reads this`k, this`off, this`total, this`bounce, this`bp, this`out
    {
      && Valid() && Divides(lim, bp)
      && (bp < |bounce| ==> room - bp >= Shortest(lim))
      && (bp > 0 ==> Shortest(lim) <= bp && Shortest(lim) <= lim.most)
      && (forall i :: 0 <= i < |out| ==> Whole(lim, out[i]))
    }

    ghost function NextAt(): (r: (nat, nat))
      requires Valid() && total > 0
      reads this
      ensures k <= r.0 < |iov| && r.1 < iov[r.0].len
    {
      Skip(iov, k, off)
    }

    /** What the next turn does with the next piece. */
    ghost function NextRoute(): (r: Route)
      requires Valid() && total > 0
      reads this
      ensures !r.Unknown? ==> 0 < r.len <= total
    {
      RouteOf(iov[NextAt().0], lim, NextAt().1, total, nb || NextAt().0 != k)
    }

    /** The bounce buffer is full, what waits in it is not a transfer, and the next piece is to go straight. */
    ghost predicate Stuck()
      requires Valid()
      reads this
    {
      total > 0 && Jammed(lim, room, Now()) && NextRoute().Straight?
    }

    /** Only limits that can hang get stuck. */
    lemma StuckHangs()
      requires Steady() && Stuck()
      ensures CanHang(lim, room)
    {
      hide AlignUp, Skip, Missing;
      FullBounce(lim, room, bp);
      AlignBelow(lim.least, NextRoute().len, lim.modulo);
    }

    /** add_bounce: up to len bytes of the current buffer go through the bounce buffer. */
    method AddBounce(len: nat) returns (ok: bool)
      requires Steady() && k < |iov| && off + len <= iov[k].len && 0 < len <= total
      modifies this`bounce, this`off, this`total
      ensures Steady() && All() == old(All())
      ensures ok <==> old(|bounce| < room && room - bp >= Shortest(lim))
      ensures var l := if ok then Min(room - old(|bounce|), len) else 0;
              && total == old(total) - l && off == old(off) + l
              && bounce == old(bounce) + Run(iov[k].base + old(off), l)
    {
      hide Rest, Left, Run, AlignUp, Divides, WithinLimits, Placed, Whole, Moved;
      if |bounce| == room || room - bp < Shortest(lim) {
        assert bounce == bounce + Run(iov[k].base + off, 0);
        return false;
      }
      var l := Min(room - |bounce|, len);
      RestStep(iov, k, off, total, l);
      bounce := bounce + Run(iov[k].base + off, l);
      off := off + l;
      total := total - l;
      ok := true;
    }

    /**
     align_bounce: true when what is waiting can be transferred; otherwise some bytes are added to
     it, or none when the buffer is full.
     */
    method AlignBounce(len: nat) returns (ok: bool)
      requires Steady() && k < |iov| && off + len <= iov[k].len && 0 < len <= total
      modifies this`bounce, this`off, this`total
      ensures Steady() && All() == old(All())
      ensures ok <==> old(Ready(lim, |bounce| - bp))
      ensures ok || old(|bounce| == room) ==> bounce == old(bounce) && off == old(off) && total == old(total)
      ensures !ok && old(|bounce| < room) ==> total < old(total)
      ensures total <= old(total) && off == old(off + total) - total && |bounce| == old(|bounce| + total) - total
      ensures old(bounce) <= bounce
    {
      hide Rest, Left, Run, AlignUp, Missing, Divides, WithinLimits, Placed, Whole, Moved;
      var pending := |bounce| - bp;
      var fix := Missing(lim, pending);
      if pending == 0 || fix == 0 {
        return true;
      }
      var added := AddBounce(Min(fix, len));
      ok := false;
    }

    /**
     flush_bounce. What do_transfer answers is whether the device takes more transfers; if not, the
     bounce is not marked as sent.
     */
    method FlushBounce() returns (more: bool)
      requires Steady()
      modifies this`bp, this`out, this`slots
      ensures Valid() && out == old(Flushed(Now())) && Moved(out) == old(Moved(out) + bounce[bp..])
      ensures slots == if old(|bounce| == bp || slots == 0) then old(slots) else old(slots) - 1
      ensures more == (old(|bounce| == bp) || slots > 0)
      ensures bp == if more then |bounce| else old(bp)
      ensures more ==> All() == old(All())
      ensures old(Ready(lim, |bounce| - bp) && (|bounce| == bp || Shortest(lim) <= lim.most)) ==> Steady()
    {
      hide Rest, Left, Run, AlignUp, Missing, Moved;
      assert bounce[|bounce|..] == [];
      if |bounce| == bp {
        return true;
      }
      if Missing(lim, |bounce| - bp) == 0 {
        WholeBounce(lim, |bounce| - bp, bp);
      }
      MovedSnoc(out, Bounced(bp, bounce[bp..]));
      out := out + [Bounced(bp, bounce[bp..])];
      slots := if slots == 0 then 0 else slots - 1;
      more := slots > 0;
      if more {
        bp := |bounce|;
      }
    }

    /** A direct transfer of d bytes of the current buffer. */
    method SendDirect(d: nat) returns (more: bool)
      requires Steady() && |bounce| == bp && k < |iov| && off + d <= iov[k].len && 0 < d <= total && slots > 0
      requires WithinLimits(lim, Direct(iov[k].base + off, d))
      modifies this`out, this`off, this`total, this`slots
      ensures Steady() && All() == old(All()) && total == old(total) - d && off == old(off) + d
      ensures out == old(out) + [Direct(iov[k].base + old(off), d)] && slots == old(slots) - 1 && more == (slots > 0)
    {
      hide Rest, Left, Run, AlignUp, Moved, Divides, WithinLimits;
      var t := Direct(iov[k].base + off, d);
      MovedSnoc(out, t);
      RestStep(iov, k, off, total, d);
      out := out + [t];
      slots := slots - 1;
      // after the last transfer nothing looks at these any more
      off := off + d;
      total := total - d;
      more := slots > 0;
      assert bounce[bp..] == [];
    }

    /** Move on to the buffer that the offset is in. */
    method NextBuffer()
      requires Steady() && total > 0
      modifies this`k, this`off, this`nb
      ensures Steady() && All() == old(All()) && (k, off) == old(NextAt()) && nb == (old(nb) || k != old(k))
    {
      ghost var was := All();
      while off >= iov[k].len
        invariant k < |iov| && Steady() && All() == was && old(k) <= k
        invariant NextAt() == old(NextAt()) && nb == (old(nb) || k != old(k))
        decreases |iov| - k
      {
        off := off - iov[k].len;
        k := k + 1;
        nb := true;
      }
    }

    /** The rest of a turn for a piece that is to go straight. */
    method GoStraight(d: nat) returns (go: Go)
      requires Steady() && total > 0 && k < |iov| && off < iov[k].len && 0 < d <= Min(iov[k].len - off, total) && slots > 0
      requires WithinLimits(lim, Direct(iov[k].base + off, d))
      modifies this`off, this`bounce, this`total, this`bp, this`out, this`slots
      ensures Steady() && (go != Last ==> All() == old(All()))
      ensures StraightTurn(lim, room, old(Now()), old((k, off)), iov[k].base + old(off), d, Now(), go)
    {
      hide Rest, Left, Run, AlignUp, Missing, Moved, All, WithinLimits, Placed, Whole, Divides, Shortest;
      DirectShortest(lim, Direct(iov[k].base + off, d));
      // align and queue bounce buffer
      var aligned := AlignBounce(Min(iov[k].len - off, total));
      if !aligned {
        return Again;
      }
      var more := FlushBounce();
      if !more {
        return Last;
      }
      more := SendDirect(d);
      go := if more then Again else Stop;
    }

    lemma SameBounce(s: Plan, s': Plan, len: nat, go: Go)
      requires Valid() && s.bp <= |s.bounce| <= room && s' == s.(k := s'.k, off := s'.off)
      requires BounceTurn(lim, room, s', (s'.k, s'.off), len, Now(), go)
      ensures BounceTurn(lim, room, s, (s'.k, s'.off), len, Now(), go)
    {
      hide Shortest;
    }

    lemma SameTurn(s: Plan, s': Plan, d: nat, go: Go)
      requires Valid() && s.bp <= |s.bounce| <= room && s' == s.(k := s'.k, off := s'.off) && s'.k < |iov| && s.slots > 0
      requires StraightTurn(lim, room, s', (s'.k, s'.off), iov[s'.k].base + s'.off, d, Now(), go)
      ensures StraightTurn(lim, room, s, (s'.k, s'.off), iov[s'.k].base + s'.off, d, Now(), go)
    {
      hide Missing;
    }

    /** The next piece is still to be bounced, or still not known. */
    ghost predicate SameRoute(r: Route)
      reads this
    {
      Valid() && total > 0 && (NextRoute().Bounce? <==> r.Bounce?) && (NextRoute().Unknown? <==> r.Unknown?)
    }

    lemma StillRoute(seen: bool)
      requires Valid() && total > 0 && k < |iov| && off < iov[k].len
      requires var r := RouteOf(iov[k], lim, off, total, seen); !r.Straight? && nb == (seen && !(r.Bounce? && r.looked))
      ensures SameRoute(RouteOf(iov[k], lim, off, total, seen))
    {
      hide AlignUp, DirectSize, WithinLimits, Placed;
    }

    /** The rest of a turn for a piece that is to be bounced. */
    method GoBounce(len: nat, looked: bool) returns (go: Go)
      requires Steady() && k < |iov| && off < iov[k].len && total > 0
      requires RouteOf(iov[k], lim, off, total, nb) == Bounce(len, looked)
      modifies this`bounce, this`off, this`total, this`nb
      ensures Steady() && All() == old(All())
      ensures BounceTurn(lim, room, old(Now()), old((k, off)), len, Now(), go)
      ensures go == Stop ==> SameRoute(Bounce(len, looked))
      ensures nb == (old(nb) && !looked)
    {
      hide Rest, Left, Run, AlignUp, Missing, Moved, All, WithinLimits, Placed, Whole, Divides, Shortest, RouteOf, SameRoute;
      ghost var seen := nb;
      nb := nb && !looked;
      var ok := AddBounce(len);
      go := if ok then Again else Stop;
      if !ok {
        StillRoute(seen);
      }
    }

    /** One turn of the loop of dma_iterate. */
    method Turn() returns (go: Go)
      requires Steady() && total > 0 && slots > 0
      modifies this`k, this`off, this`nb, this`bounce, this`total, this`bp, this`out, this`slots
      ensures Steady() && (go != Last ==> All() == old(All())) && k == old(NextAt()).0
      ensures Turned(lim, room, old(Now()), old(NextAt()), iov[k].base + old(NextAt()).1, old(NextRoute()), Now(), go)
      ensures nb == (old(nb || NextAt().0 != k) && !(old(NextRoute()).Straight? || (old(NextRoute()).Bounce? && old(NextRoute()).looked)))
      ensures old(NextRoute()).Unknown? || (go == Stop && old(NextRoute()).Bounce?) ==> SameRoute(old(NextRoute()))
    {
      hide Rest, Left, Run, AlignUp, Missing, Moved, RouteOf, All, WithinLimits, Placed, Whole, StraightTurn, BounceTurn, Skip, Divides, Shortest, SameRoute;
      NextBuffer();
      match RouteOf(iov[k], lim, off, total, nb)
      case Unknown =>
        go := Fault;
        StillRoute(nb);
      case Bounce(len, looked) =>
        ghost var s := Now();
        go := GoBounce(len, looked);
        SameBounce(old(Now()), s, len, go);
      case Straight(d) =>
        nb := false;
        ghost var s := Now();
        go := GoStraight(d);
        SameTurn(old(Now()), s, d, go);
    }

    /** A stuck turn leaves the loop stuck. */
    lemma StillStuck(s: Plan, seen: bool, at: (nat, nat))
      requires Valid() && s == Now().(k := s.k, off := s.off) && s.k <= |iov| && s.off < Left(iov, s.k)
      requires total > 0 && at == Skip(iov, s.k, s.off) && k == at.0 && off == at.1 && !nb
      requires Jammed(lim, room, s) && RouteOf(iov[k], lim, off, total, seen).Straight?
      ensures Stuck()
    {
      hide AlignUp, DirectSize, Missing;
    }

    /** However often a stuck loop turns, nothing is transferred and nothing gets done. */
    method Spin(n: nat)
      requires Steady() && Stuck() && slots > 0
      modifies this`k, this`off, this`nb, this`bounce, this`total, this`bp, this`out, this`slots
      ensures Steady() && Stuck() && Now() == old(Now()).(k := k, off := off)
    {
      hide Turned, RouteOf, Skip, Missing, WithinLimits, Placed, Whole, AlignUp, All, Left, Rest;
      for i := 0 to n
        invariant Steady() && Stuck() && Now() == old(Now()).(k := k, off := off)
      {
        ghost var s, at, seen, r := Now(), NextAt(), nb || NextAt().0 != k, NextRoute();
        var go := Turn();
        Progress(lim, room, s, at, iov[k].base + at.1, r, Now(), go);
        StillStuck(s, seen, at);
      }
    }

    lemma WholeSizes()
      requires Steady()
      ensures forall i :: 0 <= i < |out| ==> Multiple(lim, out[i])
    {
    }

    /** When the loop ends, what is left in the bounce buffer is a multiple of the modulo. */
    lemma LastSize()
      requires Steady() && Divides(lim, room) && Divides(lim, |All()|)
      requires total == 0 || |bounce| == room || |bounce| == bp
      ensures Multiple(lim, Bounced(bp, bounce[bp..]))
    {
      hide Moved, Rest, Left, AlignUp, WithinLimits, Placed, Whole;
      if |bounce| == room {
        DiffMultiple(room, bp, lim.modulo);
      } else if |bounce| > bp {
        WholeSizes();
        MovedMultiple(lim, out);
        RestNone(iov, k, off);
        DiffMultiple(|All()|, |Moved(out)|, lim.modulo);
      }
    }

    /** A bounce sent as the last transfer but not marked so: it is the newest of `out` and still waits. */
    ghost predicate Repeating()
      requires Valid()
      reads this
    {
      out != [] && bp < |bounce| && out[|out| - 1] == Bounced(bp, bounce[bp..]) && Ready(lim, |bounce| - bp)
    }

    /**
     Why bytes are left: the device takes no more after a direct transfer, or the next piece is to be
     bounced and the bounce buffer is full or what is left of it is too short for a transfer.
     */
    ghost predicate Unfinished()
      requires Valid() && total > 0
      reads this
    {
      || (slots == 0 && out != [] && out[|out| - 1].Direct?)
      || (NextRoute().Bounce? && (|bounce| == room || room - bp < Shortest(lim)))
    }

    /** The loop of dma_iterate up to its end, or up to where it is stuck. */
    method Loop() returns (e: End)
      requires Steady() && slots > 0 && Clean(iov, lim, start, Now(), nb)
      modifies this`k, this`off, this`nb, this`bounce, this`total, this`bp, this`out, this`slots
      ensures Steady() && |out| + slots == old(|out| + slots)
      ensures e != Repeats ==> All() == old(All())
      ensures e == Repeats ==> Repeating() && slots == 0 && CanRepeat(lim, room) && Moved(out) <= old(All())
      ensures e == Spins ==> Stuck()
      ensures e == Complete ==> (total == 0 || |bounce| == room || |bounce| == bp) && (slots > 0 || |bounce| == bp)
      ensures e == Complete && total > 0 ==> Unfinished()
      ensures e == Faulted ==> total > 0 && NextRoute().Unknown?
      ensures AllHoused(iov, lim, start, out)
    {
      hide Turned, RouteOf, Skip, Missing, All, Left, Rest, Moved, AlignUp, CanRepeat, Shortest, AllHoused, Seen, Before, WithinLimits,
        Placed, Whole, Divides, CacheMatters;
      while total > 0
        invariant Steady() && All() == old(All()) && |out| + slots == old(|out| + slots) && slots > 0
        invariant Clean(iov, lim, start, Now(), nb)
        decreases total
      {
        ghost var b := nb;
        ghost var s, at, seen, r := Now(), NextAt(), nb || NextAt().0 != k, NextRoute();
        MovedPending();
        var left := total;
        var go := Turn();
        Progress(lim, room, s, at, iov[k].base + at.1, r, Now(), go);
        TurnClean(iov, lim, room, start, s, b, Now(), nb, go);
        if go == Fault {
          FaultUnknown(lim, room, s, at, iov[k].base + at.1, r, Now());
          return Faulted;
        }
        if go == Stop {
          Stopped(lim, room, s, at, iov[k].base + at.1, r, Now());
          return Complete;
        }
        if go == Last {
          LastTurn(s, at, iov[k].base + at.1, r);
          return Repeats;
        }
        if total == left {
          StillStuck(s, seen, at);
          return Spins;
        }
      }
      e := Complete;
    }

    lemma MovedPending()
      requires Valid()
      ensures Moved(Flushed(Now())) <= All()
    {
      hide Moved, Rest, Left;
      if bp < |bounce| {
        MovedSnoc(out, Bounced(bp, bounce[bp..]));
      }
    }

    lemma LastTurn(s: Plan, at: (nat, nat), p: nat, r: Route)
      requires Steady() && s.bp <= |s.bounce| <= room && s.slots > 0 && Turned(lim, room, s, at, p, r, Now(), Last)
      requires r.Straight? ==> WithinLimits(lim, Direct(p, r.len))
      ensures Repeating() && slots == 0 && out == Flushed(s) && CanRepeat(lim, room)
    {
      hide AlignUp, Missing;
      DirectShortest(lim, Direct(p, r.len));
    }

    lemma MovedFirst()
      requires Valid()
      ensures Moved(out) <= All()
    {
      hide Moved, Rest, Left;
    }

    /** The flush after the loop. */
    method Finish()
      requires Steady() && (total == 0 || |bounce| == room || |bounce| == bp) && (slots > 0 || |bounce| == bp)
      modifies this`bp, this`out, this`slots
      ensures Valid() && old(All()) == Moved(out) + Rest(iov, k, off, total) && |out| <= old(|out|) + 1
      ensures out == old(Flushed(Now()))
      ensures old(total > 0 && Unfinished()) ==> Unfinished()
      ensures forall i :: 0 <= i < |out| - 1 ==> Whole(lim, out[i])
      ensures Divides(lim, room) && Divides(lim, |old(All())|) ==> forall i :: 0 <= i < |out| ==> Multiple(lim, out[i])
    {
      hide Left, Run, AlignUp, Missing, Moved, Rest, Multiple, Divides, WithinLimits, Placed, Whole;
      WholeSizes();
      if Divides(lim, room) && Divides(lim, |All()|) {
        LastSize();
      }
      var more := FlushBounce();
    }

    lemma AllLimits()
      requires Valid()
      ensures forall i :: 0 <= i < |out| ==> BounceLimits(lim, room, out[i])
    {
      hide WithinLimits, Placed, BounceLimits;
      forall i | 0 <= i < |out| ensures BounceLimits(lim, room, out[i]) {
        PlacedLimits(lim, room, out[i]);
      }
    }

    /**
     dma_iterate after its checks. It ends, except for limits and buffer sizes that can hang, when it
     gets stuck. No more transfers are made than the device takes, except for those that can repeat,
     when the last slot goes to a bounce ahead of a direct transfer: that bounce is then made twice.
     */
    method Iterate() returns (e: End)
      requires Steady() && slots > 0 && Clean(iov, lim, start, Now(), nb)
      modifies this`k, this`off, this`nb, this`bounce, this`total, this`bp, this`out, this`slots
      ensures Valid() && forall i :: 0 <= i < |out| ==> BounceLimits(lim, room, out[i])
      ensures AllHoused(iov, lim, start, out)
      ensures |out| <= old(|out| + slots) <==> e != Repeats
      ensures e != Repeats ==> Moved(out) <= old(All())
      ensures e == Repeats ==> CanRepeat(lim, room) && Repeated(out, old(All()))
      ensures e == Spins ==> Steady() && Stuck() && CanHang(lim, room)
      ensures e == Complete ==> old(All()) == Moved(out) + Rest(iov, k, off, total)
      ensures e == Complete ==> if total == 0 then Moved(out) == old(All()) else Unfinished()
      ensures e == Faulted ==> total > 0 && NextRoute().Unknown?
      ensures forall i :: 0 <= i < |out| - 1 ==> Whole(lim, out[i])
      ensures Divides(lim, room) && Divides(lim, |old(All())|) ==> forall i :: 0 <= i < |out| ==> Multiple(lim, out[i])
    {
      hide Left, Run, AlignUp, Missing, Moved, Skip, RouteOf, Rest, CanHang, CanRepeat, Stuck, All, Multiple, Divides,
        WithinLimits, Placed, Whole, BounceLimits, Shortest, AllHoused, Before, Seen, Clean, Unfinished, NextRoute, NextAt;
      e := Loop();
      WholeSizes();
      FlushedHoused(iov, lim, start, Now());
      match e {
        case Complete =>
          Finish();
          MovedPrefix(Moved(out), Rest(iov, k, off, total));
          if total == 0 { RestNone(iov, k, off); }
        case Repeats =>
          ghost var once := out;
          RepeatSize();
          var more := FlushBounce();
          assert out[..|out| - 1] == once;
        case Spins =>
          MovedFirst();
          StuckHangs();
        case Faulted =>
          MovedFirst();
      }
      AllLimits();
    }

    lemma RepeatSize()
      requires Steady() && Repeating()
      ensures Whole(lim, Bounced(bp, bounce[bp..])) && Multiple(lim, Bounced(bp, bounce[bp..]))
    {
      hide AlignUp, Missing;
      MissingNone(lim, |bounce| - bp);
    }
  }

  lemma MovedPrefix(a: seq<nat>, b: seq<nat>)
    ensures a <= a + b
  {
  }

  /** The last transfer was made twice, and without that the bytes are those of the list in order. */
  ghost predicate Repeated(out: seq<Transfer>, all: seq<nat>) {
    var n := |out| - 1;
    n > 0 && out[n] == out[n - 1] && out[n].Bounced? && Moved(out[..n]) <= all
  }

  /** What waits in the bounce buffer and is a transfer: a place behind it is a place for another. */
  lemma WholeBounce(lim: Limits, pending: nat, bp: nat)
    requires lim.Valid() && Divides(lim, bp) && Missing(lim, pending) == 0
    ensures pending >= lim.least && pending % lim.modulo == 0 && Divides(lim, bp + pending) && Shortest(lim) <= bp + pending
  {
    hide AlignUp, Missing;
    MissingNone(lim, pending);
    SumMultiple(pending, bp, lim.modulo);
    AlignBelow(lim.least, pending, lim.modulo);
  }

  /** A direct transfer is at least the shortest. */
  lemma DirectShortest(lim: Limits, t: Transfer)
    requires lim.Valid() && t.Direct? && WithinLimits(lim, t)
    ensures Shortest(lim) <= t.len <= lim.most
  {
    hide AlignUp;
    AlignBelow(lim.least, t.len, lim.modulo);
  }

  /** The loop is left before its end only with the bounce buffer full, or with nothing in it. */
  lemma Stopped(lim: Limits, room: nat, s: Plan, at: (nat, nat), p: nat, r: Route, n: Plan)
    requires lim.Valid() && s.bp <= |s.bounce| <= room && s.slots > 0 && Turned(lim, room, s, at, p, r, n, Stop)
    requires s.bp < |s.bounce| ==> room - s.bp >= Shortest(lim)
    ensures |n.bounce| == room || |n.bounce| == n.bp
    ensures n.slots > 0 || |n.bounce| == n.bp
    ensures || (r.Straight? && n.slots == 0 && n.out != [] && n.out[|n.out| - 1].Direct?)
            || (r.Bounce? && n.total == s.total && (|n.bounce| == room || room - n.bp < Shortest(lim)))
  {
    hide AlignUp, Missing;
  }

  lemma FaultUnknown(lim: Limits, room: nat, s: Plan, at: (nat, nat), p: nat, r: Route, n: Plan)
    requires lim.Valid() && s.bp <= |s.bounce| <= room && s.slots > 0 && Turned(lim, room, s, at, p, r, n, Fault)
    ensures r.Unknown? && n.total == s.total
  {
    hide AlignUp, Missing;
  }

  // ----- the checks -----

  predicate IsPow2(n: nat) {
    n > 0 && (n == 1 || (n % 2 == 0 && IsPow2(n / 2)))
  }

  /** dma_iterate refuses a bounce buffer that is not memory, or the call, or it runs. */
  datatype Verdict = BadAddress | Invalid | Ran(e: End)

  /** The checks of dma_iterate, on the bounce buffer and on the limits. */
  predicate Sane(lim: Limits, bounce: Iov, total: nat) {
    && (bounce.len > 0 ==>
          && bounce.dma && (lim.algn > 0 ==> bounce.base % lim.algn == 0)
          && (bounce.coherent || (lim.line > 0 ==> bounce.base % lim.line == 0 && bounce.len % lim.line == 0)))
    && IsPow2(lim.algn) && IsPow2(lim.modulo) && IsPow2(lim.least) && total % lim.modulo == 0
  }

  ghost predicate PowerOfTwo(n: nat) {
    exists k :: n == Pow2(k)
  }

  /** What dma_iterate demands of its caller: limits that are powers of two, and a bounce buffer that is fit for the device. */
  ghost predicate Allowed(lim: Limits, bounce: Iov, total: nat)
    requires lim.line > 0
  {
    && PowerOfTwo(lim.algn) && PowerOfTwo(lim.modulo) && PowerOfTwo(lim.least)
    && lim.modulo != 0 && total % lim.modulo == 0
    && (bounce.len > 0 ==>
          && bounce.known && bounce.dma && lim.algn != 0 && bounce.base % lim.algn == 0
          && (!bounce.coherent ==> bounce.base % lim.line == 0 && bounce.len % lim.line == 0))
  }

  lemma {:induction false} IsPow2Is(n: nat)
    ensures IsPow2(n) <==> PowerOfTwo(n)
  {
    if n == 1 {
      assert n == Pow2(0);
    } else if n > 0 {
      IsPow2Is(n / 2);
      if n % 2 == 0 && PowerOfTwo(n / 2) {
        var k: nat :| n / 2 == Pow2(k);
        assert n == Pow2(k + 1);
      }
      if PowerOfTwo(n) {
        var k: nat :| n == Pow2(k);
        assert k > 0 && n / 2 == Pow2(k - 1);
      }
    }
  }

  lemma SaneAllowed(lim: Limits, bounce: Iov, total: nat)
    requires lim.line > 0 && (bounce.len > 0 ==> bounce.known)
    ensures Sane(lim, bounce, total) <==> Allowed(lim, bounce, total)
  {
    hide IsPow2, PowerOfTwo;
    IsPow2Is(lim.algn);
    IsPow2Is(lim.modulo);
    IsPow2Is(lim.least);
    IsPow2Positive(lim.algn);
    IsPow2Positive(lim.modulo);
  }

  lemma IsPow2Positive(n: nat)
    ensures IsPow2(n) ==> n > 0
  {
  }

  /**
     dma_iterate with a device that takes `slots` transfers: all results, and for a call that runs what
     is transferred.
   */
  method DmaIterate(iov: seq<Iov>, off: nat, total: nat, lim: Limits, bounce: Iov, slots: nat) returns (v: Verdict, p: Planner?)
    requires off + total <= Left(iov, 0) && slots > 0 && lim.line > 0
    ensures v == BadAddress <==> bounce.len > 0 && !bounce.known
    ensures v == Invalid <==> (bounce.len > 0 ==> bounce.known) && !Allowed(lim, bounce, total)
    ensures v.Ran? ==>
              && p != null && fresh(p) && p.Valid() && p.iov == iov && p.lim == lim && p.room == bounce.len
              && (|p.out| <= slots <==> v.e != Repeats)
              && (v.e != Repeats ==> Moved(p.out) <= Rest(iov, 0, off, total))
              && (v.e == Repeats ==> CanRepeat(lim, bounce.len) && Repeated(p.out, Rest(iov, 0, off, total)))
              && (v.e == Spins ==> CanHang(lim, bounce.len))
              && (v.e == Complete ==> Rest(iov, 0, off, total) == Moved(p.out) + Rest(iov, p.k, p.off, p.total))
              && (v.e == Complete ==> if p.total == 0 then Moved(p.out) == Rest(iov, 0, off, total) else p.Unfinished())
              && (v.e == Faulted ==> p.total > 0 && p.NextRoute().Unknown?)
              && (forall i :: 0 <= i < |p.out| ==> Housed(iov, lim, off, p.out[i]))
              && (forall i :: 0 <= i < |p.out| ==> WithinLimits(lim, p.out[i]) && BounceLimits(lim, bounce.len, p.out[i]))
              && (forall i :: 0 <= i < |p.out| - 1 ==> Whole(lim, p.out[i]))
              && (Divides(lim, bounce.len) ==> forall i :: 0 <= i < |p.out| ==> Multiple(lim, p.out[i]))
  {
    hide Moved, Rest, Left, WithinLimits, BounceLimits, Whole, CanRepeat, CanHang, Repeated, Multiple, Placed, IsPow2, Shortest,
      Housed, Sane, Allowed;
    p := null;
    if bounce.len > 0 && !bounce.known {
      return BadAddress, p;
    }
    SaneAllowed(lim, bounce, total);
    if !Sane(lim, bounce, total) {
      return Invalid, p;
    }
    SaneLimits(lim, bounce, total);
    p := new Planner(iov, off, total, lim, bounce.len, slots);
    RestSize(iov, 0, off, total);
    var e := p.Iterate();
    v := Ran(e);
  }

  lemma SaneLimits(lim: Limits, bounce: Iov, total: nat)
    requires Sane(lim, bounce, total) && lim.line > 0
    ensures lim.Valid() && Divides(lim, total)
  {
    IsPow2Positive(lim.algn);
    IsPow2Positive(lim.modulo);
    IsPow2Positive(lim.least);
  }

  lemma {:induction false} RestSize(iov: seq<Iov>, k: nat, off: nat, n: nat)
    requires k <= |iov| && off + n <= Left(iov, k)
    ensures |Rest(iov, k, off, n)| == n
    decreases |iov| - k
  {
    if n > 0 {
      if off >= iov[k].len {
        RestSize(iov, k + 1, off - iov[k].len, n);
      } else if iov[k].len - off < n {
        RestSize(iov, k + 1, 0, n - (iov[k].len - off));
      }
    }
  }
}
