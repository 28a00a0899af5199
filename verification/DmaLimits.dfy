/**
 For which limits and bounce buffers dma_iterate hangs, misses a limit of the device or makes a transfer
 too many: for all of them a list of buffers with which it does. The other half, that it does not with
 any others, is what `Dma.Planner.Iterate` ensures.
 */
module DmaLimits {
  import opened KernelConfig
  import opened Modular
  import opened Dma

  // ----- buffers that can be in one list -----

  /** Two buffers have bytes in one page. */
  predicate SharePage(x: Iov, y: Iov) {
    && x.len > 0 && y.len > 0
    && x.base / PAGE_SIZE <= (y.base + y.len - 1) / PAGE_SIZE && y.base / PAGE_SIZE <= (x.base + x.len - 1) / PAGE_SIZE
  }

  /** Attributes belong to memory regions, which are made of whole pages. */
  ghost predicate PagesAgree(iov: seq<Iov>) {
    forall i, j :: 0 <= i < |iov| && 0 <= j < |iov| && SharePage(iov[i], iov[j]) ==>
      iov[i].known == iov[j].known && iov[i].dma == iov[j].dma && iov[i].coherent == iov[j].coherent
  }

  lemma ApartPages(x: Iov, y: Iov)
    requires x.base + x.len <= y.base && y.base % PAGE_SIZE == 0
    ensures !SharePage(x, y) && !SharePage(y, x)
  {
  }

  /** Memory that DMA does not reach, and memory that it does. */
  function Beyond(base: nat, len: nat): Iov {
    Iov(base, len, true, false, true)
  }

  function Within(base: nat, len: nat): Iov {
    Iov(base, len, true, true, true)
  }

  /** An aligned address on a page behind n bytes from 0. */
  function Behind(lim: Limits, n: nat): nat {
    lim.algn * (PAGE_SIZE * (n + 1))
  }

  lemma BehindIs(lim: Limits, n: nat)
    requires lim.Valid()
    ensures Behind(lim, n) % lim.algn == 0 && Behind(lim, n) % PAGE_SIZE == 0 && Behind(lim, n) >= n
  {
    Product(lim.algn, PAGE_SIZE, n + 1);
  }

  lemma Product(a: nat, b: nat, c: nat)
    requires a > 0 && b > 0
    ensures (a * (b * c)) % a == 0 && (a * (b * c)) % b == 0 && a * (b * c) >= c
  {
    AddMultiple(0, a, b * c);
    AddMultiple(0, b, a * c);
    Swap(a, b, c);
    Grows(b, c);
    Grows(a, b * c);
  }

  lemma Swap(a: nat, b: nat, c: nat)
    ensures a * (b * c) == b * (a * c)
  {
  }

  lemma Grows(a: nat, b: nat)
    requires a > 0
    ensures a * b >= b
  {
  }

  /** A buffer of one shortest transfer that DMA reaches goes straight as a whole. */
  lemma WithinRoute(lim: Limits, base: nat, total: nat)
    requires lim.Valid() && Shortest(lim) <= lim.most && base % lim.algn == 0 && total >= Shortest(lim)
    ensures Shortest(lim) >= lim.least
    ensures RouteOf(Within(base, Shortest(lim)), lim, 0, total, true) == Straight(Shortest(lim))
  {
    hide AlignUp, DirectSize;
    WholeDirect(lim, base, Shortest(lim));
  }

  lemma WholeDirect(lim: Limits, p: nat, len: nat)
    requires lim.Valid() && len % lim.modulo == 0 && lim.least <= len <= lim.most
    ensures DirectSize(lim, p, len, true, p + len) == len
  {
  }

  // ----- three buffers -----

  /** n bytes that DMA does not reach, one transfer that it does, and m bytes that it does not. */
  function Three(lim: Limits, n: nat, m: nat): seq<Iov>
    requires lim.Valid()
  {
    [Beyond(0, n), Within(Behind(lim, n), Shortest(lim)), Beyond(Behind(lim, n) + PAGE_SIZE * (Shortest(lim) + 1), m)]
  }

  lemma ThreeAgree(lim: Limits, n: nat, m: nat)
    requires lim.Valid()
    ensures PagesAgree(Three(lim, n, m))
  {
    hide AlignUp, Behind;
    var iov := Three(lim, n, m);
    BehindIs(lim, n);
    ThirdPage(Behind(lim, n), Shortest(lim));
    ApartPages(iov[0], iov[1]);
    ApartPages(iov[1], iov[2]);
    ApartPages(iov[0], iov[2]);
  }

  lemma ThirdPage(b: nat, n: nat)
    requires b % PAGE_SIZE == 0
    ensures (b + PAGE_SIZE * (n + 1)) % PAGE_SIZE == 0 && b + n <= b + PAGE_SIZE * (n + 1)
  {
    AddMultiple(b, PAGE_SIZE, n + 1);
  }

  lemma ThreeBytes(lim: Limits, n: nat, m: nat)
    requires lim.Valid()
    ensures Left(Three(lim, n, m), 0) == n + Shortest(lim) + m
    ensures Left(Three(lim, n, m), 1) == Shortest(lim) + m && Left(Three(lim, n, m), 2) == m
  {
    var iov := Three(lim, n, m);
    assert Left(iov, 3) == 0 && Left(iov, 2) == m && Left(iov, 1) == Shortest(lim) + m;
  }

  /** The first buffer is to bounce, the second to go straight and the third to bounce. */
  lemma ThreeRoutes(lim: Limits, n: nat, m: nat)
    requires lim.Valid() && n > 0 && m > 0 && Shortest(lim) <= lim.most
    ensures var iov, bytes := Three(lim, n, m), n + Shortest(lim) + m;
            && Left(iov, 0) == bytes && Left(iov, 1) == Shortest(lim) + m && Left(iov, 2) == m
            && Skip(iov, 0, 0) == (0, 0) && RouteOf(iov[0], lim, 0, bytes, true) == Bounce(n, false)
            && Skip(iov, 0, n) == (1, 0) && RouteOf(iov[1], lim, 0, bytes - n, true) == Straight(Shortest(lim))
            && Skip(iov, 1, Shortest(lim)) == (2, 0) && RouteOf(iov[2], lim, 0, m, true) == Bounce(m, false)
  {
    hide AlignUp, Left, Behind, DirectSize;
    ThreeBytes(lim, n, m);
    BehindIs(lim, n);
    WithinRoute(lim, Behind(lim, n), Shortest(lim) + m);
  }

  // ----- the loop that does not end -----

  lemma HangBytes(lim: Limits, room: nat)
    requires lim.Valid()
    ensures (room + Shortest(lim) + (lim.modulo - room % lim.modulo)) % lim.modulo == 0
  {
    hide AlignUp;
    var m, rest := lim.modulo, lim.modulo - room % lim.modulo;
    assert room + rest == m * (room / m + 1);
    AddMultiple(0, m, room / m + 1);
    SumMultiple(room + rest, Shortest(lim), m);
  }

  /**
     For all limits and sizes that can hang, and any device, there is a list of buffers, of as many bytes
     as the modulo allows, with which the loop is stuck after one turn, and stays so for n more.
   */
  method Hang(lim: Limits, room: nat, slots: nat, n: nat) returns (p: Planner, bytes: nat)
    requires lim.Valid() && CanHang(lim, room) && slots > 0
    ensures fresh(p) && p.lim == lim && p.room == room && p.slots == slots
    ensures PagesAgree(p.iov) && Left(p.iov, 0) == bytes && bytes % lim.modulo == 0
    ensures p.Steady() && p.Stuck() && p.out == [] && p.total == bytes - room
  {
    hide AlignUp, Missing, Moved, Rest, Run, DirectSize, WithinLimits, Placed, Whole, Planner.All, StraightTurn, RouteOf, Skip, Left,
      Three, PagesAgree, Shortest;
    var rest := lim.modulo - room % lim.modulo;
    bytes := room + Shortest(lim) + rest;
    HangBytes(lim, room);
    ThreeAgree(lim, room, rest);
    SomeRoom(lim, room);
    ThreeRoutes(lim, room, rest);
    p := new Planner(Three(lim, room, rest), 0, bytes, lim, room, slots);
    var go := p.Turn();
    FullBounce(lim, room, 0);
    p.Spin(n);
  }

  lemma SomeRoom(lim: Limits, room: nat)
    requires lim.Valid() && Shortest(lim) <= room
    ensures room > 0 && Shortest(lim) > 0 && 0 % lim.modulo == 0
  {
  }

  /**
     Six bytes that DMA does not reach, then ten that it does, in transfers of fours through six bytes of
     bounce buffer: ten bytes are never transferred.
   */
  method SixByteBounce(n: nat) returns (p: Planner)
    ensures fresh(p) && p.lim == Limits(true, 1, 64, 4, 1, 1) && p.room == 6
    ensures p.iov == [Beyond(0, 6), Within(PAGE_SIZE, 10)] && PagesAgree(p.iov)
    ensures p.Steady() && p.Stuck() && p.out == [] && p.total == 10
  {
    hide AlignUp, Missing, Moved, Rest, Run, DirectSize, WithinLimits, Placed, Whole, Planner.All, StraightTurn, RouteOf, Skip, Left,
      Ready, PagesAgree, Shortest;
    SixRoutes();
    p := new Planner([Beyond(0, 6), Within(PAGE_SIZE, 10)], 0, 16, Limits(true, 1, 64, 4, 1, 1), 6, 8);
    var go := p.Turn();
    p.Spin(n);
  }

  lemma SixRoutes()
    ensures var iov, lim := [Beyond(0, 6), Within(PAGE_SIZE, 10)], Limits(true, 1, 64, 4, 1, 1);
            && Left(iov, 0) == 16 && PagesAgree(iov) && Shortest(lim) == 4 && !Ready(lim, 6)
            && Skip(iov, 0, 0) == (0, 0) && RouteOf(iov[0], lim, 0, 16, true) == Bounce(6, false)
            && Skip(iov, 0, 6) == (1, 0) && RouteOf(iov[1], lim, 0, 10, true) == Straight(8)
  {
    var iov := [Beyond(0, 6), Within(PAGE_SIZE, 10)];
    assert Left(iov, 2) == 0 && Left(iov, 1) == 10 && Left(iov, 0) == 16;
  }

  // ----- limits on bounces -----

  /**
     For all limits and sizes that can misalign there is a list of buffers with which the loop makes a
     bounce, a direct transfer and a misaligned bounce.
   */
  method MisalignedBounce(lim: Limits, room: nat, bp: nat, slots: nat) returns (p: Planner, bytes: nat)
    requires lim.Valid() && Shortest(lim) <= lim.most && MisalignedAt(lim, room, bp) && slots > 2
    ensures fresh(p) && p.lim == lim && p.room == room && p.total == 0
    ensures PagesAgree(p.iov) && Left(p.iov, 0) == bytes && bytes % lim.modulo == 0
    ensures |p.out| == 3 && p.out[2].Bounced? && p.out[2].at == bp && bp % lim.algn != 0
  {
    hide AlignUp, Missing, Moved, Rest, Run, DirectSize, WithinLimits, Placed, Whole, Planner.All, RouteOf, Skip, Left, Ready,
      Three, PagesAgree, Shortest, MisalignedAt;
    var a := Shortest(lim);
    bytes := bp + a + a;
    MisalignedReady(lim, room, bp);
    ThreeAgree(lim, bp, a);
    ThreeRoutes(lim, bp, a);
    p := new Planner(Three(lim, bp, a), 0, bytes, lim, room, slots);
    var go := p.Turn();
    assert p.k == 0 && p.off == bp && p.total == a + a && |p.bounce| == bp && p.bp == 0;
    go := p.Turn();
    assert p.k == 1 && p.off == a && p.total == a && |p.bounce| == bp && p.bp == bp && |p.out| == 2 && p.slots > 0;
    go := p.Turn();
    p.Finish();
  }

  lemma MisalignedReady(lim: Limits, room: nat, bp: nat)
    requires lim.Valid() && MisalignedAt(lim, room, bp)
    ensures Ready(lim, bp) && Shortest(lim) > 0 && bp > 0 && bp + Shortest(lim) <= room && bp % lim.algn != 0
    ensures (bp + Shortest(lim) + Shortest(lim)) % lim.modulo == 0
  {
    hide AlignUp, Missing;
    MissingNone(lim, bp);
    SumMultiple(bp, Shortest(lim), lim.modulo);
    SumMultiple(bp + Shortest(lim), Shortest(lim), lim.modulo);
  }

  /**
     For all limits and sizes that can overrun, and any device, there is a list of buffers with which the
     loop makes a bounce of the whole bounce buffer, which is longer than the device takes.
   */
  method LongBounce(lim: Limits, room: nat, slots: nat) returns (p: Planner, bytes: nat)
    requires lim.Valid() && CanOverrun(lim, room) && slots > 0
    ensures fresh(p) && p.lim == lim && p.room == room
    ensures PagesAgree(p.iov) && Left(p.iov, 0) == bytes && bytes % lim.modulo == 0
    ensures |p.out| == 1 && p.out[0].Bounced? && Size(p.out[0]) == room > lim.most
  {
    hide Moved, Rest, Run, AlignUp, Missing, DirectSize, WithinLimits, Placed, Whole, Planner.All, StraightTurn, Shortest, RouteOf, Skip, Left,
      PagesAgree;
    bytes := AlignUp(room, lim.modulo);
    SomeRoom(lim, room);
    LongRoutes(lim, room, bytes, true);
    p := new Planner([Beyond(0, bytes)], 0, bytes, lim, room, slots);
    var go := p.Turn();
    if p.total > 0 {
      LongRoutes(lim, room, bytes, p.nb);
      go := p.Turn();
      assert go == Stop;
    }
    p.Finish();
  }

  lemma LongRoutes(lim: Limits, room: nat, bytes: nat, nb: bool)
    requires lim.Valid() && 0 < room <= bytes
    ensures var iov := [Beyond(0, bytes)];
            && Left(iov, 0) == bytes && PagesAgree(iov)
            && Skip(iov, 0, 0) == (0, 0) && RouteOf(iov[0], lim, 0, bytes, true) == Bounce(bytes, false)
            && (room < bytes ==> Skip(iov, 0, room) == (0, room) && RouteOf(iov[0], lim, room, bytes - room, nb) == Bounce(bytes - room, false))
  {
    hide AlignUp, DirectSize;
    assert Left([Beyond(0, bytes)], 1) == 0;
  }

  // ----- one transfer too many -----

  /** n - 1 buffers that DMA reaches, one that it does not and one that it does, of one shortest transfer each. */
  function Train(lim: Limits, n: nat): seq<Iov>
    requires lim.Valid() && n > 0
  {
    var within := Within(Behind(lim, Shortest(lim)), Shortest(lim));
    seq(n - 1, i => within) + [Beyond(0, Shortest(lim)), within]
  }

  lemma TrainIs(lim: Limits, n: nat)
    requires lim.Valid() && n > 0 && Shortest(lim) <= lim.most
    ensures var iov := Train(lim, n);
            && |iov| == n + 1 && PagesAgree(iov) && Shortest(lim) > 0
            && Left(iov, 0) % lim.modulo == 0
            && (forall i :: 0 <= i <= n ==> iov[i].len == Shortest(lim) && iov[i].dma == (i != n - 1) && iov[i].coherent && iov[i].known)
            && (forall i :: 0 <= i <= n && iov[i].dma ==> iov[i].base % lim.algn == 0)
  {
    hide AlignUp, Behind, Left;
    var a := Shortest(lim);
    var iov := Train(lim, n);
    BehindIs(lim, a);
    assert a % lim.modulo == 0 && a > 0 by { SomeRoom(lim, a); }
    ApartPages(Beyond(0, a), Within(Behind(lim, a), a));
    assert forall i :: 0 <= i <= n ==> iov[i] == (if i == n - 1 then Beyond(0, a) else Within(Behind(lim, a), a));
    hide Shortest;
    LeftMultiple(lim, iov, 0);
  }

  lemma {:induction false} LeftMultiple(lim: Limits, iov: seq<Iov>, k: nat)
    requires lim.Valid() && k <= |iov| && forall i :: 0 <= i < |iov| ==> iov[i].len % lim.modulo == 0
    ensures Left(iov, k) % lim.modulo == 0
    decreases |iov| - k
  {
    if k == |iov| {
      Small(0, lim.modulo);
    } else {
      LeftMultiple(lim, iov, k + 1);
      SumMultiple(iov[k].len, Left(iov, k + 1), lim.modulo);
    }
  }

  /** The next piece of the train is its i-th buffer. */
  ghost predicate AtBuffer(p: Planner, i: nat, slots: nat)
    reads p
  {
    && p.Steady() && i < |p.iov| && p.iov[i].len > 0 && p.total == Left(p.iov, i) > 0 && p.slots == slots > 0
    && p.NextAt() == (i, 0) && (p.k < i || p.nb) && p.bp == |p.bounce|
  }

  lemma NextOfTrain(iov: seq<Iov>, i: nat)
    requires i + 1 < |iov| && iov[i].len > 0 && iov[i + 1].len > 0
    ensures Left(iov, i) == iov[i].len + Left(iov, i + 1) && Left(iov, i + 1) > 0
    ensures Skip(iov, i, iov[i].len) == (i + 1, 0)
  {
  }

  lemma StartOfTrain(iov: seq<Iov>)
    requires iov != [] && iov[0].len > 0
    ensures Left(iov, 0) > 0 && Skip(iov, 0, 0) == (0, 0)
  {
  }

  lemma EndOfTrain(iov: seq<Iov>, i: nat)
    requires i + 1 == |iov|
    ensures Left(iov, i) == iov[i].len
  {
    assert Left(iov, i + 1) == 0;
  }

  /** A turn at a buffer that DMA reaches, with nothing in the bounce buffer. */
  method TurnWithin(p: Planner, i: nat, slots: nat)
    requires AtBuffer(p, i, slots) && i + 1 < |p.iov| && p.iov[i + 1].len > 0 && slots > 1 && p.bounce == []
    requires p.lim.Valid() && p.iov[i] == Within(p.iov[i].base, Shortest(p.lim)) && p.iov[i].base % p.lim.algn == 0
    requires Shortest(p.lim) <= p.lim.most
    modifies p
    ensures AtBuffer(p, i + 1, slots - 1) && p.bounce == [] && |p.out| == old(|p.out|) + 1
  {
    hide AlignUp, Missing, Moved, Rest, Run, DirectSize, WithinLimits, Placed, Whole, Planner.All, RouteOf, Skip, Left, Shortest;
    NextOfTrain(p.iov, i);
    WithinRoute(p.lim, p.iov[i].base, p.total);
    var go := p.Turn();
  }

  /**
     For all limits and sizes that can repeat, and any device, there is a list of buffers with which the
     loop makes one transfer more than the device takes: the last slot goes to a bounce ahead of a direct
     transfer, and the flush after the loop makes that bounce again.
   */
  method RepeatedBounce(lim: Limits, room: nat, slots: nat) returns (p: Planner, bytes: nat)
    requires lim.Valid() && CanRepeat(lim, room) && slots > 0
    ensures fresh(p) && p.lim == lim && p.room == room
    ensures PagesAgree(p.iov) && Left(p.iov, 0) == bytes && bytes % lim.modulo == 0
    ensures |p.out| == slots + 1 && p.out[slots] == p.out[slots - 1] && p.out[slots].Bounced?
  {
    hide AlignUp, Missing, Moved, Rest, Run, DirectSize, WithinLimits, Placed, Whole, Planner.All, RouteOf, Skip, Left, Shortest, Ready,
      Train, PagesAgree;
    var iov := Train(lim, slots);
    TrainIs(lim, slots);
    StartOfTrain(iov);
    bytes := Left(iov, 0);
    p := new Planner(iov, 0, bytes, lim, room, slots);
    assert AtBuffer(p, 0, slots);
    for i := 0 to slots - 1
      invariant fresh(p) && p.iov == iov && p.lim == lim && p.room == room
      invariant AtBuffer(p, i, slots - i) && p.bounce == [] && |p.out| == i
    {
      TurnWithin(p, i, slots - i);
    }
    BounceAndRepeat(p, slots);
  }

  /** The last two buffers of the train, with one slot left. */
  method BounceAndRepeat(p: Planner, n: nat)
    requires n > 0 && |p.iov| == n + 1 && AtBuffer(p, n - 1, 1) && p.bounce == [] && p.lim.Valid() && CanRepeat(p.lim, p.room)
    requires p.iov[n - 1] == Beyond(p.iov[n - 1].base, Shortest(p.lim))
    requires p.iov[n] == Within(p.iov[n].base, Shortest(p.lim)) && p.iov[n].base % p.lim.algn == 0
    modifies p
    ensures |p.out| == old(|p.out|) + 2 && p.out[|p.out| - 1] == p.out[|p.out| - 2] && p.out[|p.out| - 1].Bounced?
  {
    hide AlignUp, Missing, Moved, Rest, Run, DirectSize, WithinLimits, Placed, Whole, Planner.All, RouteOf, Skip, Left, Shortest, Ready;
    var a := Shortest(p.lim);
    NextOfTrain(p.iov, n - 1);
    EndOfTrain(p.iov, n);
    BeyondRoute(p.lim, p.iov[n - 1].base, p.total);
    SomeRoom(p.lim, p.room);
    var go := p.Turn();
    assert p.k == n - 1 && p.off == a && p.total == a && |p.bounce| == a && p.bp == 0 && p.slots == 1;
    WithinRoute(p.lim, p.iov[n].base, a);
    ShortestReady(p.lim);
    go := p.Turn();
    assert go == Last;
    var more := p.FlushBounce();
  }

  lemma BeyondRoute(lim: Limits, base: nat, total: nat)
    requires lim.Valid() && total >= Shortest(lim) > 0
    ensures RouteOf(Beyond(base, Shortest(lim)), lim, 0, total, true) == Bounce(Shortest(lim), false)
  {
    hide AlignUp, DirectSize;
  }

  lemma ShortestReady(lim: Limits)
    requires lim.Valid()
    ensures Ready(lim, Shortest(lim)) && Shortest(lim) > 0
  {
    hide AlignUp, Missing;
    MissingNone(lim, Shortest(lim));
  }
}
