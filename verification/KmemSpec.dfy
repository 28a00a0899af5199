/** Blocks and pages of the kernel memory allocator: sys/mem/kmem.cpp. */
module KmemSpec {
  import opened KernelConfig
  import opened Queues

  const ALIGN_SIZE: nat := 16
  const BLKHDR_SIZE: nat := 16
  const PGHDR_SIZE: nat := 32
  const FIRST_BLK: nat := PGHDR_SIZE - BLKHDR_SIZE
  const MIN_BLOCK_SIZE: nat := BLKHDR_SIZE + 16
  const MAX_BLOCK_SIZE: nat := PAGE_SIZE - FIRST_BLK
  const MAX_ALLOC_SIZE: nat := PAGE_SIZE - PGHDR_SIZE
  const NR_BLOCK_LIST: nat := PAGE_SIZE / ALIGN_SIZE

  /** A block header: where it is in its page, the size of the block, whether it is free. */
  datatype Blk = Blk(off: nat, size: nat, free: bool)

  /** A page header, and the blocks of the page as pg_next links them. */
  datatype Pg = Pg(typ: nat, nallocs: int, blks: seq<Blk>)

  /** The address of a block. */
  datatype Ptr = Ptr(pg: nat, off: nat)

  /** Blocks that follow each other from offset `from` to `to` without a gap. */
  ghost predicate Tiles(blks: seq<Blk>, from: nat, to: nat) {
    if blks == [] then from == to
    else
      && blks[0].off == from && blks[0].size >= BLKHDR_SIZE && blks[0].size % ALIGN_SIZE == 0
      && Tiles(blks[1..], from + blks[0].size, to)
  }

  function Allocated(blks: seq<Blk>): nat {
    if blks == [] then 0 else Allocated(blks[1..]) + if blks[0].free then 0 else 1
  }

  type Lists = seq<seq<seq<Ptr>>>

  /** A free block of size 16 * i in a page of type t. */
  predicate IsFree(pages: map<nat, Pg>, a: Ptr, t: nat, i: nat) {
    a.pg in pages && pages[a.pg].typ == t && Blk(a.off, ALIGN_SIZE * i, true) in pages[a.pg].blks
  }

  /** The lists hold exactly the free blocks, but for those in `gone`, each in the list for its size. */
  ghost predicate Listed(pages: map<nat, Pg>, lists: Lists, types: nat, gone: set<Ptr>) {
    && |lists| == types
    && (forall t :: 0 <= t < types ==> |lists[t]| == NR_BLOCK_LIST)
    && (forall t, i :: 0 <= t < types && 0 <= i < NR_BLOCK_LIST ==> Holds(pages, lists[t][i], t, i, gone))
  }

  ghost predicate Holds(pages: map<nat, Pg>, q: seq<Ptr>, t: nat, i: nat, gone: set<Ptr>) {
    Distinct(q) && forall a :: a in q <==> IsFree(pages, a, t, i) && a !in gone
  }

  ghost predicate Tiled(pages: map<nat, Pg>, types: nat) {
    forall p :: p in pages ==>
      pages[p].typ < types && Tiles(pages[p].blks, FIRST_BLK, PAGE_SIZE) && pages[p].nallocs == Allocated(pages[p].blks)
  }

  /**
     Blocks tile every page after its header, the count of a page is that of its allocated blocks
     and not 0, and the lists hold exactly the free blocks.
   */
  ghost predicate Inv(pages: map<nat, Pg>, lists: Lists, types: nat) {
    && Tiled(pages, types)
    && (forall p :: p in pages ==> pages[p].nallocs > 0)
    && Listed(pages, lists, types, {})
  }

  // ----- tiling -----

  lemma {:induction false} TilesConcat(x: seq<Blk>, y: seq<Blk>, from: nat, mid: nat, to: nat)
    requires Tiles(x, from, mid) && Tiles(y, mid, to)
    ensures Tiles(x + y, from, to)
  {
    if x == [] {
      assert x + y == y;
    } else {
      assert (x + y)[1..] == x[1..] + y;
      TilesConcat(x[1..], y, from + x[0].size, mid, to);
    }
  }

  /** A tiling around its block k. */
  lemma {:induction false} TilesSplit(blks: seq<Blk>, from: nat, to: nat, k: nat)
    requires Tiles(blks, from, to) && k < |blks|
    ensures Tiles(blks[..k], from, blks[k].off) && Tiles(blks[k + 1..], blks[k].off + blks[k].size, to)
    ensures blks[k].size >= BLKHDR_SIZE && blks[k].size % ALIGN_SIZE == 0
    ensures from <= blks[k].off && blks[k].off + blks[k].size <= to
    ensures from % ALIGN_SIZE == 0 ==> blks[k].off % ALIGN_SIZE == 0
  {
    if k > 0 {
      TilesSplit(blks[1..], from + blks[0].size, to, k - 1);
      assert blks[..k] == [blks[0]] + blks[1..][..k - 1];
    } else {
      TilesGrow(blks[1..], from + blks[0].size, to);
    }
  }

  lemma {:induction false} TilesGrow(blks: seq<Blk>, from: nat, to: nat)
    requires Tiles(blks, from, to)
    ensures from <= to
  {
    if blks != [] {
      TilesGrow(blks[1..], from + blks[0].size, to);
    }
  }

  /** Blocks do not overlap. */
  lemma TilesApart(blks: seq<Blk>, from: nat, to: nat, j: nat, k: nat)
    requires Tiles(blks, from, to) && j < k < |blks|
    ensures blks[j].off + blks[j].size <= blks[k].off
  {
    TilesSplit(blks, from, to, j);
    TilesSplit(blks[j + 1..], blks[j].off + blks[j].size, to, k - j - 1);
  }

  lemma {:induction false} AllocatedConcat(x: seq<Blk>, y: seq<Blk>)
    ensures Allocated(x + y) == Allocated(x) + Allocated(y)
  {
    if x == [] {
      assert x + y == y;
    } else {
      assert (x + y)[1..] == x[1..] + y;
      AllocatedConcat(x[1..], y);
    }
  }

  lemma AllocatedSplice(blks: seq<Blk>, k: nat, parts: seq<Blk>)
    requires k < |blks|
    ensures Allocated(blks[..k] + parts + blks[k + 1..]) ==
            Allocated(blks) - Allocated([blks[k]]) + Allocated(parts)
  {
    assert blks == blks[..k] + [blks[k]] + blks[k + 1..];
    AllocatedConcat(blks[..k] + [blks[k]], blks[k + 1..]);
    AllocatedConcat(blks[..k], [blks[k]]);
    AllocatedConcat(blks[..k] + parts, blks[k + 1..]);
    AllocatedConcat(blks[..k], parts);
  }

  lemma TilesSplice(blks: seq<Blk>, from: nat, to: nat, k: nat, parts: seq<Blk>)
    requires Tiles(blks, from, to) && k < |blks| && Tiles(parts, blks[k].off, blks[k].off + blks[k].size)
    ensures Tiles(blks[..k] + parts + blks[k + 1..], from, to)
  {
    TilesSplit(blks, from, to, k);
    TilesConcat(blks[..k], parts, from, blks[k].off, blks[k].off + blks[k].size);
    TilesConcat(blks[..k] + parts, blks[k + 1..], from, blks[k].off + blks[k].size, to);
  }

  /** Blocks of a page at different offsets are different, and the other way round. */
  lemma SameBlock(blks: seq<Blk>, from: nat, to: nat, j: nat, k: nat)
    requires Tiles(blks, from, to) && j < |blks| && k < |blks| && blks[j].off == blks[k].off
    ensures j == k
  {
    if j < k {
      TilesApart(blks, from, to, j, k);
      TilesSplit(blks, from, to, j);
    } else if k < j {
      TilesApart(blks, from, to, k, j);
      TilesSplit(blks, from, to, k);
    }
  }

  // ----- the steps of the allocator -----

  function Replaced(lists: Lists, t: nat, i: nat, q: seq<Ptr>): Lists
    requires t < |lists| && i < |lists[t]|
  {
    lists[t := lists[t][i := q]]
  }

  /** The size of a free block is that of the list it is in. */
  lemma OneList(pages: map<nat, Pg>, types: nat, a: Ptr, t: nat, i: nat, t': nat, i': nat)
    requires Tiled(pages, types) && IsFree(pages, a, t, i) && IsFree(pages, a, t', i')
    ensures t == t' && i == i'
  {
    var blks := pages[a.pg].blks;
    var j :| 0 <= j < |blks| && blks[j] == Blk(a.off, ALIGN_SIZE * i, true);
    var k :| 0 <= k < |blks| && blks[k] == Blk(a.off, ALIGN_SIZE * i', true);
    SameBlock(blks, FIRST_BLK, PAGE_SIZE, j, k);
  }

  /** A block is taken off its list. */
  lemma TakeOff(pages: map<nat, Pg>, lists: Lists, types: nat, gone: set<Ptr>, a: Ptr, t: nat, i: nat)
    requires Tiled(pages, types) && Listed(pages, lists, types, gone) && t < types && i < NR_BLOCK_LIST && a in lists[t][i]
    ensures Listed(pages, Replaced(lists, t, i, Without(lists[t][i], a)), types, gone + {a})
  {
    hide Tiled, IsFree;
    var lists' := Replaced(lists, t, i, Without(lists[t][i], a));
    assert Holds(pages, lists[t][i], t, i, gone);
    forall t', i' | 0 <= t' < types && 0 <= i' < NR_BLOCK_LIST ensures Holds(pages, lists'[t'][i'], t', i', gone + {a}) {
      assert Holds(pages, lists[t'][i'], t', i', gone);
      if t' == t && i' == i {
        WithoutDistinct(lists[t][i], a);
      } else if IsFree(pages, a, t', i') {
        OneList(pages, types, a, t, i, t', i');
      }
    }
  }

  /** A free block is put at the head of its list. */
  lemma PutOn(pages: map<nat, Pg>, lists: Lists, types: nat, gone: set<Ptr>, a: Ptr, t: nat, i: nat)
    requires Tiled(pages, types) && Listed(pages, lists, types, gone) && t < types && i < NR_BLOCK_LIST
    requires IsFree(pages, a, t, i) && a in gone
    ensures Listed(pages, Replaced(lists, t, i, [a] + lists[t][i]), types, gone - {a})
  {
    hide Tiled, IsFree;
    var lists' := Replaced(lists, t, i, [a] + lists[t][i]);
    forall t', i' | 0 <= t' < types && 0 <= i' < NR_BLOCK_LIST ensures Holds(pages, lists'[t'][i'], t', i', gone - {a}) {
      assert Holds(pages, lists[t'][i'], t', i', gone);
      if !(t' == t && i' == i) && IsFree(pages, a, t', i') {
        OneList(pages, types, a, t, i, t', i');
      }
    }
  }

  /** Page p with its block k made into parts, and its count changed. */
  function Spliced(pages: map<nat, Pg>, p: nat, k: nat, parts: seq<Blk>, n: int): map<nat, Pg>
    requires p in pages && k < |pages[p].blks|
  {
    var pg := pages[p];
    pages[p := Pg(pg.typ, n, pg.blks[..k] + parts + pg.blks[k + 1..])]
  }

  /** The free ones of the parts, as addresses. */
  ghost function FreeParts(p: nat, parts: seq<Blk>): set<Ptr> {
    set b | b in parts && b.free :: Ptr(p, b.off)
  }

  lemma SplicedTiled(pages: map<nat, Pg>, types: nat, p: nat, k: nat, parts: seq<Blk>)
    requires Tiled(pages, types) && p in pages && k < |pages[p].blks|
    requires Tiles(parts, pages[p].blks[k].off, pages[p].blks[k].off + pages[p].blks[k].size)
    ensures Tiled(Spliced(pages, p, k, parts, pages[p].nallocs - Allocated([pages[p].blks[k]]) + Allocated(parts)), types)
  {
    TilesSplice(pages[p].blks, FIRST_BLK, PAGE_SIZE, k, parts);
    AllocatedSplice(pages[p].blks, k, parts);
  }

  /** What is free after block k, which was not listed, was made into parts. */
  lemma SplicedListed(pages: map<nat, Pg>, lists: Lists, types: nat, p: nat, k: nat, parts: seq<Blk>, n: int)
    requires Tiled(pages, types) && p in pages && k < |pages[p].blks|
    requires var a := Ptr(p, pages[p].blks[k].off);
             Listed(pages, lists, types, if pages[p].blks[k].free then {a} else {})
    requires Tiles(parts, pages[p].blks[k].off, pages[p].blks[k].off + pages[p].blks[k].size)
    ensures Listed(Spliced(pages, p, k, parts, n), lists, types, FreeParts(p, parts))
  {
    var blks := pages[p].blks;
    var off := blks[k].off;
    var gone := if blks[k].free then {Ptr(p, off)} else {};
    var pages' := Spliced(pages, p, k, parts, n);
    forall t: nat, i: nat | t < types && i < NR_BLOCK_LIST ensures Holds(pages', lists[t][i], t, i, FreeParts(p, parts)) {
      assert Holds(pages, lists[t][i], t, i, gone);
      forall a: Ptr ensures (IsFree(pages', a, t, i) && a !in FreeParts(p, parts)) <==> (IsFree(pages, a, t, i) && a !in gone) {
        SplicedFree(pages, types, p, k, parts, n, a, t, i);
      }
    }
  }

  lemma SplicedFree(pages: map<nat, Pg>, types: nat, p: nat, k: nat, parts: seq<Blk>, n: int, a: Ptr, t: nat, i: nat)
    requires Tiled(pages, types) && p in pages && k < |pages[p].blks|
    requires Tiles(parts, pages[p].blks[k].off, pages[p].blks[k].off + pages[p].blks[k].size)
    ensures (IsFree(Spliced(pages, p, k, parts, n), a, t, i) && a !in FreeParts(p, parts)) <==>
              (IsFree(pages, a, t, i) && !(pages[p].blks[k].free && a == Ptr(p, pages[p].blks[k].off)))
  {
    if a.pg == p {
      var blks, b := pages[p].blks, Blk(a.off, ALIGN_SIZE * i, true);
      var blks' := blks[..k] + parts + blks[k + 1..];
      assert blks == blks[..k] + [blks[k]] + blks[k + 1..];
      assert b in blks' <==> b in blks[..k] || b in parts || b in blks[k + 1..];
      assert b in blks <==> b in blks[..k] || b == blks[k] || b in blks[k + 1..];
      OtherOffsets(blks, FIRST_BLK, PAGE_SIZE, k, parts);
      TilesSplit(blks, FIRST_BLK, PAGE_SIZE, k);
      assert b in parts ==> Ptr(p, b.off) in FreeParts(p, parts);
      assert a in FreeParts(p, parts) ==> blks[k].off <= a.off < blks[k].off + blks[k].size;
    }
  }

  /** Blocks other than block k start outside it, the parts of it inside. */
  lemma OtherOffsets(blks: seq<Blk>, from: nat, to: nat, k: nat, parts: seq<Blk>)
    requires Tiles(blks, from, to) && k < |blks| && Tiles(parts, blks[k].off, blks[k].off + blks[k].size)
    ensures forall b :: b in blks[..k] ==> b.off < blks[k].off
    ensures forall b :: b in blks[k + 1..] ==> blks[k].off + blks[k].size <= b.off
    ensures forall b :: b in parts ==> blks[k].off <= b.off < blks[k].off + blks[k].size
  {
    TilesSplit(blks, from, to, k);
    Within(blks[..k], from, blks[k].off);
    Within(blks[k + 1..], blks[k].off + blks[k].size, to);
    Within(parts, blks[k].off, blks[k].off + blks[k].size);
  }

  lemma {:induction false} Within(blks: seq<Blk>, from: nat, to: nat)
    requires Tiles(blks, from, to)
    ensures from <= to && forall b :: b in blks ==> from <= b.off < to
  {
    if blks != [] {
      Within(blks[1..], from + blks[0].size, to);
      assert blks == [blks[0]] + blks[1..];
    }
  }

  // ----- live allocations -----

  /** An allocated block, of `size` bytes with its header. */
  predicate IsLive(pages: map<nat, Pg>, a: Ptr, size: nat) {
    a.pg in pages && Blk(a.off, size, false) in pages[a.pg].blks
  }

  /** Live blocks are within their page, past its header, aligned, and no two of them overlap. */
  lemma LiveApart(pages: map<nat, Pg>, types: nat, a: Ptr, m: nat, b: Ptr, n: nat)
    requires Tiled(pages, types) && IsLive(pages, a, m) && IsLive(pages, b, n)
    ensures FIRST_BLK <= a.off && a.off + m <= PAGE_SIZE && a.off % ALIGN_SIZE == 0 && m >= BLKHDR_SIZE
    ensures a != b ==> a.pg != b.pg || a.off + m <= b.off || b.off + n <= a.off
    ensures a == b ==> m == n
  {
    var x, y := pages[a.pg].blks, pages[b.pg].blks;
    var j :| 0 <= j < |x| && x[j] == Blk(a.off, m, false);
    var k :| 0 <= k < |y| && y[k] == Blk(b.off, n, false);
    TilesSplit(x, FIRST_BLK, PAGE_SIZE, j);
    TilesSplit(y, FIRST_BLK, PAGE_SIZE, k);
    if a.pg == b.pg {
      if j < k {
        TilesApart(x, FIRST_BLK, PAGE_SIZE, j, k);
      } else if k < j {
        TilesApart(x, FIRST_BLK, PAGE_SIZE, k, j);
      }
    }
  }

  /** What is live after block k was made into parts. */
  lemma SplicedLive(pages: map<nat, Pg>, types: nat, p: nat, k: nat, parts: seq<Blk>, n: int, a: Ptr, size: nat)
    requires Tiled(pages, types) && p in pages && k < |pages[p].blks|
    ensures IsLive(Spliced(pages, p, k, parts, n), a, size) <==>
              || (IsLive(pages, a, size) && !(a.pg == p && a.off == pages[p].blks[k].off))
              || (a.pg == p && Blk(a.off, size, false) in parts)
  {
    if a.pg == p {
      var blks, b := pages[p].blks, Blk(a.off, size, false);
      var blks' := blks[..k] + parts + blks[k + 1..];
      assert blks == blks[..k] + [blks[k]] + blks[k + 1..];
      assert b in blks' <==> b in blks[..k] || b in parts || b in blks[k + 1..];
      assert b in blks <==> b in blks[..k] || b == blks[k] || b in blks[k + 1..];
      TilesSplit(blks, FIRST_BLK, PAGE_SIZE, k);
      OtherOffsets(blks, FIRST_BLK, PAGE_SIZE, k, [blks[k]]);
    }
  }

  /** The blocks made of a free block of z bytes at off when n bytes are wanted. */
  function Carved(off: nat, z: nat, n: nat): seq<Blk>
    requires n <= z
  {
    if z - n >= MIN_BLOCK_SIZE then [Blk(off, n, false), Blk(off + n, z - n, true)] else [Blk(off, z, false)]
  }

  lemma CarvedTiles(off: nat, z: nat, n: nat)
    requires BLKHDR_SIZE <= n <= z && n % ALIGN_SIZE == 0 && z % ALIGN_SIZE == 0
    ensures Tiles(Carved(off, z, n), off, off + z) && Allocated(Carved(off, z, n)) == 1
    ensures forall p :: FreeParts(p, Carved(off, z, n)) == if z - n >= MIN_BLOCK_SIZE then {Ptr(p, off + n)} else {}
  {
    var c := Carved(off, z, n);
    if z - n >= MIN_BLOCK_SIZE {
      assert c[1..] == [Blk(off + n, z - n, true)] && c[1..][1..] == [];
      assert Allocated(c[1..]) == Allocated(c[1..][1..]);
      forall p ensures FreeParts(p, c) == {Ptr(p, off + n)} {
        assert c[1] in c && c[1].free;
      }
    } else {
      assert c[1..] == [];
    }
  }

  lemma TooBig(pages: map<nat, Pg>, types: nat, a: Ptr, t: nat, i: nat)
    requires Tiled(pages, types) && i >= NR_BLOCK_LIST
    ensures !IsFree(pages, a, t, i)
  {
    if IsFree(pages, a, t, i) {
      var blks := pages[a.pg].blks;
      var k :| 0 <= k < |blks| && blks[k] == Blk(a.off, ALIGN_SIZE * i, true);
      TilesSplit(blks, FIRST_BLK, PAGE_SIZE, k);
    }
  }

  /** Where in its page the block at offset off is. */
  function Index(blks: seq<Blk>, off: nat): (k: nat)
    ensures k <= |blks| && (k < |blks| ==> blks[k].off == off)
    ensures forall j :: 0 <= j < k ==> blks[j].off != off
  {
    if blks == [] || blks[0].off == off then 0 else 1 + Index(blks[1..], off)
  }

  /** The block of page a.pg at a.off. */
  lemma BlockAt(pages: map<nat, Pg>, types: nat, a: Ptr, b: Blk)
    requires Tiled(pages, types) && a.pg in pages && b in pages[a.pg].blks && b.off == a.off
    ensures var k := Index(pages[a.pg].blks, a.off); k < |pages[a.pg].blks| && pages[a.pg].blks[k] == b
    ensures b.size >= BLKHDR_SIZE && b.size % ALIGN_SIZE == 0 && b.size < PAGE_SIZE
  {
    var blks := pages[a.pg].blks;
    var j :| 0 <= j < |blks| && blks[j] == b;
    SameBlock(blks, FIRST_BLK, PAGE_SIZE, j, Index(blks, a.off));
    TilesSplit(blks, FIRST_BLK, PAGE_SIZE, j);
  }

  /** Other pages than p have an allocated block. */
  ghost predicate UsedBut(pages: map<nat, Pg>, p: nat) {
    forall q :: q in pages && q != p ==> pages[q].nallocs > 0
  }

  /** The state after a free block that is off its list was carved. */
  lemma CarvedInv(pages: map<nat, Pg>, lists: Lists, types: nat, a: Ptr, z: nat, n: nat)
    requires Tiled(pages, types) && Listed(pages, lists, types, {a}) && UsedBut(pages, a.pg)
    requires a.pg in pages && Blk(a.off, z, true) in pages[a.pg].blks && pages[a.pg].nallocs >= 0
    requires BLKHDR_SIZE <= n <= z && n % ALIGN_SIZE == 0
    ensures var k, t := Index(pages[a.pg].blks, a.off), pages[a.pg].typ;
            k < |pages[a.pg].blks| && t < types == |lists| && |lists[t]| == NR_BLOCK_LIST && z < PAGE_SIZE &&
            var pages' := Spliced(pages, a.pg, k, Carved(a.off, z, n), pages[a.pg].nallocs + 1);
            if z - n >= MIN_BLOCK_SIZE then
              Inv(pages', Replaced(lists, t, (z - n) / ALIGN_SIZE, [Ptr(a.pg, a.off + n)] + lists[t][(z - n) / ALIGN_SIZE]), types)
            else Inv(pages', lists, types)
  {
    var k, t := Index(pages[a.pg].blks, a.off), pages[a.pg].typ;
    BlockAt(pages, types, a, Blk(a.off, z, true));
    CarvedTiles(a.off, z, n);
    var parts := Carved(a.off, z, n);
    var pages' := Spliced(pages, a.pg, k, parts, pages[a.pg].nallocs + 1);
    assert Allocated([pages[a.pg].blks[k]]) == 0;
    SplicedTiled(pages, types, a.pg, k, parts);
    SplicedListed(pages, lists, types, a.pg, k, parts, pages[a.pg].nallocs + 1);
    hide Tiled, Listed, Tiles, Allocated, FreeParts;
    if z - n >= MIN_BLOCK_SIZE {
      var b, i := Ptr(a.pg, a.off + n), (z - n) / ALIGN_SIZE;
      assert parts[1] == Blk(b.off, ALIGN_SIZE * i, true);
      assert parts[1] in pages'[a.pg].blks;
      PutOn(pages', lists, types, {b}, b, t, i);
      assert {b} - {b} == {};
    }
  }

  /** Exactly the block a, of z bytes, became live. */
  ghost predicate Gained(pages: map<nat, Pg>, pages': map<nat, Pg>, a: Ptr, z: nat) {
    && (forall n :: !IsLive(pages, a, n))
    && (forall b, n :: IsLive(pages', b, n) <==> IsLive(pages, b, n) || (b == a && n == z))
  }

  lemma CarvedLive(pages: map<nat, Pg>, types: nat, a: Ptr, z: nat, n: nat)
    requires Tiled(pages, types) && a.pg in pages && Blk(a.off, z, true) in pages[a.pg].blks && n <= z
    ensures var k := Index(pages[a.pg].blks, a.off);
            && k < |pages[a.pg].blks|
            && Gained(pages, Spliced(pages, a.pg, k, Carved(a.off, z, n), pages[a.pg].nallocs + 1), a,
                      if z - n >= MIN_BLOCK_SIZE then n else z)
  {
    var k := Index(pages[a.pg].blks, a.off);
    BlockAt(pages, types, a, Blk(a.off, z, true));
    forall m ensures !IsLive(pages, a, m) {
      if IsLive(pages, a, m) { BlockAt(pages, types, a, Blk(a.off, m, false)); }
    }
    var pages' := Spliced(pages, a.pg, k, Carved(a.off, z, n), pages[a.pg].nallocs + 1);
    var w := if z - n >= MIN_BLOCK_SIZE then n else z;
    forall b: Ptr, m: nat ensures IsLive(pages', b, m) <==> IsLive(pages, b, m) || (b == a && m == w) {
      SplicedLive(pages, types, a.pg, k, Carved(a.off, z, n), pages[a.pg].nallocs + 1, b, m);
      hide IsLive, Spliced, Tiled;
    }
  }

  /** Only page p is changed, or is new; it is of type t. */
  ghost predicate OnlyPage(was: map<nat, Pg>, pages: map<nat, Pg>, p: nat, t: nat) {
    && p in pages && pages[p].typ == t
    && (forall q :: q != p ==> (q in pages <==> q in was) && (q in was ==> pages[q] == was[q]))
  }

  /** A new page, all one free block that is on no list. */
  function NewPage(pages: map<nat, Pg>, p: nat, t: nat): map<nat, Pg> {
    pages[p := Pg(t, 0, [Blk(FIRST_BLK, MAX_BLOCK_SIZE, true)])]
  }

  lemma NewPageOk(pages: map<nat, Pg>, lists: Lists, types: nat, p: nat, t: nat)
    requires Inv(pages, lists, types) && p !in pages && t < types
    ensures var pages', a := NewPage(pages, p, t), Ptr(p, FIRST_BLK);
            Tiled(pages', types) && Listed(pages', lists, types, {a}) && UsedBut(pages', p)
    ensures forall b, n :: IsLive(NewPage(pages, p, t), b, n) <==> IsLive(pages, b, n)
  {
    var pages', a, blk := NewPage(pages, p, t), Ptr(p, FIRST_BLK), Blk(FIRST_BLK, MAX_BLOCK_SIZE, true);
    assert [blk][1..] == [] && Tiles([blk], FIRST_BLK, PAGE_SIZE);
    assert Allocated([blk]) == 0;
    assert Tiled(pages', types);
    hide Tiled, Tiles, Allocated;
    forall t', i | 0 <= t' < types && 0 <= i < NR_BLOCK_LIST ensures Holds(pages', lists[t'][i], t', i, {a}) {
      assert Holds(pages, lists[t'][i], t', i, {});
    }
  }

  lemma UsedPage(pages: map<nat, Pg>, lists: Lists, types: nat, p: nat)
    requires Inv(pages, lists, types)
    ensures UsedBut(pages, p) && Tiled(pages, types) && Listed(pages, lists, types, {}) && (p in pages ==> pages[p].nallocs > 0)
  {
  }

  // ----- freeing -----

  lemma {:induction false} AllocatedNone(blks: seq<Blk>)
    ensures Allocated(blks) == 0 <==> forall b :: b in blks ==> b.free
  {
    if blks != [] {
      AllocatedNone(blks[1..]);
      assert blks == [blks[0]] + blks[1..];
    }
  }

  /** Exactly the block a is no longer live. */
  ghost predicate Lost(pages: map<nat, Pg>, pages': map<nat, Pg>, a: Ptr) {
    forall b, n :: IsLive(pages', b, n) <==> IsLive(pages, b, n) && b != a
  }

  /** The state after a live block was freed and put on its list. */
  lemma FreedOk(pages: map<nat, Pg>, lists: Lists, types: nat, a: Ptr, z: nat)
    requires Inv(pages, lists, types) && IsLive(pages, a, z)
    ensures var k, t, i := Index(pages[a.pg].blks, a.off), pages[a.pg].typ, z / ALIGN_SIZE;
            k < |pages[a.pg].blks| && pages[a.pg].blks[k].size == z && t < types == |lists| && i < NR_BLOCK_LIST == |lists[t]| &&
            var pages' := Spliced(pages, a.pg, k, [Blk(a.off, z, true)], pages[a.pg].nallocs - 1);
            && Tiled(pages', types) && Listed(pages', Replaced(lists, t, i, [a] + lists[t][i]), types, {}) && UsedBut(pages', a.pg)
            && Lost(pages, pages', a)
  {
    var blk, k, t, i := Blk(a.off, z, true), Index(pages[a.pg].blks, a.off), pages[a.pg].typ, z / ALIGN_SIZE;
    BlockAt(pages, types, a, Blk(a.off, z, false));
    var parts, n := [blk], pages[a.pg].nallocs - 1;
    var pages' := Spliced(pages, a.pg, k, parts, n);
    assert parts[1..] == [] && Tiles(parts, a.off, a.off + z);
    assert Allocated(parts) == 0 && pages[a.pg].blks[k..k + 1] == [Blk(a.off, z, false)];
    assert Allocated([pages[a.pg].blks[k]]) == 1;
    SplicedTiled(pages, types, a.pg, k, parts);
    SplicedListed(pages, lists, types, a.pg, k, parts, n);
    assert FreeParts(a.pg, parts) == {a} by { assert parts[0] in parts; }
    assert parts[0] in pages'[a.pg].blks;
    PutOn(pages', lists, types, {a}, a, t, i);
    assert {a} - {a} == {};
    forall b: Ptr, m: nat ensures IsLive(pages', b, m) <==> IsLive(pages, b, m) && b != a {
      SplicedLive(pages, types, a.pg, k, parts, n, b, m);
    }
  }

  /** One turn of the loop that takes the blocks of an empty page off their lists. */
  lemma EmptyStep(pages: map<nat, Pg>, lists: Lists, types: nat, p: nat, j: nat)
    requires Tiled(pages, types) && p in pages && pages[p].nallocs == 0 && j < |pages[p].blks|
    requires Listed(pages, lists, types, FreeParts(p, pages[p].blks[..j]))
    ensures var blk, t := pages[p].blks[j], pages[p].typ;
            var i := blk.size / ALIGN_SIZE;
            && t < types == |lists| && i < NR_BLOCK_LIST == |lists[t]|
            && Listed(pages, Replaced(lists, t, i, Without(lists[t][i], Ptr(p, blk.off))), types, FreeParts(p, pages[p].blks[..j + 1]))
  {
    var blks, blk, t := pages[p].blks, pages[p].blks[j], pages[p].typ;
    var a, i, gone := Ptr(p, blk.off), blk.size / ALIGN_SIZE, FreeParts(p, blks[..j]);
    AllocatedNone(blks);
    assert blk in blks;
    BlockAt(pages, types, a, blk);
    assert IsFree(pages, a, t, i);
    forall m | 0 <= m < j ensures blks[m].off != blk.off {
      if blks[m].off == blk.off { SameBlock(blks, FIRST_BLK, PAGE_SIZE, m, j); }
    }
    assert a !in gone;
    hide Tiled, IsFree;
    assert Holds(pages, lists[t][i], t, i, gone);
    TakeOff(pages, lists, types, gone, a, t, i);
    assert FreeParts(p, blks[..j + 1]) == gone + {a} by {
      assert blks[..j + 1] == blks[..j] + [blk];
    }
  }

  /** The page is given back. */
  lemma PageGone(pages: map<nat, Pg>, lists: Lists, types: nat, p: nat)
    requires Tiled(pages, types) && p in pages && pages[p].nallocs == 0 && UsedBut(pages, p)
    requires Listed(pages, lists, types, FreeParts(p, pages[p].blks))
    ensures Inv(pages - {p}, lists, types)
    ensures forall b, n :: IsLive(pages - {p}, b, n) <==> IsLive(pages, b, n)
  {
    var pages', gone := pages - {p}, FreeParts(p, pages[p].blks);
    AllocatedNone(pages[p].blks);
    forall t, i | 0 <= t < types && 0 <= i < NR_BLOCK_LIST ensures Holds(pages', lists[t][i], t, i, {}) {
      assert Holds(pages, lists[t][i], t, i, gone);
      forall a: Ptr ensures IsFree(pages', a, t, i) <==> IsFree(pages, a, t, i) && a !in gone {
        var b := Blk(a.off, ALIGN_SIZE * i, true);
        assert a.pg == p && b in pages[p].blks ==> Ptr(p, b.off) in gone;
      }
    }
  }
}
