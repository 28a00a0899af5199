/** The kernel memory allocator: sys/mem/kmem.cpp. */
module Kmem {
  import opened KernelConfig
  import opened Queues
  import opened Modular
  import opened KmemSpec

  class Allocator {
    const types: nat
    var pages: map<nat, Pg>
    var lists: Lists

    ghost predicate Valid()
      reads this
    {
      Inv(pages, lists, types)
    }

    constructor (types: nat)
      ensures Valid() && pages == map[] && this.types == types
    {
      this.types := types;
      pages := map[];
      lists := seq(types, t => seq(NR_BLOCK_LIST, i => []));
    }

    /** No free block of type t has n bytes or more but less than m. */
    ghost predicate NoneFits(pages: map<nat, Pg>, t: nat, n: nat, m: nat) {
      forall a, i: nat :: n <= ALIGN_SIZE * i < m ==> !IsFree(pages, a, t, i)
    }

    /** block_find: the index of the first list, from that of size n on, that is not empty. */
    method BlockFind(n: nat, t: nat) returns (i: nat)
      requires Valid() && t < types && n % ALIGN_SIZE == 0
      ensures n / ALIGN_SIZE <= i
      ensures i < NR_BLOCK_LIST ==> lists[t][i] != []
      ensures NoneFits(pages, t, n, ALIGN_SIZE * i)
      ensures i >= NR_BLOCK_LIST ==> NoneFits(pages, t, n, PAGE_SIZE)
    {
      i := n / ALIGN_SIZE;
      while i < NR_BLOCK_LIST && lists[t][i] == []
        invariant n / ALIGN_SIZE <= i
        invariant forall j :: n / ALIGN_SIZE <= j < i && j < NR_BLOCK_LIST ==> lists[t][j] == []
      {
        i := i + 1;
      }
      forall a, j: nat | n <= ALIGN_SIZE * j && j < i ensures !IsFree(pages, a, t, j) {
        if j < NR_BLOCK_LIST {
          assert Holds(pages, lists[t][j], t, j, {});
        } else {
          TooBig(pages, types, a, t, j);
        }
      }
    }

    /** The end of kmem_alloc_internal: the free block a, of z bytes and on no list, is split if it is large enough. */
    method Carve(a: Ptr, z: nat, n: nat)
      requires Tiled(pages, types) && Listed(pages, lists, types, {a}) && UsedBut(pages, a.pg)
      requires a.pg in pages && Blk(a.off, z, true) in pages[a.pg].blks && pages[a.pg].nallocs >= 0
      requires BLKHDR_SIZE <= n <= z && n % ALIGN_SIZE == 0
      modifies this
      ensures Valid() && Gained(old(pages), pages, a, if z - n >= MIN_BLOCK_SIZE then n else z)
      ensures OnlyPage(old(pages), pages, a.pg, old(pages)[a.pg].typ)
    {
      hide Inv, Tiled, Listed, UsedBut, Gained;
      CarvedInv(pages, lists, types, a, z, n);
      CarvedLive(pages, types, a, z, n);
      var pg := pages[a.pg];
      var k := Index(pg.blks, a.off);
      pages := Spliced(pages, a.pg, k, Carved(a.off, z, n), pg.nallocs + 1);
      if z - n >= MIN_BLOCK_SIZE {
        var i := (z - n) / ALIGN_SIZE;
        lists := Replaced(lists, pg.typ, i, [Ptr(a.pg, a.off + n)] + lists[pg.typ][i]);
      }
    }

    /**
     kmem_alloc_internal: a block a, of z bytes, for `size` bytes of memory of type t; the memory
     starts after its header. `page` is what page_alloc gives if a page is needed. A block is taken
     from the list of smallest blocks that will do, i, if there is one.
     */
    method Alloc(size: nat, t: nat, page: Option<nat>) returns (a: Option<Ptr>, ghost z: nat, ghost i: nat)
      requires Valid() && t < types && AlignUp(size + BLKHDR_SIZE, ALIGN_SIZE) <= MAX_ALLOC_SIZE
      requires page.Some? ==> page.value !in pages
      modifies this
      ensures Valid()
      ensures a.None? <==> page.None? && NoneFits(old(pages), t, size + BLKHDR_SIZE, PAGE_SIZE)
      ensures a.None? ==> pages == old(pages) && lists == old(lists)
      ensures a.Some? ==> Gained(old(pages), pages, a.value, z)
      ensures a.Some? ==> OnlyPage(old(pages), pages, a.value.pg, t) && (a.value.pg in old(pages) || page == Some(a.value.pg))
      ensures a.Some? ==> size + BLKHDR_SIZE <= z < AlignUp(size + BLKHDR_SIZE, ALIGN_SIZE) + MIN_BLOCK_SIZE
      ensures a.Some? && !NoneFits(old(pages), t, size + BLKHDR_SIZE, PAGE_SIZE) ==>
                IsFree(old(pages), a.value, t, i) && NoneFits(old(pages), t, size + BLKHDR_SIZE, ALIGN_SIZE * i)
    {
      var n := AlignUp(size + BLKHDR_SIZE, ALIGN_SIZE);
      assert forall j: nat :: size + BLKHDR_SIZE <= ALIGN_SIZE * j <==> n <= ALIGN_SIZE * j;
      z, i := 0, 0;
      hide AlignUp, IsFree;
      var c := BlockFind(n, t);
      if c < NR_BLOCK_LIST {
        // block found
        i := c;
        a, z := TakeListed(n, t, c);
      } else if page.Some? {
        // no block found, use the new page
        a := Some(Ptr(page.value, FIRST_BLK));
        z := if MAX_BLOCK_SIZE - n >= MIN_BLOCK_SIZE then n else MAX_BLOCK_SIZE;
        TakePage(n, t, page.value);
      } else {
        a := None;
      }
    }

    method TakeListed(n: nat, t: nat, i: nat) returns (a: Option<Ptr>, ghost z: nat)
      requires Valid() && t < types && i < NR_BLOCK_LIST && lists[t][i] != []
      requires BLKHDR_SIZE <= n <= ALIGN_SIZE * i && n % ALIGN_SIZE == 0
      modifies this
      ensures Valid() && a.Some? && IsFree(old(pages), a.value, t, i)
      ensures Gained(old(pages), pages, a.value, z) && n <= z < n + MIN_BLOCK_SIZE
      ensures OnlyPage(old(pages), pages, a.value.pg, t)
    {
      hide Tiled, Gained;
      var b := lists[t][i][0];
      assert Holds(pages, lists[t][i], t, i, {});
      assert {} + {b} == {b};
      TakeOff(pages, lists, types, {}, b, t, i);
      UsedPage(pages, lists, types, b.pg);
      z := if ALIGN_SIZE * i - n >= MIN_BLOCK_SIZE then n else ALIGN_SIZE * i;
      lists := Replaced(lists, t, i, Without(lists[t][i], b));
      Carve(b, ALIGN_SIZE * i, n);
      a := Some(b);
    }

    method TakePage(n: nat, t: nat, p: nat)
      requires Valid() && t < types && p !in pages
      requires BLKHDR_SIZE <= n <= MAX_BLOCK_SIZE && n % ALIGN_SIZE == 0
      modifies this
      ensures Valid()
      ensures Gained(old(pages), pages, Ptr(p, FIRST_BLK), if MAX_BLOCK_SIZE - n >= MIN_BLOCK_SIZE then n else MAX_BLOCK_SIZE)
      ensures OnlyPage(old(pages), pages, p, t)
    {
      hide Inv, Tiled, Listed, IsLive;
      NewPageOk(pages, lists, types, p, t);
      pages := NewPage(pages, p, t);
      Carve(Ptr(p, FIRST_BLK), MAX_BLOCK_SIZE, n);
    }

    /** kmem_free: the block goes on the list for its size, and its page back if that was the last one. */
    method Free(a: Ptr, ghost z: nat)
      requires Valid() && IsLive(pages, a, z)
      modifies this
      ensures Valid() && Lost(old(pages), pages, a)
      ensures a.pg in pages <==> exists b, n :: IsLive(old(pages), b, n) && b.pg == a.pg && b != a
      ensures forall p :: p != a.pg ==> (p in pages <==> p in old(pages)) && (p in pages ==> pages[p] == old(pages)[p])
    {
      hide Inv, Tiled, Listed, UsedBut, Lost;
      FreedOk(pages, lists, types, a, z);
      var pg := pages[a.pg];
      var k := Index(pg.blks, a.off);
      var size := pg.blks[k].size;
      var i := size / ALIGN_SIZE;
      pages := Spliced(pages, a.pg, k, [Blk(a.off, size, true)], pg.nallocs - 1);
      lists := Replaced(lists, pg.typ, i, [a] + lists[pg.typ][i]);
      LastOne(old(pages), pages, types, a);
      if pages[a.pg].nallocs <= 0 {
        ghost var mid := pages;
        Release(a.pg);
        LostSame(old(pages), mid, pages, a);
      } else {
        StillUsed(pages, lists, types, a.pg);
      }
    }

    lemma LastOne(was: map<nat, Pg>, pages: map<nat, Pg>, types: nat, a: Ptr)
      requires Tiled(pages, types) && Lost(was, pages, a) && a.pg in pages
      ensures pages[a.pg].nallocs >= 0
      ensures pages[a.pg].nallocs > 0 <==> exists b, n :: IsLive(was, b, n) && b.pg == a.pg && b != a
    {
      var blks := pages[a.pg].blks;
      AllocatedNone(blks);
      if exists c :: c in blks && !c.free {
        var c :| c in blks && !c.free;
        assert IsLive(pages, Ptr(a.pg, c.off), c.size);
      }
      if exists b, n :: IsLive(was, b, n) && b.pg == a.pg && b != a {
        var b, n :| IsLive(was, b, n) && b.pg == a.pg && b != a;
        assert IsLive(pages, b, n);
      }
    }

    lemma LostSame(was: map<nat, Pg>, mid: map<nat, Pg>, pages: map<nat, Pg>, a: Ptr)
      requires Lost(was, mid, a) && forall b, n :: IsLive(pages, b, n) <==> IsLive(mid, b, n)
      ensures Lost(was, pages, a)
    {
    }

    lemma StillUsed(pages: map<nat, Pg>, lists: Lists, types: nat, p: nat)
      requires Tiled(pages, types) && Listed(pages, lists, types, {}) && UsedBut(pages, p) && (p in pages ==> pages[p].nallocs > 0)
      ensures Inv(pages, lists, types)
    {
    }

    /** The loop over pg_next of an empty page, which is then given back. */
    method Release(p: nat)
      requires Tiled(pages, types) && Listed(pages, lists, types, {}) && UsedBut(pages, p) && p in pages && pages[p].nallocs == 0
      modifies this
      ensures Valid() && pages == old(pages) - {p}
      ensures forall b, n :: IsLive(pages, b, n) <==> IsLive(old(pages), b, n)
    {
      hide Tiled, Listed, UsedBut, Inv, FreeParts, IsLive;
      var pg := pages[p];
      NoParts(p);
      assert pg.blks[..0] == [];
      for j := 0 to |pg.blks|
        invariant pages == old(pages)
        invariant Listed(pages, lists, types, FreeParts(p, pg.blks[..j]))
      {
        EmptyStep(pages, lists, types, p, j);
        var i := pg.blks[j].size / ALIGN_SIZE;
        lists := Replaced(lists, pg.typ, i, Without(lists[pg.typ][i], Ptr(p, pg.blks[j].off)));
      }
      assert pg.blks[..|pg.blks|] == pg.blks;
      PageGone(pages, lists, types, p);
      pages := pages - {p};
    }

    lemma NoParts(p: nat)
      ensures FreeParts(p, []) == {}
    {
    }
  }
}
