/** What the buddy allocator's invariant means, and the canonical form of its free lists. */
module BuddyTheorems {
  import opened KernelConfig
  import opened Powers
  import opened Queues
  import opened BuddyTree
  import opened BuddyLists
  import opened BuddyBits
  import opened Regions
  import opened Pages

  /** The three representations of a valid region agree, stated without the tree of blocks. */
  lemma Agreement(r: Region)
    requires r.Valid()
    // every listed block is aligned, in the region and wholly free
    ensures forall m, i :: 0 <= m <= r.top && 0 <= i < |r.blocks[m]| ==>
              Aligned(r.blocks[m][i], m) && AllFree(r.pages[..], r.blocks[m][i], r.blocks[m][i] + Pow2(m))
    // every free page is in a listed block
    ensures forall p :: 0 <= p < r.pages.Length && r.pages[p].state == Free ==> InListedBlock(r.blocks, p)
    // the free byte count is that of the free pages
    ensures r.free == PAGE_SIZE * |FreePages(r.pages[..])|
  {
    var f := FreePages(r.pages[..]);
    forall m, i | 0 <= m <= r.top && 0 <= i < |r.blocks[m]|
      ensures Aligned(r.blocks[m][i], m) && AllFree(r.pages[..], r.blocks[m][i], r.blocks[m][i] + Pow2(m))
    {
      assert r.blocks[m][i] in r.blocks[m];
      assert (m, r.blocks[m][i]) in Canonical(r.top, f);
      ListedInside(r.pages[..], r.blocks[m][i], m);
    }
    forall p | 0 <= p < r.pages.Length && r.pages[p].state == Free ensures InListedBlock(r.blocks, p) {
      CoverExactly(r.top, f, p);
      var e :| e in Canonical(r.top, f) && p in Block(e.0, IndexOf(e.1, e.0));
      assert e.1 in r.blocks[e.0];
      assert InBlockOf(r.blocks, p, e.0, e.1);
    }
  }

  ghost predicate InBlockOf(blocks: seq<seq<nat>>, p: nat, m: nat, first: nat) {
    m < |blocks| && first in blocks[m] && first <= p < first + Pow2(m)
  }

  ghost predicate InListedBlock(blocks: seq<seq<nat>>, p: nat) {
    exists m, first :: InBlockOf(blocks, p, m, first)
  }

  /** No page is in two listed blocks, so in particular no page starts two of them. */
  lemma Disjoint(r: Region, p: nat, m: nat, a: nat, n: nat, b: nat)
    requires r.Valid() && InBlockOf(r.blocks, p, m, a) && InBlockOf(r.blocks, p, n, b)
    ensures m == n && a == b
  {
    var f := FreePages(r.pages[..]);
    assert (m, a) in Canonical(r.top, f) && (n, b) in Canonical(r.top, f);
    assert p in Block(m, IndexOf(a, m)) && p in Block(n, IndexOf(b, n));
    if (m, a) != (n, b) { ListedDisjoint(r.top, f, (m, a), (n, b)); }
  }

  /** A bitmap bit is set exactly when one of its two buddies is listed; never are both. */
  lemma BitmapAgrees(r: Region, o: nat, k: nat)
    requires r.Valid() && IsPair(r.top, o, k)
    ensures PairIdx(r.top, o, k) < r.bitmap.Length && o < |r.blocks|
    ensures r.bitmap[PairIdx(r.top, o, k)] <==>
              (First(o, 2 * k) in r.blocks[o] || First(o, 2 * k + 1) in r.blocks[o])
    ensures !(First(o, 2 * k) in r.blocks[o] && First(o, 2 * k + 1) in r.blocks[o])
  {
    var f := FreePages(r.pages[..]);
    BuddiesListed(r.top, f, o, k);
    assert r.bitmap[PairIdx(r.top, o, k)] == PairBit(f, o, k);
  }

  // ----- canonical form -----

  lemma {:induction false} SameElements(s: seq<nat>, t: seq<nat>)
    requires Distinct(s) && Distinct(t) && forall p :: p in s <==> p in t
    ensures multiset(s) == multiset(t)
    decreases |s|
  {
    forall p ensures multiset(s)[p] == multiset(t)[p] {
      CountDistinct(s, p);
      CountDistinct(t, p);
    }
  }

  lemma {:induction false} CountDistinct(s: seq<nat>, p: nat)
    requires Distinct(s)
    ensures multiset(s)[p] == if p in s then 1 else 0
  {
    if s != [] {
      assert s == [s[0]] + s[1..];
      assert s[0] !in s[1..];
      CountDistinct(s[1..], p);
    }
  }

  /** The blocks on each list are a function of the set of free pages alone. */
  lemma CanonicalForm(a: seq<seq<nat>>, b: seq<seq<nat>>, top: nat, free: set<nat>, m: nat)
    requires Holds(a, top, Canonical(top, free)) && Holds(b, top, Canonical(top, free)) && m <= top
    ensures multiset(a[m]) == multiset(b[m])
  {
    forall p: nat ensures p in a[m] <==> p in b[m] {
      assert p in a[m] <==> (m, p) in Canonical(top, free);
    }
    SameElements(a[m], b[m]);
  }

  // ----- freeing in pieces -----

  /** The page table after freeing a number of ranges, counted from page `at` on, one after another. */
  function FreeAll(table: seq<Page>, at: nat, pieces: seq<(nat, nat)>): (r: seq<Page>)
    ensures |r| == |table|
    decreases |pieces|
  {
    if pieces == [] then table
    else
      var k := |pieces| - 1;
      SetRange(FreeAll(table, at, pieces[..k]), at + pieces[k].0, at + pieces[k].1, Page(Free, NO_OWNER))
  }

  ghost predicate Covered(pieces: seq<(nat, nat)>, p: int) {
    exists i :: 0 <= i < |pieces| && pieces[i].0 <= p < pieces[i].1
  }

  lemma {:induction false} FreeAllAt(table: seq<Page>, at: nat, pieces: seq<(nat, nat)>, p: nat)
    requires p < |table|
    ensures FreeAll(table, at, pieces)[p] == if Covered(pieces, p - at) then Page(Free, NO_OWNER) else table[p]
    decreases |pieces|
  {
    if pieces != [] {
      var k := |pieces| - 1;
      var rest := pieces[..k];
      FreeAllAt(table, at, rest, p);
      if Covered(rest, p - at) {
        var i :| 0 <= i < |rest| && rest[i].0 <= p - at < rest[i].1;
        assert pieces[i] == rest[i];
      }
      if Covered(pieces, p - at) && !(pieces[k].0 <= p - at < pieces[k].1) {
        var i :| 0 <= i < |pieces| && pieces[i].0 <= p - at < pieces[i].1;
        assert rest[i] == pieces[i];
      }
    }
  }

  /** Pieces without overlap, in any order, that make up n pages. */
  ghost predicate CutsUp(pieces: seq<(nat, nat)>, n: nat) {
    && (forall i :: 0 <= i < |pieces| ==> pieces[i].0 < pieces[i].1 <= n)
    && (forall i, j :: 0 <= i < j < |pieces| ==> pieces[i].1 <= pieces[j].0 || pieces[j].1 <= pieces[i].0)
    && (forall p: nat :: p < n ==> Covered(pieces, p))
  }

  /** Freeing what was allocated, in pieces that make it up, restores the page table. */
  lemma FreeAllRestores(table: seq<Page>, at: nat, n: nat, v: Page, pieces: seq<(nat, nat)>)
    requires AllFree(table, at, at + n) && FreeUnowned(table) && CutsUp(pieces, n)
    ensures FreeAll(SetRange(table, at, at + n, v), at, pieces) == table
  {
    var after := FreeAll(SetRange(table, at, at + n, v), at, pieces);
    forall p | 0 <= p < |table| ensures after[p] == table[p] {
      FreeAllAt(SetRange(table, at, at + n, v), at, pieces, p);
      if at <= p < at + n {
        assert Covered(pieces, p - at);
      }
    }
  }

  /** Before its turn, every page of a piece belongs to the caller. */
  lemma PieceHeld(table: seq<Page>, at: nat, n: nat, v: Page, pieces: seq<(nat, nat)>, k: nat)
    requires at + n <= |table| && CutsUp(pieces, n) && k < |pieces| && (v.state == Fixed || v.state == Mapped)
    ensures pieces[k].0 < pieces[k].1 <= n
    ensures FreeVerdict(FreeAll(SetRange(table, at, at + n, v), at, pieces[..k]), at + pieces[k].0, at + pieces[k].1, v.owner) == Freed
  {
    var now := FreeAll(SetRange(table, at, at + n, v), at, pieces[..k]);
    forall p | at + pieces[k].0 <= p < at + pieces[k].1 ensures Releasable(now[p], v.owner) {
      FreeAllAt(SetRange(table, at, at + n, v), at, pieces[..k], p);
    }
  }

  lemma FreeNext(table: seq<Page>, at: nat, pieces: seq<(nat, nat)>, k: nat)
    requires k < |pieces|
    ensures FreeAll(table, at, pieces[..k + 1])
         == SetRange(FreeAll(table, at, pieces[..k]), at + pieces[k].0, at + pieces[k].1, Page(Free, NO_OWNER))
  {
    assert pieces[..k + 1][..k] == pieces[..k];
  }

  /** The free blocks listed, and the free count, of every region. */
  ghost function Books(mem: PageAllocator): (b: seq<(seq<seq<nat>>, int)>)
    reads mem.regions
    ensures |b| == |mem.regions|
    ensures forall i :: 0 <= i < |b| ==> b[i] == (mem.regions[i].blocks, mem.regions[i].free)
  {
    seq(|mem.regions|, i requires 0 <= i < |mem.regions| reads mem.regions => (mem.regions[i].blocks, mem.regions[i].free))
  }

  /** A region's books are those of its page table. */
  ghost predicate BookOf(book: (seq<seq<nat>>, int), top: nat, table: seq<Page>) {
    Holds(book.0, top, Canonical(top, FreePages(table))) && book.1 == PAGE_SIZE * |FreePages(table)|
  }

  ghost predicate Balanced(mem: PageAllocator, books: seq<(seq<seq<nat>>, int)>, tables: seq<seq<Page>>) {
    |books| == |tables| == |mem.regions| &&
    forall i :: 0 <= i < |tables| ==> BookOf(books[i], mem.regions[i].top, tables[i]) && FreeUnowned(tables[i])
  }

  lemma BooksBalance(mem: PageAllocator)
    requires mem.Valid()
    ensures Balanced(mem, Books(mem), mem.Tables())
  {
    var books, tables := Books(mem), mem.Tables();
    forall i | 0 <= i < |tables| ensures BookOf(books[i], mem.regions[i].top, tables[i]) && FreeUnowned(tables[i]) {
      assert mem.regions[i].Valid();
    }
  }

  lemma BalancedUnowned(mem: PageAllocator, books: seq<(seq<seq<nat>>, int)>, tables: seq<seq<Page>>, i: nat)
    requires Balanced(mem, books, tables) && i < |tables|
    ensures FreeUnowned(tables[i])
  {
  }

  ghost predicate SameBook(a: (seq<seq<nat>>, int), b: (seq<seq<nat>>, int)) {
    a.1 == b.1 && |a.0| == |b.0| && forall m :: 0 <= m < |a.0| ==> multiset(a.0[m]) == multiset(b.0[m])
  }

  lemma BooksDetermined(a: (seq<seq<nat>>, int), b: (seq<seq<nat>>, int), top: nat, table: seq<Page>)
    requires BookOf(a, top, table) && BookOf(b, top, table)
    ensures SameBook(a, b)
  {
    forall m | 0 <= m < |a.0| ensures multiset(a.0[m]) == multiset(b.0[m]) {
      CanonicalForm(a.0, b.0, top, FreePages(table), m);
    }
  }

  ghost predicate SameBooks(a: seq<(seq<seq<nat>>, int)>, b: seq<(seq<seq<nat>>, int)>) {
    |a| == |b| && forall i :: 0 <= i < |a| ==> SameBook(a[i], b[i])
  }

  lemma AllBooksDetermined(mem: PageAllocator, a: seq<(seq<seq<nat>>, int)>, b: seq<(seq<seq<nat>>, int)>, tables: seq<seq<Page>>)
    requires Balanced(mem, a, tables) && Balanced(mem, b, tables)
    ensures SameBooks(a, b)
  {
    forall i | 0 <= i < |a| ensures SameBook(a[i], b[i]) {
      BooksDetermined(a[i], b[i], mem.regions[i].top, tables[i]);
    }
  }

  /**
   page_alloc and then page_free, in one piece or several in any order: every page_free succeeds,
   and page tables, free counts and the blocks on every list are what they were.
   */
  method AllocThenFree(mem: PageAllocator, len: nat, flags: bv32, owner: Owner, pieces: seq<(nat, nat)>)
    returns (ptr: PagePtr, verdicts: seq<FreeResult>)
    requires mem.Valid() && CutsUp(pieces, PageCount(len))
    modifies mem.Repr()
    ensures mem.Valid() && mem.Tables() == old(mem.Tables()) && SameBooks(Books(mem), old(Books(mem)))
    ensures ptr == Null <==> len == 0 || old(mem.NoRoom(len, flags))
    ensures ptr != Null ==> |verdicts| == |pieces|
    ensures forall k :: 0 <= k < |verdicts| ==> verdicts[k] == Freed
  {
    hide CutsUp, SetRange, PageAllocator.Valid, PageAllocator.Tables, PageAllocator.NoRoom, AllFree,
      FreeUnowned, PageCount, Kind, BookOf, SameBooks, Books, Balanced, PageAllocator.TakenTables, PageAllocator.Repr;
    ghost var was, books := mem.Tables(), Books(mem);
    BooksBalance(mem);
    verdicts := [];
    var i, page;
    ptr, i, page := mem.PageAlloc(len, flags, owner);
    if i != -1 {
      BalancedUnowned(mem, books, was, i);
      verdicts := FreePieces(mem, i, page, PageCount(len), Page(Kind(flags), owner), pieces, was);
    }
    BooksBalance(mem);
    AllBooksDetermined(mem, Books(mem), books, was);
  }

  /** page_free of n pages of region i, taken from the page tables `was`, piece by piece. */
  method FreePieces(mem: PageAllocator, i: nat, page: nat, n: nat, v: Page, pieces: seq<(nat, nat)>, ghost was: seq<seq<Page>>)
    returns (verdicts: seq<FreeResult>)
    requires mem.Valid() && CutsUp(pieces, n) && i < |was| == |mem.regions|
    requires AllFree(was[i], page, page + n) && FreeUnowned(was[i]) && (v.state == Fixed || v.state == Mapped)
    requires mem.Tables() == mem.TakenTables(was, i, page, page + n, v)
    modifies mem.Repr()
    ensures mem.Valid() && mem.Tables() == was
    ensures |verdicts| == |pieces| && forall k :: 0 <= k < |verdicts| ==> verdicts[k] == Freed
  {
    hide CutsUp, FreeAll, SetRange, PageAllocator.Valid, PageAllocator.Tables, FreeUnowned, FreeVerdict, PageAllocator.Repr;
    ghost var held := SetRange(was[i], page, page + n, v);
    verdicts := [];
    FreeNone(held, page);
    while |verdicts| < |pieces|
      invariant mem.Valid() && |verdicts| <= |pieces|
      invariant mem.Tables() == was[i := FreeAll(held, page, pieces[..|verdicts|])]
      invariant forall k :: 0 <= k < |verdicts| ==> verdicts[k] == Freed
    {
      var k := |verdicts|;
      PieceHeld(was[i], page, n, v, pieces, k);
      var r := mem.FreeOwned(i, page + pieces[k].0, page + pieces[k].1, v.owner);
      FreeNext(held, page, pieces, k);
      verdicts := verdicts + [r];
    }
    FreeAllRestores(was[i], page, n, v, pieces);
    assert pieces[..|pieces|] == pieces;
  }

  lemma FreeNone(table: seq<Page>, at: nat)
    ensures FreeAll(table, at, []) == table
  {
  }

  /** Two regions of the same size whose page tables are equal have the same blocks on every list. */
  lemma TablesDetermineLists(r: Region, r': Region, m: nat)
    requires r.Valid() && r'.Valid() && r.top == r'.top && m <= r.top
    requires r.pages[..] == r'.pages[..]
    ensures m < |r.blocks| && m < |r'.blocks| && multiset(r.blocks[m]) == multiset(r'.blocks[m])
  {
    CanonicalForm(r.blocks, r'.blocks, r.top, FreePages(r.pages[..]), m);
  }

  // ----- whole runs -----

  datatype Request =
    | Alloc(order: nat, st: PgState, owner: Owner)
    | Reserve(lo: nat, hi: nat, st: PgState, realloc: bool, owner: Owner)
    | Release(lo: nat, hi: nat, owner: Owner)

  predicate WellFormed(q: Request, n: nat) {
    match q
    case Alloc(_, st, _) => st == Fixed || st == Mapped
    case Reserve(lo, hi, st, _, _) => lo <= hi <= n && (st == Hole || st == System || st == Fixed)
    case Release(lo, hi, _) => lo <= hi <= n
  }

  /**
   Any run of requests on a region, whether they succeed or not, keeps its representations in
   agreement. A run that ends with the page table it began with ends with the same blocks listed.
   */
  method Run(r: Region, requests: seq<Request>)
    requires r.Valid() && forall i :: 0 <= i < |requests| ==> WellFormed(requests[i], r.pages.Length)
    modifies r`blocks, r`free, r`usable, r.pages, r.bitmap
    ensures r.Valid()
    ensures r.pages[..] == old(r.pages[..]) ==>
              r.free == old(r.free) && |r.blocks| == |old(r.blocks)| &&
              forall m :: 0 <= m < |r.blocks| ==> multiset(r.blocks[m]) == multiset(old(r.blocks)[m])
  {
    ghost var was := r.blocks;
    ghost var f := FreePages(r.pages[..]);
    assert Holds(was, r.top, Canonical(r.top, f));
    var i := 0;
    while i < |requests|
      invariant 0 <= i <= |requests| && r.Valid()
    {
      hide Region.Valid;
      match requests[i] {
        case Alloc(o, st, owner) =>
          var p := r.FindBlock(o);
          if p != -1 {
            RoomOrder(r, o);
            r.DoAlloc(p, o, st, owner);
          }
        case Reserve(lo, hi, st, realloc, owner) =>
          var ok := r.PageReserve(lo, hi, st, realloc, owner);
        case Release(lo, hi, owner) =>
          var v := r.PageFree(lo, hi, owner);
      }
      i := i + 1;
    }
    if r.pages[..] == old(r.pages[..]) {
      forall m | 0 <= m < |r.blocks| ensures multiset(r.blocks[m]) == multiset(was[m]) {
        CanonicalForm(r.blocks, was, r.top, f, m);
      }
    }
  }

  lemma RoomOrder(r: Region, o: nat)
    requires RoomFor(r.top, FreePages(r.pages[..]), o)
    ensures o <= r.top
  {
  }
}
