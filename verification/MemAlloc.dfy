/**
 `mem_alloc`, `mem_free` and `mem_realloc` (src/alloc.c:329-443): small requests go to one of 34 slab
 caches, large ones to the page allocator, and the use recorded for a page tells them apart.
 */
module MemAlloc {
  import opened Arithmetic
  import opened Collections
  import opened BuddyBlocks
  import opened SlabLayout
  import opened Slab
  import Buddy

  /** `mem_pool_size` (src/alloc.c:331-337). */
  const SIZES: seq<nat> := [
    64, 128, 192, 256, 320, 384, 448, 512, 576, 640, 704, 768, 832, 896, 960, 1024, 1152, 1280, 1408, 1536, 1664,
    1792, 1920, 2048, 2304, 2560, 2816, 3072, 3584, 4096, 5120, 6144, 7168, 8192]

  /** Who issued a piece of memory: object `obj` of the pool at `page` of a cache, or a block of pages. */
  datatype Source = FromCache(cache: nat, page: nat, obj: nat) | FromPages(page: nat, order: nat)

  /** What a cache has on its books. */
  datatype Book = Book(l: Layout, pools: map<nat, Pool>)

  ghost predicate BooksOk(books: seq<Book>) {
    forall c :: 0 <= c < |books| ==> PoolsOk(books[c].l, books[c].pools)
  }

  /** A pool lies in a held block, and all its pages are marked with its cache. */
  ghost predicate PoolMarked(books: seq<Book>, held: set<Block>, use: map<nat, PageUse>, c: nat, p: nat)
    requires c < |books|
  {
    && Block(p, books[c].l.poolOrder) in held
    && forall q :: Block(p, books[c].l.poolOrder).Has(q) ==> q >= 0 && UseOf(use, q) == OfCache(c)
  }

  ghost predicate LargeMarked(held: set<Block>, use: map<nat, PageUse>, p: nat, k: nat) {
    Block(p, k) in held && UseOf(use, p) == OfOrder(k)
  }

  ghost predicate HeapOk(books: seq<Book>, held: set<Block>, use: map<nat, PageUse>, large: map<nat, nat>) {
    && BooksOk(books) && Separate(held)
    && (forall c: nat, p :: c < |books| && p in books[c].pools ==> PoolMarked(books, held, use, c, p))
    && (forall p :: p in large ==> LargeMarked(held, use, p, large[p]))
  }

  ghost predicate Live(books: seq<Book>, large: map<nat, nat>, s: Source)
    requires BooksOk(books)
  {
    match s
    case FromCache(c, p, i) => c < |books| && InUse(books[c].l, books[c].pools, p, i)
    case FromPages(p, k) => p in large && large[p] == k
  }

  function AddressOf(books: seq<Book>, s: Source): nat
    requires s.FromCache? ==> s.cache < |books|
  {
    match s
    case FromCache(c, p, i) => Addr(books[c].l, p, i)
    case FromPages(p, k) => PageVa(p)
  }

  /** How many bytes the piece has. */
  function Capacity(books: seq<Book>, s: Source): nat
    requires s.FromCache? ==> s.cache < |books|
  {
    match s
    case FromCache(c, _, _) => books[c].l.objSize
    case FromPages(_, k) => PoolSize(k)
  }

  function BlockOf(books: seq<Book>, s: Source): Block
    requires s.FromCache? ==> s.cache < |books|
  {
    match s
    case FromCache(c, p, _) => Block(p, books[c].l.poolOrder)
    case FromPages(p, k) => Block(p, k)
  }

  // ---- pieces and blocks ---------------------------------------------------------------------

  /** A piece lies within its block, in front of the metadata. */
  lemma InItsBlock(books: seq<Book>, large: map<nat, nat>, s: Source)
    requires BooksOk(books) && Live(books, large, s)
    ensures
      var b := BlockOf(books, s);
      PageVa(b.idx) <= AddressOf(books, s) &&
        AddressOf(books, s) + Capacity(books, s) <= PageVa(b.idx) + PoolSize(b.order)
  {
    if s.FromCache? {
      var l := books[s.cache].l;
      assert PoolsOk(l, books[s.cache].pools);
      assert LayoutOk(l) && s.obj < l.objCount;
      hide *;
      ObjectInBlock(l, s.page, s.obj);
    }
  }

  lemma ObjectInBlock(l: Layout, p: nat, i: nat)
    requires LayoutOk(l) && i < l.objCount
    ensures PageVa(p) <= Addr(l, p, i) && Addr(l, p, i) + l.objSize <= PageVa(p) + PoolSize(l.poolOrder)
  {
    hide LayoutOk, PageVa, PoolSize;
    ObjectInside(l, i);
  }

  lemma SourceMarked(books: seq<Book>, held: set<Block>, use: map<nat, PageUse>, large: map<nat, nat>, s: Source)
    requires HeapOk(books, held, use, large) && Live(books, large, s)
    ensures BlockOf(books, s) in held
    ensures UseOf(use, s.page) == if s.FromCache? then OfCache(s.cache) else OfOrder(s.order)
  {
    if s.FromCache? {
      assert PoolMarked(books, held, use, s.cache, s.page);
      assert Block(s.page, books[s.cache].l.poolOrder).Has(s.page);
    } else {
      assert LargeMarked(held, use, s.page, s.order);
    }
  }

  lemma BlockBytes(b: Block, c: Block)
    requires b.Apart(c)
    ensures PageVa(b.idx) + PoolSize(b.order) <= PageVa(c.idx) || PageVa(c.idx) + PoolSize(c.order) <= PageVa(b.idx)
  {
  }

  /** No two live pieces of memory overlap, whoever issued them. */
  lemma LiveDisjoint(books: seq<Book>, held: set<Block>, use: map<nat, PageUse>, large: map<nat, nat>, s: Source,
                     t: Source)
    requires HeapOk(books, held, use, large) && Live(books, large, s) && Live(books, large, t) && s != t
    ensures AddressOf(books, s) + Capacity(books, s) <= AddressOf(books, t)
         || AddressOf(books, t) + Capacity(books, t) <= AddressOf(books, s)
  {
    assert BooksOk(books);
    hide HeapOk, BooksOk, PoolSize, Size, Addr, PageVa;
    SourceMarked(books, held, use, large, s);
    SourceMarked(books, held, use, large, t);
    var b, c := BlockOf(books, s), BlockOf(books, t);
    if b == c {
      SameBlock(books, large, s, t);
    } else {
      HeldApart(books, held, use, large, b, c);
      InItsBlock(books, large, s);
      InItsBlock(books, large, t);
      BlockBytes(b, c);
    }
  }

  lemma HeldApart(books: seq<Book>, held: set<Block>, use: map<nat, PageUse>, large: map<nat, nat>, b: Block, c: Block)
    requires HeapOk(books, held, use, large) && b in held && c in held && b != c
    ensures b.Apart(c)
  {
  }

  /** Two pieces of the same block with the same mark are objects of one pool. */
  lemma SameBlock(books: seq<Book>, large: map<nat, nat>, s: Source, t: Source)
    requires BooksOk(books) && Live(books, large, s) && Live(books, large, t) && s != t
    requires s.page == t.page && (s.FromCache? <==> t.FromCache?) && (s.FromCache? ==> s.cache == t.cache)
    ensures AddressOf(books, s) + Capacity(books, s) <= AddressOf(books, t)
         || AddressOf(books, t) + Capacity(books, t) <= AddressOf(books, s)
  {
    if s.FromCache? {
      var l := books[s.cache].l;
      assert PoolsOk(l, books[s.cache].pools);
      if s.obj < t.obj { ObjectsApart(l, s.page, s.obj, t.obj); } else { ObjectsApart(l, s.page, t.obj, s.obj); }
    }
  }

  /** The page that `mem_free` looks at is marked by whoever issued the address. */
  lemma PageOfPiece(books: seq<Book>, held: set<Block>, use: map<nat, PageUse>, large: map<nat, nat>, s: Source)
    requires HeapOk(books, held, use, large) && Live(books, large, s)
    ensures
      var a := AddressOf(books, s);
      && a >= HIGHER_BASE
      && UseOf(use, (a - HIGHER_BASE) / PAGE) == if s.FromCache? then OfCache(s.cache) else OfOrder(s.order)
  {
    hide LayoutOk, PageVa, PoolOk, PoolAligned;
    if s.FromCache? {
      var l := books[s.cache].l;
      ObjectInside(l, s.obj);
      assert PoolMarked(books, held, use, s.cache, s.page);
      PageInPool(l, s.page, s.obj * l.objSize);
    } else {
      assert LargeMarked(held, use, s.page, s.order);
      PageVaPage(s.page);
    }
  }

  lemma PageVaPage(p: nat)
    ensures PageVa(p) >= HIGHER_BASE && (PageVa(p) - HIGHER_BASE) / PAGE == p
  {
  }

  lemma PageInPool(l: Layout, p: nat, offs: nat)
    requires offs < PoolSize(l.poolOrder)
    ensures PageVa(p) >= HIGHER_BASE && Block(p, l.poolOrder).Has((PageVa(p) + offs - HIGHER_BASE) / PAGE)
  {
    hide Size;
    assert (PageVa(p) + offs - HIGHER_BASE) / PAGE == p + offs / PAGE;
  }

  // ---- how the books change ------------------------------------------------------------------

  lemma LargeAdded(books: seq<Book>, held: set<Block>, use: map<nat, PageUse>, large: map<nat, nat>, b: Block)
    requires HeapOk(books, held, use, large) && b !in held && Separate(held + {b})
    ensures b.idx !in large
    ensures HeapOk(books, held + {b}, use[b.idx := OfOrder(b.order)], large[b.idx := b.order])
  {
    var use', large' := use[b.idx := OfOrder(b.order)], large[b.idx := b.order];
    assert forall c :: c in held ==> c.Apart(b);
    forall c: nat, p | c < |books| && p in books[c].pools ensures PoolMarked(books, held + {b}, use', c, p) {
      assert PoolMarked(books, held, use, c, p);
    }
    forall p | p in large ensures p != b.idx && LargeMarked(held + {b}, use', p, large[p]) {
      assert LargeMarked(held, use, p, large[p]);
    }
  }

  lemma LargeRemoved(books: seq<Book>, held: set<Block>, held': set<Block>, use: map<nat, PageUse>,
                     large: map<nat, nat>, p: nat)
    requires HeapOk(books, held, use, large) && p in large
    requires held' == held || held' == held - {Block(p, large[p])}
    ensures HeapOk(books, held', use[p := OfOrder(0)], large - {p})
  {
    var use' := use[p := OfOrder(0)];
    assert LargeMarked(held, use, p, large[p]);
    forall c: nat, q | c < |books| && q in books[c].pools ensures PoolMarked(books, held', use', c, q) {
      assert PoolMarked(books, held, use, c, q);
      assert Block(q, books[c].l.poolOrder).Has(q);
    }
    forall q | q in large - {p} ensures LargeMarked(held', use', q, large[q]) {
      assert LargeMarked(held, use, q, large[q]);
    }
  }

  lemma PoolsChanged(books: seq<Book>, held: set<Block>, use: map<nat, PageUse>, large: map<nat, nat>, c: nat,
                     pools: map<nat, Pool>)
    requires HeapOk(books, held, use, large) && c < |books| && PoolsOk(books[c].l, pools) &&
      pools.Keys == books[c].pools.Keys
    ensures HeapOk(books[c := Book(books[c].l, pools)], held, use, large)
  {
    var books' := books[c := Book(books[c].l, pools)];
    forall d: nat, p | d < |books'| && p in books'[d].pools ensures PoolMarked(books', held, use, d, p) {
      assert p in books[d].pools && PoolMarked(books, held, use, d, p);
    }
  }

  lemma PoolAdded(books: seq<Book>, held: set<Block>, use: map<nat, PageUse>, large: map<nat, nat>, c: nat,
                  pools: map<nat, Pool>, p: nat, use': map<nat, PageUse>)
    requires HeapOk(books, held, use, large) && c < |books| && PoolsOk(books[c].l, pools)
    requires pools.Keys == books[c].pools.Keys + {p}
    requires var b := Block(p, books[c].l.poolOrder); b !in held && Separate(held + {b})
    requires use' == Marked(use, p, Size(books[c].l.poolOrder), OfCache(c))
    ensures HeapOk(books[c := Book(books[c].l, pools)], held + {Block(p, books[c].l.poolOrder)}, use', large)
  {
    hide PoolsOk;
    var k := books[c].l.poolOrder;
    var b, books' := Block(p, k), books[c := Book(books[c].l, pools)];
    assert forall x :: x in held ==> x.Apart(b);
    forall q: nat ensures UseOf(use', q) == if b.Has(q) then OfCache(c) else UseOf(use, q) {
      MarkedAt(use, p, Size(k), OfCache(c), q);
    }
    forall d: nat, r | d < |books'| && r in books'[d].pools ensures PoolMarked(books', held + {b}, use', d, r) {
      if d != c || r != p { assert PoolMarked(books, held, use, d, r); }
    }
    forall r | r in large ensures LargeMarked(held + {b}, use', r, large[r]) {
      assert LargeMarked(held, use, r, large[r]);
      assert Block(r, large[r]).Has(r);
    }
  }

  /** One object more or less in a cache is one live piece more or less. */
  lemma LiveOne(books: seq<Book>, large: map<nat, nat>, c: nat, pools: map<nat, Pool>, p: nat, i: nat, b: bool)
    requires BooksOk(books) && c < |books| && PoolsOk(books[c].l, pools)
    requires OnlyObject(books[c].l, books[c].pools, pools, p, i, b)
    ensures
      var books' := books[c := Book(books[c].l, pools)];
      && BooksOk(books')
      && forall t :: Live(books', large, t) <==> if t == FromCache(c, p, i) then b else Live(books, large, t)
    ensures Live(books, large, FromCache(c, p, i)) <==> InUse(books[c].l, books[c].pools, p, i)
  {
    hide PoolsOk, InUse;
    var books' := books[c := Book(books[c].l, pools)];
    forall t ensures Live(books', large, t) <==> if t == FromCache(c, p, i) then b else Live(books, large, t) {
      if t.FromCache? && t.cache == c {
        assert InUse(books[c].l, pools, t.page, t.obj) <==>
          if t.page == p && t.obj == i then b else InUse(books[c].l, books[c].pools, t.page, t.obj);
      }
    }
  }

  lemma LiveObject(books: seq<Book>, large: map<nat, nat>, s: Source)
    requires BooksOk(books) && Live(books, large, s) && s.FromCache?
    ensures s.cache < |books| && InUse(books[s.cache].l, books[s.cache].pools, s.page, s.obj)
  {
  }

  lemma LiveAdded(books: seq<Book>, large: map<nat, nat>, p: nat, k: nat)
    requires BooksOk(books) && p !in large
    ensures forall t :: Live(books, large[p := k], t) <==> Live(books, large, t) || t == FromPages(p, k)
    ensures !Live(books, large, FromPages(p, k))
  {
    forall t ensures Live(books, large[p := k], t) <==> Live(books, large, t) || t == FromPages(p, k) {
      if t.FromPages? { assert t == FromPages(t.page, t.order); }
    }
  }

  lemma LiveDropped(books: seq<Book>, large: map<nat, nat>, p: nat)
    requires BooksOk(books) && p in large
    ensures forall t :: Live(books, large - {p}, t) <==> Live(books, large, t) && t != FromPages(p, large[p])
  {
    forall t ensures Live(books, large - {p}, t) <==> Live(books, large, t) && t != FromPages(p, large[p]) {
      if t.FromPages? { assert t == FromPages(t.page, t.order); }
    }
  }

  lemma PoolsBacked(books: seq<Book>, held: set<Block>, use: map<nat, PageUse>, large: map<nat, nat>, c: nat)
    requires HeapOk(books, held, use, large) && c < |books|
    ensures forall p :: p in books[c].pools ==> Block(p, books[c].l.poolOrder) in held
  {
    forall p | p in books[c].pools ensures Block(p, books[c].l.poolOrder) in held {
      assert PoolMarked(books, held, use, c, p);
    }
  }

  lemma HeldSeparate(zone: Buddy.Zone)
    requires zone.Valid()
    ensures Separate(zone.held)
  {
    var s := zone.View({});
    assert forall b :: b in s.held ==> b in s.All();
  }

  // ---- the allocator -------------------------------------------------------------------------

  /** The first cache from `c` on that is large enough. */
  function Lookup(size: nat, c: nat): nat
    decreases |SIZES| - c
  {
    if c >= |SIZES| || SIZES[c] >= size then c else Lookup(size, c + 1)
  }

  /** `mem_pool_lookup` (src/alloc.c:340-346): the smallest cache that is large enough. */
  method PoolLookup(size: nat) returns (c: nat)
    ensures c <= |SIZES| && c == Lookup(size, 0)
    ensures c < |SIZES| ==> SIZES[c] >= size
    ensures forall i :: 0 <= i < c ==> SIZES[i] < size
  {
    hide SIZES;
    c := 0;
    while c != |SIZES| && SIZES[c] < size
      invariant c <= |SIZES| && Lookup(size, c) == Lookup(size, 0)
      invariant forall i :: 0 <= i < c ==> SIZES[i] < size
    {
      c := c + 1;
    }
  }

  /** `mem_order_calculate` (src/alloc.c:348-356): the smallest block, or one that does not exist. */
  method OrderCalculate(size: nat) returns (order: nat)
    ensures order <= MAX_ORDER + 1
    ensures order <= MAX_ORDER ==> PoolSize(order) >= size
    ensures forall k: nat :: k < order ==> PoolSize(k) < size
  {
    order := 0;
    while order != MAX_ORDER + 1 && PoolSize(order) < size
      invariant order <= MAX_ORDER + 1
      invariant forall k: nat :: k < order ==> PoolSize(k) < size
    {
      order := order + 1;
    }
  }

  predicate SmallestFor(k: nat, size: nat) {
    PoolSize(k) >= size && forall j: nat :: j < k ==> PoolSize(j) < size
  }

  function ByteAt(mem: map<nat, nat>, a: nat): nat { if a in mem then mem[a] else 0 }

  /** Caches of the sizes 64, 128, ..., as far as they have been set up, and nothing on their books. */
  ghost predicate CachesReady(caches: seq<Cache>)
    reads caches
  {
    && |caches| <= |SIZES| && (forall c, d :: 0 <= c < d < |caches| ==> caches[c] != caches[d])
    && (forall c :: 0 <= c < |caches| ==> caches[c].Valid() && caches[c].id == c && caches[c].pools == map[])
    && (forall c :: 0 <= c < |caches| ==> caches[c].layout.objSize == SIZES[c])
    && (forall c :: 0 <= c < |caches| ==> LayoutFor(caches[c].layout, SIZES[c], SIZES[0]))
  }

  lemma SizeOfCache(i: nat, obj: nat)
    requires i < |SIZES| && obj % SIZES[0] == 0 && SIZES[i] <= obj < SIZES[i] + SIZES[0]
    ensures obj == SIZES[i]
  {
    assert SIZES[i] % 64 == 0;
  }

  /** The sizes for which a pool of the program holds fewer than eight objects. */
  const SHORT: set<nat> := {512, 576, 640, 704, 768, 832, 896, 960, 1024, 1152, 1280, 1408, 2048, 2304, 4096, 8192}

  lemma ShortCaches(i: nat)
    requires i < |SIZES|
    ensures ComesShort(SIZES[i]) <==> SIZES[i] in SHORT
  {
    PagesOf(SIZES[i]);
  }

  lemma PagesOf(obj: nat)
    ensures MinSize(obj) == 8 * obj + 48
    ensures PowerOfTwo(1) && PowerOfTwo(2) && PowerOfTwo(4) && PowerOfTwo(8) && PowerOfTwo(16)
    ensures !PowerOfTwo(0) && !PowerOfTwo(3) && !PowerOfTwo(5) && !PowerOfTwo(6) && !PowerOfTwo(7)
    ensures !PowerOfTwo(10) && !PowerOfTwo(12) && !PowerOfTwo(14)
  {
    MetaSizeIs(8);
    assert PowerOfTwo(2) && PowerOfTwo(4) && !PowerOfTwo(3) && !PowerOfTwo(5) && !PowerOfTwo(7);
  }

  lemma SizePositive(i: nat)
    requires i < |SIZES|
    ensures SIZES[i] > 0 && SIZES[0] > 0
  {
  }

  lemma FirstSize()
    ensures |SIZES| > 0 && SIZES[0] > 0
  {
  }

  lemma LayoutSizes(l: Layout, size: nat, align: nat)
    requires align > 0 && LayoutFor(l, size, align)
    ensures l.objSize % align == 0 && size <= l.objSize < size + align
  {
  }

  /** `mem_alloc_setup` (src/alloc.c:358-366). */
  method MemAllocSetup() returns (caches: seq<Cache>)
    ensures CachesReady(caches) && |caches| == |SIZES| && fresh(caches)
  {
    hide ListsOk, PoolsOk, SIZES, LayoutOk, LayoutFor;
    FirstSize();
    caches := [];
    for i := 0 to |SIZES|
      invariant |caches| == i && CachesReady(caches) && fresh(caches)
    {
      SizePositive(i);
      var size, align := SIZES[i], SIZES[0];
      var c := new Cache(i, size, align);
      LayoutSizes(c.layout, size, align);
      SizeOfCache(i, c.layout.objSize);
      caches := caches + [c];
    }
  }

  /** The bytes from `src` on are now also at `dst`, and nothing else has changed. */
  ghost predicate Copied(mem: map<nat, nat>, mem': map<nat, nat>, dst: nat, src: nat, n: nat) {
    forall a: nat {:trigger ByteAt(mem', a)} ::
      ByteAt(mem', a) == if dst <= a < dst + n then ByteAt(mem, src + a - dst) else ByteAt(mem, a)
  }

  lemma CopyOne(mem: map<nat, nat>, mem1: map<nat, nat>, dst: nat, src: nat, i: nat, n: nat)
    requires Copied(mem, mem1, dst, src, i) && i < n && (dst + n <= src || src + n <= dst)
    ensures Copied(mem, mem1[dst + i := ByteAt(mem1, src + i)], dst, src, i + 1)
  {
    var mem2 := mem1[dst + i := ByteAt(mem1, src + i)];
    forall a: nat
      ensures ByteAt(mem2, a) == if dst <= a < dst + i + 1 then ByteAt(mem, src + a - dst) else ByteAt(mem, a)
    {
      if a != dst + i { assert ByteAt(mem2, a) == ByteAt(mem1, a); }
    }
  }

  class Heap {
    const zone: Buddy.Zone
    const table: PageTable
    const caches: seq<Cache>
    /** The contents of memory. */
    var mem: map<nat, nat>
    /** The blocks given out by `mem_alloc` as such: first page and order. */
    ghost var large: map<nat, nat>

    ghost function Books(): (b: seq<Book>)
      reads caches
      ensures |b| == |caches| && forall c :: 0 <= c < |caches| ==> b[c] == Book(caches[c].layout, caches[c].pools)
    {
      seq(|caches|, c requires 0 <= c < |caches| reads caches => Book(caches[c].layout, caches[c].pools))
    }

    ghost predicate Distinct() {
      forall c, d :: 0 <= c < d < |caches| ==> caches[c] != caches[d]
    }

    ghost predicate CachesOk()
      reads caches
    {
      && Distinct() && |caches| == |SIZES|
      && forall c :: 0 <= c < |caches| ==>
        caches[c].Valid() && caches[c].id == c && caches[c].layout.objSize == SIZES[c]
    }

    ghost predicate Valid()
      reads this`large, caches, zone, zone.pages, table
    {
      zone.Valid() && !zone.Owns(0) && CachesOk() && HeapOk(Books(), zone.held, table.use, large)
    }

    /** What has been given out and not been given back. */
    ghost function Pieces(): iset<Source>
      reads this`large, caches, zone, zone.pages, table
      requires Valid()
    {
      iset s | Live(Books(), large, s)
    }

    predicate Known(s: Source) { s.FromCache? ==> s.cache < |caches| }

    /** Where a piece is, and how many bytes it has; caches keep their layouts. */
    function Where(s: Source): nat
      requires Known(s)
    {
      match s
      case FromCache(c, p, i) => Addr(caches[c].layout, p, i)
      case FromPages(p, _) => PageVa(p)
    }

    function Room(s: Source): nat
      requires Known(s)
    {
      match s
      case FromCache(c, _, _) => caches[c].layout.objSize
      case FromPages(_, k) => PoolSize(k)
    }

    /** Byte `a` belongs to piece `s`. */
    predicate Has(s: Source, a: nat) { Known(s) && Where(s) <= a < Where(s) + Room(s) }

    lemma Placed(s: Source)
      requires Valid() && s in Pieces()
      ensures Known(s) && AddressOf(Books(), s) == Where(s) && Capacity(Books(), s) == Room(s)
    {
    }

    /** No two pieces overlap. */
    lemma PiecesDisjoint(s: Source, t: Source)
      requires Valid() && s in Pieces() && t in Pieces() && s != t
      ensures Known(s) && Known(t)
      ensures Where(s) + Room(s) <= Where(t) || Where(t) + Room(t) <= Where(s)
    {
      hide HeapOk, Buddy.Zone.Valid, CachesOk;
      Placed(s);
      Placed(t);
      LiveDisjoint(Books(), zone.held, table.use, large, s, t);
    }

    constructor (zone: Buddy.Zone, table: PageTable, caches: seq<Cache>)
      requires zone.Valid() && !zone.Owns(0) && CachesReady(caches) && |caches| == |SIZES|
      ensures Valid() && this.zone == zone && this.table == table && this.caches == caches
      ensures Pieces() == iset{}
    {
      this.zone, this.table, this.caches, mem, large := zone, table, caches, map[], map[];
      new;
      HeldSeparate(zone);
    }

    /** Every object of every pool of cache `c` is in use. */
    ghost predicate Exhausted(c: nat)
      reads caches
      requires c < |caches| && caches[c].Valid()
    {
      caches[c].AllUsed()
    }

    /** A small request (src/alloc.c:376-379). */
    method AllocSmall(c: nat) returns (ptr: Option<nat>, ghost s: Source)
      requires Valid() && c < |caches|
      modifies zone`lists, zone`held, zone.pages, table, caches[c]
      ensures Valid()
      ensures ptr.None? <==> old(caches[c].CannotServe(zone))
      ensures ptr.None? ==> Pieces() == old(Pieces()) && zone.held == old(zone.held)
      ensures ptr.Some? ==> s.FromCache? && s.cache == c && ptr.value == Where(s)
      ensures zone.held != old(zone.held) ==> old(Exhausted(c))
      ensures ptr.Some? ==> s !in old(Pieces()) && Pieces() == old(Pieces()) + iset{s}
    {
      hide HeapOk, PoolsOk, ListsOk, Live, OnlyObject, InUse, Separate, Size, Addr, Marked, Buddy.Zone.Valid,
        Cache.CannotServe;
      ghost var books, held, use, cache := Books(), zone.held, table.use, caches[c];
      PoolsBacked(books, held, use, large, c);
      ghost var p, i;
      ptr, p, i := caches[c].Alloc(zone, table);
      s := FromCache(c, p, i);
      if ptr.Some? {
        BooksFrom(books, held, use, large);
        assert Books() == books[c := Book(cache.layout, cache.pools)];
        LiveOne(books, large, c, cache.pools, p, i, true);
        if p in books[c].pools {
          assert books[c].pools.Keys + {p} == books[c].pools.Keys;
          PoolsChanged(books, held, use, large, c, cache.pools);
        } else {
          HeldSeparate(zone);
          PoolAdded(books, held, use, large, c, cache.pools, p, table.use);
        }
      } else {
        assert Books() == books;
      }
    }

    /** The page allocator has no block of the order that `size` needs. */
    ghost predicate NoBlockFor(size: nat)
      reads zone
    {
      forall k: nat :: k <= MAX_ORDER && SmallestFor(k, size) ==> !zone.CanGive(k)
    }

    /** A large request (src/alloc.c:381-390). */
    method AllocLarge(size: nat) returns (ptr: Option<nat>, ghost s: Source)
      requires Valid()
      modifies this`large, zone`lists, zone`held, zone.pages, table
      ensures Valid()
      ensures ptr.None? <==> old(NoBlockFor(size))
      ensures ptr.None? ==> Pieces() == old(Pieces()) && zone.held == old(zone.held)
      ensures ptr.Some? ==> s.FromPages? && ptr.value == Where(s) && SmallestFor(s.order, size)
      ensures ptr.Some? ==> zone.held == old(zone.held) + {Block(s.page, s.order)}
      ensures ptr.Some? ==> s !in old(Pieces()) && Pieces() == old(Pieces()) + iset{s}
    {
      hide HeapOk, CachesOk, Separate, Buddy.Zone.CanGive, Buddy.Zone.Valid, Live;
      s := FromPages(0, 0);
      var order := OrderCalculate(size);
      if order > MAX_ORDER {
        return None, s;
      }
      ghost var books, held, use, large0 := Books(), zone.held, table.use, large;
      BooksFrom(books, held, use, large);
      var ok, page := zone.Alloc(order);
      if !ok {
        return None, s;
      }
      s := FromPages(page, order);
      HeldSeparate(zone);
      LargeAdded(books, held, use, large0, Block(page, order));
      LiveAdded(books, large0, page, order);
      table.use := table.use[page := OfOrder(order)];
      large := large[page := order];
      assert zone.Valid() && CachesOk();
      assert Books() == books;
      return Some(PageVa(page)), s;
    }

    /** The cache for `size`, or for large requests the page allocator, has nothing left. */
    ghost predicate CannotAlloc(size: nat)
      requires |caches| == |SIZES|
      reads zone, caches
    {
      var c := Lookup(size, 0);
      if c < |SIZES| then caches[c].CannotServe(zone) else NoBlockFor(size)
    }

    /** The piece comes from the first cache that is large enough, or else is the smallest block that is. */
    predicate IssuedFor(s: Source, size: nat) {
      if Lookup(size, 0) < |SIZES| then s.FromCache? && s.cache == Lookup(size, 0)
      else s.FromPages? && SmallestFor(s.order, size)
    }

    /** `mem_alloc` (src/alloc.c:374-391): a new piece of memory, at least as large as asked for. */
    method MemAlloc(size: nat) returns (ptr: Option<nat>, ghost s: Source)
      requires Valid()
      modifies this`large, zone`lists, zone`held, zone.pages, table, caches
      ensures Valid()
      ensures ptr.None? <==> old(CannotAlloc(size))
      ensures ptr.None? ==> Pieces() == old(Pieces()) && zone.held == old(zone.held)
      ensures ptr.Some? ==> s !in old(Pieces()) && Pieces() == old(Pieces()) + iset{s}
      ensures ptr.Some? ==> Known(s) && ptr.value == Where(s) && Room(s) >= size
      ensures ptr.Some? ==> IssuedFor(s, size)
      ensures ptr.Some? && s.FromPages? ==> zone.held == old(zone.held) + {Block(s.page, s.order)}
      ensures Lookup(size, 0) < |SIZES| && zone.held != old(zone.held) ==> old(Exhausted(Lookup(size, 0)))
    {
      hide HeapOk, Buddy.Zone.Valid, PoolSize, Live, Addr, PageVa, SIZES, Cache.CannotServe, NoBlockFor;
      var c := PoolLookup(size);
      if c < |SIZES| {
        ptr, s := AllocSmall(c);
        return;
      }
      ptr, s := AllocLarge(size);
    }

    /** `mem_free` (src/alloc.c:393-411): exactly the piece at `ptr` goes back, to where it came from.
        `page_free` takes the address 0 for a null pointer (src/memory.c:362-363), but page 0 is kept out of
        the zones (src/memory.c:153), so no block has that address. */
    method MemFree(ptr: nat, ghost s: Source)
      requires Valid() && (ptr != 0 ==> s in Pieces() && Known(s) && ptr == Where(s))
      modifies this`large, zone`lists, zone`held, zone.pages, table, caches
      ensures Valid()
      ensures ptr == 0 ==> Pieces() == old(Pieces()) && zone.held == old(zone.held)
      ensures ptr != 0 ==> Pieces() == old(Pieces()) - iset{s}
      ensures ptr != 0 && s.FromCache? ==> zone.held == old(zone.held) && large == old(large)
      ensures ptr != 0 && s.FromPages? ==>
        zone.held == old(zone.held) - {Block(s.page, s.order)} && Books() == old(Books())
    {
      hide HeapOk, Buddy.Zone.Valid, CachesOk, PoolSize, Addr, PageVa, Live;
      if ptr == 0 {
        return;
      }
      var use := UseAt(ptr, s);
      match use
      case OfCache(c) => FreeSmall(c, ptr, s);
      case OfOrder(order) => FreeLarge((ptr - HIGHER_BASE) / PAGE, order, ptr, s);
    }

    /** The use of the page under `ptr` (src/alloc.c:398-405): it names who issued the piece. */
    method UseAt(ptr: nat, ghost s: Source) returns (use: PageUse)
      requires Valid() && s in Pieces() && Known(s) && ptr == Where(s)
      ensures ptr >= HIGHER_BASE && use == if s.FromCache? then OfCache(s.cache) else OfOrder(s.order)
      ensures s.FromPages? ==> (ptr - HIGHER_BASE) / PAGE == s.page
    {
      Placed(s);
      PageOfPiece(Books(), zone.held, table.use, large, s);
      use := UseOf(table.use, (ptr - HIGHER_BASE) / PAGE);
    }

    method FreeSmall(c: nat, ptr: nat, ghost s: Source)
      requires Valid() && s in Pieces() && s.FromCache? && s.cache == c < |caches| && ptr == Where(s)
      modifies caches[c]
      ensures Valid() && Pieces() == old(Pieces()) - iset{s}
    {
      hide HeapOk, PoolsOk, ListsOk, OnlyObject, InUse, Separate, Size, Addr, Buddy.Zone.Valid, Live, SIZES;
      ghost var books, held, use, cache := Books(), zone.held, table.use, caches[c];
      BooksFrom(books, held, use, large);
      LiveObject(books, large, s);
      caches[c].Free(ptr, s.page, s.obj);
      assert Books() == books[c := Book(cache.layout, cache.pools)];
      LiveOne(books, large, c, cache.pools, s.page, s.obj, false);
      PoolsChanged(books, held, use, large, c, cache.pools);
    }

    method FreeLarge(page: nat, order: nat, ptr: nat, ghost s: Source)
      requires Valid() && s in Pieces() && s == FromPages(page, order) && ptr == PageVa(page)
      modifies this`large, zone`lists, zone`held, zone.pages, table
      ensures Valid() && Books() == old(Books()) && Pieces() == old(Pieces()) - iset{s}
      ensures zone.held == old(zone.held) - {Block(page, order)}
    {
      hide HeapOk, CachesOk, Separate, Buddy.Zone.Valid, Buddy.Zone.Owns, Covered, Size, PoolSize, Live, AlignDown,
        PageVa;
      ghost var books, held, use, large0 := Books(), zone.held, table.use, large;
      HeldPage(s);
      BooksFrom(books, held, use, large);
      table.use := table.use[page := OfOrder(0)];
      large := large - {page};
      var addr := AlignDown(ptr - HIGHER_BASE, PoolSize(order));
      if addr != 0 {
        zone.Free(addr / PAGE, order);
      }
      LargeRemoved(books, held, zone.held, use, large0, page);
      LiveDropped(books, large0, page);
      assert zone.Valid() && CachesOk();
      assert Books() == books;
    }

    /** A block given out is held, and is not at address 0. */
    lemma HeldPage(s: Source)
      requires Valid() && s in Pieces() && s.FromPages?
      ensures Block(s.page, s.order) in zone.held && s.page in large && large[s.page] == s.order && s.page != 0
      ensures PageVa(s.page) >= HIGHER_BASE
      ensures AlignDown(PageVa(s.page) - HIGHER_BASE, PoolSize(s.order)) == s.page * PAGE != 0
      ensures (s.page * PAGE) / PAGE == s.page
    {
      SourceMarked(Books(), zone.held, table.use, large, s);
      zone.HeldOwned(Block(s.page, s.order));
      BlockAddress(zone, s.page, s.order);
    }

    /** `memcpy` between ranges that do not overlap. */
    method Copy(dst: nat, src: nat, n: nat)
      requires dst + n <= src || src + n <= dst
      modifies this`mem
      ensures Copied(old(mem), mem, dst, src, n)
    {
      ghost var mem0 := mem;
      for i := 0 to n
        invariant Copied(mem0, mem, dst, src, i)
      {
        CopyOne(mem0, mem, dst, src, i, n);
        mem := mem[dst + i := ByteAt(mem, src + i)];
      }
    }

    /** The size of the piece at `ptr`, from the use of its page (src/alloc.c:418-433). */
    method OldSize(ptr: nat, ghost s: Source) returns (size: nat)
      requires Valid() && s in Pieces() && Known(s) && ptr == Where(s)
      ensures size == Room(s)
    {
      hide HeapOk, Buddy.Zone.Valid, CachesOk, Live, Addr, PageVa;
      var use := UseAt(ptr, s);
      match use
      case OfCache(c) => size := caches[c].layout.objSize;
      case OfOrder(order) => size := PoolSize(order);
    }

    /** `mem_realloc` (src/alloc.c:413-443): the new piece starts with all the old one held, and nobody
        else's memory is touched. */
    method MemRealloc(ptr: nat, size: nat, ghost s: Source) returns (r: Option<nat>, ghost s': Source)
      requires Valid() && (ptr != 0 ==> s in Pieces() && Known(s) && ptr == Where(s))
      modifies this, zone`lists, zone`held, zone.pages, table, caches
      ensures Valid()
      ensures r.None? <==> (ptr == 0 || Room(s) < size) && old(CannotAlloc(size))
      ensures r.None? ==> mem == old(mem) && Pieces() == old(Pieces()) && zone.held == old(zone.held)
      ensures ptr != 0 && Room(s) >= size ==> r == Some(ptr) && s' == s
      ensures ptr != 0 && Room(s) >= size ==>
        mem == old(mem) && Pieces() == old(Pieces()) && zone.held == old(zone.held) && Books() == old(Books())
      ensures r.Some? && (ptr == 0 || Room(s) < size) ==> s' !in old(Pieces()) && IssuedFor(s', size)
      ensures r.Some? ==> Known(s') && r.value == Where(s') && Room(s') >= size
      ensures r.Some? ==> Pieces() == (if ptr == 0 then old(Pieces()) else old(Pieces()) - iset{s}) + iset{s'}
      ensures r.Some? && ptr != 0 ==> Moved(old(mem), mem, r.value, ptr, Room(s))
      ensures r.Some? ==> forall t :: t in old(Pieces()) && (ptr == 0 || t != s) ==> Kept(old(mem), mem, t)
    {
      hide HeapOk, Buddy.Zone.Valid, CachesOk, PoolSize, Addr, PageVa, Live, CannotAlloc, Moved, IssuedFor,
        Lookup, SIZES, Exhausted;
      if ptr == 0 {
        r, s' := MemAlloc(size);
        return;
      }
      var oldSize := OldSize(ptr, s);
      if oldSize >= size {
        StaysPut(mem, ptr, oldSize);
        return Some(ptr), s;
      }
      r, s' := Move(ptr, size, oldSize, s);
    }

    /** The piece is too small (src/alloc.c:435-442). */
    method Move(ptr: nat, size: nat, oldSize: nat, ghost s: Source) returns (r: Option<nat>, ghost s': Source)
      requires Valid() && ptr != 0 && s in Pieces() && Known(s) && ptr == Where(s) && oldSize == Room(s) < size
      modifies this, zone`lists, zone`held, zone.pages, table, caches
      ensures Valid()
      ensures r.None? <==> old(CannotAlloc(size))
      ensures r.None? ==> mem == old(mem) && Pieces() == old(Pieces()) && zone.held == old(zone.held)
      ensures r.Some? ==> Known(s') && r.value == Where(s') && Room(s') >= size && s' !in old(Pieces())
      ensures r.Some? ==> IssuedFor(s', size) && Pieces() == old(Pieces()) - iset{s} + iset{s'}
      ensures r.Some? ==> Moved(old(mem), mem, r.value, ptr, Room(s))
      ensures r.Some? ==> forall t :: t in old(Pieces()) && t != s ==> Kept(old(mem), mem, t)
    {
      hide HeapOk, Buddy.Zone.Valid, CachesOk, PoolSize, Addr, PageVa, Live, CannotAlloc, Moved, IssuedFor,
        Lookup, SIZES, Exhausted;
      r, s' := MemAlloc(size);
      if r.None? {
        return;
      }
      CopyPiece(r.value, ptr, oldSize, s, s');
      MemFree(ptr, s);
    }

    /** The bytes of piece `t` are what they were. */
    ghost predicate Kept(mem0: map<nat, nat>, mem1: map<nat, nat>, t: Source) {
      forall a: nat :: Has(t, a) ==> ByteAt(mem1, a) == ByteAt(mem0, a)
    }

    /** The old piece is copied to the front of the new one (src/alloc.c:440). */
    method CopyPiece(dst: nat, src: nat, n: nat, ghost s: Source, ghost s': Source)
      requires Valid() && s in Pieces() && s' in Pieces() && s != s' && Known(s) && Known(s')
      requires dst == Where(s') && src == Where(s) && n == Room(s) <= Room(s')
      modifies this`mem
      ensures Moved(old(mem), mem, dst, src, n)
      ensures forall t :: t in Pieces() && t != s' ==> Kept(old(mem), mem, t)
    {
      hide HeapOk, Buddy.Zone.Valid, CachesOk, PoolSize, Addr, PageVa, Live;
      ghost var mem0 := mem;
      PiecesDisjoint(s, s');
      Copy(dst, src, n);
      forall t | t in Pieces() && t != s' ensures Kept(mem0, mem, t) {
        PiecesDisjoint(t, s');
      }
    }
  }

  /** The `n` bytes that were at `src` are at `dst`. */
  ghost predicate Moved(mem: map<nat, nat>, mem': map<nat, nat>, dst: nat, src: nat, n: nat) {
    forall a: nat {:trigger ByteAt(mem', a)} :: dst <= a < dst + n ==> ByteAt(mem', a) == ByteAt(mem, src + a - dst)
  }

  lemma StaysPut(mem: map<nat, nat>, at: nat, n: nat)
    ensures Moved(mem, mem, at, at, n)
  {
  }

  lemma MultipleAddress(page: nat, n: nat)
    requires n > 0 && page % n == 0
    ensures AlignDown(PageVa(page) - HIGHER_BASE, n * PAGE) == page * PAGE
  {
    var q := page / n;
    assert page == n * q;
    assert page * PAGE == (n * PAGE) * q;
    MultipleMod(q, n * PAGE);
  }

  /** The address of a held block is a multiple of its size. */
  lemma BlockAddress(zone: Buddy.Zone, page: nat, order: nat)
    requires zone.Valid() && Block(page, order) in zone.held
    ensures AlignDown(PageVa(page) - HIGHER_BASE, PoolSize(order)) == page * PAGE
  {
    Buddy.Partition(zone.View({}), 0);
    hide *;
    MultipleAddress(page, Size(order));
  }

  lemma BooksFrom(books: seq<Book>, held: set<Block>, use: map<nat, PageUse>, large: map<nat, nat>)
    requires HeapOk(books, held, use, large)
    ensures BooksOk(books) && Separate(held)
  {
  }
}
