/**
 Slab caches (src/alloc.c:92-326): pools with a bitmap of used objects, on three lists by how full
 they are, in blocks of the buddy allocator.
 */
module Slab {
  import opened Arithmetic
  import opened Collections
  import opened BuddyBlocks
  import opened SlabLayout
  import Buddy

  const HIGHER_BASE: nat := 0xffff_8000_0000_0000

  /** A word of a bitmap, lowest bit first. */
  type Word = seq<bool>

  /** The mutable part of `struct mem_pool`. */
  datatype Pool = Pool(free: nat, mask: seq<Word>)

  /** `va` and the address of a page (inc/memory.h:23-24). */
  function PageVa(page: nat): nat { HIGHER_BASE + page * PAGE }

  // ---- bitmaps -------------------------------------------------------------------------------

  predicate Words(mask: seq<Word>) {
    forall w :: 0 <= w < |mask| ==> |mask[w]| == OBJS_PER_WORD
  }

  predicate Bit(mask: seq<Word>, i: nat)
    requires Words(mask) && i < OBJS_PER_WORD * |mask|
  {
    mask[i / OBJS_PER_WORD][i % OBJS_PER_WORD]
  }

  function WithBit(mask: seq<Word>, i: nat, b: bool): (r: seq<Word>)
    requires Words(mask) && i < OBJS_PER_WORD * |mask|
    ensures |r| == |mask| && Words(r)
    ensures forall j: nat :: j < OBJS_PER_WORD * |mask| ==> Bit(r, j) == if j == i then b else Bit(mask, j)
  {
    mask[i / OBJS_PER_WORD := mask[i / OBJS_PER_WORD][i % OBJS_PER_WORD := b]]
  }

  /** The number of clear bits among the first `n`. */
  function Zeros(mask: seq<Word>, n: nat): (z: nat)
    requires Words(mask) && n <= OBJS_PER_WORD * |mask|
    ensures z <= n
  {
    if n == 0 then 0 else Zeros(mask, n - 1) + if Bit(mask, n - 1) then 0 else 1
  }

  lemma {:induction false} ZerosSame(mask: seq<Word>, mask': seq<Word>, n: nat)
    requires Words(mask) && Words(mask') && n <= OBJS_PER_WORD * |mask| && n <= OBJS_PER_WORD * |mask'|
    requires forall i: nat :: i < n ==> Bit(mask, i) == Bit(mask', i)
    ensures Zeros(mask, n) == Zeros(mask', n)
  {
    if n > 0 { ZerosSame(mask, mask', n - 1); }
  }

  lemma {:induction false} ZerosWith(mask: seq<Word>, n: nat, i: nat, b: bool)
    requires Words(mask) && i < n <= OBJS_PER_WORD * |mask| && Bit(mask, i) != b
    ensures Zeros(WithBit(mask, i, b), n) == if b then Zeros(mask, n) - 1 else Zeros(mask, n) + 1
  {
    if i == n - 1 {
      ZerosSame(mask, WithBit(mask, i, b), n - 1);
    } else {
      ZerosWith(mask, n - 1, i, b);
    }
  }

  lemma {:induction false} ZerosPositive(mask: seq<Word>, n: nat) returns (i: nat)
    requires Words(mask) && n <= OBJS_PER_WORD * |mask| && Zeros(mask, n) > 0
    ensures i < n && !Bit(mask, i)
  {
    if Bit(mask, n - 1) { i := ZerosPositive(mask, n - 1); } else { i := n - 1; }
  }

  lemma {:induction false} ZerosAll(mask: seq<Word>, n: nat)
    requires Words(mask) && n <= OBJS_PER_WORD * |mask|
    ensures Zeros(mask, n) == n <==> forall i: nat :: i < n ==> !Bit(mask, i)
  {
    if n > 0 { ZerosAll(mask, n - 1); }
  }

  lemma {:induction false} ZerosNone(mask: seq<Word>, n: nat, i: nat)
    requires Words(mask) && i < n <= OBJS_PER_WORD * |mask| && !Bit(mask, i)
    ensures Zeros(mask, n) > 0
  {
    if i < n - 1 { ZerosNone(mask, n - 1, i); }
  }

  predicate AnySet(w: Word, from: nat)
    requires from + 8 <= |w|
  {
    w[from] || w[from + 1] || w[from + 2] || w[from + 3] || w[from + 4] || w[from + 5] || w[from + 6] || w[from + 7]
  }

  lemma AnySetAt(w: Word, from: nat, i: nat)
    requires from <= i < from + 8 <= |w| && w[i]
    ensures AnySet(w, from)
  {
  }

  /** `ffs` (src/alloc.c:194-209): the lowest set bit. */
  method Ffs(w: Word) returns (r: nat)
    requires |w| == OBJS_PER_WORD && exists i :: 0 <= i < |w| && w[i]
    ensures r < OBJS_PER_WORD && w[r] && forall i :: 0 <= i < r ==> !w[i]
  {
    ghost var s :| 0 <= s < |w| && w[s];
    var byte: nat := 0;
    while byte != 8 && !AnySet(w, 8 * byte)
      invariant byte <= s / 8
      invariant forall i :: 0 <= i < 8 * byte ==> !w[i]
      decreases 8 - byte
    {
      if s / 8 == byte { AnySetAt(w, 8 * byte, s); }
      byte := byte + 1;
    }
    var bit: nat := 0;
    while bit != 8 && !w[8 * byte + bit]
      invariant bit <= 8
      invariant forall i :: 0 <= i < 8 * byte + bit ==> !w[i]
    {
      bit := bit + 1;
    }
    r := 8 * byte + bit;
  }

  /** `~0ul` in a bitmap word. */
  predicate Full(w: Word) { forall i :: 0 <= i < |w| ==> w[i] }

  /** `mem_pool_bitmap_setup` (src/alloc.c:92-106): the bits behind the last object are set for good.  With
      more words than the objects need, a word that starts right behind the last object would be missed. */
  method BitmapSetup(objCount: nat, words: nat) returns (mask: seq<Word>)
    requires Ceil(objCount, OBJS_PER_WORD) <= words
    ensures |mask| == words && Words(mask)
    ensures forall i: nat :: i < OBJS_PER_WORD * words ==>
      (Bit(mask, i) <==>
        i >= objCount && !(objCount % OBJS_PER_WORD == 0 && i / OBJS_PER_WORD == objCount / OBJS_PER_WORD))
  {
    var pos := objCount % OBJS_PER_WORD;
    var word := objCount / OBJS_PER_WORD;
    mask := seq(words, _ => seq(OBJS_PER_WORD, _ => false));
    if pos != 0 {
      mask := mask[word := seq(OBJS_PER_WORD, i => i >= pos)];
    }
    var w := word + 1;
    while w < words
      invariant w >= word + 1 && |mask| == words && Words(mask)
      invariant forall i: nat :: i < OBJS_PER_WORD * words ==>
        (Bit(mask, i) <==> (pos != 0 && i / OBJS_PER_WORD == word && i >= objCount) || word < i / OBJS_PER_WORD < w)
    {
      ghost var was := mask;
      mask := mask[w := seq(OBJS_PER_WORD, _ => true)];
      forall i: nat | i < OBJS_PER_WORD * words
        ensures Bit(mask, i) == if i / OBJS_PER_WORD == w then true else Bit(was, i)
      {
      }
      w := w + 1;
    }
  }

  // ---- pools ---------------------------------------------------------------------------------

  ghost predicate PoolOk(l: Layout, pool: Pool) {
    && LayoutOk(l) && |pool.mask| == l.maskWords && Words(pool.mask)
    && (forall i: nat :: l.objCount <= i < OBJS_PER_WORD * l.maskWords ==> Bit(pool.mask, i))
    && pool.free == Zeros(pool.mask, l.objCount)
  }

  lemma MaskCovers(l: Layout)
    requires LayoutOk(l)
    ensures l.objCount <= OBJS_PER_WORD * l.maskWords
  {
  }

  /** Object `i` of a pool is in use. */
  ghost predicate Used(l: Layout, pool: Pool, i: nat)
    requires PoolOk(l, pool)
  {
    i < l.objCount && (MaskCovers(l); Bit(pool.mask, i))
  }

  ghost function Taken(l: Layout, pool: Pool, i: nat, b: bool): Pool
    requires PoolOk(l, pool) && i < l.objCount && Used(l, pool, i) != b
  {
    MaskCovers(l);
    if b then ZerosNone(pool.mask, l.objCount, i); Pool(pool.free - 1, WithBit(pool.mask, i, true))
    else Pool(pool.free + 1, WithBit(pool.mask, i, false))
  }

  lemma TakenOk(l: Layout, pool: Pool, i: nat, b: bool)
    requires PoolOk(l, pool) && i < l.objCount && Used(l, pool, i) != b
    ensures PoolOk(l, Taken(l, pool, i, b))
    ensures forall j :: Used(l, Taken(l, pool, i, b), j) <==> if j == i then b else Used(l, pool, j)
  {
    MaskCovers(l);
    ZerosWith(pool.mask, l.objCount, i, b);
  }

  lemma FullPool(l: Layout, pool: Pool, i: nat)
    requires PoolOk(l, pool) && pool.free == 0 && i < l.objCount
    ensures Used(l, pool, i)
  {
    MaskCovers(l);
    if !Bit(pool.mask, i) { ZerosNone(pool.mask, l.objCount, i); }
  }

  /** `mem_pool_alloc` (src/alloc.c:211-232): the lowest free object; the loop never runs to its end. */
  method PoolAlloc(l: Layout, pool: Pool) returns (pool': Pool, pos: nat)
    requires PoolOk(l, pool) && pool.free > 0
    ensures pos < l.objCount && !Used(l, pool, pos) && forall i :: 0 <= i < pos ==> Used(l, pool, i)
    ensures pool' == Taken(l, pool, pos, true) && PoolOk(l, pool')
  {
    MaskCovers(l);
    ghost var z := ZerosPositive(pool.mask, l.objCount);
    assert !Full(pool.mask[z / OBJS_PER_WORD]) by { assert !pool.mask[z / OBJS_PER_WORD][z % OBJS_PER_WORD]; }
    var word: nat := 0;
    while Full(pool.mask[word])
      invariant word <= z / OBJS_PER_WORD
      invariant forall i: nat :: i < OBJS_PER_WORD * word ==> Bit(pool.mask, i)
      decreases |pool.mask| - word
    {
      forall i: nat | OBJS_PER_WORD * word <= i < OBJS_PER_WORD * (word + 1) ensures Bit(pool.mask, i) {
        assert i / OBJS_PER_WORD == word;
      }
      word := word + 1;
    }
    var w := pool.mask[word];
    var inverted := seq(OBJS_PER_WORD, i requires 0 <= i < OBJS_PER_WORD => !w[i]);
    ghost var c :| 0 <= c < |w| && !w[c];
    assert inverted[c];
    var bit := Ffs(inverted);
    pos := OBJS_PER_WORD * word + bit;
    assert pos / OBJS_PER_WORD == word && pos % OBJS_PER_WORD == bit;
    forall i: nat | i < pos ensures Bit(pool.mask, i) {
      if i >= OBJS_PER_WORD * word {
        var k := i - OBJS_PER_WORD * word;
        assert i / OBJS_PER_WORD == word && i % OBJS_PER_WORD == k && !inverted[k];
      }
    }
    TakenOk(l, pool, pos, true);
    pool' := Pool(pool.free - 1, WithBit(pool.mask, pos, true));
  }

  /** `mem_pool_free` (src/alloc.c:234-251). */
  method PoolFree(l: Layout, pool: Pool, offs: nat) returns (pool': Pool)
    requires PoolOk(l, pool) && Used(l, pool, offs / l.objSize)
    ensures pool' == Taken(l, pool, offs / l.objSize, false) && PoolOk(l, pool') && pool'.free <= l.objCount
  {
    MaskCovers(l);
    var pos := offs / l.objSize;
    TakenOk(l, pool, pos, false);
    pool' := Pool(pool.free + 1, WithBit(pool.mask, pos, false));
  }

  // ---- addresses -----------------------------------------------------------------------------

  /** The address of object `i` of the pool that starts at page `p`. */
  function Addr(l: Layout, p: nat, i: nat): nat { PageVa(p) + i * l.objSize }

  /** The blocks that hold the pools are naturally aligned. */
  predicate PoolAligned(l: Layout, p: nat) {
    p % Size(l.poolOrder) == 0 && HIGHER_BASE % PoolSize(l.poolOrder) == 0
  }

  lemma BaseAligned(order: nat)
    requires order <= 18
    ensures HIGHER_BASE % PoolSize(order) == 0
  {
    SizeFactor(order, 18 - order);
    LargestOrder();
    hide Size;
    var a, k, m := Size(order), Size(18 - order), HIGHER_BASE / 0x4000_0000;
    Regroup(a, k, m);
    MultipleMod(m * k, a * PAGE);
  }

  lemma Regroup(a: nat, k: nat, m: nat)
    ensures m * (a * k) * PAGE == (a * PAGE) * (m * k)
  {
  }

  lemma LargestOrder()
    ensures Size(18) == 0x4_0000
  {
    assert Size(6) == 64 && Size(12) == 0x1000;
  }

  lemma {:induction false} SizeFactor(a: nat, b: nat)
    ensures Size(a + b) == Size(a) * Size(b)
  {
    if b > 0 { SizeFactor(a, b - 1); }
  }

  /** An address inside a pool leads back to the pool and, divided by the object size, to the object. */
  lemma PoolOfAddress(l: Layout, p: nat, i: nat)
    requires LayoutOk(l) && i < l.objCount && PoolAligned(l, p)
    ensures AlignDown(Addr(l, p, i), PoolSize(l.poolOrder)) == PageVa(p)
    ensures (Addr(l, p, i) - PageVa(p)) / l.objSize == i
  {
    var n := PoolSize(l.poolOrder);
    ObjectInside(l, i);
    PageVaAligned(l, p);
    var q := PageVa(p) / n;
    DivUnique(q, i * l.objSize, n);
    MultipleMod(i, l.objSize);
  }

  lemma ObjectInside(l: Layout, i: nat)
    requires LayoutOk(l) && i < l.objCount
    ensures i * l.objSize + l.objSize <= l.metaOffs < PoolSize(l.poolOrder)
  {
    MulMonotone(i + 1, l.objCount, l.objSize);
    MetaSizeIs(l.objCount);
  }

  lemma PageVaAligned(l: Layout, p: nat)
    requires PoolAligned(l, p)
    ensures PageVa(p) % PoolSize(l.poolOrder) == 0
    ensures PageVa(p) == PoolSize(l.poolOrder) * (PageVa(p) / PoolSize(l.poolOrder))
  {
    var s, n := Size(l.poolOrder), PoolSize(l.poolOrder);
    var a, b := HIGHER_BASE / n, p / s;
    assert p == s * b;
    assert p * PAGE == n * b;
    assert HIGHER_BASE == n * a;
    assert PageVa(p) == n * (a + b);
    MultipleMod(a + b, n);
  }

  /** Two objects of a pool do not overlap, and none reaches into the metadata. */
  lemma ObjectsApart(l: Layout, p: nat, i: nat, j: nat)
    requires LayoutOk(l) && i < j < l.objCount
    ensures Addr(l, p, i) + l.objSize <= Addr(l, p, j)
    ensures Addr(l, p, j) + l.objSize <= PageVa(p) + l.metaOffs
  {
    hide LayoutOk, PageVa;
    MulMonotone(i + 1, j, l.objSize);
    assert (i + 1) * l.objSize == i * l.objSize + l.objSize;
    ObjectInside(l, j);
  }

  // ---- page use ------------------------------------------------------------------------------

  /** The cache bit of a page and the union behind it (inc/memory.h:33-37). */
  datatype PageUse = OfCache(id: nat) | OfOrder(order: nat)

  /** Pages p, p + 1, ... get the same use. */
  function Marked(use: map<nat, PageUse>, p: nat, n: nat, v: PageUse): map<nat, PageUse> {
    if n == 0 then use else Marked(use, p, n - 1, v)[p + n - 1 := v]
  }

  function UseOf(use: map<nat, PageUse>, q: nat): PageUse { if q in use then use[q] else OfOrder(0) }

  lemma {:induction false} MarkedAt(use: map<nat, PageUse>, p: nat, n: nat, v: PageUse, q: nat)
    ensures UseOf(Marked(use, p, n, v), q) == if p <= q < p + n then v else UseOf(use, q)
  {
    if n > 0 { MarkedAt(use, p, n - 1, v, q); }
  }

  class PageTable {
    var use: map<nat, PageUse>

    /** The marking loops of `mem_pool_create` and `mem_pool_destroy` (src/alloc.c:118-121 and 137-140). */
    method Mark(p: nat, n: nat, v: PageUse)
      modifies this
      ensures use == Marked(old(use), p, n, v)
    {
      var i: nat := 0;
      while i != n
        invariant i <= n && use == Marked(old(use), p, i, v)
      {
        use := use[p + i := v];
        i := i + 1;
      }
    }
  }

  // ---- the three lists -----------------------------------------------------------------------

  /** Every pool is on the list its count of free objects names. */
  ghost predicate ListsOk(l: Layout, pools: map<nat, Pool>, free: seq<nat>, partial: seq<nat>, busy: seq<nat>) {
    && NoDup(free) && NoDup(partial) && NoDup(busy)
    && (forall p :: p in free <==> p in pools && pools[p].free == l.objCount)
    && (forall p :: p in partial <==> p in pools && 0 < pools[p].free < l.objCount)
    && (forall p :: p in busy <==> p in pools && pools[p].free == 0)
  }

  ghost predicate PoolsOk(l: Layout, pools: map<nat, Pool>) {
    LayoutOk(l) && forall p :: p in pools ==> PoolOk(l, pools[p]) && PoolAligned(l, p)
  }

  /** Object `i` of pool `p` is in use. */
  ghost predicate InUse(l: Layout, pools: map<nat, Pool>, p: nat, i: nat)
    requires PoolsOk(l, pools)
  {
    p in pools && Used(l, pools[p], i)
  }

  /** Between `pools` and `pools'` object `i` of pool `p` was taken (or given back) and nothing else. */
  ghost predicate OnlyObject(l: Layout, pools: map<nat, Pool>, pools': map<nat, Pool>, p: nat, i: nat, b: bool)
    requires PoolsOk(l, pools) && PoolsOk(l, pools')
  {
    forall q, j :: InUse(l, pools', q, j) <==> if q == p && j == i then b else InUse(l, pools, q, j)
  }

  lemma OneObject(l: Layout, pools: map<nat, Pool>, p: nat, i: nat, b: bool)
    requires PoolsOk(l, pools) && p in pools && i < l.objCount && Used(l, pools[p], i) != b
    ensures
      var pools' := pools[p := Taken(l, pools[p], i, b)];
      PoolsOk(l, pools') && OnlyObject(l, pools, pools', p, i, b)
  {
    TakenOk(l, pools[p], i, b);
  }

  /** A pool has one free object more: full pools become partial, and the last object makes a free pool. */
  lemma ListsFreed(l: Layout, pools: map<nat, Pool>, free: seq<nat>, partial: seq<nat>, busy: seq<nat>, p: nat,
                   pool: Pool)
    requires LayoutOk(l) && ListsOk(l, pools, free, partial, busy) && p in pools &&
      pool.free == pools[p].free + 1 <= l.objCount
    ensures pool.free == 1 ==> ListsOk(l, pools[p := pool], free, [p] + partial, Without(busy, p))
    ensures pool.free == l.objCount ==> ListsOk(l, pools[p := pool], [p] + free, Without(partial, p), busy)
    ensures 1 < pool.free < l.objCount ==> ListsOk(l, pools[p := pool], free, partial, busy)
  {
    WithoutMembers(busy, p);
    WithoutMembers(partial, p);
    if pool.free == 1 {
      PushedMembers(partial, p);
    } else if pool.free == l.objCount {
      PushedMembers(free, p);
    }
  }

  /** A pool has one free object less; with more than one object a free pool becomes a partial one. */
  lemma ListsTaken(l: Layout, pools: map<nat, Pool>, free: seq<nat>, partial: seq<nat>, busy: seq<nat>, p: nat,
                   pool: Pool)
    requires LayoutOk(l) && ListsOk(l, pools, free, partial, busy) && p in pools && pool.free == pools[p].free - 1
    requires pools[p].free <= l.objCount
    ensures p in partial && pool.free == 0 ==> ListsOk(l, pools[p := pool], free, Without(partial, p), [p] + busy)
    ensures p in partial && pool.free > 0 ==> ListsOk(l, pools[p := pool], free, partial, busy)
    ensures p in free ==> ListsOk(l, pools[p := pool], Without(free, p), [p] + partial, busy)
  {
    WithoutMembers(free, p);
    WithoutMembers(partial, p);
    if p in partial && pool.free == 0 {
      PushedMembers(busy, p);
    } else if p in free {
      PushedMembers(partial, p);
    }
  }

  lemma ListsNew(l: Layout, pools: map<nat, Pool>, free: seq<nat>, partial: seq<nat>, busy: seq<nat>, p: nat,
                 pool: Pool)
    requires LayoutOk(l) && ListsOk(l, pools, free, partial, busy) && p !in pools && pool.free == l.objCount - 1
    ensures ListsOk(l, pools[p := pool], free, [p] + partial, busy)
  {
    PushedMembers(partial, p);
  }

  // ---- a cache -------------------------------------------------------------------------------

  class Cache {
    const id: nat
    const layout: Layout
    var pools: map<nat, Pool>
    var freePools: seq<nat>
    var partialPools: seq<nat>
    var busyPools: seq<nat>

    ghost predicate Valid()
      reads this
    {
      PoolsOk(layout, pools) && ListsOk(layout, pools, freePools, partialPools, busyPools)
    }

    /** The pools lie in blocks this cache holds. */
    ghost predicate Backed(held: set<Block>)
      reads this
    {
      forall p :: p in pools ==> Block(p, layout.poolOrder) in held
    }

    /** `mem_cache_setup` (src/alloc.c:145-154). */
    constructor (id: nat, size: nat, align: nat)
      requires size > 0 && align > 0
      ensures Valid() && this.id == id && pools == map[]
      ensures LayoutFor(layout, size, align)
    {
      var l := LayoutSetup(size, align);
      this.id, layout := id, l;
      pools, freePools, partialPools, busyPools := map[], [], [], [];
    }

    /** `mem_pool_create` (src/alloc.c:108-129): a pool with no object in use, on no list yet. */
    method PoolCreate(zone: Buddy.Zone, table: PageTable) returns (ok: bool, p: nat)
      requires PoolsOk(layout, pools) && zone.Valid() && Backed(zone.held)
      modifies this`pools, zone`lists, zone`held, zone.pages, table
      ensures zone.Valid() && PoolsOk(layout, pools) && forall q :: zone.Owns(q) <==> old(zone.Owns(q))
      ensures ok <==> layout.poolOrder <= MAX_ORDER && old(zone.CanGive(layout.poolOrder))
      ensures !ok ==> pools == old(pools) && zone.held == old(zone.held) && table.use == old(table.use)
      ensures ok ==> Block(p, layout.poolOrder) !in old(zone.held) && p !in old(pools)
      ensures ok ==> zone.held == old(zone.held) + {Block(p, layout.poolOrder)}
      ensures ok ==> table.use == Marked(old(table.use), p, Size(layout.poolOrder), OfCache(id))
      ensures ok ==> p in pools && pools == old(pools)[p := pools[p]] && pools[p].free == layout.objCount
      ensures ok ==> forall i: nat :: !Used(layout, pools[p], i)
    {
      hide Used, Marked, Buddy.Zone.CanGive, Size, Buddy.Zone.Valid;
      ok, p := false, 0;
      if layout.poolOrder > MAX_ORDER {
        return;
      }
      ok, p := zone.Alloc(layout.poolOrder);
      if !ok {
        return;
      }
      HeldAligned(zone, layout, p);
      table.Mark(p, Size(layout.poolOrder), OfCache(id));
      MaskCovers(layout);
      var mask := BitmapSetup(layout.objCount, layout.maskWords);
      FreshPool(layout, mask);
      pools := pools[p := Pool(layout.objCount, mask)];
    }

    /** An object is taken from pool `p`, which moves to the list its count now names. */
    method TakeFrom(p: nat) returns (ptr: nat, ghost i: nat)
      requires PoolsOk(layout, pools) && p in pools && pools[p].free > 0
      modifies this`pools
      ensures PoolsOk(layout, pools) && i < layout.objCount && ptr == Addr(layout, p, i)
      ensures p in pools && pools == old(pools)[p := pools[p]] && pools[p].free == old(pools)[p].free - 1
      ensures forall j: nat :: j < i ==> InUse(layout, old(pools), p, j)
      ensures !InUse(layout, old(pools), p, i) && OnlyObject(layout, old(pools), pools, p, i, true)
    {
      var pool', pos := PoolAlloc(layout, pools[p]);
      OneObject(layout, pools, p, pos, true);
      ptr, i := PageVa(p) + pos * layout.objSize, pos;
      pools := pools[p := pool'];
    }

    /** A partial pool gives the object (src/alloc.c:255-266). */
    method AllocPartial() returns (ptr: nat, ghost p: nat, ghost i: nat)
      requires Valid() && partialPools != []
      modifies this
      ensures Valid() && i < layout.objCount && ptr == Addr(layout, p, i) && p in old(pools) &&
        pools.Keys == old(pools).Keys
      ensures forall j: nat :: j < i ==> InUse(layout, old(pools), p, j)
      ensures !InUse(layout, old(pools), p, i) && OnlyObject(layout, old(pools), pools, p, i, true)
      ensures p == old(partialPools)[0] && freePools == old(freePools)
      ensures partialPools == if pools[p].free == 0 then old(partialPools)[1..] else old(partialPools)
      ensures busyPools == if pools[p].free == 0 then [p] + old(busyPools) else old(busyPools)
    {
      hide PoolsOk, OnlyObject, InUse;
      var pool := partialPools[0];
      assert pool in partialPools;
      p := pool;
      ptr, i := TakeFrom(pool);
      PoolsLayout(layout, pools);
      ListsTaken(layout, old(pools), freePools, partialPools, busyPools, pool, pools[pool]);
      hide ListsOk;
      if pools[pool].free == 0 {
        partialPools := Without(partialPools, pool);
        busyPools := [pool] + busyPools;
      }
    }

    /** A pool with all objects free gives it (src/alloc.c:268-279). */
    method AllocFree() returns (ptr: nat, ghost p: nat, ghost i: nat)
      requires Valid() && freePools != []
      modifies this
      ensures Valid() && i < layout.objCount && ptr == Addr(layout, p, i) && p in old(pools) &&
        pools.Keys == old(pools).Keys
      ensures forall j: nat :: j < i ==> InUse(layout, old(pools), p, j)
      ensures !InUse(layout, old(pools), p, i) && OnlyObject(layout, old(pools), pools, p, i, true)
      ensures p == old(freePools)[0] && freePools == old(freePools)[1..]
      ensures partialPools == [p] + old(partialPools) && busyPools == old(busyPools)
    {
      hide PoolsOk, OnlyObject, InUse;
      var pool := freePools[0];
      assert pool in freePools;
      p := pool;
      PoolsLayout(layout, pools);
      ptr, i := TakeFrom(pool);
      ListsTaken(layout, old(pools), freePools, partialPools, busyPools, pool, pools[pool]);
      hide ListsOk;
      if pools[pool].free != layout.objCount {
        freePools := Without(freePools, pool);
        partialPools := [pool] + partialPools;
      }
    }

    /** Every object of every pool is in use. */
    ghost predicate AllUsed()
      reads this
      requires PoolsOk(layout, pools)
    {
      forall q, j: nat :: q in pools && j < layout.objCount ==> InUse(layout, pools, q, j)
    }

    lemma NothingFree()
      requires Valid() && partialPools == [] && freePools == []
      ensures AllUsed()
    {
      forall q, j: nat | q in pools && j < layout.objCount ensures InUse(layout, pools, q, j) {
        assert q !in freePools && q !in partialPools;
        FullPool(layout, pools[q], j);
      }
    }

    /** `__mem_cache_alloc` (src/alloc.c:253-290): the lowest free object of the first pool that has been used in
        part, or of the first unused one; a new pool only when every object is in use. */
    method Alloc(zone: Buddy.Zone, table: PageTable) returns (ptr: Option<nat>, ghost p: nat, ghost i: nat)
      requires Valid() && zone.Valid() && Backed(zone.held)
      modifies this, zone`lists, zone`held, zone.pages, table
      ensures Valid() && zone.Valid() && Backed(zone.held) && forall q :: zone.Owns(q) <==> old(zone.Owns(q))
      ensures ptr.None? <==> old(CannotServe(zone))
      ensures ptr.None? ==> pools == old(pools) && zone.held == old(zone.held) && table.use == old(table.use)
      ensures ptr.Some? ==> i < layout.objCount && ptr.value == Addr(layout, p, i)
      ensures ptr.Some? ==> pools.Keys == old(pools).Keys + {p}
      ensures ptr.Some? ==> !InUse(layout, old(pools), p, i) && OnlyObject(layout, old(pools), pools, p, i, true)
      ensures ptr.Some? ==> forall j: nat :: j < i ==> InUse(layout, old(pools), p, j)
      ensures old(partialPools) != [] ==> ptr.Some? && p == old(partialPools)[0] && freePools == old(freePools)
      ensures old(partialPools) != [] ==>
        && partialPools == (if pools[p].free == 0 then old(partialPools)[1..] else old(partialPools))
        && busyPools == (if pools[p].free == 0 then [p] + old(busyPools) else old(busyPools))
      ensures old(partialPools) == [] && old(freePools) != [] ==> ptr.Some? && p == old(freePools)[0]
      ensures old(partialPools) == [] && ptr.Some? ==>
        && partialPools == [p] && busyPools == old(busyPools)
        && freePools == if old(freePools) == [] then [] else old(freePools)[1..]
      ensures ptr.Some? && p !in old(pools) ==> old(partialPools) == [] && old(freePools) == [] && old(AllUsed())
      ensures ptr.Some? && p in old(pools) ==> zone.held == old(zone.held) && table.use == old(table.use)
      ensures ptr.Some? && p !in old(pools) ==>
        Block(p, layout.poolOrder) !in old(zone.held) && zone.held == old(zone.held) + {Block(p, layout.poolOrder)}
      ensures ptr.Some? && p !in old(pools) ==>
        table.use == Marked(old(table.use), p, Size(layout.poolOrder), OfCache(id))
    {
      hide PoolsOk, ListsOk, OnlyObject, InUse, Used, LayoutOk, Addr, Marked, Size, NoDup;
      p, i := 0, 0;
      if partialPools != [] {
        var a;
        a, p, i := AllocPartial();
        return Some(a), p, i;
      }
      if freePools != [] {
        var a;
        a, p, i := AllocFree();
        return Some(a), p, i;
      }
      NothingFree();
      ptr, p, i := AllocNew(zone, table);
    }

    /** The end of it: an object of a new pool (src/alloc.c:281-289). */
    method AllocNew(zone: Buddy.Zone, table: PageTable) returns (ptr: Option<nat>, ghost p: nat, ghost i: nat)
      requires Valid() && zone.Valid() && Backed(zone.held) && partialPools == [] && freePools == []
      modifies this, zone`lists, zone`held, zone.pages, table
      ensures Valid() && zone.Valid() && Backed(zone.held) && forall q :: zone.Owns(q) <==> old(zone.Owns(q))
      ensures ptr.None? <==> old(CannotServe(zone))
      ensures ptr.None? ==> pools == old(pools) && zone.held == old(zone.held) && table.use == old(table.use)
      ensures ptr.Some? ==> i < layout.objCount && ptr.value == Addr(layout, p, i)
      ensures ptr.Some? ==> p !in old(pools) && pools.Keys == old(pools).Keys + {p}
      ensures ptr.Some? ==> !InUse(layout, old(pools), p, i) && OnlyObject(layout, old(pools), pools, p, i, true)
      ensures ptr.Some? ==> forall j: nat :: j < i ==> InUse(layout, old(pools), p, j)
      ensures ptr.Some? ==>
        Block(p, layout.poolOrder) !in old(zone.held) && zone.held == old(zone.held) + {Block(p, layout.poolOrder)}
      ensures ptr.Some? ==> table.use == Marked(old(table.use), p, Size(layout.poolOrder), OfCache(id))
      ensures ptr.Some? ==> partialPools == [p] && busyPools == old(busyPools) && freePools == []
    {
      hide PoolsOk, ListsOk, OnlyObject, InUse, Used, LayoutOk, Addr, Marked, Size, NoDup, Buddy.Zone.Valid;
      p, i := 0, 0;
      var ok, pool := PoolCreate(zone, table);
      if !ok {
        return None, p, i;
      }
      p := pool;
      ghost var mid := pools;
      PoolsLayout(layout, pools);
      var a;
      a, i := TakeFrom(pool);
      assert pools == old(pools)[pool := pools[pool]];
      FirstOfNew(layout, mid, p, i);
      NewPoolUnused(layout, old(pools), mid, pools, p, i);
      ListsNew(layout, old(pools), freePools, partialPools, busyPools, pool, pools[pool]);
      partialPools := [pool] + partialPools;
      return Some(a), p, i;
    }

    /** `mem_pool_destroy` (src/alloc.c:131-143). */
    method PoolDestroy(zone: Buddy.Zone, table: PageTable, p: nat)
      requires zone.Valid() && p in pools && Block(p, layout.poolOrder) in zone.held && pools[p].free == layout.objCount
      modifies this`pools, zone`lists, zone`held, zone.pages, table
      ensures zone.Valid() && zone.held == old(zone.held) - {Block(p, layout.poolOrder)}
      ensures forall q :: zone.Owns(q) <==> old(zone.Owns(q))
      ensures pools == old(pools) - {p}
      ensures table.use == Marked(old(table.use), p, Size(layout.poolOrder), OfOrder(0))
    {
      hide Buddy.Zone.Valid;
      table.Mark(p, Size(layout.poolOrder), OfOrder(0));
      zone.Free(p, layout.poolOrder);
      pools := pools - {p};
    }

    /** `mem_cache_shrink` (src/alloc.c:156-177): the pools without an object in use go back to the page
        allocator, and no others. */
    method Shrink(zone: Buddy.Zone, table: PageTable)
      requires Valid() && zone.Valid() && Backed(zone.held)
      modifies this, zone`lists, zone`held, zone.pages, table
      ensures Valid() && zone.Valid() && Backed(zone.held) && forall q :: zone.Owns(q) <==> old(zone.Owns(q))
      ensures forall p :: p in pools <==> p in old(pools) && old(pools)[p].free != layout.objCount
      ensures forall p :: p in pools ==> pools[p] == old(pools)[p]
      ensures zone.held == old(zone.held) - Blocks(old(pools).Keys - pools.Keys, layout.poolOrder)
      ensures Unmarked(old(table.use), table.use, old(freePools), Size(layout.poolOrder))
    {
      hide PoolsOk, ListsOk, Unmarked, Buddy.Zone.Valid, Size, Marked, Blocks;
      var list := freePools;
      freePools := [];
      ghost var pools0, n := pools, Size(layout.poolOrder);
      ShrinkStart(layout, pools0, list, partialPools, busyPools, table.use, n);
      for k := 0 to |list|
        invariant zone.Valid() && Backed(zone.held) && freePools == [] && partialPools == old(partialPools) &&
          busyPools == old(busyPools)
        invariant forall q :: zone.Owns(q) <==> old(zone.Owns(q))
        invariant pools == Left(pools0, list[..k])
        invariant zone.held == old(zone.held) - Blocks(pools0.Keys - pools.Keys, layout.poolOrder)
        invariant Unmarked(old(table.use), table.use, list[..k], n)
      {
        var p := list[k];
        ShrinkRound(layout, pools0, list, k, old(zone.held));
        UnmarkedNext(old(table.use), table.use, list, k, n);
        PoolDestroy(zone, table, p);
      }
      assert list[..|list|] == list;
      ShrinkEnd(layout, pools0, list, partialPools, busyPools);
    }

    /** No pool has a free object, and the page allocator has no block for another pool. */
    ghost predicate CannotServe(zone: Buddy.Zone)
      reads this, zone
    {
      partialPools == [] && freePools == [] && !(layout.poolOrder <= MAX_ORDER && zone.CanGive(layout.poolOrder))
    }

    /** `__mem_cache_free` (src/alloc.c:301-318): the pool is found by rounding the address down. */
    method Free(ptr: nat, ghost p: nat, ghost i: nat)
      requires Valid() && InUse(layout, pools, p, i) && ptr == Addr(layout, p, i)
      modifies this
      ensures Valid() && pools.Keys == old(pools).Keys && OnlyObject(layout, old(pools), pools, p, i, false)
      ensures partialPools == if pools[p].free == 1 then [p] + old(partialPools)
                              else if pools[p].free == layout.objCount then Without(old(partialPools), p)
                              else old(partialPools)
      ensures freePools == if pools[p].free == layout.objCount then [p] + old(freePools) else old(freePools)
    {
      hide ListsOk, OnlyObject, NoDup;
      var poolSize := PoolSize(layout.poolOrder);
      var addr := AlignDown(ptr, poolSize);
      PoolOfAddress(layout, p, i);
      var pool := (addr - HIGHER_BASE) / PAGE;
      assert pool == p;
      OneObject(layout, pools, p, i, false);
      var pool' := PoolFree(layout, pools[pool], ptr - addr);
      ListsFreed(layout, pools, freePools, partialPools, busyPools, pool, pool');
      pools := pools[pool := pool'];
      if pool'.free == 1 {
        busyPools := Without(busyPools, pool);
        partialPools := [pool] + partialPools;
      }
      if pool'.free == layout.objCount {
        partialPools := Without(partialPools, pool);
        freePools := [pool] + freePools;
      }
    }
  }

  ghost function Blocks(ps: set<nat>, order: nat): set<Block> {
    set p | p in ps :: Block(p, order)
  }

  ghost predicate InSome(list: seq<nat>, n: nat, q: nat) {
    exists p :: p in list && p <= q < p + n
  }

  /** The pages of the pools in `list` have no use any more, and the others have the one they had. */
  ghost predicate Unmarked(use: map<nat, PageUse>, use': map<nat, PageUse>, list: seq<nat>, n: nat) {
    forall q :: UseOf(use', q) == if InSome(list, n, q) then OfOrder(0) else UseOf(use, q)
  }

  lemma UnmarkedNext(use: map<nat, PageUse>, use1: map<nat, PageUse>, list: seq<nat>, k: nat, n: nat)
    requires k < |list| && Unmarked(use, use1, list[..k], n)
    ensures Unmarked(use, Marked(use1, list[k], n, OfOrder(0)), list[..k + 1], n)
  {
    var p := list[k];
    assert list[..k + 1] == list[..k] + [p];
    forall q
      ensures UseOf(Marked(use1, p, n, OfOrder(0)), q)
           == if InSome(list[..k + 1], n, q) then OfOrder(0) else UseOf(use, q)
    {
      MarkedAt(use1, p, n, OfOrder(0), q);
      InSomeNext(list, k, n, q);
    }
  }

  lemma InSomeNext(list: seq<nat>, k: nat, n: nat, q: nat)
    requires k < |list|
    ensures InSome(list[..k + 1], n, q) <==> InSome(list[..k], n, q) || list[k] <= q < list[k] + n
  {
    assert list[..k + 1] == list[..k] + [list[k]];
    if InSome(list[..k], n, q) {
      var p :| p in list[..k] && p <= q < p + n;
      assert p in list[..k + 1];
    }
    if list[k] <= q < list[k] + n { assert list[k] in list[..k + 1]; }
  }

  ghost function Left(pools: map<nat, Pool>, gone: seq<nat>): map<nat, Pool> {
    map p | p in pools && p !in gone :: pools[p]
  }

  lemma ShrinkStart(l: Layout, pools: map<nat, Pool>, list: seq<nat>, partial: seq<nat>, busy: seq<nat>,
                    use: map<nat, PageUse>, n: nat)
    requires ListsOk(l, pools, list, partial, busy)
    ensures NoDup(list) && forall p :: p in list <==> p in pools && pools[p].free == l.objCount
    ensures list[..0] == [] && Left(pools, list[..0]) == pools && Blocks(pools.Keys - pools.Keys, l.poolOrder) == {}
    ensures Unmarked(use, use, list[..0], n)
  {
  }

  lemma ShrinkRound(l: Layout, pools: map<nat, Pool>, list: seq<nat>, k: nat, held: set<Block>)
    requires NoDup(list) && k < |list| && (forall p :: p in list ==> p in pools && pools[p].free == l.objCount)
    requires forall p :: p in pools ==> Block(p, l.poolOrder) in held
    ensures
      var p, now, next := list[k], Left(pools, list[..k]), Left(pools, list[..k + 1]);
      && p in now && now[p].free == l.objCount && next == now - {p}
      && Block(p, l.poolOrder) in held - Blocks(pools.Keys - now.Keys, l.poolOrder)
      && held - Blocks(pools.Keys - next.Keys, l.poolOrder) ==
        held - Blocks(pools.Keys - now.Keys, l.poolOrder) - {Block(p, l.poolOrder)}
  {
    var p := list[k];
    assert list[..k + 1] == list[..k] + [p];
    assert p in list && p !in list[..k];
    var now, next := Left(pools, list[..k]), Left(pools, list[..k + 1]);
    assert next == now - {p};
    assert pools.Keys - next.Keys == pools.Keys - now.Keys + {p};
  }

  lemma ShrinkEnd(l: Layout, pools: map<nat, Pool>, list: seq<nat>, partial: seq<nat>, busy: seq<nat>)
    requires PoolsOk(l, pools) && ListsOk(l, pools, list, partial, busy)
    ensures PoolsOk(l, Left(pools, list)) && ListsOk(l, Left(pools, list), [], partial, busy)
  {
  }

  lemma PoolsLayout(l: Layout, pools: map<nat, Pool>)
    requires PoolsOk(l, pools)
    ensures LayoutOk(l) && forall p :: p in pools ==> pools[p].free <= l.objCount
  {
  }

  lemma FirstOfNew(l: Layout, pools: map<nat, Pool>, p: nat, i: nat)
    requires PoolsOk(l, pools) && p in pools && (forall j: nat :: !Used(l, pools[p], j))
    requires i > 0 ==> InUse(l, pools, p, 0)
    ensures i == 0
  {
  }

  lemma NewPoolUnused(l: Layout, pools: map<nat, Pool>, mid: map<nat, Pool>, pools': map<nat, Pool>, p: nat, i: nat)
    requires PoolsOk(l, pools) && PoolsOk(l, mid) && PoolsOk(l, pools')
    requires p !in pools && p in mid && mid == pools[p := mid[p]] && (forall j: nat :: !Used(l, mid[p], j))
    requires OnlyObject(l, mid, pools', p, i, true)
    ensures !InUse(l, pools, p, i) && OnlyObject(l, pools, pools', p, i, true)
  {
    forall q, j ensures InUse(l, pools', q, j) <==> if q == p && j == i then true else InUse(l, pools, q, j) {
      assert InUse(l, mid, q, j) <==> InUse(l, pools, q, j);
    }
  }

  lemma FreshPool(l: Layout, mask: seq<Word>)
    requires LayoutOk(l) && |mask| == l.maskWords && Words(mask)
    requires forall i: nat :: i < OBJS_PER_WORD * l.maskWords ==>
      (Bit(mask, i) <==>
        i >= l.objCount && !(l.objCount % OBJS_PER_WORD == 0 && i / OBJS_PER_WORD == l.objCount / OBJS_PER_WORD))
    ensures PoolOk(l, Pool(l.objCount, mask)) && forall i: nat :: !Used(l, Pool(l.objCount, mask), i)
  {
    MaskCovers(l);
    ZerosAll(mask, l.objCount);
  }

  lemma HeldAligned(zone: Buddy.Zone, l: Layout, p: nat)
    requires zone.Valid() && Block(p, l.poolOrder) in zone.held && l.poolOrder <= MAX_ORDER
    ensures PoolAligned(l, p)
  {
    Buddy.Partition(zone.View({}), 0);
    BaseAligned(l.poolOrder);
  }
}
