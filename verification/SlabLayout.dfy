/**
 The layout of slab pools (src/alloc.c:62-90): objects from the start of the pool, and at its end the
 pool header with one bit for each object.
 */
module SlabLayout {
  import opened Arithmetic
  import opened BuddyBlocks

  const PAGE: nat := 4096
  const HEADER: nat := 48
  const WORD_SZ: nat := 8
  const OBJS_PER_WORD: nat := 64
  const MIN_POOL_OBJS: nat := 8

  /** The layout part of `struct mem_cache` (inc/alloc.h:24-29). */
  datatype Layout = Layout(metaOffs: nat, objCount: nat, maskWords: nat, objSize: nat, poolOrder: nat)

  function Ceil(a: nat, b: nat): nat
    requires b > 0
  {
    (a + b - 1) / b
  }

  function AlignUp(size: nat, align: nat): nat
    requires align > 0
  {
    align * Ceil(size, align)
  }

  function AlignDown(size: nat, align: nat): nat
    requires align > 0
  {
    align * (size / align)
  }

  /** `meta_size` (src/alloc.c:62-69). */
  function MetaSize(objs: nat): nat
    requires objs > 0
  {
    AlignUp(HEADER + (Ceil(objs, OBJS_PER_WORD) - 1) * WORD_SZ, WORD_SZ)
  }

  lemma MetaSizeIs(objs: nat)
    requires objs > 0
    ensures MetaSize(objs) == 40 + 8 * Ceil(objs, OBJS_PER_WORD)
  {
  }

  function PoolSize(order: nat): (n: nat)
    ensures n > 0
  {
    Size(order) * PAGE
  }

  /** `n` objects of size `obj` fit beside their own metadata. */
  predicate Fits(obj: nat, n: nat, pool: nat)
    requires n > 0
  {
    obj * n + MetaSize(n) <= pool
  }

  /** What the rest of the allocator relies on. */
  predicate LayoutOk(l: Layout) {
    && l.objSize > 0 && l.objCount >= 3 && l.maskWords == Ceil(l.objCount, OBJS_PER_WORD)
    && l.metaOffs + MetaSize(l.objCount) == PoolSize(l.poolOrder) && l.objSize * l.objCount <= l.metaOffs
  }

  lemma AlignUpIs(size: nat, align: nat)
    requires align > 0
    ensures size <= AlignUp(size, align) < size + align && AlignUp(size, align) % align == 0
  {
    var q, r := (size + align - 1) / align, (size + align - 1) % align;
    assert size + align - 1 == align * q + r;
    MultipleMod(q, align);
  }

  /** More objects need more room. */
  lemma FitsMonotone(obj: nat, m: nat, n: nat, pool: nat)
    requires 0 < m <= n && Fits(obj, n, pool)
    ensures Fits(obj, m, pool)
  {
    MulMonotone(m, n, obj);
    MetaSizeIs(m);
    MetaSizeIs(n);
  }

  /** `ilog2` (src/alloc.c:27-37): the smallest power of two that is not less. */
  method ILog2(x: nat) returns (power: nat)
    ensures x <= Size(power)
    ensures power > 0 ==> Size(power - 1) < x
  {
    var val := 1;
    power := 0;
    while val < x
      invariant val == Size(power)
      invariant power > 0 ==> Size(power - 1) < x
      decreases x - val
    {
      val := 2 * val;
      power := power + 1;
    }
  }

  /** Three objects always fit, because dividing by the page size loses less than a page. */
  lemma ThreeFit(obj: nat, pool: nat)
    requires pool >= PAGE && pool >= MinSize(obj) / PAGE * PAGE
    ensures Fits(obj, 3, pool)
  {
  }

  // ---- when eight objects fit ----------------------------------------------------------------

  predicate PowerOfTwo(n: nat) {
    n == 1 || (n > 1 && n % 2 == 0 && PowerOfTwo(n / 2))
  }

  lemma {:induction false} PowerIsSize(n: nat) returns (k: nat)
    requires PowerOfTwo(n)
    ensures Size(k) == n
  {
    if n == 1 {
      k := 0;
    } else {
      k := PowerIsSize(n / 2);
      k := k + 1;
    }
  }

  lemma {:induction false} SizeIsPower(k: nat)
    ensures PowerOfTwo(Size(k))
  {
    if k > 0 { SizeIsPower(k - 1); }
  }

  lemma {:induction false} SizeGrows(j: nat, k: nat)
    requires j < k
    ensures Size(j) < Size(k)
  {
    if j < k - 1 { SizeGrows(j, k - 1); }
  }

  /** The room that the pool of objects of size `obj` is meant to have (src/alloc.c:75-76). */
  function MinSize(obj: nat): nat { obj * MIN_POOL_OBJS + MetaSize(MIN_POOL_OBJS) }

  /** The size comes out short: cutting it down to whole pages leaves a power of two, which is not
      rounded up again. */
  predicate ComesShort(obj: nat) {
    PowerOfTwo(MinSize(obj) / PAGE) && MinSize(obj) % PAGE != 0
  }

  /** A pool has the room it is meant to have exactly when its size does not come out short. */
  lemma RoomForEight(obj: nat, order: nat)
    requires MinSize(obj) / PAGE <= Size(order) && (order > 0 ==> Size(order - 1) < MinSize(obj) / PAGE)
    ensures MinSize(obj) <= PoolSize(order) <==> !ComesShort(obj)
  {
    var pages := MinSize(obj) / PAGE;
    SizeIsPower(order);
    if PowerOfTwo(pages) {
      var k := PowerIsSize(pages);
      if order < k { SizeGrows(order, k); }
      if k < order - 1 { SizeGrows(k, order - 1); }
      assert k == order;
    }
  }

  /** A pool holds at least eight objects if and only if its size does not come out short. */
  lemma EightFit(obj: nat, count: nat, order: nat)
    requires obj > 0 && count > 0 && Fits(obj, count, PoolSize(order))
    requires forall n: nat :: n > count ==> !Fits(obj, n, PoolSize(order))
    requires MinSize(obj) / PAGE <= Size(order) && (order > 0 ==> Size(order - 1) < MinSize(obj) / PAGE)
    ensures count >= MIN_POOL_OBJS <==> !ComesShort(obj)
  {
    RoomForEight(obj, order);
    if count >= MIN_POOL_OBJS {
      FitsMonotone(obj, MIN_POOL_OBJS, count, PoolSize(order));
    } else {
      assert !Fits(obj, MIN_POOL_OBJS, PoolSize(order));
    }
  }

  /** The pool of the cache for 960 bytes holds four. */
  lemma FourOf960(count: nat, order: nat)
    requires count > 0 && Fits(960, count, PoolSize(order))
    requires forall n: nat :: n > count ==> !Fits(960, n, PoolSize(order))
    requires MinSize(960) / PAGE <= Size(order) && (order > 0 ==> Size(order - 1) < MinSize(960) / PAGE)
    ensures ComesShort(960) && count == 4
  {
    assert order == 0;
    assert Fits(960, 4, PoolSize(0));
  }

  /** The layout that a cache for objects of this size and alignment has: as many objects as fit in a pool, whose size
      is the pages needed for eight, rounded up to a power of two. */
  ghost predicate LayoutFor(l: Layout, size: nat, align: nat)
    requires align > 0
  {
    && LayoutOk(l) && l.objSize % align == 0 && size <= l.objSize < size + align
    && Fits(l.objSize, l.objCount, PoolSize(l.poolOrder))
    && (forall n: nat :: n > l.objCount ==> !Fits(l.objSize, n, PoolSize(l.poolOrder)))
    && MinSize(l.objSize) / PAGE <= Size(l.poolOrder)
    && (l.poolOrder > 0 ==> Size(l.poolOrder - 1) < MinSize(l.objSize) / PAGE)
    && (l.objCount >= MIN_POOL_OBJS <==> !ComesShort(l.objSize))
  }

  /** `mem_cache_layout_setup` (src/alloc.c:71-90). */
  method LayoutSetup(size: nat, align: nat) returns (l: Layout)
    requires size > 0 && align > 0
    ensures LayoutFor(l, size, align)
  {
    AlignUpIs(size, align);
    var objSize := AlignUp(size, align);
    var minSize := MinSize(objSize);
    var poolOrder := ILog2(minSize / PAGE);
    var poolSize := PoolSize(poolOrder);
    ThreeFit(objSize, poolSize);
    var objs := poolSize / objSize;
    RoughCount(objSize, poolSize);
    while !Fits(objSize, objs, poolSize)
      invariant objs >= 3
      invariant forall n: nat :: n > objs ==> !Fits(objSize, n, poolSize)
      decreases objs
    {
      objs := objs - 1;
    }
    EightFit(objSize, objs, poolOrder);
    l := Layout(poolSize - MetaSize(objs), objs, Ceil(objs, OBJS_PER_WORD), objSize, poolOrder);
  }

  lemma RoughCount(obj: nat, pool: nat)
    requires obj > 0 && Fits(obj, 3, pool)
    ensures pool / obj >= 3
    ensures forall n: nat :: n > pool / obj ==> !Fits(obj, n, pool)
  {
    hide MetaSize;
    var q := pool / obj;
    Quotient(pool, obj);
    if q < 3 { MulMonotone(q + 1, 3, obj); }
    forall n: nat | n > q ensures !Fits(obj, n, pool) {
      MulMonotone(q + 1, n, obj);
    }
  }

  lemma Quotient(x: nat, n: nat)
    requires n > 0
    ensures x < (x / n + 1) * n
  {
    assert x == n * (x / n) + x % n;
  }
}
