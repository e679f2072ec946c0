/**
 Aligned power-of-two blocks of pages: the arithmetic behind the buddy allocator (src/memory.c), and
 why a family of free blocks without free buddies is determined by the pages it covers.
 */
module BuddyBlocks {
  import opened Arithmetic

  const MAX_ORDER: nat := 18

  /** `1 << k`. */
  function Size(k: nat): (n: nat)
    ensures n > 0
  {
    if k == 0 then 1 else 2 * Size(k - 1)
  }

  /** The low `k` bits of `i` are zero: `!(i & ((1 << k) - 1))`. */
  predicate LowBitsZero(i: nat, k: nat) {
    k == 0 || (i % 2 == 0 && LowBitsZero(i / 2, k - 1))
  }

  /** `i ^ (1 << k)`: bit `k` is flipped. */
  function FlipBit(i: nat, k: nat): nat {
    if k == 0 then (if i % 2 == 0 then i + 1 else i - 1) else 2 * FlipBit(i / 2, k - 1) + i % 2
  }

  /** A block of `Size(order)` pages that starts at page `idx`. */
  datatype Block = Block(idx: nat, order: nat) {
    predicate Has(p: int) { idx <= p < idx + Size(order) }

    /** The block starts at a multiple of its size (see `AlignedIsMultiple`). */
    predicate Aligned() { LowBitsZero(idx, order) }

    predicate Apart(b: Block) {
      idx + Size(order) <= b.idx || b.idx + Size(b.order) <= idx
    }

    /** All pages of `b` are pages of this block. */
    predicate Includes(b: Block) {
      idx <= b.idx && b.idx + Size(b.order) <= idx + Size(order)
    }
  }

  lemma ModDouble(i: nat, n: nat)
    requires n > 0
    ensures i % (2 * n) == 0 <==> i % 2 == 0 && (i / 2) % n == 0
  {
    var q, r := i / (2 * n), (i / 2) / n;
    if i % (2 * n) == 0 {
      assert i == q * (2 * n) == 2 * (q * n);
      MultipleMod(q, n);
    }
    if i % 2 == 0 && (i / 2) % n == 0 {
      assert i == 2 * (r * n) == r * (2 * n);
      MultipleMod(r, 2 * n);
    }
  }

  /** Alignment is what the name says: the index is a multiple of the block's size. */
  lemma {:induction false} AlignedIsMultiple(b: Block)
    ensures b.Aligned() <==> b.idx % Size(b.order) == 0
    decreases b.order
  {
    if b.order > 0 {
      AlignedIsMultiple(Block(b.idx / 2, b.order - 1));
      ModDouble(b.idx, Size(b.order - 1));
    }
  }

  /** Halving an aligned block. */
  lemma {:induction false} Halves(i: nat, k: nat)
    requires LowBitsZero(i, k + 1)
    ensures LowBitsZero(i, k) && LowBitsZero(i + Size(k), k)
    ensures FlipBit(i, k) == i + Size(k) && FlipBit(i + Size(k), k) == i
  {
    if k > 0 {
      Halves(i / 2, k - 1);
      assert (i + Size(k)) / 2 == i / 2 + Size(k - 1) && (i + Size(k)) % 2 == 0;
    }
  }

  /** An aligned block is one half of an aligned block, and its buddy is the other. */
  lemma {:induction false} BuddyPair(i: nat, k: nat)
    requires LowBitsZero(i, k)
    ensures var b := FlipBit(i, k);
      && LowBitsZero(b, k) && FlipBit(b, k) == i
      && (if b < i then i == b + Size(k) && LowBitsZero(b, k + 1) else b == i + Size(k) && LowBitsZero(i, k + 1))
  {
    if k > 0 {
      BuddyPair(i / 2, k - 1);
      var b := FlipBit(i, k);
      assert b / 2 == FlipBit(i / 2, k - 1) && b % 2 == 0;
    } else {
      assert LowBitsZero(i / 2, 0) && LowBitsZero(FlipBit(i, 0) / 2, 0);
    }
  }

  /** Two aligned blocks that meet are nested. */
  lemma {:induction false} Nested(b: Block, c: Block, p: int)
    requires b.Aligned() && c.Aligned() && b.order <= c.order && b.Has(p) && c.Has(p)
    ensures c.Includes(b)
    decreases b.order
  {
    if b.order > 0 {
      Nested(Block(b.idx / 2, b.order - 1), Block(c.idx / 2, c.order - 1), p / 2);
    }
  }

  /** An aligned block that starts strictly inside another one is smaller. */
  lemma StrictlyInside(b: Block, c: Block)
    requires b.Aligned() && c.Aligned() && c.Has(b.idx) && b.idx != c.idx
    ensures b.order < c.order && c.Includes(b)
  {
    if b.order >= c.order {
      Nested(c, b, b.idx);
    } else {
      Nested(b, c, b.idx);
    }
  }

  /** A block that contains the start of a buddy, but not at its own start, contains both. */
  lemma BuddyEngulfed(h: Block, c: Block)
    requires h.Aligned() && c.Aligned() && c.Has(BuddyOf(h).idx) && c.idx != BuddyOf(h).idx
    ensures c.order > h.order && !c.Apart(h)
  {
    BuddyPair(h.idx, h.order);
    var b := BuddyOf(h);
    StrictlyInside(b, c);
    Nested(Block(if b.idx < h.idx then b.idx else h.idx, h.order + 1), c, b.idx);
  }

  // ---- families of blocks --------------------------------------------------------------------

  ghost predicate Separate(F: set<Block>) {
    && (forall b :: b in F ==> b.Aligned() && b.order <= MAX_ORDER)
    && (forall b, c :: b in F && c in F && b != c ==> b.Apart(c))
  }

  ghost predicate Covered(F: set<Block>, p: int) {
    exists b :: b in F && b.Has(p)
  }

  function BuddyOf(b: Block): Block {
    Block(FlipBit(b.idx, b.order), b.order)
  }

  /** No two buddies below the top order are both in the family. */
  ghost predicate Coalesced(F: set<Block>) {
    forall b :: b in F && b.order < MAX_ORDER ==> BuddyOf(b) !in F
  }

  /** A coalesced family that covers an aligned block has it inside one of its blocks. */
  lemma {:induction false} CoveredByOne(F: set<Block>, x: Block) returns (b: Block)
    requires Separate(F) && Coalesced(F) && x.Aligned() && x.order <= MAX_ORDER
    requires forall p :: x.Has(p) ==> Covered(F, p)
    ensures b in F && b.order >= x.order && b.Includes(x)
    decreases x.order
  {
    hide LowBitsZero, FlipBit;
    if x.order == 0 {
      assert x.Has(x.idx);
      b :| b in F && b.Has(x.idx);
    } else {
      var k := x.order - 1;
      Halves(x.idx, k);
      assert Size(x.order) == Size(k) + Size(k);
      hide Size, Covered;
      var lo, hi := Block(x.idx, k), Block(x.idx + Size(k), k);
      b := CoveredByOne(F, lo);
      if b.order > k {
        Nested(x, b, x.idx);
      } else {
        assert b == lo;
        b := CoveredByOne(F, hi);
        if b.order > k {
          Nested(x, b, x.idx + Size(k));
        } else {
          assert false;
        }
      }
    }
  }

  lemma CoalescedSubset(F: set<Block>, G: set<Block>)
    requires Separate(F) && Coalesced(F) && Separate(G) && Coalesced(G)
    requires forall p :: Covered(F, p) ==> Covered(G, p)
    requires forall p :: Covered(G, p) ==> Covered(F, p)
    ensures F <= G
  {
    forall b | b in F ensures b in G {
      forall p | b.Has(p) ensures Covered(G, p) { assert Covered(F, p); }
      var c := CoveredByOne(G, b);
      forall p | c.Has(p) ensures Covered(F, p) { assert Covered(G, p); }
      var d := CoveredByOne(F, c);
      assert !d.Apart(b);
    }
  }

  /** The free blocks are a function of the set of free pages. */
  lemma CoalescedUnique(F: set<Block>, G: set<Block>)
    requires Separate(F) && Coalesced(F) && Separate(G) && Coalesced(G)
    requires forall p :: Covered(F, p) <==> Covered(G, p)
    ensures F == G
  {
    CoalescedSubset(F, G);
    CoalescedSubset(G, F);
  }
}
