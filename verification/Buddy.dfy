/**
 The buddy page allocator of src/memory.c: per-order free lists and page descriptors of one zone.
 */
module Buddy {
  import opened Collections
  import opened BuddyBlocks

  /** The part of `struct page` the allocator uses: the free flag and the order (src/memory.c:6-39). */
  datatype Page = Page(free: bool, order: nat)

  /** The free blocks: list `k` holds the heads of those of order `k`. */
  ghost function FreeBlocks(lists: seq<seq<nat>>): set<Block> {
    set k: nat, i: nat | k < |lists| && i in lists[k] :: Block(i, k)
  }

  lemma FreeBlocksPush(lists: seq<seq<nat>>, k: nat, i: nat)
    requires k < |lists|
    ensures FreeBlocks(lists[k := [i] + lists[k]]) == FreeBlocks(lists) + {Block(i, k)}
    ensures FreeBlocks(lists[k := lists[k] + [i]]) == FreeBlocks(lists) + {Block(i, k)}
  {
  }

  lemma FreeBlocksDrop(lists: seq<seq<nat>>, k: nat, i: nat)
    requires k < |lists| && i in lists[k] && NoDup(lists[k])
    ensures FreeBlocks(lists[k := Without(lists[k], i)]) == FreeBlocks(lists) - {Block(i, k)}
  {
    WithoutMembers(lists[k], i);
  }

  // ---- the invariant, as a relation between values -------------------------------------------

  /** A zone: its bounds, its lists and descriptors, the blocks callers hold, and the block an
      operation has in hand (none between operations). */
  datatype State = State(begin: nat, end: nat, lists: seq<seq<nat>>, pages: seq<Page>,
                         held: set<Block>, hand: set<Block>)
  {
    ghost function Free(): set<Block> { FreeBlocks(lists) }

    ghost function All(): set<Block> { Free() + held + hand }

    predicate InZone(p: int) { begin <= p < end }

    function At(p: int): Page
      requires InZone(p) && |pages| == end - begin
    {
      pages[p - begin]
    }

    ghost predicate Shaped() {
      && begin <= end && |pages| == end - begin && |lists| == MAX_ORDER + 1
      && (forall k :: 0 <= k < |lists| ==> NoDup(lists[k]))
    }

    /** Free, held and in-hand blocks are different, aligned, apart, and in the zone. */
    ghost predicate Tiled() {
      && Separate(All()) && Free() !! held && Free() !! hand && held !! hand
      && (forall b :: b in All() ==> begin <= b.idx && b.idx + Size(b.order) <= end)
    }

    /** Page `p` lies in a known block that starts elsewhere, so its flags mean nothing. */
    ghost predicate Stale(p: int) {
      exists c :: c in All() && c.Has(p) && c.idx != p
    }

    /** A page that reads as free is the head of such a free block, or its flags are stale. */
    ghost predicate Truthful(p: nat)
      requires |pages| == end - begin
    {
      InZone(p) && At(p).free ==>
        && Block(p, At(p).order).Aligned()
        && (Block(p, At(p).order) in Free() || Stale(p) || exists h :: h in hand && h.idx == p)
    }

    ghost predicate Flagged()
      requires Shaped() && Tiled()
    {
      && (forall b :: b in Free() ==> At(b.idx) == Page(true, b.order))
      && (forall p: nat :: Truthful(p))
    }

    ghost predicate Valid() {
      Shaped() && Tiled() && Coalesced(Free()) && Flagged()
    }

    ghost predicate Owns(p: int) { Covered(All(), p) }
  }

  /** The merge test is truthful although absorbed buddies keep stale flags (src/memory.c:325-334). */
  lemma MergeTestTruthful(s: State, h: Block)
    requires s.Valid() && s.hand == {h} && h.order < MAX_ORDER
    ensures h.Aligned()
    ensures var b := BuddyOf(h);
      s.InZone(b.idx) ==> (s.At(b.idx) == Page(true, h.order) <==> b in s.Free())
  {
    assert h in s.All();
    var b := BuddyOf(h);
    BuddyPair(h.idx, h.order);
    if s.InZone(b.idx) && s.At(b.idx) == Page(true, h.order) && b !in s.Free() {
      assert s.Truthful(b.idx);
      var c :| c in s.All() && c.Has(b.idx) && c.idx != b.idx;
      BuddyEngulfed(h, c);
      assert false;
    }
  }

  lemma OwnsSame(s: State, t: State)
    requires s.All() == t.All()
    ensures forall p :: s.Owns(p) <==> t.Owns(p)
  {
  }

  lemma StaleSame(s: State, t: State, p: int)
    requires s.All() == t.All()
    ensures s.Stale(p) <==> t.Stale(p)
  {
  }

  // ---- the steps of allocation and release ---------------------------------------------------

  /** The first block of list `k` is marked busy and taken off (src/memory.c:245-250). */
  ghost function Take(s: State, k: nat): State
    requires s.Shaped() && k < |s.lists| && s.lists[k] != [] && s.InZone(s.lists[k][0])
  {
    var i := s.lists[k][0];
    s.(lists := s.lists[k := s.lists[k][1..]],
       pages := s.pages[i - s.begin := s.At(i).(free := false)],
       hand := {Block(i, k)})
  }

  lemma TakeValid(s: State, k: nat)
    requires s.Valid() && s.hand == {} && k < |s.lists| && s.lists[k] != []
    ensures s.InZone(s.lists[k][0]) && Block(s.lists[k][0], k) in s.Free()
    ensures var t := Take(s, k); t.Valid() && t.All() == s.All() && !t.At(s.lists[k][0]).free
  {
    hide LowBitsZero;
    var i := s.lists[k][0];
    var b := Block(i, k);
    assert b in s.Free();
    assert b in s.All();
    var t := Take(s, k);
    assert t.Free() == s.Free() - {b} by {
      FreeBlocksDrop(s.lists, k, i);
      assert Without(s.lists[k], i) == s.lists[k][1..];
    }
    assert t.All() == s.All();
    forall p: nat ensures t.Truthful(p) {
      assert s.Truthful(p) && b in t.hand;
      StaleSame(s, t, p);
    }
  }

  /** The upper half of the block in hand becomes free (src/memory.c:253-259). */
  ghost function Split(s: State, h: Block): State
    requires s.Shaped() && 0 < h.order < |s.lists| && s.InZone(h.idx + Size(h.order - 1))
  {
    var k := h.order - 1;
    var b := h.idx + Size(k);
    s.(lists := s.lists[k := [b] + s.lists[k]],
       pages := s.pages[b - s.begin := Page(true, k)],
       hand := {Block(h.idx, k)})
  }

  /** Splitting a block leaves every page where it was: in the lower half or in the upper one. */
  lemma SplitBlocks(s: State, h: Block)
    requires s.Valid() && s.hand == {h} && h.order > 0
    ensures s.InZone(h.idx + Size(h.order - 1))
    ensures var t, lo, hi := Split(s, h), Block(h.idx, h.order - 1), Block(h.idx + Size(h.order - 1), h.order - 1);
      && t.Free() == s.Free() + {hi} && t.All() == s.All() - {h} + {lo, hi}
      && lo.Aligned() && hi.Aligned() && h.Includes(lo) && h.Includes(hi) && lo.Apart(hi)
      && (forall p :: h.Has(p) <==> lo.Has(p) || hi.Has(p))
      && hi !in s.All() && lo !in s.All() && BuddyOf(hi) == lo
  {
    var k := h.order - 1;
    assert h in s.All();
    Halves(h.idx, k);
    FreeBlocksPush(s.lists, k, h.idx + Size(k));
    var lo, hi := Block(h.idx, k), Block(h.idx + Size(k), k);
    assert forall b :: b in s.All() && b != h ==> b.Apart(h);
  }

  lemma SplitTiled(s: State, h: Block)
    requires s.Valid() && s.hand == {h} && h.order > 0
    ensures s.InZone(h.idx + Size(h.order - 1))
    ensures Split(s, h).Shaped() && Split(s, h).Tiled() && Coalesced(Split(s, h).Free())
  {
    hide NoDup, Coalesced, BuddyOf;
    SplitBlocks(s, h);
    SplitCoalesced(s, h);
    var t, lo, hi := Split(s, h), Block(h.idx, h.order - 1), Block(h.idx + Size(h.order - 1), h.order - 1);
    assert h in s.All();
    assert forall b :: b in s.All() && b != h ==> b.Apart(lo) && b.Apart(hi);
    assert hi.idx !in s.lists[hi.order] by { assert hi !in s.Free(); }
    PushedMembers(s.lists[hi.order], hi.idx);
  }

  lemma SplitCoalesced(s: State, h: Block)
    requires s.Valid() && s.hand == {h} && h.order > 0
    ensures s.InZone(h.idx + Size(h.order - 1)) && Coalesced(Split(s, h).Free())
  {
    hide NoDup;
    SplitBlocks(s, h);
    var F, hi := Split(s, h).Free(), Block(h.idx + Size(h.order - 1), h.order - 1);
    forall b | b in F && b.order < MAX_ORDER ensures BuddyOf(b) !in F {
      if BuddyOf(b) == hi { BuddyPair(b.idx, b.order); }
    }
  }

  lemma SplitTruthful(s: State, h: Block, p: nat)
    requires s.Valid() && s.hand == {h} && h.order > 0
    ensures s.InZone(h.idx + Size(h.order - 1)) && Split(s, h).Truthful(p)
  {
    hide NoDup, Coalesced;
    SplitBlocks(s, h);
    var t, lo, hi := Split(s, h), Block(h.idx, h.order - 1), Block(h.idx + Size(h.order - 1), h.order - 1);
    assert s.Truthful(p) && lo in t.hand;
    if p != hi.idx && s.Stale(p) {
      var c :| c in s.All() && c.Has(p) && c.idx != p;
      var d := if c != h then c else if lo.Has(p) then lo else hi;
      if d == lo { assert p != h.idx; }
      assert d in t.All() && d.Has(p) && d.idx != p;
    }
  }

  lemma SplitHeads(s: State, h: Block)
    requires s.Valid() && s.hand == {h} && h.order > 0
    ensures s.InZone(h.idx + Size(h.order - 1))
    ensures var t := Split(s, h);
      t.Tiled() && (forall b :: b in t.Free() ==> t.At(b.idx) == Page(true, b.order)) && t.At(h.idx) == s.At(h.idx)
  {
    hide NoDup, Coalesced, BuddyOf;
    SplitBlocks(s, h);
    SplitTiled(s, h);
    var t, hi := Split(s, h), Block(h.idx + Size(h.order - 1), h.order - 1);
    assert h in s.All();
    forall b | b in t.Free() ensures t.At(b.idx) == Page(true, b.order) {
      assert b in t.All();
      if b != hi { assert b in s.Free() && b in s.All() && b.Apart(h); }
    }
  }

  lemma SplitValid(s: State, h: Block)
    requires s.Valid() && s.hand == {h} && h.order > 0
    ensures s.InZone(h.idx + Size(h.order - 1)) && Split(s, h).Valid()
    ensures Split(s, h).At(h.idx) == s.At(h.idx) && Split(s, h).hand == {Block(h.idx, h.order - 1)}
  {
    SplitTiled(s, h);
    SplitHeads(s, h);
    forall p: nat ensures Split(s, h).Truthful(p) { SplitTruthful(s, h, p); }
  }

  lemma SplitKeeps(s: State, h: Block)
    requires s.Valid() && s.hand == {h} && h.order > 0
    ensures s.InZone(h.idx + Size(h.order - 1)) && forall p :: Split(s, h).Owns(p) <==> s.Owns(p)
  {
    SplitBlocks(s, h);
    var lo, hi := Block(h.idx, h.order - 1), Block(h.idx + Size(h.order - 1), h.order - 1);
    assert h in s.All();
    SplitOwns(s, Split(s, h), h, lo, hi);
  }

  lemma SplitOwns(s: State, t: State, h: Block, lo: Block, hi: Block)
    requires h in s.All() && lo in t.All() && hi in t.All() && t.All() == s.All() - {h} + {lo, hi}
    requires forall p :: h.Has(p) <==> lo.Has(p) || hi.Has(p)
    ensures forall p :: t.Owns(p) <==> s.Owns(p)
  {
    forall p ensures t.Owns(p) <==> s.Owns(p) {
      if s.Owns(p) {
        var b :| b in s.All() && b.Has(p);
        var d := if b != h then b else if lo.Has(p) then lo else hi;
        assert d in t.All() && d.Has(p);
      }
      if t.Owns(p) {
        var b :| b in t.All() && b.Has(p);
        var d := if b == lo || b == hi then h else b;
        assert d in s.All() && d.Has(p);
      }
    }
  }

  /** The block in hand goes to the caller (src/memory.c:262). */
  ghost function Hold(s: State, h: Block): State {
    s.(held := s.held + {h}, hand := {})
  }

  lemma HoldValid(s: State, h: Block)
    requires s.Valid() && s.hand == {h}
    ensures s.InZone(h.idx) && (!s.At(h.idx).free ==> Hold(s, h).Valid()) && Hold(s, h).All() == s.All()
  {
    hide NoDup;
    var t := Hold(s, h);
    assert h in s.All();
    assert t.All() == s.All();
    if !s.At(h.idx).free {
      forall p: nat ensures t.Truthful(p) {
        assert s.Truthful(p);
        StaleSame(s, t, p);
      }
    }
  }

  /** A caller hands a block back (src/memory.c:318-321). */
  ghost function Release(s: State, h: Block): State {
    s.(held := s.held - {h}, hand := {h})
  }

  lemma ReleaseValid(s: State, h: Block)
    requires s.Valid() && s.hand == {} && h in s.held
    ensures Release(s, h).Valid() && Release(s, h).All() == s.All()
  {
    var t := Release(s, h);
    assert t.All() == s.All();
    forall p: nat ensures t.Truthful(p) {
      assert s.Truthful(p);
      StaleSame(s, t, p);
    }
  }

  function Lower(h: Block): Block {
    if BuddyOf(h).idx < h.idx then BuddyOf(h) else h
  }

  /** The block in hand is joined with its free buddy (src/memory.c:336-342).  The flags of the buddy
      are left as they are. */
  ghost function Merge(s: State, h: Block): State
    requires h.order < |s.lists| && BuddyOf(h).idx in s.lists[h.order]
  {
    s.(lists := s.lists[h.order := Without(s.lists[h.order], BuddyOf(h).idx)],
       hand := {Block(Lower(h).idx, h.order + 1)})
  }

  lemma MergeBlocks(s: State, h: Block)
    requires s.Valid() && s.hand == {h} && BuddyOf(h) in s.Free() && h.order < MAX_ORDER
    ensures BuddyOf(h).idx in s.lists[h.order]
    ensures var t, b, m := Merge(s, h), BuddyOf(h), Block(Lower(h).idx, h.order + 1);
      && t.Free() == s.Free() - {b} && t.All() == s.All() - {h, b} + {m} && b in s.All() && h in s.All() && b != h
      && m.Aligned() && m.Includes(h) && m.Includes(b)
      && (forall p :: m.Has(p) <==> h.Has(p) || b.Has(p)) && m !in s.All()
  {
    hide NoDup, Coalesced, LowBitsZero;
    var b, m := BuddyOf(h), Block(Lower(h).idx, h.order + 1);
    assert h in s.All() && b in s.All();
    BuddyPair(h.idx, h.order);
    FreeBlocksDrop(s.lists, h.order, b.idx);
    assert !m.Apart(h);
  }

  lemma MergeTiled(s: State, h: Block)
    requires s.Valid() && s.hand == {h} && BuddyOf(h) in s.Free() && h.order < MAX_ORDER
    ensures BuddyOf(h).idx in s.lists[h.order]
    ensures Merge(s, h).Shaped() && Merge(s, h).Tiled() && Coalesced(Merge(s, h).Free())
  {
    hide NoDup;
    MergeBlocks(s, h);
    var t, b, m := Merge(s, h), BuddyOf(h), Block(Lower(h).idx, h.order + 1);
    WithoutMembers(s.lists[h.order], b.idx);
    forall c | c in s.All() && c != h && c != b ensures c.Apart(m) {
      assert c.Apart(h) && c.Apart(b);
      BuddyPair(h.idx, h.order);
    }
    assert forall c :: c in t.All() && c != m ==> c in s.All() && c != h && c != b;
  }

  lemma MergeTruthful(s: State, h: Block, p: nat)
    requires s.Valid() && s.hand == {h} && BuddyOf(h) in s.Free() && h.order < MAX_ORDER
    ensures BuddyOf(h).idx in s.lists[h.order] && Merge(s, h).Truthful(p)
  {
    hide NoDup, Coalesced, LowBitsZero;
    MergeBlocks(s, h);
    var t, b, m := Merge(s, h), BuddyOf(h), Block(Lower(h).idx, h.order + 1);
    assert s.Truthful(p) && m in t.hand && m in t.All();
    if p != m.idx && t.InZone(p) && t.At(p).free {
      if h.Has(p) || b.Has(p) {
        assert t.Stale(p);
      } else if s.Stale(p) {
        var c :| c in s.All() && c.Has(p) && c.idx != p;
        assert c in t.All();
      }
    }
  }

  lemma MergeHeads(s: State, h: Block)
    requires s.Valid() && s.hand == {h} && BuddyOf(h) in s.Free() && h.order < MAX_ORDER
    ensures BuddyOf(h).idx in s.lists[h.order] && Merge(s, h).Tiled() && Merge(s, h).Shaped()
    ensures forall b :: b in Merge(s, h).Free() ==> Merge(s, h).At(b.idx) == Page(true, b.order)
  {
    MergeBlocks(s, h);
    MergeTiled(s, h);
  }

  lemma MergeValid(s: State, h: Block)
    requires s.Valid() && s.hand == {h} && BuddyOf(h) in s.Free() && h.order < MAX_ORDER
    ensures BuddyOf(h).idx in s.lists[h.order] && Merge(s, h).Valid()
  {
    MergeTiled(s, h);
    MergeHeads(s, h);
    forall p: nat ensures Merge(s, h).Truthful(p) { MergeTruthful(s, h, p); }
  }

  lemma MergeKeeps(s: State, h: Block)
    requires s.Valid() && s.hand == {h} && BuddyOf(h) in s.Free() && h.order < MAX_ORDER
    ensures BuddyOf(h).idx in s.lists[h.order]
    ensures forall p :: Merge(s, h).Owns(p) <==> s.Owns(p)
  {
    MergeBlocks(s, h);
    var t, b, m := Merge(s, h), BuddyOf(h), Block(Lower(h).idx, h.order + 1);
    assert m in t.All();
    SplitOwns(t, s, m, h, b);
  }

  /** The block in hand is put at the front of its list and marked free (src/memory.c:345-348). */
  ghost function Put(s: State, h: Block): State
    requires s.Shaped() && h.order < |s.lists| && s.InZone(h.idx)
  {
    s.(lists := s.lists[h.order := [h.idx] + s.lists[h.order]],
       pages := s.pages[h.idx - s.begin := Page(true, h.order)],
       hand := {})
  }

  lemma PutTiled(s: State, h: Block)
    requires s.Valid() && s.hand == {h} && (h.order < MAX_ORDER ==> BuddyOf(h) !in s.Free())
    ensures s.InZone(h.idx) && Put(s, h).Shaped() && Put(s, h).Tiled() && Coalesced(Put(s, h).Free())
    ensures Put(s, h).All() == s.All() && Put(s, h).Free() == s.Free() + {h}
    ensures forall b :: b in s.Free() ==> b.idx != h.idx
  {
    var t := Put(s, h);
    assert h in s.All();
    FreeBlocksPush(s.lists, h.order, h.idx);
    assert t.All() == s.All();
    assert h.idx !in s.lists[h.order] by { assert h !in s.Free(); }
    forall b | b in t.Free() && b.order < MAX_ORDER ensures BuddyOf(b) !in t.Free() {
      BuddyPair(b.idx, b.order);
    }
    forall b | b in s.Free() ensures b.idx != h.idx { assert b in s.All() && b.Apart(h); }
  }

  lemma PutTruthful(s: State, h: Block, p: nat)
    requires s.Valid() && s.hand == {h} && (h.order < MAX_ORDER ==> BuddyOf(h) !in s.Free())
    ensures s.InZone(h.idx) && Put(s, h).Truthful(p)
  {
    PutTiled(s, h);
    assert h in s.All() && h in Put(s, h).Free() && s.Truthful(p);
    StaleSame(s, Put(s, h), p);
  }

  lemma PutValid(s: State, h: Block)
    requires s.Valid() && s.hand == {h} && (h.order < MAX_ORDER ==> BuddyOf(h) !in s.Free())
    ensures s.InZone(h.idx) && Put(s, h).Valid() && Put(s, h).All() == s.All()
    ensures Put(s, h).Free() == s.Free() + {h}
  {
    PutTiled(s, h);
    forall p: nat ensures Put(s, h).Truthful(p) { PutTruthful(s, h, p); }
  }

  // ---- setting up ----------------------------------------------------------------------------

  /** A new block is put at the end of its list and marked free (src/memory.c:178-180). */
  ghost function Feed(s: State, h: Block): State
    requires s.Shaped() && h.order < |s.lists| && s.InZone(h.idx)
  {
    s.(lists := s.lists[h.order := s.lists[h.order] + [h.idx]],
       pages := s.pages[h.idx - s.begin := Page(true, h.order)])
  }

  /** A block of pages that nobody owns, and that does not complete a pair of free buddies. */
  ghost predicate Feedable(s: State, h: Block) {
    && h.Aligned() && h.order <= MAX_ORDER && s.begin <= h.idx && h.idx + Size(h.order) <= s.end
    && (forall b :: b in s.All() ==> b.Apart(h)) && (h.order < MAX_ORDER ==> BuddyOf(h) !in s.Free())
  }

  lemma FeedTiled(s: State, h: Block)
    requires s.Valid() && s.hand == {} && Feedable(s, h)
    ensures Feed(s, h).Shaped() && Feed(s, h).Tiled() && Coalesced(Feed(s, h).Free())
    ensures Feed(s, h).Free() == s.Free() + {h} && Feed(s, h).All() == s.All() + {h}
  {
    var t := Feed(s, h);
    FreeBlocksPush(s.lists, h.order, h.idx);
    assert h !in s.All();
    assert h.idx !in s.lists[h.order] by { assert h !in s.Free(); }
    forall b | b in t.Free() && b.order < MAX_ORDER ensures BuddyOf(b) !in t.Free() {
      if b != h { assert b in s.All(); }
      BuddyPair(b.idx, b.order);
    }
  }

  lemma FeedTruthful(s: State, h: Block, p: nat)
    requires s.Valid() && s.hand == {} && Feedable(s, h)
    ensures Feed(s, h).Truthful(p)
  {
    FeedTiled(s, h);
    assert s.Truthful(p) && h in Feed(s, h).Free();
    if s.Stale(p) {
      var c :| c in s.All() && c.Has(p) && c.idx != p;
      assert c in Feed(s, h).All();
    }
  }

  lemma FeedValid(s: State, h: Block)
    requires s.Valid() && s.hand == {} && Feedable(s, h)
    ensures Feed(s, h).Valid() && Feed(s, h).Free() == s.Free() + {h} && Feed(s, h).All() == s.All() + {h}
  {
    hide NoDup;
    FeedTiled(s, h);
    forall p: nat ensures Feed(s, h).Truthful(p) { FeedTruthful(s, h, p); }
    forall b | b in s.Free() ensures b.idx != h.idx { assert b in s.All() && b.Apart(h); }
  }

  /** `page & (1 << k)`. */
  predicate BitSet(i: nat, k: nat) {
    if k == 0 then i % 2 == 1 else BitSet(i / 2, k - 1)
  }

  lemma {:induction false} NextBit(i: nat, k: nat)
    requires LowBitsZero(i, k)
    ensures LowBitsZero(i, k + 1) <==> !BitSet(i, k)
  {
    if k > 0 { NextBit(i / 2, k - 1); }
  }

  /** `b` could not have been chosen larger within a range that ends at `to`. */
  predicate Greedy(b: Block, to: int) {
    b.order == MAX_ORDER || !LowBitsZero(b.idx, b.order + 1) || b.idx + Size(b.order + 1) > to
  }

  /** The choice of the order (src/memory.c:166-173). */
  method GreedyOrder(page: nat, to: nat) returns (order: nat)
    requires page < to
    ensures order <= MAX_ORDER && LowBitsZero(page, order) && page + Size(order) <= to && Greedy(Block(page, order), to)
  {
    order := 0;
    while order < MAX_ORDER
      invariant order <= MAX_ORDER && LowBitsZero(page, order) && page + Size(order) <= to
    {
      NextBit(page, order);
      if BitSet(page, order) {
        break;
      }
      if page + Size(order + 1) > to {
        break;
      }
      order := order + 1;
    }
  }

  /** A block outside [from, to) that does not touch it. */
  predicate Clear(b: Block, from: int, to: int) {
    b.idx + Size(b.order) < from || b.idx > to
  }

  /** A block of [from, page), chosen greedily. */
  predicate Fed(b: Block, from: int, page: int, to: int) {
    from <= b.idx && b.idx + Size(b.order) <= page && Greedy(b, to)
  }

  /** How far feeding [from, to) has got: the pages below `page` are in, by blocks chosen greedily. */
  ghost predicate Feeding(s: State, from: nat, page: nat, to: nat) {
    && s.Valid() && s.hand == {} && s.begin <= from <= page <= to <= s.end
    && (forall b :: b in s.Free() ==> Clear(b, from, to) || Fed(b, from, page, to))
    && (forall b :: b in s.held ==> b.idx + Size(b.order) <= from || b.idx >= to)
  }

  lemma GreedyNoBuddy(b: Block, h: Block, from: int, to: int)
    requires h.Aligned() && h.order < MAX_ORDER && b == BuddyOf(h) && from <= h.idx && h.idx + Size(h.order) <= to
    ensures !Clear(b, from, to) && !Fed(b, from, h.idx, to)
  {
    BuddyPair(h.idx, h.order);
  }

  lemma FeedingApart(s: State, from: nat, page: nat, to: nat, h: Block)
    requires Feeding(s, from, page, to) && h.idx == page && page + Size(h.order) <= to
    ensures forall b :: b in s.All() ==> b.Apart(h)
  {
    forall b | b in s.All() ensures b.Apart(h) {
      if b in s.Free() { assert Clear(b, from, to) || Fed(b, from, page, to); }
    }
  }

  lemma FeedingFeedable(s: State, from: nat, page: nat, to: nat, k: nat)
    requires Feeding(s, from, page, to) && page + Size(k) <= to && k <= MAX_ORDER && LowBitsZero(page, k)
    ensures Feedable(s, Block(page, k))
  {
    var h := Block(page, k);
    FeedingApart(s, from, page, to, h);
    if h.order < MAX_ORDER { GreedyNoBuddy(BuddyOf(h), h, from, to); }
  }

  lemma FeedingStep(s: State, from: nat, page: nat, to: nat, k: nat)
    requires Feeding(s, from, page, to) && page + Size(k) <= to && k <= MAX_ORDER && LowBitsZero(page, k)
    requires Greedy(Block(page, k), to)
    ensures Feedable(s, Block(page, k)) && Feeding(Feed(s, Block(page, k)), from, page + Size(k), to)
    ensures Feed(s, Block(page, k)).Free() == s.Free() + {Block(page, k)}
  {
    var h := Block(page, k);
    FeedingFeedable(s, from, page, to, k);
    FeedValid(s, h);
    FedGrows(s.Free(), h, from, page, to);
  }

  lemma FedGrows(F: set<Block>, h: Block, from: int, page: int, to: int)
    requires h.idx == page >= from && Greedy(h, to)
    requires forall b :: b in F ==> Clear(b, from, to) || Fed(b, from, page, to)
    ensures forall b :: b in F + {h} ==> Clear(b, from, to) || Fed(b, from, page + Size(h.order), to)
  {
  }

  // ---- what the pages are used for -----------------------------------------------------------

  /** An aligned block all of whose pages are free. */
  ghost predicate AllFree(F: set<Block>, b: Block) {
    b.Aligned() && forall p :: b.Has(p) ==> Covered(F, p)
  }

  /** Between operations an owned page is either free or held. */
  lemma FreeOrHeld(s: State, p: int)
    requires s.Valid() && s.hand == {}
    ensures Covered(s.Free(), p) <==> s.Owns(p) && !Covered(s.held, p)
  {
    if Covered(s.Free(), p) {
      var b :| b in s.Free() && b.Has(p);
      assert b in s.All();
      assert forall c :: c in s.held ==> c in s.All() && b.Apart(c);
    }
    if s.Owns(p) && !Covered(s.held, p) {
      var b :| b in s.All() && b.Has(p);
      assert b in s.Free();
    }
  }

  /** When one more block is held and no page has come or gone, its pages were free before and are
      the only ones that no longer are; the same, read backwards, for a block handed back. */
  lemma HoldingOne(s: State, t: State, h: Block)
    requires s.Valid() && t.Valid() && s.hand == {} && t.hand == {}
    requires h !in s.held && t.held == s.held + {h} && forall p :: t.Owns(p) <==> s.Owns(p)
    ensures AllFree(s.Free(), h)
    ensures forall p :: Covered(t.Free(), p) <==> Covered(s.Free(), p) && !h.Has(p)
  {
    assert h in t.All();
    forall p
      ensures Covered(t.Free(), p) <==> Covered(s.Free(), p) && !h.Has(p)
      ensures h.Has(p) ==> Covered(s.Free(), p)
    {
      FreeOrHeld(s, p);
      FreeOrHeld(t, p);
      HeldCovers(s, t, h, p);
    }
  }

  /** Without a free block of order `k` or more there is no aligned free run of that size. */
  lemma NoneFree(s: State, k: nat)
    requires s.Valid() && s.hand == {} && k <= MAX_ORDER && forall b :: b in s.Free() ==> b.order < k
    ensures !exists b :: AllFree(s.Free(), b) && b.order == k
  {
    if b :| AllFree(s.Free(), b) && b.order == k {
      assert forall c :: c in s.Free() ==> c in s.All();
      var c := CoveredByOne(s.Free(), b);
      assert false;
    }
  }

  lemma HeldCovers(s: State, t: State, h: Block, p: int)
    requires t.Valid() && h !in s.held && t.held == s.held + {h}
    ensures Covered(t.held, p) <==> Covered(s.held, p) || h.Has(p)
    ensures h.Has(p) ==> t.Owns(p) && !Covered(s.held, p)
  {
    assert h in t.held && h in t.All();
    if Covered(s.held, p) {
      var c :| c in s.held && c.Has(p);
      assert c in t.held && c in t.All() && c.Apart(h);
    }
  }

  /** Which blocks are free depends only on which are held: whatever allocations and releases lie
      between two states of a zone, if the same blocks are held the same blocks are free.  With nothing
      held this is the decomposition made at boot. */
  lemma SameHeldSameFree(s: State, t: State)
    requires s.Valid() && t.Valid() && s.hand == {} && t.hand == {}
    requires s.held == t.held && forall p :: s.Owns(p) <==> t.Owns(p)
    ensures s.Free() == t.Free()
  {
    forall p ensures Covered(s.Free(), p) <==> Covered(t.Free(), p) {
      FreeOrHeld(s, p);
      FreeOrHeld(t, p);
    }
    assert s.Free() <= s.All() && t.Free() <= t.All();
    CoalescedUnique(s.Free(), t.Free());
  }

  // ---- runs ----------------------------------------------------------------------------------

  /** The first list from `k` on that has a block (src/memory.c:235-243). */
  ghost function FirstList(lists: seq<seq<nat>>, k: nat): nat
    decreases |lists| - k
  {
    if k >= |lists| || lists[k] != [] then k else FirstList(lists, k + 1)
  }

  lemma {:induction false} FirstListFacts(lists: seq<seq<nat>>, k: nat)
    ensures FirstList(lists, k) >= k && (FirstList(lists, k) < |lists| ==> lists[FirstList(lists, k)] != [])
    decreases |lists| - k
  {
    if k < |lists| && lists[k] == [] { FirstListFacts(lists, k + 1); }
  }

  /** The splitting loop (src/memory.c:252-260). */
  ghost function SplitAll(s: State, h: Block, order: nat): State
    requires s.Valid() && s.hand == {h} && order <= h.order
    decreases h.order
  {
    if h.order == order then s
    else
      SplitValid(s, h);
      SplitAll(Split(s, h), Block(h.idx, h.order - 1), order)
  }

  lemma {:induction false} SplitAllKeeps(s: State, h: Block, order: nat)
    requires s.Valid() && s.hand == {h} && order <= h.order && s.InZone(h.idx)
    ensures var t := SplitAll(s, h, order);
      && t.Valid() && t.hand == {Block(h.idx, order)} && t.held == s.held && t.begin == s.begin && t.end == s.end
      && t.At(h.idx) == s.At(h.idx) && forall p :: t.Owns(p) <==> s.Owns(p)
    decreases h.order
  {
    hide NoDup, Coalesced, LowBitsZero;
    if h.order > order {
      assert h in s.All();
      SplitValid(s, h);
      SplitKeeps(s, h);
      SplitAllKeeps(Split(s, h), Block(h.idx, h.order - 1), order);
    }
  }

  /** `__page_alloc_zone` (src/memory.c:233-263) on a zone with no block in hand. */
  ghost function Allocated(s: State, order: nat): State
    requires s.Valid() && s.hand == {}
  {
    var k := FirstList(s.lists, order);
    if k > MAX_ORDER then s
    else
      FirstListFacts(s.lists, order);
      TakeValid(s, k);
      var h := Block(s.lists[k][0], k);
      Hold(SplitAll(Take(s, k), h, order), Block(h.idx, order))
  }

  /** Allocation keeps the zone valid and loses no page; at most one block more is held. */
  lemma AllocatedKeeps(s: State, order: nat)
    requires s.Valid() && s.hand == {}
    ensures var t := Allocated(s, order);
      && t.Valid() && t.hand == {} && t.begin == s.begin && t.end == s.end && (forall p :: t.Owns(p) <==> s.Owns(p))
      && (t.held == s.held || exists h :: t.held == s.held + {h})
  {
    hide NoDup, Coalesced, LowBitsZero, Separate;
    var k := FirstList(s.lists, order);
    if k <= MAX_ORDER {
      FirstListFacts(s.lists, order);
      TakeValid(s, k);
      var h, s1 := Block(s.lists[k][0], k), Take(s, k);
      OwnsSame(s, s1);
      SplitAllKeeps(s1, h, order);
      var s2 := SplitAll(s1, h, order);
      HoldValid(s2, Block(h.idx, order));
      OwnsSame(s2, Hold(s2, Block(h.idx, order)));
    }
  }

  /** The test of the merging loop (src/memory.c:328-334). */
  ghost predicate MergeTest(s: State, h: Block)
    requires |s.pages| == s.end - s.begin
  {
    s.InZone(BuddyOf(h).idx) && s.At(BuddyOf(h).idx) == Page(true, h.order)
  }

  lemma MergeTestExact(s: State, h: Block)
    requires s.Valid() && s.hand == {h} && h.order < MAX_ORDER
    ensures MergeTest(s, h) <==> BuddyOf(h) in s.Free()
  {
    hide NoDup, Coalesced, LowBitsZero, Separate;
    MergeTestTruthful(s, h);
    assert BuddyOf(h) in s.Free() ==> BuddyOf(h) in s.All();
  }

  /** The merging loop and what follows it (src/memory.c:325-348). */
  ghost function MergeAll(s: State, h: Block): State
    requires s.Valid() && s.hand == {h}
    decreases MAX_ORDER - h.order
  {
    if h.order < MAX_ORDER && MergeTest(s, h) then
      MergeTestExact(s, h);
      MergeValid(s, h);
      MergeAll(Merge(s, h), Block(Lower(h).idx, h.order + 1))
    else
      assert s.InZone(h.idx) by { assert h in s.All(); }
      assert h in s.All();
      Put(s, h)
  }

  lemma {:induction false} MergeAllKeeps(s: State, h: Block)
    requires s.Valid() && s.hand == {h}
    ensures var t := MergeAll(s, h);
      && t.Valid() && t.hand == {} && t.held == s.held && t.begin == s.begin && t.end == s.end
      && forall p :: t.Owns(p) <==> s.Owns(p)
    decreases MAX_ORDER - h.order
  {
    hide NoDup, Coalesced, LowBitsZero, Separate;
    if h.order < MAX_ORDER && MergeTest(s, h) {
      MergeTestExact(s, h);
      MergeValid(s, h);
      MergeKeeps(s, h);
      MergeAllKeeps(Merge(s, h), Block(Lower(h).idx, h.order + 1));
    } else {
      if h.order < MAX_ORDER { MergeTestExact(s, h); }
      PutValid(s, h);
      OwnsSame(s, Put(s, h));
    }
  }

  /** `__page_free_zone` (src/memory.c:318-349) on a block that is held. */
  ghost function Freed(s: State, h: Block): State
    requires s.Valid() && s.hand == {} && h in s.held
  {
    ReleaseValid(s, h);
    MergeAll(Release(s, h), h)
  }

  lemma FreedKeeps(s: State, h: Block)
    requires s.Valid() && s.hand == {} && h in s.held
    ensures var t := Freed(s, h);
      && t.Valid() && t.hand == {} && t.held == s.held - {h} && t.begin == s.begin && t.end == s.end
      && forall p :: t.Owns(p) <==> s.Owns(p)
  {
    hide NoDup, Coalesced, LowBitsZero, Separate;
    ReleaseValid(s, h);
    OwnsSame(s, Release(s, h));
    MergeAllKeeps(Release(s, h), h);
  }

  /** What an allocation that succeeds has done: one aligned free run, and no other page, is held. */
  lemma AllocatedBlock(s: State, order: nat)
    requires s.Valid() && s.hand == {} && order <= MAX_ORDER && FirstList(s.lists, order) <= MAX_ORDER
    ensures
      var k, t := FirstList(s.lists, order), Allocated(s, order);
      && s.lists[k] != []
      && var b := Block(s.lists[k][0], order);
      && t.Valid() && t.held == s.held + {b} && b !in s.held && AllFree(s.Free(), b)
      && (forall p :: Covered(t.Free(), p) <==> Covered(s.Free(), p) && !b.Has(p))
      && (forall p :: Covered(t.Free() + t.held, p) <==> Covered(s.Free() + s.held, p))
  {
    var k, t := FirstList(s.lists, order), Allocated(s, order);
    FirstListFacts(s.lists, order);
    TakeValid(s, k);
    var h := Block(s.lists[k][0], k);
    AllocatedKeeps(s, order);
    SplitAllKeeps(Take(s, k), h, order);
    var b := Block(h.idx, order);
    NotHeld(s, h, b);
    hide NoDup, Coalesced, LowBitsZero, Separate;
    HoldingOne(s, t, b);
    SameOwner(s, t);
  }

  lemma SameOwner(s: State, t: State)
    requires s.hand == {} && t.hand == {} && forall p :: t.Owns(p) <==> s.Owns(p)
    ensures forall p :: Covered(t.Free() + t.held, p) <==> Covered(s.Free() + s.held, p)
  {
    assert s.All() == s.Free() + s.held && t.All() == t.Free() + t.held;
    forall p ensures Covered(t.Free() + t.held, p) <==> Covered(s.Free() + s.held, p) {
      assert t.Owns(p) <==> s.Owns(p);
    }
  }

  lemma NotHeld(s: State, h: Block, b: Block)
    requires s.Valid() && h in s.Free() && b.idx == h.idx
    ensures b !in s.held
  {
    hide NoDup, Coalesced, LowBitsZero;
    assert h in s.All();
    assert b in s.held ==> b in s.All();
  }

  /** What a free has done: the pages of the block, and no others, have become free. */
  lemma FreedBlock(s: State, h: Block)
    requires s.Valid() && s.hand == {} && h in s.held
    ensures
      var t := Freed(s, h);
      && t.Valid() && t.held == s.held - {h} && h.order <= MAX_ORDER
      && (forall p :: Covered(t.Free(), p) <==> Covered(s.Free(), p) || h.Has(p))
      && (forall p :: Covered(t.Free() + t.held, p) <==> Covered(s.Free() + s.held, p))
  {
    assert h in s.All();
    FreedKeeps(s, h);
    hide NoDup, Coalesced, LowBitsZero, Separate;
    HoldingOne(Freed(s, h), s, h);
    SameOwner(s, Freed(s, h));
  }

  lemma InHand(s: State, h: Block)
    requires s.Valid() && s.hand == {h}
    ensures s.InZone(h.idx) && h.order <= MAX_ORDER
  {
    assert h in s.All();
  }

  lemma NotMerged(s: State, h: Block)
    requires s.Valid() && s.hand == {h} && s.InZone(h.idx) && h.order <= MAX_ORDER
    requires h.order < MAX_ORDER ==> !MergeTest(s, h)
    ensures MergeAll(s, h) == Put(s, h)
  {
  }

  /** What callers do with a zone. */
  datatype Op = AllocOp(order: nat) | FreeOp(block: Block)

  ghost predicate Legal(s: State, op: Op) {
    s.Valid() && s.hand == {} && (op.FreeOp? ==> op.block in s.held)
  }

  ghost function Done(s: State, op: Op): State
    requires Legal(s, op)
  {
    match op
    case AllocOp(k) => Allocated(s, k)
    case FreeOp(h) => Freed(s, h)
  }

  /** Callers free only what they hold, at its order. */
  ghost predicate Runs(s: State, ops: seq<Op>)
    decreases |ops|
  {
    ops == [] || (Legal(s, ops[0]) && Runs(Done(s, ops[0]), ops[1..]))
  }

  ghost function After(s: State, ops: seq<Op>): State
    requires Runs(s, ops)
    decreases |ops|
  {
    if ops == [] then s else After(Done(s, ops[0]), ops[1..])
  }

  /** In every run of allocations and frees the zone stays valid, and no page is gained or lost. */
  lemma {:induction false} RunOwns(s: State, ops: seq<Op>)
    requires s.Valid() && s.hand == {} && Runs(s, ops)
    ensures var t := After(s, ops); t.Valid() && t.hand == {} && forall p :: t.Owns(p) <==> s.Owns(p)
    decreases |ops|
  {
    if ops != [] {
      match ops[0] {
        case AllocOp(k) => AllocatedKeeps(s, k);
        case FreeOp(h) => FreedKeeps(s, h);
      }
      hide Done;
      RunOwns(Done(s, ops[0]), ops[1..]);
    }
  }

  /** Any run that ends with the blocks held that were held at its start, in whatever order they were
      handed out and back, ends with the same free blocks. */
  lemma RunRestores(s: State, ops: seq<Op>)
    requires s.Valid() && s.hand == {} && Runs(s, ops) && After(s, ops).held == s.held
    ensures After(s, ops).Free() == s.Free()
  {
    RunOwns(s, ops);
    SameHeldSameFree(s, After(s, ops));
  }

  /** Free and held blocks tile the owned pages, each a multiple of its size from page 0. */
  lemma Partition(s: State, p: int)
    requires s.Valid() && s.hand == {}
    ensures forall b :: b in s.Free() + s.held ==> b.idx % Size(b.order) == 0
    ensures s.Owns(p) <==> Covered(s.Free(), p) || Covered(s.held, p)
    ensures forall b, c :: b in s.Free() + s.held && c in s.Free() + s.held && b.Has(p) && c.Has(p) ==> b == c
  {
    assert s.All() == s.Free() + s.held;
    forall b | b in s.Free() + s.held ensures b.idx % Size(b.order) == 0 { AlignedIsMultiple(b); }
    FreeOrHeld(s, p);
    if Covered(s.held, p) {
      var b :| b in s.held && b.Has(p);
      assert b in s.All();
    }
  }

  // ---- the zone ------------------------------------------------------------------------------

  /** `struct page_alloc_zone` (inc/memory.h:40-47). */
  class Zone {
    const begin: nat
    const end: nat
    const pages: array<Page>
    var lists: seq<seq<nat>>
    /** The blocks that callers have been given and not yet handed back. */
    ghost var held: set<Block>

    ghost function View(hand: set<Block>): State
      reads this, pages
    {
      State(begin, end, lists, pages[..], held, hand)
    }

    ghost predicate Valid()
      reads this, pages
    {
      View({}).Valid()
    }

    ghost function FreeSet(): set<Block>
      reads this
    {
      FreeBlocks(lists)
    }

    /** Page `p` is free or held. */
    ghost predicate Owns(p: int)
      reads this
    {
      Covered(FreeSet() + held, p)
    }

    /** There is an aligned run of 2^order free pages. */
    ghost predicate CanGive(order: nat)
      reads this
    {
      exists b :: AllFree(FreeSet(), b) && b.order == order
    }

    /** A zone whose pages are all busy (src/memory.c:67-83, with the descriptors cleared). */
    constructor (begin: nat, end: nat)
      requires begin <= end
      ensures this.begin == begin && this.end == end && fresh(pages)
      ensures Valid() && FreeSet() == {} && held == {}
    {
      this.begin, this.end := begin, end;
      pages := new Page[end - begin](_ => Page(false, 0));
      lists := seq(MAX_ORDER + 1, _ => []);
      held := {};
    }

    /** A held block starts at a page of the zone. */
    lemma HeldOwned(b: Block)
      requires b in held
      ensures Owns(b.idx)
    {
      assert b in FreeSet() + held && b.Has(b.idx);
    }

    /** The search for a block (src/memory.c:235-243). */
    method FindOrder(order: nat) returns (current: nat)
      requires Valid() && order <= MAX_ORDER
      ensures order <= current <= MAX_ORDER + 1
      ensures current <= MAX_ORDER ==> lists[current] != []
      ensures current == FirstList(lists, order)
      ensures forall b :: b in FreeSet() && b.order >= order ==> b.order >= current
    {
      current := order;
      while current <= MAX_ORDER && lists[current] == []
        invariant order <= current <= MAX_ORDER + 1
        invariant forall b :: b in FreeSet() && b.order >= order ==> b.order >= current
        invariant FirstList(lists, order) == FirstList(lists, current)
      {
        current := current + 1;
      }
    }

    /** One round of the splitting loop (src/memory.c:253-259). */
    method SplitOnce(idx: nat, current: nat)
      requires current < MAX_ORDER && View({Block(idx, current + 1)}).Valid()
      modifies this`lists, pages
      ensures View({Block(idx, current)}) == Split(old(View({Block(idx, current + 1)})), Block(idx, current + 1))
    {
      ghost var s, h := View({Block(idx, current + 1)}), Block(idx, current + 1);
      SplitValid(s, h);
      assert h in s.All();
      Halves(idx, current);
      var bidx := FlipBit(idx, current);
      lists := lists[current := [bidx] + lists[current]];
      pages[bidx - begin] := Page(true, current);
    }

    /** The splitting loop (src/memory.c:252-260). */
    method SplitDown(idx: nat, from: nat, order: nat)
      requires order <= from <= MAX_ORDER && View({Block(idx, from)}).Valid()
      modifies this`lists, pages
      ensures View({Block(idx, order)}) == SplitAll(old(View({Block(idx, from)})), Block(idx, from), order)
    {
      hide NoDup, Coalesced, LowBitsZero, Separate;
      var current := from;
      while current != order
        invariant order <= current <= from && View({Block(idx, current)}).Valid()
        invariant SplitAll(View({Block(idx, current)}), Block(idx, current), order)
               == SplitAll(old(View({Block(idx, from)})), Block(idx, from), order)
      {
        ghost var s, h := View({Block(idx, current)}), Block(idx, current);
        SplitValid(s, h);
        current := current - 1;
        SplitOnce(idx, current);
      }
    }

    /** `__page_alloc_zone` (src/memory.c:233-263): a zone refuses exactly when it has no aligned run
        of free pages of the wanted size, and otherwise hands out such a run. */
    method Alloc(order: nat) returns (ok: bool, idx: nat)
      requires Valid() && order <= MAX_ORDER
      modifies this`lists, this`held, pages
      ensures Valid()
      ensures ok <==> old(CanGive(order))
      ensures ok ==> AllFree(old(FreeSet()), Block(idx, order))
      ensures ok ==> held == old(held) + {Block(idx, order)} && Block(idx, order) !in old(held)
      ensures ok ==> forall p :: Covered(FreeSet(), p) <==> old(Covered(FreeSet(), p)) && !Block(idx, order).Has(p)
      ensures !ok ==> held == old(held) && lists == old(lists)
      ensures View({}) == Allocated(old(View({})), order)
      ensures forall p :: Owns(p) <==> old(Owns(p))
    {
      hide NoDup, LowBitsZero, Coalesced, Separate, Covered, AllFree;
      var current := FindOrder(order);
      idx := 0;
      ghost var s := View({});
      if current > MAX_ORDER {
        ok := false;
        NoneFree(s, order);
        return;
      }
      TakeValid(s, current);
      AllocatedBlock(s, order);
      idx := lists[current][0];
      pages[idx - begin] := pages[idx - begin].(free := false);
      lists := lists[current := lists[current][1..]];
      assert View({Block(idx, current)}) == Take(s, current);
      SplitDown(idx, current, order);
      held := held + {Block(idx, order)};
      assert View({}) == Allocated(s, order);
      ok := true;
    }

    /** One round of the merging loop (src/memory.c:326-342). */
    method MergeOnce(idx: nat, order: nat) returns (merged: bool, lo: nat)
      requires order < MAX_ORDER && View({Block(idx, order)}).Valid()
      modifies this`lists
      ensures merged <==> BuddyOf(Block(idx, order)) in old(FreeSet())
      ensures merged <==> MergeTest(old(View({Block(idx, order)})), Block(idx, order))
      ensures merged ==> BuddyOf(Block(idx, order)).idx in old(lists)[order] && lo == Lower(Block(idx, order)).idx
      ensures merged ==> View({Block(lo, order + 1)}) == Merge(old(View({Block(idx, order)})), Block(idx, order))
      ensures merged ==> View({Block(lo, order + 1)}).Valid()
      ensures merged ==> forall p :: View({Block(lo, order + 1)}).Owns(p) <==> old(View({Block(idx, order)}).Owns(p))
      ensures !merged ==> lists == old(lists)
    {
      hide NoDup, Coalesced, Separate, LowBitsZero;
      ghost var s, h := View({Block(idx, order)}), Block(idx, order);
      MergeTestTruthful(s, h);
      assert forall b :: b in s.Free() ==> b in s.All() && s.InZone(b.idx);
      merged, lo := false, idx;
      var bidx := FlipBit(idx, order);
      if bidx < begin || bidx >= end {
        return;
      }
      var buddy := pages[bidx - begin];
      if !buddy.free || buddy.order != order {
        return;
      }
      MergeValid(s, h);
      MergeKeeps(s, h);
      if bidx < idx {
        lo := bidx;
      }
      lists := lists[order := Without(lists[order], bidx)];
      merged := true;
      assert View({Block(lo, order + 1)}) == Merge(s, h);
    }

    /** `__page_free_zone` (src/memory.c:318-349), for a block the caller holds. */
    method Free(page: nat, ord: nat)
      requires Valid() && Block(page, ord) in held
      modifies this`lists, this`held, pages
      ensures Valid() && held == old(held) - {Block(page, ord)}
      ensures forall p :: Covered(FreeSet(), p) <==> old(Covered(FreeSet(), p)) || Block(page, ord).Has(p)
      ensures View({}) == Freed(old(View({})), Block(page, ord))
      ensures forall p :: Owns(p) <==> old(Owns(p))
    {
      hide NoDup, LowBitsZero, Coalesced, Separate, Covered, MergeAll, MergeTest;
      ghost var s, h := View({}), Block(page, ord);
      ReleaseValid(s, h);
      FreedBlock(s, h);
      held := held - {h};
      assert View({h}) == Release(s, h);
      var idx, order := MergeUp(page, ord);
      ghost var t := View({Block(idx, order)});
      InHand(t, Block(idx, order));
      NotMerged(t, Block(idx, order));
      lists := lists[order := [idx] + lists[order]];
      pages[idx - begin] := Page(true, order);
      assert View({}) == Put(t, Block(idx, order));
    }

    /** The merging loop (src/memory.c:325-343). */
    method MergeUp(page: nat, ord: nat) returns (idx: nat, order: nat)
      requires ord <= MAX_ORDER && View({Block(page, ord)}).Valid()
      modifies this`lists
      ensures order <= MAX_ORDER && View({Block(idx, order)}).Valid()
      ensures order < MAX_ORDER ==> !MergeTest(View({Block(idx, order)}), Block(idx, order))
      ensures MergeAll(View({Block(idx, order)}), Block(idx, order)) ==
        MergeAll(old(View({Block(page, ord)})), Block(page, ord))
    {
      hide NoDup, LowBitsZero, Coalesced, Separate;
      idx, order := page, ord;
      var merged := true;
      while order < MAX_ORDER && merged
        invariant order <= MAX_ORDER && View({Block(idx, order)}).Valid()
        invariant MergeAll(View({Block(idx, order)}), Block(idx, order)) ==
          MergeAll(old(View({Block(page, ord)})), Block(page, ord))
        invariant !merged ==> !MergeTest(View({Block(idx, order)}), Block(idx, order))
        decreases MAX_ORDER - order, merged
      {
        var lo;
        merged, lo := MergeOnce(idx, order);
        if merged {
          idx, order := lo, order + 1;
        }
      }
    }

    /** One block goes on its list (src/memory.c:175-180). */
    method FeedBlock(page: nat, order: nat, ghost from: nat, ghost to: nat)
      requires Feeding(View({}), from, page, to) && page + Size(order) <= to && order <= MAX_ORDER
      requires LowBitsZero(page, order) && Greedy(Block(page, order), to)
      modifies this`lists, pages
      ensures Feeding(View({}), from, page + Size(order), to)
      ensures FreeSet() == old(FreeSet()) + {Block(page, order)}
    {
      ghost var s, h := View({}), Block(page, order);
      FeedingStep(s, from, page, to, order);
      lists := lists[order := lists[order] + [page]];
      pages[page - begin] := Page(true, order);
      assert View({}) == Feed(s, h);
    }

    /** `__page_alloc_zone_free` after its bound checks (src/memory.c:165-182): the pages [from, to),
        which nobody owns and which no free block touches, become free. */
    method FreeRange(from: nat, to: nat)
      requires Valid() && begin <= from <= to <= end
      requires forall b :: b in FreeSet() ==> Clear(b, from, to)
      requires forall b :: b in held ==> b.idx + Size(b.order) <= from || b.idx >= to
      modifies this`lists, pages
      ensures Valid()
      ensures forall p :: Covered(FreeSet(), p) <==> old(Covered(FreeSet(), p)) || from <= p < to
      ensures forall b :: b in FreeSet() ==> b in old(FreeSet()) || (from <= b.idx && b.idx + Size(b.order) <= to)
    {
      var page := from;
      while page != to
        invariant Feeding(View({}), from, page, to)
        invariant forall p :: Covered(FreeSet(), p) <==> old(Covered(FreeSet(), p)) || from <= p < page
        invariant forall b :: b in FreeSet() ==> b in old(FreeSet()) || (from <= b.idx && b.idx + Size(b.order) <= page)
        decreases end - page
      {
        var order := GreedyOrder(page, to);
        CoveredAdd(FreeSet(), Block(page, order));
        FeedBlock(page, order, from, to);
        page := page + Size(order);
      }
    }

    /** The second loop of `page_alloc_setup` for the free ranges of this zone (src/memory.c:214-221):
        ascending page ranges with at least one page between any two. */
    method FreeRanges(ranges: seq<(nat, nat)>)
      requires Valid() && FreeSet() == {} && held == {}
      requires forall i :: 0 <= i < |ranges| ==> begin <= ranges[i].0 <= ranges[i].1 <= end
      requires forall i, j :: 0 <= i < j < |ranges| ==> ranges[i].1 < ranges[j].0
      modifies this`lists, pages
      ensures Valid()
      ensures FreeIs(FreeSet(), ranges)
    {
      hide FreeIs, Valid;
      NoRanges(ranges);
      for i := 0 to |ranges|
        invariant Valid()
        invariant FreeIs(FreeSet(), ranges[..i])
        invariant forall b :: b in FreeSet() && i < |ranges| ==> b.idx + Size(b.order) < ranges[i].0
      {
        ghost var F := FreeSet();
        FreeRange(ranges[i].0, ranges[i].1);
        FreeIsNext(F, FreeSet(), ranges, i);
      }
      assert ranges[..|ranges|] == ranges;
    }
  }

  ghost predicate InRanges(ranges: seq<(nat, nat)>, p: int) {
    exists i :: 0 <= i < |ranges| && ranges[i].0 <= p < ranges[i].1
  }

  /** The free pages are exactly those of the ranges. */
  ghost predicate FreeIs(F: set<Block>, ranges: seq<(nat, nat)>) {
    forall p :: Covered(F, p) <==> InRanges(ranges, p)
  }

  lemma NoRanges(ranges: seq<(nat, nat)>)
    ensures FreeIs({}, ranges[..0])
  {
  }

  lemma FreeIsNext(F: set<Block>, F': set<Block>, ranges: seq<(nat, nat)>, i: nat)
    requires i < |ranges| && FreeIs(F, ranges[..i])
    requires forall p :: Covered(F', p) <==> Covered(F, p) || ranges[i].0 <= p < ranges[i].1
    ensures FreeIs(F', ranges[..i + 1])
  {
    InRangesStep(ranges, i);
  }

  lemma InRangesStep(ranges: seq<(nat, nat)>, n: nat)
    requires n < |ranges|
    ensures forall p :: InRanges(ranges[..n + 1], p) <==> InRanges(ranges[..n], p) || ranges[n].0 <= p < ranges[n].1
  {
    forall p ensures InRanges(ranges[..n + 1], p) <==> InRanges(ranges[..n], p) || ranges[n].0 <= p < ranges[n].1 {
      if InRanges(ranges[..n], p) {
        var i :| 0 <= i < n && ranges[..n][i].0 <= p < ranges[..n][i].1;
        assert ranges[..n + 1][i] == ranges[..n][i];
      }
      if ranges[n].0 <= p < ranges[n].1 { assert ranges[..n + 1][n] == ranges[n]; }
    }
  }

  lemma CoveredAdd(F: set<Block>, h: Block)
    ensures forall p :: Covered(F + {h}, p) <==> Covered(F, p) || h.Has(p)
  {
    forall p ensures Covered(F + {h}, p) <==> Covered(F, p) || h.Has(p) {
      if h.Has(p) { assert h in F + {h}; }
      if Covered(F, p) {
        var b :| b in F && b.Has(p);
        assert b in F + {h};
      }
    }
  }
}
