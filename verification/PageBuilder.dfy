/**
 The recursive builder `__pt_map_pages` and its callers (src/paging.c:86-158), and the inner loop of `__kunmap`
 (src/paging.c:363-377).
 */
module PageBuilder {
  import opened Arithmetic
  import opened Collections
  import opened PageTables
  import opened PageNeeds

  /** The request of a call with a closed interval. */
  function Asked(begin: int, last: int, phys: int, bit7: bool): Request { Request(begin, last + 1, phys, bit7) }

  lemma WithinEntry(base: nat, lvl: int, i: nat, begin: nat, last: nat, phys: nat, bit7: bool)
    requires Level(lvl) && Serves(base, lvl, i, begin) && Serves(base, lvl, i, last)
    ensures Within(Asked(begin, last, phys, bit7), base, lvl, i)
  {
  }

  lemma AskedIs(begin: int, last: int, phys: int, bit7: bool)
    ensures Asked(begin, last, phys, bit7) == Request(begin, last + 1, phys, bit7)
  {
  }

  /** A whole entry that is to be mapped begins where it does because its size says so. */
  lemma WholeEntry(begin: nat, lvl: int, i: nat, base: nat)
    requires Level(lvl) && Region(base, lvl) && Serves(base, lvl, i, begin)
    ensures begin % Size(lvl) == 0 ==> begin == base + i * Size(lvl)
  {
    hide Region;
    var q := RegionMultiple(base, lvl);
    assert (q + i) * Size(lvl) == q * Size(lvl) + i * Size(lvl);
    DivUnique(q + i, begin - (q + i) * Size(lvl), Size(lvl));
  }

  lemma AllServed(mem0: Mem, supply0: seq<nat>, mem: Mem, supply: seq<nat>, t: nat, lvl: int, base: nat, q: Request,
                  i: nat, c: int, present: bool)
    requires Level(lvl) && RoundServed(mem0, supply0, mem, supply, t, lvl, base, q, i, c, present) && c == q.end
    ensures Served(mem0, supply0, mem, supply, t, lvl, base, q, present)
    ensures |Needed(mem0, t, lvl, base, q)| <= |supply0|
  {
    assert Front(q, q.end) == q;
  }

  /** What a round is about, and where it leads. */
  lemma RoundOpen(base: nat, lvl: int, b: nat, end: nat, i: nat, d: nat, cur: nat, phys: nat, ph: nat, mapEnd: nat)
    requires Level(lvl) && Round(base, lvl, b, end, i, d, cur, phys, ph) && i <= Offs(end, lvl)
    requires mapEnd == if EntryEnd(cur, lvl) < end then EntryEnd(cur, lvl) else end
    ensures Region(base, lvl) && i < ENTRIES && i <= Index(end - base, lvl) && base <= end
    ensures Serves(base, lvl, i, cur) && Serves(base, lvl, i, mapEnd) && cur == base + d <= mapEnd <= end && b <= d
    ensures cur % PAGE == 0 && (mapEnd + 1) % PAGE == 0 && ph % PAGE == 0 && ph == phys + d - b
    ensures Round(base, lvl, b, end, i + 1, d + (mapEnd - cur + 1), (mapEnd + 1) % WORD, phys, ph + (mapEnd - cur + 1))
  {
    hide Region, Index, EntryEnd, Offs, Serves, Size;
    OffsServes(base, lvl, end);
    RoundStep(base, lvl, b, end, i, d, cur, phys, ph, mapEnd);
  }

  /** How many tables the mapping of [begin, last] needs that do not exist. */
  ghost function TablesNeeded(mem: Mem, pml4: nat, begin: nat, last: nat, phys: nat, bit7: bool): nat {
    |Needed(mem, pml4, 4, Base(begin), Asked(begin, last, phys, bit7))|
  }

  /** Exactly these tables have come, with pages from the pool. */
  ghost predicate UsedUp(mem0: Mem, supply0: seq<nat>, mem: Mem, supply: seq<nat>, pml4: nat, begin: nat, last: nat,
                         phys: nat, bit7: bool)
  {
    && TablesNeeded(mem0, pml4, begin, last, phys, bit7) <= |supply0|
    && supply == supply0[TablesNeeded(mem0, pml4, begin, last, phys, bit7)..]
    && TablesAfter(mem0, mem, pml4, 4, Base(begin), Asked(begin, last, phys, bit7))
  }

  /** Every address of [begin, last] is translated by a page of the largest size that has room in the interval around
      it, is aligned there and at its place from `phys` on, and is not in the way of a table that was there before. */
  ghost predicate Sized(mem0: Mem, mem: Mem, pml4: nat, begin: nat, last: nat, phys: nat)
    requires Base(begin) <= begin
  {
    forall va: nat :: begin <= va <= last ==>
      LeafLevel(mem, pml4, 4, va % SPAN)
        == PageLevel(mem0, pml4, 4, Base(begin), Asked(begin, last, phys, true), va)
  }

  lemma SizedByLevel(mem0: Mem, mem: Mem, pml4: nat, begin: nat, last: nat, phys: nat)
    requires InOneHalf(begin, last)
    requires Leveled(mem0, mem, pml4, 4, Base(begin), Asked(begin, last, phys, true))
    ensures Base(begin) <= begin && Sized(mem0, mem, pml4, begin, last, phys)
  {
    hide LeafLevel, PageLevel;
    BaseFacts(begin, last, begin);
    forall va: nat | begin <= va <= last
      ensures LeafLevel(mem, pml4, 4, va % SPAN)
           == PageLevel(mem0, pml4, 4, Base(begin), Asked(begin, last, phys, true), va)
    {
      BaseFacts(begin, last, va);
      assert Asks(Asked(begin, last, phys, true), va);
    }
  }

  /** Where a round begins and ends in the request. */
  lemma RoundCuts(base: nat, lvl: int, b: nat, end: nat, i: nat, d: nat, cur: nat, phys: nat, ph: nat, mapEnd: nat,
                  bit7: bool)
    requires Level(lvl) && Round(base, lvl, b, end, i, d, cur, phys, ph) && i <= Index(end - base, lvl)
    requires mapEnd == if EntryEnd(cur, lvl) < end then EntryEnd(cur, lvl) else end
    ensures
      var q := Asked(base + b, end, phys, bit7);
      && Cuts(base, lvl, Front(q, mapEnd + 1), i, cur) && Cuts(base, lvl, q, i + 1, mapEnd + 1)
      && (cur == q.begin || cur == base + i * Size(lvl))
      && base + i * Size(lvl) <= cur && Chunk(q, cur, mapEnd + 1) == Asked(cur, mapEnd, ph, bit7)
  {
    hide Region, Index, EntryEnd;
    RoundStep(base, lvl, b, end, i, d, cur, phys, ph, mapEnd);
  }

  /** The tables in memory and the pages still to be had from the pool. */
  class Tables {
    var mem: Mem
    var supply: seq<nat>

    ghost predicate Supplied()
      reads this
    {
      && (forall k :: 0 <= k < |supply| ==> supply[k] !in mem && supply[k] < FRAMES)
      && (forall j, k :: 0 <= j < k < |supply| ==> supply[j] != supply[k])
    }

    /** An absent entry gets a new table (src/paging.c:121-127). */
    method AddTable(t: nat, i: nat, lvl: int, ghost b: nat, ghost phys: nat, ghost present: bool)
      returns (ok: bool, ghost page: nat)
      requires 2 <= lvl <= 4 && Tree(mem, t, lvl) && Supplied() && i < ENTRIES && !mem[t][i].present
      modifies this
      ensures ok <==> old(supply) != []
      ensures !ok ==> supply == []
      ensures ok ==> Supplied() && Built(old(mem), mem, t, lvl, b, b, phys, present) && IsTable(mem[t][i], lvl)
      ensures ok ==> supply == old(supply)[1..] && page !in old(mem) && OnlyEntry(old(mem), mem, t, lvl, i)
      ensures ok ==> mem == old(mem)[page := EMPTY][t := old(mem)[t][i := Pte(true, false, page)]]
    {
      hide Walk, Reach, Below, GoodEntry, Populated, Touches, Keeps, MappedUpTo;
      if supply == [] {
        return false, 0;
      }
      var p := supply[0];
      supply := supply[1..];
      TableBuilt(mem, mem[p := EMPTY][t := mem[t][i := Pte(true, false, p)]], t, lvl, i, p, b, phys, present);
      mem := mem[p := EMPTY][t := mem[t][i := Pte(true, false, Frame(p))]];
      return true, p;
    }

    /** The recursive call (src/paging.c:131-133). */
    method MapBelow(t: nat, i: nat, begin: nat, last: nat, phys: nat, present: bool, bit7: bool, lvl: int,
                    ghost base: nat) returns (ok: bool)
      requires Level(lvl) && Tree(mem, t, lvl) && Supplied() && i < ENTRIES && Region(base, lvl)
      requires Serves(base, lvl, i, begin) && Serves(base, lvl, i, last) && begin <= last
      requires begin % PAGE == 0 && (last + 1) % PAGE == 0 && phys % PAGE == 0 && phys + (last - begin) < FRAMES
      requires Unmapped(mem, t, lvl, begin - base, last + 1 - base) && mem[t][i].present
      modifies this
      ensures !ok ==> supply == []
      ensures old(PopulatedRange(mem, t, lvl, begin - base, last + 1 - base)) ==> ok
      ensures ok ==> Supplied()
      ensures ok ==>
        Outcome(old(mem), old(supply), mem, supply, t, lvl, begin - base, last + 1 - base, phys, present, bit7)
      ensures ok <==> |Needed(old(mem), t, lvl, base, Asked(begin, last, phys, bit7))| <= |old(supply)|
      ensures ok ==> Served(old(mem), old(supply), mem, supply, t, lvl, base, Asked(begin, last, phys, bit7), present)
      ensures ok ==> OnlyEntry(old(mem), mem, t, lvl, i)
      decreases lvl, 0
    {
      hide Walk, Reach, Below, GoodEntry, Populated, Unmapped, PopulatedRange, Touches, Keeps, MappedUpTo,
        Needed, Served, Within, Asked, Size, OnlyEntry;
      ghost var mem0, supply0, b, c := mem, supply, begin - base, last + 1 - base;
      ghost var q := Asked(begin, last, phys, bit7);
      ChunkFacts(begin, last, lvl, i, base);
      ChildUnmapped(mem, t, lvl, i, b, c);
      ChildPopulated(mem, t, lvl, i, b, c);
      ChildTree(mem, t, lvl, i);
      SizeStep(lvl);
      WithinEntry(base, lvl, i, begin, last, phys, bit7);
      ChildNeeded(mem, t, lvl, i, base, q);
      ok := MapPages(mem[t][i].addr, begin, last, phys, present, bit7, lvl - 1, base + i * Size(lvl));
      if ok {
        ChildBuilt(mem0, mem, t, lvl, i, b, c, phys, present);
        ChildPopulated(mem, t, lvl, i, b, c);
        ChildServes(mem0, supply0, mem, supply, t, lvl, i, base, q, present);
      }
    }

    /** An absent entry becomes a leaf (src/paging.c:112-119). */
    method PutLeaf(t: nat, i: nat, begin: nat, last: nat, phys: nat, present: bool, bit7: bool, lvl: int,
                   ghost base: nat)
      requires Level(lvl) && Tree(mem, t, lvl) && Supplied() && i < ENTRIES && Region(base, lvl) && !mem[t][i].present
      requires begin == base + i * Size(lvl) && last + 1 == begin + Size(lvl)
      requires phys % Size(lvl) == 0 && phys < FRAMES && (lvl == 1 || (lvl < 4 && bit7))
      modifies this`mem
      ensures Supplied()
      ensures
        Outcome(old(mem), supply, mem, supply, t, lvl, begin - base, last + 1 - base, phys, present, bit7)
      ensures Needed(old(mem), t, lvl, base, Asked(begin, last, phys, bit7)) == {}
      ensures Served(old(mem), supply, mem, supply, t, lvl, base, Asked(begin, last, phys, bit7), present)
      ensures OnlyEntry(old(mem), mem, t, lvl, i)
    {
      hide Walk, Reach, Below, GoodEntry, Populated, Unmapped, PopulatedRange, Touches, Keeps, MappedUpTo,
        Needed, Served, Within, OnlyEntry;
      var e := Pte(present, bit7, Frame(phys));
      LeafOutcome(mem, mem[t := mem[t][i := e]], supply, t, lvl, i, e, begin - base, last + 1 - base);
      LeafServes(mem, mem[t := mem[t][i := e]], supply, t, lvl, i, e, base, Asked(begin, last, phys, bit7));
      mem := mem[t := mem[t][i := e]];
    }

    /** An absent entry gets a new table first (src/paging.c:121-133). */
    method MapNew(t: nat, i: nat, begin: nat, last: nat, phys: nat, present: bool, bit7: bool, lvl: int,
                  ghost base: nat) returns (ok: bool)
      requires Level(lvl) && Tree(mem, t, lvl) && Supplied() && i < ENTRIES && Region(base, lvl)
      requires Serves(base, lvl, i, begin) && Serves(base, lvl, i, last) && begin <= last
      requires begin % PAGE == 0 && (last + 1) % PAGE == 0 && phys % PAGE == 0 && phys + (last - begin) < FRAMES
      requires Unmapped(mem, t, lvl, begin - base, last + 1 - base)
      requires !mem[t][i].present && lvl > 1
      requires lvl < 4 ==> last + 1 - begin != Size(lvl) || !bit7 || phys % Size(lvl) != 0
      modifies this
      ensures !ok ==> supply == []
      ensures old(PopulatedRange(mem, t, lvl, begin - base, last + 1 - base)) ==> ok
      ensures ok ==> Supplied()
      ensures ok ==>
        Outcome(old(mem), old(supply), mem, supply, t, lvl, begin - base, last + 1 - base, phys, present, bit7)
      ensures ok <==> |Needed(old(mem), t, lvl, base, Asked(begin, last, phys, bit7))| <= |old(supply)|
      ensures ok ==> Served(old(mem), old(supply), mem, supply, t, lvl, base, Asked(begin, last, phys, bit7), present)
      ensures ok ==> OnlyEntry(old(mem), mem, t, lvl, i)
      decreases lvl, 1
    {
      hide Walk, Reach, Below, GoodEntry, Populated, Unmapped, PopulatedRange, Touches, Keeps, MappedUpTo,
        Needed, Served, Within, Asked, OnlyEntry;
      ghost var mem0, supply0, b, c := mem, supply, begin - base, last + 1 - base;
      ghost var q := Asked(begin, last, phys, bit7);
      AskedIs(begin, last, phys, bit7);
      WithinEntry(base, lvl, i, begin, last, phys, bit7);
      ChunkFacts(begin, last, lvl, i, base);
      NotPopulated(mem, t, lvl, i, b, c);
      TableNeedsOne(mem, t, lvl, i, base, q);
      ghost var page;
      ok, page := AddTable(t, i, lvl, b, phys, present);
      if !ok {
        return;
      }
      UnmappedKept(mem0, mem, t, lvl, b, c, phys, present);
      ghost var mem1 := mem;
      ok := MapBelow(t, i, begin, last, phys, present, bit7, lvl, base);
      TableServes(mem0, supply0, mem1, mem, supply, t, lvl, i, page, base, q, present);
      if ok {
        BuiltJoin(mem0, mem1, mem, t, lvl, b, b, c, phys, present);
        OnlyEntryJoin(mem0, mem1, mem, t, lvl, i);
      }
    }

    /** One round of `__pt_map_pages` (src/paging.c:100-135): the part [begin, last] of the range that
        entry `i` serves.  The result is false when the pool has no page left. */
    method MapChunk(t: nat, i: nat, begin: nat, last: nat, phys: nat, present: bool, bit7: bool, lvl: int,
                    ghost base: nat) returns (ok: bool)
      requires Level(lvl) && Tree(mem, t, lvl) && Supplied() && i < ENTRIES && Region(base, lvl)
      requires Serves(base, lvl, i, begin) && Serves(base, lvl, i, last) && begin <= last
      requires begin % PAGE == 0 && (last + 1) % PAGE == 0 && phys % PAGE == 0 && phys + (last - begin) < FRAMES
      requires Unmapped(mem, t, lvl, begin - base, last + 1 - base)
      modifies this
      ensures !ok ==> supply == []
      ensures old(PopulatedRange(mem, t, lvl, begin - base, last + 1 - base)) ==> ok
      ensures ok ==> Supplied()
      ensures ok ==>
        Outcome(old(mem), old(supply), mem, supply, t, lvl, begin - base, last + 1 - base, phys, present, bit7)
      ensures ok <==> |Needed(old(mem), t, lvl, base, Asked(begin, last, phys, bit7))| <= |old(supply)|
      ensures ok ==> Served(old(mem), old(supply), mem, supply, t, lvl, base, Asked(begin, last, phys, bit7), present)
      ensures ok ==> OnlyEntry(old(mem), mem, t, lvl, i)
      decreases lvl, 2
    {
      hide Walk, Reach, Below, GoodEntry, Populated, Unmapped, PopulatedRange, Touches, Keeps, MappedUpTo,
        Needed, Served, Within, Asked, OnlyEntry;
      ChunkFacts(begin, last, lvl, i, base);
      if mem[t][i].present {
        ok := MapBelow(t, i, begin, last, phys, present, bit7, lvl, base);
        return;
      }
      var aligned := begin % Size(lvl) == 0 && phys % Size(lvl) == 0;
      var tomap := last - begin + 1;
      var large := (lvl == 3 || lvl == 2) && bit7;
      var map_ := lvl != 4 && tomap == Size(lvl) && aligned && (large || lvl == 1);
      NotPopulated(mem, t, lvl, i, begin - base, last + 1 - base);
      WholeEntry(begin, lvl, i, base);
      if map_ {
        PutLeaf(t, i, begin, last, phys, present, bit7, lvl, base);
        return true;
      }
      ok := MapNew(t, i, begin, last, phys, present, bit7, lvl, base);
    }

    /** `__pt_map_pages` (src/paging.c:86-137) on the closed interval [begin, end] of 64-bit addresses
        within the region of table `t`, which starts at `base` and may end at 2^64. */
    method MapPages(t: nat, begin: nat, end: nat, phys: nat, present: bool, bit7: bool, lvl: int,
                    ghost base: nat) returns (ok: bool)
      requires Level(lvl) && Tree(mem, t, lvl) && Supplied() && Region(base, lvl)
      requires base <= begin <= end < base + ENTRIES * Size(lvl)
      requires begin % PAGE == 0 && (end + 1) % PAGE == 0 && phys % PAGE == 0 && phys + (end - begin) < FRAMES
      requires Unmapped(mem, t, lvl, begin - base, end + 1 - base)
      modifies this
      ensures !ok ==> supply == []
      ensures old(PopulatedRange(mem, t, lvl, begin - base, end + 1 - base)) ==> ok
      ensures ok ==> Supplied()
      ensures ok ==>
        Outcome(old(mem), old(supply), mem, supply, t, lvl, begin - base, end + 1 - base, phys, present, bit7)
      ensures ok <==> |Needed(old(mem), t, lvl, base, Asked(begin, end, phys, bit7))| <= |old(supply)|
      ensures ok ==> Served(old(mem), old(supply), mem, supply, t, lvl, base, Asked(begin, end, phys, bit7), present)
      decreases lvl, 4
    {
      hide *;
      ghost var mem0, supply0, b := mem, supply, begin - base;
      RoundStart(base, lvl, begin, end, phys);
      OutcomeNothing(mem, supply, t, lvl, b, phys, present, bit7);
      ghost var q := Asked(begin, end, phys, bit7);
      AskedIs(begin, end, phys, bit7);
      RoundServedStart(mem, supply, t, lvl, base, q, Offs(begin, lvl), present);
      var i: nat, cur: nat, ph: nat := Offs(begin, lvl), begin, phys;
      ghost var d: nat := b;
      ok := true;
      while ok && i <= Offs(end, lvl)
        invariant !ok ==> supply == []
        invariant !ok ==> !PopulatedRange(mem0, t, lvl, b, end + 1 - base)
        invariant !ok ==> |Needed(mem0, t, lvl, base, q)| > |supply0|
        invariant ok ==> RoundServed(mem0, supply0, mem, supply, t, lvl, base, q, i, base + d, present)
        invariant ok ==> i <= Offs(end, lvl) + 1
        invariant ok ==> Round(base, lvl, b, end, i, d, cur, phys, ph)
        invariant ok ==> Supplied()
        invariant ok ==> Outcome(mem0, supply0, mem, supply, t, lvl, b, d, phys, present, bit7)
        decreases ok, ENTRIES - i
      {
        ok, d, cur, ph := MapRound(t, i, cur, end, ph, present, bit7, lvl, base, mem0, supply0, b, d, phys);
        i := i + 1;
      }
      if ok {
        RoundEnd(base, lvl, b, end, i, d, cur, phys, ph);
        AllServed(mem0, supply0, mem, supply, t, lvl, base, q, i, base + d, present);
      }
    }

    /** One round with its bookkeeping (src/paging.c:99-136). */
    method MapRound(t: nat, i: nat, cur: nat, end: nat, ph: nat, present: bool, bit7: bool, lvl: int, ghost base: nat,
                    ghost mem0: Mem, ghost supply0: seq<nat>, ghost b: nat, ghost d: nat, ghost phys: nat)
      returns (ok: bool, ghost d': nat, cur': nat, ph': nat)
      requires Level(lvl) && Round(base, lvl, b, end, i, d, cur, phys, ph) && i <= Offs(end, lvl)
      requires Supplied() && phys + (end - base - b) < FRAMES
      requires Outcome(mem0, supply0, mem, supply, t, lvl, b, d, phys, present, bit7)
      requires Unmapped(mem0, t, lvl, b, end + 1 - base)
      requires
        RoundServed(mem0, supply0, mem, supply, t, lvl, base, Asked(base + b, end, phys, bit7), i, base + d, present)
      modifies this
      ensures !ok ==> supply == []
      ensures !ok ==> !PopulatedRange(mem0, t, lvl, b, end + 1 - base)
      ensures !ok ==> |Needed(mem0, t, lvl, base, Asked(base + b, end, phys, bit7))| > |supply0|
      ensures ok ==>
        RoundServed(mem0, supply0, mem, supply, t, lvl, base, Asked(base + b, end, phys, bit7), i + 1, base + d',
                    present)
      ensures ok ==> Round(base, lvl, b, end, i + 1, d', cur', phys, ph')
      ensures ok ==> Supplied()
      ensures ok ==> Outcome(mem0, supply0, mem, supply, t, lvl, b, d', phys, present, bit7)
      decreases lvl, 3
    {
      hide Walk, Reach, Below, GoodEntry, Populated, Built, Unmapped, PopulatedRange, Touches, Keeps, MappedUpTo,
        Needed, Served, RoundServed, Cuts, Chunk, Asked, Size, OnlyEntry, Region, Round, Serves, EntryEnd, Index, Offs,
        Tree;
      var entryEnd := EntryEnd(cur, lvl);
      var mapEnd := if entryEnd < end then entryEnd else end;
      RoundOpen(base, lvl, b, end, i, d, cur, phys, ph, mapEnd);
      ghost var c := mapEnd + 1 - base;
      BuiltKeepsUnmapped(mem0, mem, t, lvl, b, d, c, end + 1 - base, phys, present);
      ghost var mem1, supply1, q := mem, supply, Asked(base + b, end, phys, bit7);
      RoundCuts(base, lvl, b, end, i, d, cur, phys, ph, mapEnd, bit7);
      ok := MapChunk(t, i, cur, mapEnd, ph, present, bit7, lvl, base);
      var tomap := mapEnd - cur + 1;
      d', cur', ph' := d + tomap, (cur + tomap) % WORD, ph + tomap;
      if !ok {
        RoundFails(mem0, supply0, mem1, supply1, t, lvl, base, q, i, cur, mapEnd + 1, present);
      } else {
        RoundServedStep(mem0, supply0, mem1, supply1, mem, supply, t, lvl, base, q, i, cur, mapEnd + 1, present);
        OutcomeJoin(mem0, supply0, mem1, supply1, mem, supply, t, lvl, b, d, c, phys, present, bit7);
      }
    }

    /** `pt_map_pages` (src/paging.c:139-149): afterwards the walk of every address of [begin, end) leads
        to its place from `phys` on, and every other address is translated as before.  `end` is 0 for a
        range that goes up to 2^64. */
    method PtMapPages(pml4: nat, begin: nat, end: nat, phys: nat) returns (ok: bool)
      requires Tree(mem, pml4, 4) && Supplied() && begin < WORD && end < WORD
      requires begin % PAGE == 0 && end % PAGE == 0 && phys % PAGE == 0
      requires InOneHalf(begin, (end + WORD - 1) % WORD) && Vacant(mem, pml4, begin, (end + WORD - 1) % WORD)
      requires phys + ((end + WORD - 1) % WORD - begin) < FRAMES
      modifies this
      ensures !ok ==> supply == []
      ensures old(Ready(mem, pml4, begin, (end + WORD - 1) % WORD)) ==> ok && supply == old(supply)
      ensures ok ==> Supplied() && Tree(mem, pml4, 4) && Keeps(old(mem), mem, pml4, 4)
      ensures ok ==> Maps(old(mem), mem, pml4, begin, (end + WORD - 1) % WORD, phys)
      ensures ok <==> TablesNeeded(old(mem), pml4, begin, (end + WORD - 1) % WORD, phys, true) <= |old(supply)|
      ensures ok ==> UsedUp(old(mem), old(supply), mem, supply, pml4, begin, (end + WORD - 1) % WORD, phys, true)
      ensures ok ==> Sized(old(mem), mem, pml4, begin, (end + WORD - 1) % WORD, phys)
    {
      hide Walk, Reach, Below, GoodEntry, Populated, Unmapped, Touches, Keeps, MappedUpTo, Tree, Ready, Vacant, Maps,
        Needed, Leveled, TablesAfter, Sized;
      var last := (end + WORD - 1) % WORD;
      ghost var base := Base(begin);
      BaseFacts(begin, last, begin);
      OffsetsOf(mem, pml4, begin, last);
      ghost var mem0 := mem;
      ok := MapPages(pml4, begin, last, phys, true, true, 4, base);
      if ok {
        AddressesOf(mem0, mem, pml4, begin, last, phys, true);
        SizedByLevel(mem0, mem, pml4, begin, last, phys);
      }
    }

    /** `pt_populate_pages` (src/paging.c:151-158): all tables of the range exist, and no address has
        changed its translation. */
    method PtPopulatePages(pml4: nat, begin: nat, end: nat) returns (ok: bool)
      requires Tree(mem, pml4, 4) && Supplied() && begin < WORD && end < WORD
      requires begin % PAGE == 0 && end % PAGE == 0
      requires InOneHalf(begin, (end + WORD - 1) % WORD) && Vacant(mem, pml4, begin, (end + WORD - 1) % WORD)
      modifies this
      ensures !ok ==> supply == []
      ensures ok ==> Supplied() && Tree(mem, pml4, 4) && Keeps(old(mem), mem, pml4, 4)
      ensures ok ==> SameTranslation(old(mem), mem, pml4) && Ready(mem, pml4, begin, (end + WORD - 1) % WORD)
      ensures ok <==> TablesNeeded(old(mem), pml4, begin, (end + WORD - 1) % WORD, 0, false) <= |old(supply)|
      ensures ok ==> UsedUp(old(mem), old(supply), mem, supply, pml4, begin, (end + WORD - 1) % WORD, 0, false)
    {
      hide Walk, Reach, Below, GoodEntry, Populated, Unmapped, Touches, Keeps, MappedUpTo, Tree, Ready, Vacant, Maps,
        Needed, Leveled, TablesAfter;
      var last := (end + WORD - 1) % WORD;
      ghost var base := Base(begin);
      BaseFacts(begin, last, begin);
      OffsetsOf(mem, pml4, begin, last);
      ghost var mem0 := mem;
      ok := MapPages(pml4, begin, last, 0, false, false, 4, base);
      if ok {
        OffsetsOf(mem, pml4, begin, last);
        AddressesOf(mem0, mem, pml4, begin, last, 0, false);
      }
    }

    /** The inner loop of `__kunmap` (src/paging.c:364-377): down to the leaf entry, which is cleared. */
    method ClearLeaf(pml4: nat, addr: nat)
      requires Tree(mem, pml4, 4) && addr % PAGE == 0 && Populated(mem, pml4, 4, addr % SPAN)
      modifies this`mem
      ensures Tree(mem, pml4, 4) && Keeps(old(mem), mem, pml4, 4) && mem.Keys == old(mem).Keys
      ensures Loses(old(mem), mem, pml4, 4, addr % SPAN)
    {
      hide Reach, Below, GoodEntry, Walk, Touches, Keeps, Loses;
      var t, l := pml4, 4;
      ghost var mem0 := mem;
      ghost var v: nat := addr % SPAN;
      ghost var leaf := LeafTable(mem, pml4, 4, v);
      while l > 1
        invariant 1 <= l <= 4 && Tree(mem, t, l) && Populated(mem, t, l, v) && leaf == LeafTable(mem, t, l, v)
        invariant mem == mem0 && v == addr % (ENTRIES * Size(l))
      {
        OffsIsIndex(addr, l);
        SizeStep(l);
        ChildTree(mem, t, l, Index(v, l));
        t, v := mem[t][Offs(addr, l)].addr, Rest(v, l);
        l := l - 1;
      }
      OffsIsIndex(addr, 1);
      OffsIsIndex(addr, 4);
      mem := mem[t := mem[t][Offs(addr, 1) := ABSENT]];
      ClearedBelow(mem0, mem, pml4, 4, addr % SPAN);
    }
  }
}
