/**
 The kmap window (src/paging.c:216-433): ranges of the window are handed out by the boundary-tag
 allocator, and their pages are mapped in page tables that were populated at setup.
 */
module Kmap {
  import opened Collections
  import opened PageTables
  import opened PageNeeds
  import opened PageBuilder
  import KR = KmapRanges

  const KMAP_BEGIN: nat := 0xffff_ffff_0000_0000
  const KMAP_END: nat := 0xffff_ffff_8000_0000
  const KMAP_PAGES: nat := 0x8_0000
  const HIGHER_BASE: nat := 0xffff_8000_0000_0000

  /** `kmap_addr` and `addr_kmap` (src/paging.c:229-241). */
  function KmapAddr(no: nat): nat { KMAP_BEGIN + no * PAGE }

  function AddrKmap(addr: nat): nat
    requires addr >= KMAP_BEGIN
  {
    (addr - KMAP_BEGIN) / PAGE
  }

  lemma PageOf(no: nat, addr: nat)
    requires KMAP_BEGIN <= addr
    ensures AddrKmap(addr) == no <==> KmapAddr(no) <= addr < KmapAddr(no) + PAGE
    ensures no < KMAP_PAGES <==> KmapAddr(no) < KMAP_END
    ensures KmapAddr(no) % PAGE == 0 && AddrKmap(KmapAddr(no)) == no
  {
  }

  /** The window translates exactly the pages of `shown`, each to its frame. */
  ghost predicate Shows(mem: Mem, pml4: nat, shown: map<nat, nat>) {
    forall va: nat :: KMAP_BEGIN <= va < KMAP_END ==> Translate(mem, pml4, va) == ShownAt(shown, va)
  }

  ghost function ShownAt(shown: map<nat, nat>, va: nat): Option<nat>
    requires KMAP_BEGIN <= va
  {
    var no := AddrKmap(va);
    if no in shown then Some(shown[no] + (va - KmapAddr(no))) else None
  }

  ghost predicate SameOutside(mem0: Mem, mem: Mem, pml4: nat) {
    forall va: nat :: Canonical(va) && !(KMAP_BEGIN <= va < KMAP_END) ==>
                        Translate(mem, pml4, va) == Translate(mem0, pml4, va)
  }

  lemma OneHalf(no: nat)
    requires no < KMAP_PAGES
    ensures KMAP_BEGIN <= KmapAddr(no) <= KmapAddr(no) + PAGE - 1 < KMAP_END
    ensures InOneHalf(KmapAddr(no), KmapAddr(no) + PAGE - 1)
    ensures (KmapAddr(no) + PAGE + WORD - 1) % WORD == KmapAddr(no) + PAGE - 1
    ensures (KmapAddr(no) + PAGE) % PAGE == 0 && KmapAddr(no) + PAGE < WORD
  {
  }

  lemma FrameFits(frame: nat)
    requires frame % PAGE == 0 && frame < FRAMES
    ensures frame + (PAGE - 1) < FRAMES
  {
  }

  lemma PageMapped(mem0: Mem, mem: Mem, pml4: nat, shown: map<nat, nat>, no: nat, frame: nat)
    requires no < KMAP_PAGES && Shows(mem0, pml4, shown)
    requires Maps(mem0, mem, pml4, KmapAddr(no), KmapAddr(no) + PAGE - 1, frame)
    ensures Shows(mem, pml4, shown[no := frame]) && SameOutside(mem0, mem, pml4)
  {
    OneHalf(no);
    forall va: nat | Canonical(va)
      ensures KMAP_BEGIN <= va < KMAP_END ==> Translate(mem, pml4, va) == ShownAt(shown[no := frame], va)
      ensures !(KMAP_BEGIN <= va < KMAP_END) ==> Translate(mem, pml4, va) == Translate(mem0, pml4, va)
    {
      if KMAP_BEGIN <= va { PageOf(no, va); }
    }
  }

  lemma PageLost(mem0: Mem, mem: Mem, pml4: nat, shown: map<nat, nat>, no: nat)
    requires no < KMAP_PAGES && Shows(mem0, pml4, shown) && Loses(mem0, mem, pml4, 4, KmapAddr(no) % SPAN)
    ensures Shows(mem, pml4, shown - {no}) && SameOutside(mem0, mem, pml4)
  {
    OneHalf(no);
    var addr := KmapAddr(no);
    forall va: nat | Canonical(va)
      ensures KMAP_BEGIN <= va < KMAP_END ==> Translate(mem, pml4, va) == ShownAt(shown - {no}, va)
      ensures !(KMAP_BEGIN <= va < KMAP_END) ==> Translate(mem, pml4, va) == Translate(mem0, pml4, va)
    {
      BaseFacts(addr, addr + PAGE - 1, va);
      BaseFacts(addr, addr + PAGE - 1, addr);
      assert Translate(mem, pml4, va) == if addr <= va < addr + PAGE then None else Translate(mem0, pml4, va);
      if KMAP_BEGIN <= va { PageOf(no, va); }
    }
  }

  lemma PageVacant(mem: Mem, pml4: nat, shown: map<nat, nat>, no: nat)
    requires no < KMAP_PAGES && Shows(mem, pml4, shown) && no !in shown
    ensures Vacant(mem, pml4, KmapAddr(no), KmapAddr(no) + PAGE - 1)
  {
    OneHalf(no);
    forall va: nat | KmapAddr(no) <= va <= KmapAddr(no) + PAGE - 1 ensures Translate(mem, pml4, va) == None {
      PageOf(no, va);
    }
  }

  /** The tables of the window exist. */
  ghost predicate WindowReady(mem: Mem, pml4: nat) {
    Ready(mem, pml4, KMAP_BEGIN, KMAP_END - 1)
  }

  lemma StillReady(mem0: Mem, mem: Mem, pml4: nat)
    requires WindowReady(mem0, pml4) && Keeps(mem0, mem, pml4, 4)
    ensures WindowReady(mem, pml4)
  {
  }

  lemma PageReady(mem: Mem, pml4: nat, no: nat)
    requires WindowReady(mem, pml4) && no < KMAP_PAGES
    ensures Ready(mem, pml4, KmapAddr(no), KmapAddr(no) + PAGE - 1)
    ensures Populated(mem, pml4, 4, KmapAddr(no) % SPAN)
  {
    OneHalf(no);
  }

  lemma SameOutsideJoin(mem0: Mem, mem1: Mem, mem2: Mem, pml4: nat)
    requires SameOutside(mem0, mem1, pml4) && SameOutside(mem1, mem2, pml4)
    ensures SameOutside(mem0, mem2, pml4)
  {
    forall va: nat | Canonical(va) && !(KMAP_BEGIN <= va < KMAP_END)
      ensures Translate(mem2, pml4, va) == Translate(mem0, pml4, va)
    {
      assert Translate(mem1, pml4, va) == Translate(mem0, pml4, va);
    }
  }

  // ---- pages and ranges ----------------------------------------------------------------------

  ghost predicate In(live: map<nat, nat>, h: nat, no: nat) {
    h in live && h <= no < h + live[h]
  }

  /** The mapped pages are exactly those of the ranges handed out. */
  ghost predicate ShownIsLive(shown: map<nat, nat>, live: map<nat, nat>) {
    forall no: nat :: no in shown <==> exists h :: In(live, h, no)
  }

  /** The pages h, h + 1, ... with their frames. */
  ghost function Added(shown: map<nat, nat>, h: nat, frames: seq<nat>): map<nat, nat> {
    shown + map no: nat | h <= no < h + |frames| :: FrameOf(frames, h, no)
  }

  ghost function FrameOf(frames: seq<nat>, h: nat, no: nat): nat
    requires h <= no < h + |frames|
  {
    frames[no - h]
  }

  ghost function Dropped(shown: map<nat, nat>, h: nat, n: nat): map<nat, nat> {
    map no | no in shown && !(h <= no < h + n) :: shown[no]
  }

  lemma AddedOne(shown: map<nat, nat>, h: nat, frames: seq<nat>, i: nat)
    requires i < |frames|
    ensures Added(shown, h, frames[..i + 1]) == Added(shown, h, frames[..i])[h + i := frames[i]]
  {
    var all, part := Added(shown, h, frames[..i + 1]), Added(shown, h, frames[..i]);
    forall no | no in all ensures all[no] == if no == h + i then frames[i] else part[no] {
      if h <= no < h + i { assert FrameOf(frames[..i + 1], h, no) == FrameOf(frames[..i], h, no); }
    }
  }

  lemma DroppedOne(shown: map<nat, nat>, h: nat, i: nat)
    ensures Dropped(shown, h, i + 1) == Dropped(shown, h, i) - {h + i}
  {
  }

  /** A free range shows nothing, and once handed out and mapped it shows its frames. */
  lemma RangeAdded(t: KR.Tiles, h: nat, shown: map<nat, nat>, live': map<nat, nat>, frames: seq<nat>)
    requires KR.Tiling(t, KMAP_PAGES) && h in t && t[h].free && t[h].len >= |frames| && |frames| > 0
    requires ShownIsLive(shown, KR.Live(t)) && live' == KR.Live(t)[h := |frames|]
    ensures h + |frames| <= KMAP_PAGES
    ensures forall no :: h <= no < h + |frames| ==> no !in shown
    ensures ShownIsLive(Added(shown, h, frames), live')
  {
    hide KR.Tiling;
    KR.InWindow(t, KMAP_PAGES, h);
    var live, n := KR.Live(t), |frames|;
    forall no: nat | h <= no < h + n ensures no !in shown {
      forall k ensures !In(live, k, no) {
        if In(live, k, no) { KR.EndsApart(t, KMAP_PAGES, h, k); }
      }
    }
    forall no: nat ensures no in Added(shown, h, frames) <==> exists k :: In(live', k, no) {
      if no in Added(shown, h, frames) {
        if no in shown {
          var k :| In(live, k, no);
          assert In(live', k, no);
        } else {
          assert In(live', h, no);
        }
      }
      if k :| In(live', k, no) {
        if k != h { assert In(live, k, no); }
      }
    }
  }

  lemma RangeDropped(t: KR.Tiles, h: nat, shown: map<nat, nat>, live': map<nat, nat>)
    requires KR.Tiling(t, KMAP_PAGES) && h in t && !t[h].free
    requires ShownIsLive(shown, KR.Live(t)) && live' == KR.Live(t) - {h}
    ensures ShownIsLive(Dropped(shown, h, t[h].len), live')
  {
    hide KR.Tiling;
    forall no: nat ensures no in Dropped(shown, h, t[h].len) <==> exists k :: In(live', k, no) {
      if no in Dropped(shown, h, t[h].len) {
        var k :| In(KR.Live(t), k, no);
        assert In(live', k, no);
      }
      if k :| In(live', k, no) {
        assert In(KR.Live(t), k, no);
        OtherRange(t, h, k, no);
      }
    }
  }

  lemma OtherRange(t: KR.Tiles, h: nat, k: nat, no: nat)
    requires KR.Tiling(t, KMAP_PAGES) && h in t && k != h && In(KR.Live(t), k, no)
    ensures !(h <= no < h + t[h].len)
  {
    KR.EndsApart(t, KMAP_PAGES, h, k);
  }

  // ---- the window ----------------------------------------------------------------------------

  class Window {
    const tables: Tables
    const ranges: KR.Ranges
    const pml4: nat
    ghost var shown: map<nat, nat>

    /** The page-table side: the pool is empty, so that no operation may need a page from it. */
    ghost predicate Mapped(shown': map<nat, nat>)
      reads tables
    {
      && Tree(tables.mem, pml4, 4) && tables.supply == []
      && WindowReady(tables.mem, pml4) && Shows(tables.mem, pml4, shown')
    }

    ghost predicate Valid()
      reads this, tables, ranges, ranges.tag, ranges.link
    {
      && ranges.Valid() && ranges.tag.Length == KMAP_PAGES
      && Mapped(shown) && ShownIsLive(shown, KR.Live(ranges.tiles))
    }

    /** No free range of the window has `n` pages. */
    ghost predicate NoRoom(n: nat)
      reads ranges
    {
      forall h :: h in ranges.tiles && ranges.tiles[h].free ==> ranges.tiles[h].len < n
    }

    constructor (tables: Tables, ranges: KR.Ranges, pml4: nat)
      requires ranges.Valid() && ranges.tag.Length == KMAP_PAGES && KR.Live(ranges.tiles) == map[]
      requires Tree(tables.mem, pml4, 4) && tables.supply == []
      requires WindowReady(tables.mem, pml4) && Shows(tables.mem, pml4, map[])
      ensures this.tables == tables && this.ranges == ranges && this.pml4 == pml4
      ensures Valid() && shown == map[]
    {
      this.tables, this.ranges, this.pml4, this.shown := tables, ranges, pml4, map[];
    }

    /** One round of the mapping loop (src/paging.c:342-346), with a null pool. */
    method MapPage(no: nat, frame: nat, ghost shown': map<nat, nat>)
      requires Mapped(shown') && no < KMAP_PAGES && no !in shown' && frame % PAGE == 0 && frame < FRAMES
      modifies tables
      ensures Mapped(shown'[no := frame]) && SameOutside(old(tables.mem), tables.mem, pml4)
    {
      hide Ready, Vacant, Maps, Keeps, Tree, Shows, SameOutside, Walk, Translate, InOneHalf, KmapAddr;
      ghost var mem0 := tables.mem;
      OneHalf(no);
      FrameFits(frame);
      PageOf(no, KmapAddr(no));
      PageVacant(mem0, pml4, shown', no);
      PageReady(mem0, pml4, no);
      var ok := tables.PtMapPages(pml4, KmapAddr(no), KmapAddr(no) + PAGE, frame);
      PageMapped(mem0, tables.mem, pml4, shown', no, frame);
      StillReady(mem0, tables.mem, pml4);
    }

    /** `__kmap` (src/paging.c:322-349). */
    method Kmap(frames: seq<nat>) returns (r: Option<nat>)
      requires Valid() && forall i :: 0 <= i < |frames| ==> frames[i] % PAGE == 0 && frames[i] < FRAMES
      modifies this, tables, ranges, ranges.tag, ranges.link
      ensures Valid() && SameOutside(old(tables.mem), tables.mem, pml4)
      ensures r.None? <==> |frames| == 0 || |frames| >= 65536 || (|frames| > 1 && old(NoRoom(|frames|)))
      ensures r.None? || |frames| == 1 ==> shown == old(shown) && KR.Live(ranges.tiles) == old(KR.Live(ranges.tiles))
      ensures |frames| == 1 ==> r == Some(HIGHER_BASE + frames[0])
      ensures r.Some? && |frames| > 1 ==>
        KMAP_BEGIN <= r.value < KMAP_END && r.value == KmapAddr(AddrKmap(r.value))
      ensures r.Some? && |frames| > 1 ==>
        (forall no :: AddrKmap(r.value) <= no < AddrKmap(r.value) + |frames| ==> no !in old(shown))
      ensures r.Some? && |frames| > 1 ==> shown == Added(old(shown), AddrKmap(r.value), frames)
      ensures r.Some? && |frames| > 1 ==>
        KR.Live(ranges.tiles) == old(KR.Live(ranges.tiles))[AddrKmap(r.value) := |frames|]
    {
      if |frames| == 0 {
        return None;
      }
      if |frames| == 1 {
        return Some(HIGHER_BASE + frames[0]);
      }
      ghost var t := ranges.tiles;
      var range := ranges.AllocRange(|frames|);
      if range.None? {
        return None;
      }
      var h := range.value;
      RangeAdded(t, h, shown, KR.Live(ranges.tiles), frames);
      MapAll(h, frames);
      PageOf(h, KmapAddr(h));
      r := Some(KmapAddr(h));
    }

    /** The mapping loop of `__kmap` (src/paging.c:338-346). */
    method MapAll(h: nat, frames: seq<nat>)
      requires Mapped(shown) && h + |frames| <= KMAP_PAGES
      requires forall i :: 0 <= i < |frames| ==> frames[i] % PAGE == 0 && frames[i] < FRAMES
      requires forall no :: h <= no < h + |frames| ==> no !in shown
      modifies this, tables
      ensures shown == Added(old(shown), h, frames) && Mapped(shown) && SameOutside(old(tables.mem), tables.mem, pml4)
    {
      hide Mapped, SameOutside;
      ghost var mem0, shown0 := tables.mem, shown;
      SameOutsideRefl(mem0, pml4);
      assert Added(shown0, h, frames[..0]) == shown0;
      for i := 0 to |frames|
        invariant shown == Added(shown0, h, frames[..i]) && Mapped(shown) && SameOutside(mem0, tables.mem, pml4)
      {
        ghost var mem1 := tables.mem;
        AddedOne(shown0, h, frames, i);
        MapPage(h + i, frames[i], shown);
        SameOutsideJoin(mem0, mem1, tables.mem, pml4);
        shown := shown[h + i := frames[i]];
      }
      assert frames[..|frames|] == frames;
    }

    /** One round of the unmapping loop (src/paging.c:363-379). */
    method UnmapPage(no: nat, ghost shown': map<nat, nat>)
      requires Mapped(shown') && no < KMAP_PAGES
      modifies tables
      ensures Mapped(shown' - {no}) && SameOutside(old(tables.mem), tables.mem, pml4)
    {
      hide Ready, Keeps, Tree, Shows, SameOutside, Walk, Translate, Loses;
      ghost var mem0 := tables.mem;
      PageOf(no, KmapAddr(no));
      PageReady(mem0, pml4, no);
      tables.ClearLeaf(pml4, KmapAddr(no));
      PageLost(mem0, tables.mem, pml4, shown', no);
      StillReady(mem0, tables.mem, pml4);
    }

    /** The unmapping loop of `__kunmap` (src/paging.c:363-379). */
    method UnmapAll(h: nat, count: nat)
      requires Mapped(shown) && h + count <= KMAP_PAGES
      modifies this, tables
      ensures shown == Dropped(old(shown), h, count) && Mapped(shown) && SameOutside(old(tables.mem), tables.mem, pml4)
    {
      hide Mapped, SameOutside;
      ghost var mem0, shown0 := tables.mem, shown;
      SameOutsideRefl(mem0, pml4);
      assert Dropped(shown0, h, 0) == shown0;
      for i := 0 to count
        invariant shown == Dropped(shown0, h, i) && Mapped(shown) && SameOutside(mem0, tables.mem, pml4)
      {
        ghost var mem1 := tables.mem;
        DroppedOne(shown0, h, i);
        UnmapPage(h + i, shown);
        SameOutsideJoin(mem0, mem1, tables.mem, pml4);
        shown := shown - {h + i};
      }
    }

    /** `__kunmap` (src/paging.c:351-382): `ptr` is outside the window, or what `Kmap` returned. */
    method Kunmap(ptr: nat)
      requires Valid()
      requires KMAP_BEGIN <= ptr < KMAP_END ==> ptr % PAGE == 0 && AddrKmap(ptr) in KR.Live(ranges.tiles)
      modifies this, tables, ranges, ranges.tag, ranges.link
      ensures Valid() && SameOutside(old(tables.mem), tables.mem, pml4)
      ensures !(KMAP_BEGIN <= ptr < KMAP_END) ==> shown == old(shown) && ranges.tiles == old(ranges.tiles)
      ensures KMAP_BEGIN <= ptr < KMAP_END ==>
        shown == Dropped(old(shown), AddrKmap(ptr), old(KR.Live(ranges.tiles))[AddrKmap(ptr)])
      ensures KMAP_BEGIN <= ptr < KMAP_END ==> KR.Live(ranges.tiles) == old(KR.Live(ranges.tiles)) - {AddrKmap(ptr)}
    {
      SameOutsideRefl(tables.mem, pml4);
      if ptr < KMAP_BEGIN || ptr >= KMAP_END {
        return;
      }
      var range := AddrKmap(ptr);
      KR.InWindow(ranges.tiles, KMAP_PAGES, range);
      var count := ranges.tag[range];
      ghost var t := ranges.tiles;
      RangeDropped(t, range, shown, KR.Live(t) - {range});
      UnmapAll(range, count);
      ranges.FreeRange(range, count);
    }
  }

  /** `kmap_setup` (src/paging.c:416-433).  From here on mappings are made with a null pool. */
  method KmapSetup(tables: Tables, pml4: nat, tags: array<nat>, links: array<KR.Link>) returns (w: Window?)
    requires Tree(tables.mem, pml4, 4) && tables.Supplied() && Vacant(tables.mem, pml4, KMAP_BEGIN, KMAP_END - 1)
    requires tags.Length == links.Length == KMAP_PAGES
    modifies tables, tags, links
    ensures w == null ==> tables.supply == []
    ensures w != null <==>
      TablesNeeded(old(tables.mem), pml4, KMAP_BEGIN, KMAP_END - 1, 0, false) <= old(|tables.supply|)
    ensures w != null ==> fresh(w) && w.Valid() && w.shown == map[] && w.tables == tables && w.pml4 == pml4
    ensures w != null ==> SameTranslation(old(tables.mem), tables.mem, pml4)
  {
    hide Walk, Populated, Keeps;
    ghost var mem0 := tables.mem;
    var ok := tables.PtPopulatePages(pml4, KMAP_BEGIN, KMAP_END);
    if !ok {
      return null;
    }
    NothingShown(mem0, tables.mem, pml4);
    tables.supply := [];
    var ranges := new KR.Ranges(tags, links);
    ranges.FreeRange(0, KMAP_PAGES);
    w := new Window(tables, ranges, pml4);
  }

  lemma NothingShown(mem0: Mem, mem: Mem, pml4: nat)
    requires Vacant(mem0, pml4, KMAP_BEGIN, KMAP_END - 1) && SameTranslation(mem0, mem, pml4)
    ensures Shows(mem, pml4, map[])
  {
  }

  lemma SameOutsideRefl(mem: Mem, pml4: nat)
    ensures SameOutside(mem, mem, pml4)
  {
  }
}
