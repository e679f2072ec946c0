/**
 Four-level page tables (src/paging.c): the walk of section 4.5 of the Intel SDM Volume 3A, and the
 recursive builder `__pt_map_pages`.
 */
module PageTables {
  import opened Arithmetic
  import opened Collections

  const ENTRIES: nat := 512
  const PAGE: nat := 4096
  const WORD: nat := 0x1_0000_0000_0000_0000
  const FRAMES: nat := 0x10_0000_0000_0000

  /** A page-table entry: present (bit 0), bit 7, and the frame address; the writable and user bits
      take no part in translation. */
  datatype Pte = Pte(present: bool, bit7: bool, addr: nat)

  /** The bits that `PTE_PHYS_MASK` (inc/paging.h:13) leaves of the address of a page. */
  function Frame(addr: nat): nat { addr % FRAMES }

  type Mem = map<nat, seq<Pte>>

  predicate Level(lvl: int) { 1 <= lvl <= 4 }

  /** `pml_size` (src/paging.c:42-46). */
  function Size(lvl: int): nat
    requires Level(lvl)
  {
    if lvl == 1 then 0x1000 else if lvl == 2 then 0x20_0000 else if lvl == 3 then 0x4000_0000 else 0x80_0000_0000
  }

  lemma SizeStep(lvl: int)
    requires 2 <= lvl <= 4
    ensures Size(lvl) == 512 * Size(lvl - 1)
  {
  }

  /** Bit 7 makes an entry a leaf at levels 2 and 3 only. */
  predicate IsLeaf(e: Pte, lvl: int) {
    e.present && (lvl == 1 || (e.bit7 && lvl < 4))
  }

  predicate IsTable(e: Pte, lvl: int) {
    e.present && lvl > 1 && !(e.bit7 && lvl < 4)
  }

  /** The entry of a level-`lvl` table that serves offset `v` of its region, and what is left. */
  function Index(v: nat, lvl: int): nat
    requires Level(lvl)
  {
    v / Size(lvl)
  }

  function Rest(v: nat, lvl: int): nat
    requires Level(lvl)
  {
    v % Size(lvl)
  }

  /** The hardware walk from table `t`, for an offset into the region the table serves. */
  function Walk(mem: Mem, t: nat, lvl: int, v: nat): Option<nat>
    requires Level(lvl)
    decreases lvl
  {
    var i := Index(v, lvl);
    if t !in mem || i >= |mem[t]| then None
    else
      var e := mem[t][i];
      if IsLeaf(e, lvl) then Some(e.addr + Rest(v, lvl))
      else if IsTable(e, lvl) then Walk(mem, e.addr, lvl - 1, Rest(v, lvl))
      else None
  }

  // ---- tables form a tree --------------------------------------------------------------------

  /** The tables reached from `t`. */
  ghost function Reach(mem: Mem, t: nat, lvl: int): set<nat>
    requires Level(lvl)
    decreases lvl, 1
  {
    {t} + if t !in mem then {} else set i: nat, x: nat | i < |mem[t]| && x in Below(mem, t, lvl, i) :: x
  }

  /** What hangs below entry `i`. */
  ghost function Below(mem: Mem, t: nat, lvl: int, i: nat): set<nat>
    requires Level(lvl)
    decreases lvl, 0
  {
    if t in mem && i < |mem[t]| && IsTable(mem[t][i], lvl) then Reach(mem, mem[t][i].addr, lvl - 1) else {}
  }

  ghost predicate GoodEntry(mem: Mem, t: nat, lvl: int, i: nat)
    requires Level(lvl) && t in mem && i < |mem[t]|
    decreases lvl, 0
  {
    var e := mem[t][i];
    && (IsLeaf(e, lvl) ==> e.addr % Size(lvl) == 0)
    && (IsTable(e, lvl) ==> Tree(mem, e.addr, lvl - 1))
    && t !in Below(mem, t, lvl, i)
  }

  /** Every table has 512 entries and is reached in one way only, and leaves are aligned. */
  ghost predicate Tree(mem: Mem, t: nat, lvl: int)
    requires Level(lvl)
    decreases lvl, 1
  {
    && t in mem && |mem[t]| == ENTRIES
    && (forall i: nat :: i < ENTRIES ==> GoodEntry(mem, t, lvl, i))
    && (forall i: nat, j: nat :: i < j < ENTRIES ==> Below(mem, t, lvl, i) !! Below(mem, t, lvl, j))
  }

  lemma BelowInReach(mem: Mem, t: nat, lvl: int, i: nat)
    requires Level(lvl) && t in mem && i < |mem[t]|
    ensures Below(mem, t, lvl, i) <= Reach(mem, t, lvl)
  {
  }

  lemma ReachFrom(mem: Mem, t: nat, lvl: int, x: nat) returns (i: nat)
    requires Level(lvl) && t in mem && x in Reach(mem, t, lvl) && x != t
    ensures i < |mem[t]| && x in Below(mem, t, lvl, i)
  {
    i :| i < |mem[t]| && x in Below(mem, t, lvl, i);
  }

  /** All reached tables exist. */
  lemma {:induction false} ReachExists(mem: Mem, t: nat, lvl: int)
    requires Level(lvl) && Tree(mem, t, lvl)
    ensures forall x :: x in Reach(mem, t, lvl) ==> x in mem
    decreases lvl
  {
    forall x | x in Reach(mem, t, lvl) ensures x in mem {
      if x != t {
        var i := ReachFrom(mem, t, lvl, x);
        assert GoodEntry(mem, t, lvl, i);
        ReachExists(mem, mem[t][i].addr, lvl - 1);
      }
    }
  }

  ghost predicate Agree(mem: Mem, mem': Mem, S: set<nat>) {
    forall x :: x in S ==> x in mem && x in mem' && mem[x] == mem'[x]
  }

  /** Nothing outside the reached tables matters. */
  lemma {:induction false} FrameReach(mem: Mem, mem': Mem, t: nat, lvl: int)
    requires Level(lvl) && Tree(mem, t, lvl) && Agree(mem, mem', Reach(mem, t, lvl))
    ensures Reach(mem', t, lvl) == Reach(mem, t, lvl)
    ensures forall i: nat :: i < ENTRIES ==> Below(mem', t, lvl, i) == Below(mem, t, lvl, i)
    decreases lvl
  {
    assert t in Reach(mem, t, lvl);
    forall i: nat | i < ENTRIES ensures Below(mem', t, lvl, i) == Below(mem, t, lvl, i) {
      assert GoodEntry(mem, t, lvl, i);
      if IsTable(mem[t][i], lvl) {
        BelowInReach(mem, t, lvl, i);
        FrameReach(mem, mem', mem[t][i].addr, lvl - 1);
      }
    }
    SameBelowSameReach(mem, mem', t, lvl);
    SameBelowSameReach(mem', mem, t, lvl);
  }

  lemma SameBelowSameReach(mem: Mem, mem': Mem, t: nat, lvl: int)
    requires Level(lvl) && t in mem && t in mem' && |mem[t]| == |mem'[t]|
    requires forall i: nat :: i < |mem[t]| ==> Below(mem, t, lvl, i) == Below(mem', t, lvl, i)
    ensures Reach(mem, t, lvl) <= Reach(mem', t, lvl)
  {
    forall x | x in Reach(mem, t, lvl) ensures x in Reach(mem', t, lvl) {
      if x != t {
        var i := ReachFrom(mem, t, lvl, x);
        BelowInReach(mem', t, lvl, i);
      }
    }
  }

  lemma {:induction false} FrameTree(mem: Mem, mem': Mem, t: nat, lvl: int)
    requires Level(lvl) && Tree(mem, t, lvl) && Agree(mem, mem', Reach(mem, t, lvl))
    ensures Tree(mem', t, lvl)
    decreases lvl
  {
    hide Reach;
    FrameReach(mem, mem', t, lvl);
    SelfReached(mem, t, lvl);
    forall i: nat | i < ENTRIES ensures GoodEntry(mem', t, lvl, i) {
      assert GoodEntry(mem, t, lvl, i);
      if IsTable(mem[t][i], lvl) {
        BelowInReach(mem, t, lvl, i);
        FrameTree(mem, mem', mem[t][i].addr, lvl - 1);
      }
    }
    assert forall i: nat, j: nat :: i < j < ENTRIES ==> Below(mem', t, lvl, i) !! Below(mem', t, lvl, j);
  }

  lemma SelfReached(mem: Mem, t: nat, lvl: int)
    requires Level(lvl)
    ensures t in Reach(mem, t, lvl)
  {
  }

  lemma {:induction false} FrameWalk(mem: Mem, mem': Mem, t: nat, lvl: int, v: nat)
    requires Level(lvl) && Tree(mem, t, lvl) && Agree(mem, mem', Reach(mem, t, lvl))
    ensures Walk(mem', t, lvl, v) == Walk(mem, t, lvl, v)
    decreases lvl
  {
    assert t in Reach(mem, t, lvl);
    var i := Index(v, lvl);
    if i < ENTRIES && IsTable(mem[t][i], lvl) {
      assert GoodEntry(mem, t, lvl, i);
      BelowInReach(mem, t, lvl, i);
      FrameWalk(mem, mem', mem[t][i].addr, lvl - 1, Rest(v, lvl));
    }
  }

  // ---- changing one entry --------------------------------------------------------------------

  /** Between `mem` and `mem'` only entry `i` of table `t` and what hangs below it have changed. */
  ghost predicate OnlyEntry(mem: Mem, mem': Mem, t: nat, lvl: int, i: nat)
    requires Level(lvl)
  {
    && t in mem && t in mem' && |mem[t]| == |mem'[t]| == ENTRIES && i < ENTRIES
    && (forall j: nat :: j < ENTRIES && j != i ==>
          mem'[t][j] == mem[t][j] && Agree(mem, mem', Below(mem, t, lvl, j)))
  }

  lemma OtherBelow(mem: Mem, mem': Mem, t: nat, lvl: int, i: nat, j: nat)
    requires Level(lvl) && Tree(mem, t, lvl) && OnlyEntry(mem, mem', t, lvl, i) && j < ENTRIES && j != i
    ensures Below(mem', t, lvl, j) == Below(mem, t, lvl, j) && GoodEntry(mem', t, lvl, j)
  {
    assert GoodEntry(mem, t, lvl, j);
    if IsTable(mem[t][j], lvl) {
      FrameReach(mem, mem', mem[t][j].addr, lvl - 1);
      FrameTree(mem, mem', mem[t][j].addr, lvl - 1);
    }
  }

  lemma EntryChangedTree(mem: Mem, mem': Mem, t: nat, lvl: int, i: nat)
    requires Level(lvl) && Tree(mem, t, lvl) && OnlyEntry(mem, mem', t, lvl, i) && GoodEntry(mem', t, lvl, i)
    requires forall j: nat :: j < ENTRIES && j != i ==> Below(mem', t, lvl, i) !! Below(mem, t, lvl, j)
    ensures Tree(mem', t, lvl)
  {
    forall j: nat | j < ENTRIES
      ensures GoodEntry(mem', t, lvl, j) && (j != i ==> Below(mem', t, lvl, j) == Below(mem, t, lvl, j))
    {
      if j != i { OtherBelow(mem, mem', t, lvl, i, j); }
    }
    forall j: nat, k: nat | j < k < ENTRIES ensures Below(mem', t, lvl, j) !! Below(mem', t, lvl, k) {
    }
  }

  lemma EntryChangedReach(mem: Mem, mem': Mem, t: nat, lvl: int, i: nat)
    requires Level(lvl) && Tree(mem, t, lvl) && OnlyEntry(mem, mem', t, lvl, i)
    ensures Reach(mem', t, lvl) <= Reach(mem, t, lvl) + Below(mem', t, lvl, i)
  {
    forall x | x in Reach(mem', t, lvl) ensures x in Reach(mem, t, lvl) + Below(mem', t, lvl, i) {
      if x != t && x !in Below(mem', t, lvl, i) {
        var j := ReachFrom(mem', t, lvl, x);
        OtherBelow(mem, mem', t, lvl, i, j);
        BelowInReach(mem, t, lvl, j);
      }
    }
  }

  lemma EntryChangedWalk(mem: Mem, mem': Mem, t: nat, lvl: int, i: nat, v: nat)
    requires Level(lvl) && Tree(mem, t, lvl) && OnlyEntry(mem, mem', t, lvl, i) && Index(v, lvl) != i
    ensures Walk(mem', t, lvl, v) == Walk(mem, t, lvl, v)
  {
    var j := Index(v, lvl);
    if j < ENTRIES {
      assert GoodEntry(mem, t, lvl, j);
      if IsTable(mem[t][j], lvl) { FrameWalk(mem, mem', mem[t][j].addr, lvl - 1, Rest(v, lvl)); }
    }
  }

  // ---- the builder ---------------------------------------------------------------------------

  /** `mem` translates like `mem0`, except that the offsets [b, c) now lead to `phys` onwards. */
  ghost predicate MappedUpTo(mem0: Mem, mem: Mem, t: nat, lvl: int, b: nat, c: nat, phys: nat, present: bool)
    requires Level(lvl)
  {
    forall v: nat :: Walk(mem, t, lvl, v)
      == if present && b <= v < c then Some(phys + v - b) else Walk(mem0, t, lvl, v)
  }

  /** No leaf serves the offsets [b, c). */
  ghost predicate Unmapped(mem: Mem, t: nat, lvl: int, b: nat, c: nat)
    requires Level(lvl)
  {
    forall v: nat :: b <= v < c ==> Walk(mem, t, lvl, v) == None
  }

  /** All tables on the way to offset `v` exist. */
  ghost predicate Populated(mem: Mem, t: nat, lvl: int, v: nat)
    requires Level(lvl)
    decreases lvl
  {
    lvl == 1 || (t in mem && Index(v, lvl) < |mem[t]| && IsTable(mem[t][Index(v, lvl)], lvl)
                 && Populated(mem, mem[t][Index(v, lvl)].addr, lvl - 1, Rest(v, lvl)))
  }

  /** Only tables reached from `t` have changed, and new ones have come. */
  ghost predicate Touches(mem0: Mem, mem: Mem, t: nat, lvl: int)
    requires Level(lvl)
  {
    && mem0.Keys <= mem.Keys
    && (forall x :: x in mem0 && x !in Reach(mem0, t, lvl) ==> mem[x] == mem0[x])
    && Reach(mem, t, lvl) <= Reach(mem0, t, lvl) + (mem.Keys - mem0.Keys)
  }

  const EMPTY: seq<Pte> := seq(ENTRIES, _ => Pte(false, false, 0))

  lemma DivisionFacts(v: nat, lvl: int, i: nat)
    requires Level(lvl)
    ensures Index(v, lvl) == i <==> i * Size(lvl) <= v < i * Size(lvl) + Size(lvl)
    ensures v == Index(v, lvl) * Size(lvl) + Rest(v, lvl)
  {
  }

  lemma OnlyEntryJoin(mem0: Mem, mem1: Mem, mem2: Mem, t: nat, lvl: int, i: nat)
    requires Level(lvl) && Tree(mem0, t, lvl) && OnlyEntry(mem0, mem1, t, lvl, i) && OnlyEntry(mem1, mem2, t, lvl, i)
    ensures OnlyEntry(mem0, mem2, t, lvl, i)
  {
    hide Below, Tree, GoodEntry;
    forall j: nat | j < ENTRIES && j != i ensures Agree(mem0, mem2, Below(mem0, t, lvl, j)) {
      OtherBelow(mem0, mem1, t, lvl, i, j);
    }
  }

  /** A leaf put into entry `i` maps exactly the region of that entry. */
  lemma LeafMapped(mem: Mem, mem': Mem, t: nat, lvl: int, i: nat, e: Pte)
    requires Level(lvl) && Tree(mem, t, lvl) && i < ENTRIES && !mem[t][i].present && mem' == mem[t := mem[t][i := e]]
    requires !IsTable(e, lvl) && (IsLeaf(e, lvl) ==> e.addr % Size(lvl) == 0)
    ensures Tree(mem', t, lvl) && Reach(mem', t, lvl) <= Reach(mem, t, lvl)
    ensures MappedUpTo(mem, mem', t, lvl, i * Size(lvl), (i + 1) * Size(lvl), e.addr, e.present)
  {
    assert OnlyEntry(mem, mem', t, lvl, i) by {
      forall j: nat | j < ENTRIES && j != i ensures Agree(mem, mem', Below(mem, t, lvl, j)) {
        assert GoodEntry(mem, t, lvl, j);
        if IsTable(mem[t][j], lvl) { ReachExists(mem, mem[t][j].addr, lvl - 1); }
      }
    }
    EntryChangedTree(mem, mem', t, lvl, i);
    EntryChangedReach(mem, mem', t, lvl, i);
    forall v: nat
      ensures Walk(mem', t, lvl, v) == if e.present && i * Size(lvl) <= v < (i + 1) * Size(lvl)
                                       then Some(e.addr + v - i * Size(lvl)) else Walk(mem, t, lvl, v)
    {
      DivisionFacts(v, lvl, i);
      if Index(v, lvl) != i { EntryChangedWalk(mem, mem', t, lvl, i, v); }
    }
  }

  lemma EmptyTable(mem: Mem, page: nat, lvl: int)
    requires Level(lvl) && page in mem && mem[page] == EMPTY
    ensures Tree(mem, page, lvl) && Reach(mem, page, lvl) == {page}
    ensures forall v: nat :: Walk(mem, page, lvl, v) == None
  {
    forall i: nat | i < ENTRIES ensures Below(mem, page, lvl, i) == {} && GoodEntry(mem, page, lvl, i) {
      assert mem[page][i] == Pte(false, false, 0);
    }
    forall x | x in Reach(mem, page, lvl) ensures x == page {
      if x != page { var i := ReachFrom(mem, page, lvl, x); }
    }
  }

  /** A new empty table below entry `i` translates nothing. */
  lemma TableAdded(mem: Mem, mem': Mem, t: nat, lvl: int, i: nat, page: nat)
    requires 2 <= lvl <= 4 && Tree(mem, t, lvl) && i < ENTRIES && !mem[t][i].present && page !in mem
    requires mem' == mem[page := EMPTY][t := mem[t][i := Pte(true, false, page)]]
    ensures Tree(mem', t, lvl) && Touches(mem, mem', t, lvl)
    ensures forall v: nat :: Walk(mem', t, lvl, v) == Walk(mem, t, lvl, v)
  {
    EmptyTable(mem', page, lvl - 1);
    ReachExists(mem, t, lvl);
    assert OnlyEntry(mem, mem', t, lvl, i) by {
      forall j: nat | j < ENTRIES && j != i ensures Agree(mem, mem', Below(mem, t, lvl, j)) {
        assert GoodEntry(mem, t, lvl, j);
        BelowInReach(mem, t, lvl, j);
      }
    }
    assert Below(mem', t, lvl, i) == {page};
    forall j: nat | j < ENTRIES && j != i ensures Below(mem', t, lvl, i) !! Below(mem, t, lvl, j) {
      BelowInReach(mem, t, lvl, j);
    }
    EntryChangedTree(mem, mem', t, lvl, i);
    EntryChangedReach(mem, mem', t, lvl, i);
    assert t in Reach(mem, t, lvl);
    forall v: nat ensures Walk(mem', t, lvl, v) == Walk(mem, t, lvl, v) {
      if Index(v, lvl) != i { EntryChangedWalk(mem, mem', t, lvl, i, v); }
    }
  }

  /** The child of entry `i` has been changed within its own tables. */
  lemma ChildChanged(mem: Mem, mem': Mem, t: nat, lvl: int, i: nat)
    requires 2 <= lvl <= 4 && Tree(mem, t, lvl) && i < ENTRIES && IsTable(mem[t][i], lvl)
    requires Tree(mem', mem[t][i].addr, lvl - 1) && Touches(mem, mem', mem[t][i].addr, lvl - 1)
    ensures OnlyEntry(mem, mem', t, lvl, i) && Tree(mem', t, lvl) && Touches(mem, mem', t, lvl)
    ensures mem'[t] == mem[t]
  {
    var c := mem[t][i].addr;
    assert GoodEntry(mem, t, lvl, i) && Below(mem, t, lvl, i) == Reach(mem, c, lvl - 1);
    ReachExists(mem, t, lvl);
    BelowInReach(mem, t, lvl, i);
    forall j: nat | j < ENTRIES && j != i
      ensures Agree(mem, mem', Below(mem, t, lvl, j)) && Below(mem', t, lvl, i) !! Below(mem, t, lvl, j)
    {
      BelowInReach(mem, t, lvl, j);
      assert Below(mem, t, lvl, i) !! Below(mem, t, lvl, j);
    }
    assert t !in Below(mem', t, lvl, i);
    EntryChangedTree(mem, mem', t, lvl, i);
    EntryChangedReach(mem, mem', t, lvl, i);
  }

  lemma ChildMapped(mem: Mem, mem': Mem, t: nat, lvl: int, i: nat, b: nat, c: nat, phys: nat, present: bool)
    requires 2 <= lvl <= 4 && Tree(mem, t, lvl) && i < ENTRIES && IsTable(mem[t][i], lvl)
    requires i * Size(lvl) <= b < c <= (i + 1) * Size(lvl)
    requires Tree(mem', mem[t][i].addr, lvl - 1) && Touches(mem, mem', mem[t][i].addr, lvl - 1)
    requires MappedUpTo(mem, mem', mem[t][i].addr, lvl - 1, b - i * Size(lvl), c - i * Size(lvl), phys, present)
    ensures MappedUpTo(mem, mem', t, lvl, b, c, phys, present)
  {
    hide Walk, Tree, OnlyEntry, Touches, Size;
    ChildChanged(mem, mem', t, lvl, i);
    HasEntries(mem, t, lvl);
    var child, o := mem[t][i].addr, i * Size(lvl);
    forall v: nat
      ensures Walk(mem', t, lvl, v) == if present && b <= v < c then Some(phys + v - b) else Walk(mem, t, lvl, v)
    {
      DivisionFacts(v, lvl, i);
      assert (i + 1) * Size(lvl) == o + Size(lvl);
      if Index(v, lvl) != i {
        EntryChangedWalk(mem, mem', t, lvl, i, v);
      } else {
        WalkDown(mem, t, lvl, i, v);
        WalkDown(mem', t, lvl, i, v);
        assert Walk(mem', child, lvl - 1, v - o)
          == if present && b - o <= v - o < c - o then Some(phys + (v - o) - (b - o))
             else Walk(mem, child, lvl - 1, v - o);
      }
    }
  }

  lemma HasEntries(mem: Mem, t: nat, lvl: int)
    requires Level(lvl) && Tree(mem, t, lvl)
    ensures t in mem && |mem[t]| == ENTRIES
  {
  }

  /** The walk goes on in the table of the entry. */
  lemma WalkDown(mem: Mem, t: nat, lvl: int, i: nat, v: nat)
    requires 2 <= lvl <= 4 && t in mem && i < |mem[t]| && IsTable(mem[t][i], lvl) && Index(v, lvl) == i
    ensures i * Size(lvl) <= v && Walk(mem, t, lvl, v) == Walk(mem, mem[t][i].addr, lvl - 1, v - i * Size(lvl))
  {
    DivisionFacts(v, lvl, i);
  }

  /** Adjacent pieces make one mapping. */
  lemma MappedJoin(mem0: Mem, mem1: Mem, mem2: Mem, t: nat, lvl: int, b: nat, c: nat, d: nat, phys: nat, present: bool)
    requires Level(lvl) && b <= c <= d
    requires MappedUpTo(mem0, mem1, t, lvl, b, c, phys, present)
    requires MappedUpTo(mem1, mem2, t, lvl, c, d, phys + c - b, present)
    ensures MappedUpTo(mem0, mem2, t, lvl, b, d, phys, present)
  {
    forall v: nat
      ensures Walk(mem2, t, lvl, v) == if present && b <= v < d then Some(phys + v - b) else Walk(mem0, t, lvl, v)
    {
      assert Walk(mem1, t, lvl, v) == if present && b <= v < c then Some(phys + v - b) else Walk(mem0, t, lvl, v);
    }
  }

  lemma TouchesJoin(mem0: Mem, mem1: Mem, mem2: Mem, t: nat, lvl: int)
    requires Level(lvl) && Touches(mem0, mem1, t, lvl) && Touches(mem1, mem2, t, lvl)
    ensures Touches(mem0, mem2, t, lvl)
  {
  }

  /** No table on any way is lost. */
  ghost predicate Keeps(mem: Mem, mem': Mem, t: nat, lvl: int)
    requires Level(lvl)
  {
    forall v: nat :: Populated(mem, t, lvl, v) ==> Populated(mem', t, lvl, v)
  }

  lemma {:induction false} FramePopulated(mem: Mem, mem': Mem, t: nat, lvl: int, v: nat)
    requires Level(lvl) && Tree(mem, t, lvl) && Agree(mem, mem', Reach(mem, t, lvl)) && Populated(mem, t, lvl, v)
    ensures Populated(mem', t, lvl, v)
    decreases lvl
  {
    assert t in Reach(mem, t, lvl);
    if lvl > 1 {
      var i := Index(v, lvl);
      var c := mem[t][i].addr;
      assert GoodEntry(mem, t, lvl, i) && IsTable(mem[t][i], lvl);
      BelowInReach(mem, t, lvl, i);
      assert Below(mem, t, lvl, i) == Reach(mem, c, lvl - 1);
      assert Tree(mem, c, lvl - 1) && Populated(mem, c, lvl - 1, Rest(v, lvl));
      FramePopulated(mem, mem', c, lvl - 1, Rest(v, lvl));
    }
  }

  lemma EntryKeeps(mem: Mem, mem': Mem, t: nat, lvl: int, i: nat)
    requires Level(lvl) && Tree(mem, t, lvl) && OnlyEntry(mem, mem', t, lvl, i)
    requires IsTable(mem[t][i], lvl) ==> mem'[t][i] == mem[t][i] && Keeps(mem, mem', mem[t][i].addr, lvl - 1)
    ensures Keeps(mem, mem', t, lvl)
  {
    forall v: nat | Populated(mem, t, lvl, v) ensures Populated(mem', t, lvl, v) {
      if lvl > 1 {
        var j := Index(v, lvl);
        assert GoodEntry(mem, t, lvl, j);
        if j != i { FramePopulated(mem, mem', mem[t][j].addr, lvl - 1, Rest(v, lvl)); }
      }
    }
  }

  /** What building the mapping of the offsets [b, c) has done to the tables below `t`. */
  ghost predicate Built(mem0: Mem, mem: Mem, t: nat, lvl: int, b: nat, c: nat, phys: nat, present: bool)
    requires Level(lvl)
  {
    Tree(mem, t, lvl) && Touches(mem0, mem, t, lvl) && Keeps(mem0, mem, t, lvl)
    && MappedUpTo(mem0, mem, t, lvl, b, c, phys, present)
  }

  lemma BuiltJoin(mem0: Mem, mem1: Mem, mem2: Mem, t: nat, lvl: int, b: nat, c: nat, d: nat, phys: nat, present: bool)
    requires Level(lvl) && b <= c <= d
    requires Built(mem0, mem1, t, lvl, b, c, phys, present) && Built(mem1, mem2, t, lvl, c, d, phys + c - b, present)
    ensures Built(mem0, mem2, t, lvl, b, d, phys, present)
  {
    MappedJoin(mem0, mem1, mem2, t, lvl, b, c, d, phys, present);
    TouchesJoin(mem0, mem1, mem2, t, lvl);
  }

  lemma LeafBuilt(mem: Mem, mem': Mem, t: nat, lvl: int, i: nat, e: Pte)
    requires Level(lvl) && Tree(mem, t, lvl) && i < ENTRIES && !mem[t][i].present && mem' == mem[t := mem[t][i := e]]
    requires !IsTable(e, lvl) && (IsLeaf(e, lvl) ==> e.addr % Size(lvl) == 0)
    ensures Built(mem, mem', t, lvl, i * Size(lvl), (i + 1) * Size(lvl), e.addr, e.present)
    ensures OnlyEntry(mem, mem', t, lvl, i)
  {
    LeafMapped(mem, mem', t, lvl, i, e);
    assert t in Reach(mem, t, lvl);
    ReachExists(mem, t, lvl);
    assert OnlyEntry(mem, mem', t, lvl, i) by {
      forall j: nat | j < ENTRIES && j != i ensures Agree(mem, mem', Below(mem, t, lvl, j)) {
        assert GoodEntry(mem, t, lvl, j);
        BelowInReach(mem, t, lvl, j);
      }
    }
    EntryKeeps(mem, mem', t, lvl, i);
  }

  lemma TableBuilt(mem: Mem, mem': Mem, t: nat, lvl: int, i: nat, page: nat, b: nat, phys: nat, present: bool)
    requires 2 <= lvl <= 4 && Tree(mem, t, lvl) && i < ENTRIES && !mem[t][i].present && page !in mem
    requires mem' == mem[page := EMPTY][t := mem[t][i := Pte(true, false, page)]]
    ensures Built(mem, mem', t, lvl, b, b, phys, present)
    ensures OnlyEntry(mem, mem', t, lvl, i)
  {
    TableAdded(mem, mem', t, lvl, i, page);
    ReachExists(mem, t, lvl);
    assert OnlyEntry(mem, mem', t, lvl, i) by {
      forall j: nat | j < ENTRIES && j != i ensures Agree(mem, mem', Below(mem, t, lvl, j)) {
        assert GoodEntry(mem, t, lvl, j);
        BelowInReach(mem, t, lvl, j);
      }
    }
    EntryKeeps(mem, mem', t, lvl, i);
  }

  lemma ChildBuilt(mem: Mem, mem': Mem, t: nat, lvl: int, i: nat, b: nat, c: nat, phys: nat, present: bool)
    requires 2 <= lvl <= 4 && Tree(mem, t, lvl) && i < ENTRIES && IsTable(mem[t][i], lvl)
    requires i * Size(lvl) <= b < c <= (i + 1) * Size(lvl)
    requires Built(mem, mem', mem[t][i].addr, lvl - 1, b - i * Size(lvl), c - i * Size(lvl), phys, present)
    ensures Built(mem, mem', t, lvl, b, c, phys, present) && mem'[t] == mem[t]
    ensures OnlyEntry(mem, mem', t, lvl, i)
  {
    ChildMapped(mem, mem', t, lvl, i, b, c, phys, present);
    ChildChanged(mem, mem', t, lvl, i);
    EntryKeeps(mem, mem', t, lvl, i);
  }

  lemma ChildTree(mem: Mem, t: nat, lvl: int, i: nat)
    requires Level(lvl) && Tree(mem, t, lvl) && i < ENTRIES && IsTable(mem[t][i], lvl)
    ensures Tree(mem, mem[t][i].addr, lvl - 1)
  {
    assert GoodEntry(mem, t, lvl, i);
  }

  ghost predicate PopulatedRange(mem: Mem, t: nat, lvl: int, b: nat, c: nat)
    requires Level(lvl)
  {
    forall v: nat :: b <= v < c ==> Populated(mem, t, lvl, v)
  }

  lemma ChildPopulated(mem: Mem, t: nat, lvl: int, i: nat, b: nat, c: nat)
    requires 2 <= lvl <= 4 && t in mem && i < |mem[t]| && IsTable(mem[t][i], lvl)
    requires i * Size(lvl) <= b < c <= (i + 1) * Size(lvl)
    ensures PopulatedRange(mem, t, lvl, b, c)
       <==> PopulatedRange(mem, mem[t][i].addr, lvl - 1, b - i * Size(lvl), c - i * Size(lvl))
  {
    var child, below := mem[t][i].addr, lvl - 1;
    if PopulatedRange(mem, t, lvl, b, c) {
      forall u: nat | b - i * Size(lvl) <= u < c - i * Size(lvl) ensures Populated(mem, child, below, u) {
        var v := u + i * Size(lvl);
        DivisionFacts(v, lvl, i);
        assert Populated(mem, t, lvl, v);
      }
    }
    if PopulatedRange(mem, mem[t][i].addr, lvl - 1, b - i * Size(lvl), c - i * Size(lvl)) {
      forall v: nat | b <= v < c ensures Populated(mem, t, lvl, v) {
        DivisionFacts(v, lvl, i);
      }
    }
  }

  lemma ChildUnmapped(mem: Mem, t: nat, lvl: int, i: nat, b: nat, c: nat)
    requires Level(lvl) && t in mem && i < |mem[t]| && mem[t][i].present
    requires i * Size(lvl) <= b < c <= (i + 1) * Size(lvl) && Unmapped(mem, t, lvl, b, c)
    ensures IsTable(mem[t][i], lvl)
    ensures Unmapped(mem, mem[t][i].addr, lvl - 1, b - i * Size(lvl), c - i * Size(lvl))
  {
    DivisionFacts(b, lvl, i);
    assert Walk(mem, t, lvl, b) == None;
    var child, below := mem[t][i].addr, lvl - 1;
    forall u: nat | b - i * Size(lvl) <= u < c - i * Size(lvl) ensures Walk(mem, child, below, u) == None {
      DivisionFacts(u + i * Size(lvl), lvl, i);
      assert Walk(mem, t, lvl, u + i * Size(lvl)) == None;
    }
  }

  /** Regions of tables start at multiples of their size. */
  ghost predicate Region(base: nat, lvl: int)
    requires Level(lvl)
  {
    base % (ENTRIES * Size(lvl)) == 0 && base + ENTRIES * Size(lvl) <= WORD
  }

  /** Address `a` is served by entry `i` of the table whose region starts at `base`. */
  predicate Serves(base: nat, lvl: int, i: nat, a: int)
    requires Level(lvl)
  {
    base + i * Size(lvl) <= a < base + i * Size(lvl) + Size(lvl)
  }

  /** `pml_offs` (src/paging.c:34-40). */
  function Offs(addr: nat, lvl: int): nat
    requires Level(lvl)
  {
    addr / Size(lvl) % ENTRIES
  }

  /** A region starts at a multiple of 512 entries. */
  lemma RegionMultiple(base: nat, lvl: int) returns (q: nat)
    requires Level(lvl) && Region(base, lvl)
    ensures base == q * Size(lvl) && q % ENTRIES == 0 && (q + ENTRIES) * Size(lvl) <= WORD
  {
    var n := Size(lvl);
    var k := base / (ENTRIES * n);
    q := k * ENTRIES;
    assert base == k * (ENTRIES * n) == q * n;
    assert (q + ENTRIES) * n == q * n + ENTRIES * n;
  }

  lemma ServesIndex(base: nat, lvl: int, i: nat, a: nat)
    requires Level(lvl) && base <= a
    ensures Serves(base, lvl, i, a) <==> Index(a - base, lvl) == i
  {
    DivisionFacts(a - base, lvl, i);
  }

  lemma OffsServes(base: nat, lvl: int, a: nat)
    requires Level(lvl) && Region(base, lvl) && base <= a < base + ENTRIES * Size(lvl)
    ensures Offs(a, lvl) < ENTRIES && Serves(base, lvl, Offs(a, lvl), a) && Offs(a, lvl) == Index(a - base, lvl)
  {
    hide Region, Serves, Offs, Index;
    var q := RegionMultiple(base, lvl);
    IndexBound(a - base, lvl);
    OffsOf(q, a - base, lvl);
    ServesIndex(base, lvl, Index(a - base, lvl), a);
  }

  lemma IndexBound(v: nat, lvl: int)
    requires Level(lvl) && v < ENTRIES * Size(lvl)
    ensures Index(v, lvl) < ENTRIES
  {
    DivisionFacts(v, lvl, Index(v, lvl));
    MulOrder(ENTRIES, Index(v, lvl), Size(lvl));
  }

  lemma OffsOf(q: nat, v: nat, lvl: int)
    requires Level(lvl) && q % ENTRIES == 0 && Index(v, lvl) < ENTRIES
    ensures Offs(q * Size(lvl) + v, lvl) == Index(v, lvl)
  {
    var n, j := Size(lvl), Index(v, lvl);
    assert (q + j) * n == q * n + j * n;
    DivUnique(q + j, Rest(v, lvl), n);
  }

  /** The last address an entry serves, with 64-bit wrap-around (src/paging.c:101). */
  function EntryEnd(begin: nat, lvl: int): nat
    requires Level(lvl)
  {
    ((begin + Size(lvl)) % WORD / Size(lvl) * Size(lvl) + WORD - 1) % WORD
  }

  lemma WordMultiple(lvl: int) returns (m: nat)
    requires Level(lvl)
    ensures WORD == m * Size(lvl)
  {
    m := WORD / Size(lvl);
  }

  lemma EntryEndIs(base: nat, lvl: int, i: nat, a: nat)
    requires Level(lvl) && Region(base, lvl) && i < ENTRIES && Serves(base, lvl, i, a)
    ensures EntryEnd(a, lvl) == base + i * Size(lvl) + Size(lvl) - 1
  {
    var n := Size(lvl);
    var q := RegionMultiple(base, lvl);
    var m := WordMultiple(lvl);
    var k := q + i + 1;
    var r := a - base - i * n;
    assert k * n == q * n + i * n + n;
    assert a + n == k * n + r;
    MulOrder(q + ENTRIES, m, n);
    MulOrder(k + 1, m, n);
    assert (k + 1) * n == k * n + n;
    DivUnique(k, r, n);
    DivUnique(0, r, n);
    assert k <= m;
    if k == m {
      assert (a + n) % WORD == r;
    } else {
      assert k * n + n <= WORD;
      assert (a + n) % WORD == a + n;
    }
  }

  lemma ChunkFacts(begin: nat, last: nat, lvl: int, i: nat, base: nat)
    requires Level(lvl) && Region(base, lvl) && Serves(base, lvl, i, begin) && Serves(base, lvl, i, last)
    requires begin % PAGE == 0 && (last + 1) % PAGE == 0 && begin <= last && i < ENTRIES
    ensures begin % Size(lvl) == 0 && last - begin + 1 == Size(lvl) ==>
              begin - base == i * Size(lvl) && last + 1 - base == (i + 1) * Size(lvl)
    ensures lvl == 1 ==> begin % Size(lvl) == 0 && last - begin + 1 == Size(lvl)
    ensures lvl > 1 ==> Region(base + i * Size(lvl), lvl - 1)
  {
    var n := Size(lvl);
    var q := RegionMultiple(base, lvl);
    var r := begin - base - i * n;
    assert (i + 1) * n == i * n + n;
    assert (q + i) * n == q * n + i * n;
    DivUnique(q + i, r, n);
    if lvl > 1 {
      SizeStep(lvl);
      DivUnique(q + i, 0, n);
      MulOrder(q + i + 1, q + ENTRIES, n);
      assert (q + i + 1) * n == (q + i) * n + n;
    } else {
      LastPage(base + i * n, begin, last);
    }
  }

  lemma LastPage(a: nat, begin: nat, last: nat)
    requires a <= begin <= last < a + PAGE && begin % PAGE == 0 && (last + 1) % PAGE == 0
    ensures last - begin + 1 == PAGE
  {
  }

  lemma OffsOrder(v: nat, w: nat, lvl: int)
    requires Level(lvl) && v <= w
    ensures Index(v, lvl) <= Index(w, lvl)
  {
  }

  predicate Aligned(a: int) { a % PAGE == 0 }

  /** Where one round ends and the next begins. */
  lemma ChunkStep(base: nat, lvl: int, i: nat, cur: nat, end: nat, mapEnd: nat)
    requires Level(lvl) && Region(base, lvl) && i < ENTRIES && Serves(base, lvl, i, cur) && cur <= end
    requires end < base + ENTRIES * Size(lvl) && i <= Index(end - base, lvl) && Aligned(end + 1)
    requires mapEnd == if base + i * Size(lvl) + Size(lvl) - 1 < end then base + i * Size(lvl) + Size(lvl) - 1 else end
    ensures cur <= mapEnd && Serves(base, lvl, i, mapEnd) && Aligned(mapEnd + 1)
    ensures i < Index(end - base, lvl) ==>
              mapEnd + 1 - base == (i + 1) * Size(lvl) && mapEnd < end && Serves(base, lvl, i + 1, mapEnd + 1)
    ensures i == Index(end - base, lvl) ==> mapEnd == end
  {
    var n, j := Size(lvl), Index(end - base, lvl);
    DivisionFacts(end - base, lvl, j);
    assert (i + 1) * n == i * n + n;
    MulOrder(i + 1, j, n);
    RegionPage(base, lvl, i);
  }

  lemma RegionPage(base: nat, lvl: int, i: nat)
    requires Level(lvl) && Region(base, lvl)
    ensures (base + i * Size(lvl) + Size(lvl)) % PAGE == 0
  {
    var n := Size(lvl);
    var q := RegionMultiple(base, lvl);
    var p := n / PAGE;
    assert n == p * PAGE;
    assert (q + i + 1) * n == q * n + i * n + n;
    assert (q + i + 1) * (p * PAGE) == ((q + i + 1) * p) * PAGE;
    DivUnique((q + i + 1) * p, 0, PAGE);
  }

  /** The bookkeeping of the loop of `__pt_map_pages`: `d` is how far it has got. */
  ghost predicate Round(base: nat, lvl: int, b: nat, end: nat, i: nat, d: nat, cur: nat, phys: nat, ph: nat)
    requires Level(lvl)
  {
    && Region(base, lvl) && base <= end < base + ENTRIES * Size(lvl) && Aligned(end + 1)
    && b <= d <= end + 1 - base && ph == phys + d - b && Aligned(ph)
    && (if i <= Index(end - base, lvl)
        then cur == base + d <= end && Aligned(cur) && Serves(base, lvl, i, cur) && (d == b || d == i * Size(lvl))
        else d == end + 1 - base)
  }

  lemma RoundStep(base: nat, lvl: int, b: nat, end: nat, i: nat, d: nat, cur: nat, phys: nat, ph: nat, mapEnd: nat)
    requires Level(lvl) && Round(base, lvl, b, end, i, d, cur, phys, ph) && i <= Index(end - base, lvl)
    requires mapEnd == if EntryEnd(cur, lvl) < end then EntryEnd(cur, lvl) else end
    ensures i < ENTRIES && cur <= mapEnd <= end && Serves(base, lvl, i, mapEnd) && Aligned(mapEnd + 1)
    ensures Round(base, lvl, b, end, i + 1, d + (mapEnd - cur + 1), (mapEnd + 1) % WORD, phys, ph + (mapEnd - cur + 1))
  {
    hide Region, Serves, Index, Offs, EntryEnd, Size, Aligned, Level;
    OffsServes(base, lvl, end);
    EntryEndIs(base, lvl, i, cur);
    ChunkStep(base, lvl, i, cur, end, mapEnd);
    PagesAdd(ph, cur, mapEnd);
    RegionInWord(base, lvl, end);
  }

  lemma RegionInWord(base: nat, lvl: int, a: nat)
    requires Level(lvl) && Region(base, lvl) && a < base + ENTRIES * Size(lvl)
    ensures a < WORD
  {
  }

  /** After the last round the whole range is done. */
  lemma RoundEnd(base: nat, lvl: int, b: nat, end: nat, i: nat, d: nat, cur: nat, phys: nat, ph: nat)
    requires Level(lvl) && Round(base, lvl, b, end, i, d, cur, phys, ph) && i > Offs(end, lvl)
    ensures d == end + 1 - base
  {
    OffsServes(base, lvl, end);
  }

  lemma PagesAdd(ph: nat, cur: nat, mapEnd: nat)
    requires Aligned(ph) && Aligned(cur) && Aligned(mapEnd + 1)
    ensures Aligned(ph + (mapEnd - cur + 1))
  {
  }

  lemma RoundStart(base: nat, lvl: int, begin: nat, end: nat, phys: nat)
    requires Level(lvl) && Region(base, lvl) && base <= begin <= end < base + ENTRIES * Size(lvl)
    requires begin % PAGE == 0 && (end + 1) % PAGE == 0 && phys % PAGE == 0
    ensures Offs(begin, lvl) <= Offs(end, lvl) == Index(end - base, lvl) < ENTRIES
    ensures Round(base, lvl, begin - base, end, Offs(begin, lvl), begin - base, begin, phys, phys)
  {
    OffsServes(base, lvl, begin);
    OffsServes(base, lvl, end);
    OffsOrder(begin - base, end - base, lvl);
  }

  lemma BuiltNothing(mem: Mem, t: nat, lvl: int, b: nat, phys: nat, present: bool)
    requires Level(lvl) && Tree(mem, t, lvl)
    ensures Built(mem, mem, t, lvl, b, b, phys, present)
  {
  }

  lemma BuiltKeepsUnmapped(mem0: Mem, mem: Mem, t: nat, lvl: int, b: nat, d: nat, c: nat, e: nat, phys: nat,
                           present: bool)
    requires Level(lvl) && b <= d && c <= e && Built(mem0, mem, t, lvl, b, d, phys, present) &&
      Unmapped(mem0, t, lvl, b, e)
    ensures Tree(mem, t, lvl) && Unmapped(mem, t, lvl, d, c)
    ensures PopulatedRange(mem0, t, lvl, b, e) ==> PopulatedRange(mem, t, lvl, d, c)
  {
  }

  /** What a call has done: the mapping is built; without large pages every table of the range exists;
      and where all tables existed before, no page was taken from the pool. */
  ghost predicate Outcome(mem0: Mem, supply0: seq<nat>, mem: Mem, supply: seq<nat>, t: nat, lvl: int,
                          b: nat, c: nat, phys: nat, present: bool, bit7: bool)
    requires Level(lvl)
  {
    && Built(mem0, mem, t, lvl, b, c, phys, present)
    && (!bit7 ==> PopulatedRange(mem, t, lvl, b, c))
    && (PopulatedRange(mem0, t, lvl, b, c) ==> supply == supply0 && mem.Keys == mem0.Keys)
  }

  lemma OutcomeNothing(mem: Mem, supply: seq<nat>, t: nat, lvl: int, b: nat, phys: nat, present: bool, bit7: bool)
    requires Level(lvl) && Tree(mem, t, lvl)
    ensures Outcome(mem, supply, mem, supply, t, lvl, b, b, phys, present, bit7)
  {
    BuiltNothing(mem, t, lvl, b, phys, present);
  }

  /** A leaf stands at level 1, where no table is missing, or is a large page. */
  lemma LeafOutcome(mem: Mem, mem': Mem, supply: seq<nat>, t: nat, lvl: int, i: nat, e: Pte, b: nat, c: nat)
    requires Level(lvl) && Tree(mem, t, lvl) && i < ENTRIES && !mem[t][i].present && mem' == mem[t := mem[t][i := e]]
    requires !IsTable(e, lvl) && (IsLeaf(e, lvl) ==> e.addr % Size(lvl) == 0) && (lvl == 1 || e.bit7)
    requires b == i * Size(lvl) && c == (i + 1) * Size(lvl)
    ensures Outcome(mem, supply, mem', supply, t, lvl, b, c, e.addr, e.present, e.bit7)
    ensures OnlyEntry(mem, mem', t, lvl, i)
  {
    LeafBuilt(mem, mem', t, lvl, i, e);
  }

  lemma OutcomeJoin(mem0: Mem, supply0: seq<nat>, mem1: Mem, supply1: seq<nat>, mem: Mem, supply: seq<nat>, t: nat,
                    lvl: int, b: nat, d: nat, c: nat, phys: nat, present: bool, bit7: bool)
    requires Level(lvl) && b <= d <= c
    requires Outcome(mem0, supply0, mem1, supply1, t, lvl, b, d, phys, present, bit7)
    requires Outcome(mem1, supply1, mem, supply, t, lvl, d, c, phys + d - b, present, bit7)
    ensures Outcome(mem0, supply0, mem, supply, t, lvl, b, c, phys, present, bit7)
  {
    BuiltJoin(mem0, mem1, mem, t, lvl, b, d, c, phys, present);
  }

  /** An absent entry above level 1 serves nothing and is on the way to no table. */
  lemma NotPopulated(mem: Mem, t: nat, lvl: int, i: nat, b: nat, c: nat)
    requires Level(lvl) && t in mem && i < |mem[t]| && !mem[t][i].present
    requires i * Size(lvl) <= b < c <= (i + 1) * Size(lvl)
    ensures lvl > 1 ==> !PopulatedRange(mem, t, lvl, b, c)
  {
    DivisionFacts(b, lvl, i);
    assert lvl > 1 ==> !Populated(mem, t, lvl, b);
  }

  lemma UnmappedKept(mem: Mem, mem': Mem, t: nat, lvl: int, b: nat, c: nat, phys: nat, present: bool)
    requires Level(lvl) && Unmapped(mem, t, lvl, b, c) && MappedUpTo(mem, mem', t, lvl, b, b, phys, present)
    ensures Unmapped(mem', t, lvl, b, c)
  {
  }

  // ---- canonical addresses -------------------------------------------------------------------

  const SPAN: nat := 0x1_0000_0000_0000
  const HIGH: nat := 0xffff_0000_0000_0000

  /** Bits 48 to 63 repeat bit 47. */
  predicate Canonical(va: nat) {
    va < SPAN / 2 || HIGH + SPAN / 2 <= va < WORD
  }

  /** The walk for a 64-bit address: bits 47 to 0 select the entries. */
  function Translate(mem: Mem, pml4: nat, va: nat): Option<nat> {
    Walk(mem, pml4, 4, va % SPAN)
  }

  /** [begin, last] lies in one canonical half; `Base` is where the region of the root table starts. */
  predicate InOneHalf(begin: nat, last: nat) {
    begin <= last && Canonical(begin) && Canonical(last) && (begin < SPAN <==> last < SPAN)
  }

  ghost function Base(begin: nat): nat {
    if begin < SPAN then 0 else HIGH
  }

  lemma BaseFacts(begin: nat, last: nat, va: nat)
    requires InOneHalf(begin, last) && Canonical(va)
    ensures Region(Base(begin), 4) && Base(begin) <= begin && last < Base(begin) + ENTRIES * Size(4)
    ensures begin <= va <= last <==> begin - Base(begin) <= va % SPAN < last + 1 - Base(begin)
    ensures begin <= va <= last ==> va % SPAN == va - Base(begin)
  {
  }

  /** No address of [begin, last] is translated. */
  ghost predicate Vacant(mem: Mem, pml4: nat, begin: nat, last: nat) {
    forall va: nat :: begin <= va <= last ==> Translate(mem, pml4, va) == None
  }

  /** Every canonical address is translated as before, but [begin, last] leads to `phys` onwards. */
  ghost predicate Maps(mem0: Mem, mem: Mem, pml4: nat, begin: nat, last: nat, phys: nat) {
    forall va: nat :: Canonical(va) ==>
      Translate(mem, pml4, va) == if begin <= va <= last then Some(phys + (va - begin)) else Translate(mem0, pml4, va)
  }

  ghost predicate SameTranslation(mem0: Mem, mem: Mem, pml4: nat) {
    forall va: nat :: Canonical(va) ==> Translate(mem, pml4, va) == Translate(mem0, pml4, va)
  }

  /** All tables for the addresses [begin, last] exist. */
  ghost predicate Ready(mem: Mem, pml4: nat, begin: nat, last: nat) {
    forall va: nat :: begin <= va <= last ==> Populated(mem, pml4, 4, va % SPAN)
  }

  lemma Shift(base: nat, v: nat)
    requires (base == 0 || base == HIGH) && v < SPAN
    ensures (base + v) % SPAN == v
  {
  }

  lemma OffsetsOf(mem: Mem, pml4: nat, begin: nat, last: nat)
    requires InOneHalf(begin, last)
    ensures Vacant(mem, pml4, begin, last) ==> Unmapped(mem, pml4, 4, begin - Base(begin), last + 1 - Base(begin))
    ensures Ready(mem, pml4, begin, last) <==> PopulatedRange(mem, pml4, 4, begin - Base(begin), last + 1 - Base(begin))
  {
    var base := Base(begin);
    if Vacant(mem, pml4, begin, last) {
      forall v: nat | begin - base <= v < last + 1 - base ensures Walk(mem, pml4, 4, v) == None {
        Shift(base, v);
        assert Translate(mem, pml4, base + v) == None;
      }
    }
    if Ready(mem, pml4, begin, last) {
      forall v: nat | begin - base <= v < last + 1 - base ensures Populated(mem, pml4, 4, v) {
        Shift(base, v);
        assert Populated(mem, pml4, 4, (base + v) % SPAN);
      }
    }
    if PopulatedRange(mem, pml4, 4, begin - base, last + 1 - base) {
      forall va: nat | begin <= va <= last ensures Populated(mem, pml4, 4, va % SPAN) {
        Shift(base, va - base);
      }
    }
  }

  lemma AddressesOf(mem0: Mem, mem: Mem, pml4: nat, begin: nat, last: nat, phys: nat, present: bool)
    requires InOneHalf(begin, last)
    requires MappedUpTo(mem0, mem, pml4, 4, begin - Base(begin), last + 1 - Base(begin), phys, present)
    ensures if present then Maps(mem0, mem, pml4, begin, last, phys) else SameTranslation(mem0, mem, pml4)
  {
    forall va: nat | Canonical(va)
      ensures Translate(mem, pml4, va)
        == if present && begin <= va <= last then Some(phys + (va - begin)) else Translate(mem0, pml4, va)
    {
      BaseFacts(begin, last, va);
    }
  }

  // ---- unmapping one page --------------------------------------------------------------------

  /** The level-1 table on the way to offset `v`, and the offset into its region. */
  function LeafTable(mem: Mem, t: nat, lvl: int, v: nat): (nat, nat)
    requires Level(lvl) && Populated(mem, t, lvl, v)
    decreases lvl
  {
    if lvl == 1 then (t, v) else LeafTable(mem, mem[t][Index(v, lvl)].addr, lvl - 1, Rest(v, lvl))
  }

  const ABSENT: Pte := Pte(false, false, 0)

  /** Only the page at offset `v` has lost its translation. */
  ghost predicate Loses(mem: Mem, mem': Mem, t: nat, lvl: int, v: nat)
    requires Level(lvl)
  {
    forall w: nat :: Walk(mem', t, lvl, w) == if v <= w < v + PAGE then None else Walk(mem, t, lvl, w)
  }

  lemma PageInside(v: nat, w: nat, lvl: int)
    requires 2 <= lvl <= 4 && v % PAGE == 0
    ensures Rest(v, lvl) % PAGE == 0
    ensures v <= w < v + PAGE <==> Index(w, lvl) == Index(v, lvl) && Rest(v, lvl) <= Rest(w, lvl) < Rest(v, lvl) + PAGE
  {
    DivisionFacts(v, lvl, Index(v, lvl));
    DivisionFacts(w, lvl, Index(v, lvl));
    RestPage(v, lvl);
  }

  lemma RestPage(v: nat, lvl: int)
    requires Level(lvl) && v % PAGE == 0
    ensures Rest(v, lvl) % PAGE == 0 && Rest(v, lvl) + PAGE <= Size(lvl)
  {
    hide Index, Rest;
    var q, k, p := Index(v, lvl), Size(lvl) / PAGE, v / PAGE;
    DivisionFacts(v, lvl, q);
    var m := p - q * k;
    assert q * (k * PAGE) == (q * k) * PAGE;
    assert Rest(v, lvl) == m * PAGE;
  }

  lemma ClearedHere(mem: Mem, mem': Mem, t: nat, v: nat)
    requires Tree(mem, t, 1) && v % PAGE == 0 && Index(v, 1) < ENTRIES
    requires mem' == mem[t := mem[t][Index(v, 1) := ABSENT]]
    ensures Tree(mem', t, 1) && Touches(mem, mem', t, 1) && Keeps(mem, mem', t, 1) && Loses(mem, mem', t, 1, v)
  {
    var i := Index(v, 1);
    assert OnlyEntry(mem, mem', t, 1, i);
    EntryChangedTree(mem, mem', t, 1, i);
    EntryChangedReach(mem, mem', t, 1, i);
    assert t in Reach(mem, t, 1);
    forall w: nat ensures Walk(mem', t, 1, w) == if v <= w < v + PAGE then None else Walk(mem, t, 1, w) {
      DivisionFacts(w, 1, i);
      DivisionFacts(v, 1, i);
      if Index(w, 1) != i { EntryChangedWalk(mem, mem', t, 1, i, w); }
    }
  }

  lemma {:induction false} ClearedBelow(mem: Mem, mem': Mem, t: nat, lvl: int, v: nat)
    requires Level(lvl) && Tree(mem, t, lvl) && v % PAGE == 0 && Index(v, lvl) < ENTRIES && Populated(mem, t, lvl, v)
    requires var (leaf, w) := LeafTable(mem, t, lvl, v); leaf in mem && Index(w, 1) < |mem[leaf]|
    requires var (leaf, w) := LeafTable(mem, t, lvl, v); mem' == mem[leaf := mem[leaf][Index(w, 1) := ABSENT]]
    ensures Tree(mem', t, lvl) && Touches(mem, mem', t, lvl) && Keeps(mem, mem', t, lvl) && Loses(mem, mem', t, lvl, v)
    decreases lvl
  {
    if lvl == 1 {
      ClearedHere(mem, mem', t, v);
    } else {
      var i := Index(v, lvl);
      ChildTree(mem, t, lvl, i);
      PageInside(v, v, lvl);
      RestIndex(v, lvl);
      ClearedBelow(mem, mem', mem[t][i].addr, lvl - 1, Rest(v, lvl));
      ChildChanged(mem, mem', t, lvl, i);
      EntryKeeps(mem, mem', t, lvl, i);
      ChildLoses(mem, mem', t, lvl, v);
    }
  }

  lemma ChildLoses(mem: Mem, mem': Mem, t: nat, lvl: int, v: nat)
    requires 2 <= lvl <= 4 && Tree(mem, t, lvl) && v % PAGE == 0 && Index(v, lvl) < ENTRIES
    requires OnlyEntry(mem, mem', t, lvl, Index(v, lvl)) && mem'[t] == mem[t] && IsTable(mem[t][Index(v, lvl)], lvl)
    requires Loses(mem, mem', mem[t][Index(v, lvl)].addr, lvl - 1, Rest(v, lvl))
    ensures Loses(mem, mem', t, lvl, v)
  {
    hide Below, GoodEntry, Reach;
    var i := Index(v, lvl);
    var child, u := mem[t][i].addr, Rest(v, lvl);
    forall w: nat ensures Walk(mem', t, lvl, w) == if v <= w < v + PAGE then None else Walk(mem, t, lvl, w) {
      PageInside(v, w, lvl);
      if Index(w, lvl) != i {
        EntryChangedWalk(mem, mem', t, lvl, i, w);
      } else {
        assert Walk(mem', child, lvl - 1, Rest(w, lvl))
            == if u <= Rest(w, lvl) < u + PAGE then None else Walk(mem, child, lvl - 1, Rest(w, lvl));
      }
    }
  }

  /** The entries on the way down are selected by the address bits. */
  lemma OffsIsIndex(addr: nat, lvl: int)
    requires Level(lvl)
    ensures Index(addr % (ENTRIES * Size(lvl)), lvl) == Offs(addr, lvl) < ENTRIES
    ensures Rest(addr % (ENTRIES * Size(lvl)), lvl) == addr % Size(lvl)
  {
    var n, m := Size(lvl), ENTRIES * Size(lvl);
    var q, v := addr / m, addr % m;
    var i, x := v / n, v % n;
    assert addr == q * m + v && v == i * n + x;
    assert q * m == (q * ENTRIES) * n;
    assert addr == (q * ENTRIES + i) * n + x;
    DivUnique(q * ENTRIES + i, x, n);
    MulOrder(ENTRIES, i, n);
    DivUnique(q, i, ENTRIES);
  }

  lemma RestIndex(v: nat, lvl: int)
    requires 2 <= lvl <= 4
    ensures Index(Rest(v, lvl), lvl - 1) < ENTRIES
  {
    SizeStep(lvl);
  }
}
