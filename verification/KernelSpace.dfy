/**
 The address space that the kernel starts with (src/paging.c:194-213).
 */
module KernelSpace {
  import opened Arithmetic
  import opened Collections
  import opened PageTables
  import opened PageNeeds
  import opened PageBuilder
  import opened Kmap

  const MAX_PMEM_SIZE: nat := 0x7fff_0000_0000

  /** How much memory is mapped at `HIGHER_BASE` (src/paging.c:196-198). */
  function MappedMemory(limit: nat): nat {
    var m := limit - limit % PAGE;
    if m < MAX_PMEM_SIZE then m else MAX_PMEM_SIZE
  }

  /** The address space that the kernel starts with: all memory at `HIGHER_BASE`, its first two gigabytes
      again at `KMAP_END`, and nothing else. */
  function KernelAt(size: nat, va: nat): Option<nat> {
    if HIGHER_BASE <= va < HIGHER_BASE + size then Some(va - HIGHER_BASE)
    else if KMAP_END <= va then Some(va - KMAP_END)
    else None
  }

  ghost predicate IsKernelSpace(mem: Mem, pml4: nat, size: nat) {
    forall va: nat :: Canonical(va) ==> Translate(mem, pml4, va) == KernelAt(size, va)
  }

  /** `paging_setup` (src/paging.c:194-213), which leaves the kmap window empty. */
  method PagingSetup(tables: Tables, limit: nat) returns (ok: bool, pml4: nat)
    requires tables.Supplied() && limit >= PAGE
    modifies tables
    ensures !ok ==> tables.supply == []
    ensures ok ==>
      Tree(tables.mem, pml4, 4) && tables.Supplied() && IsKernelSpace(tables.mem, pml4, MappedMemory(limit))
    ensures ok ==> Vacant(tables.mem, pml4, KMAP_BEGIN, KMAP_END - 1)
    ensures
      var n := 1 + FirstTables(MappedMemory(limit)) + SecondTables(MappedMemory(limit));
      (ok <==> n <= old(|tables.supply|)) && (ok ==> tables.supply == old(tables.supply)[n..])
    ensures ok ==> forall va: nat :: KMAP_END <= va < WORD ==> LeafLevel(tables.mem, pml4, 4, va % SPAN) == 3
  {
    hide Walk, Tree, Keeps, Translate, TablesAfter, LeafLevel, FirstTables, SecondTables, Maps, Vacant, IsKernelSpace;
    if tables.supply == [] {
      return false, 0;
    }
    pml4 := tables.supply[0];
    tables.supply, tables.mem := tables.supply[1..], tables.mem[pml4 := EMPTY];
    ghost var mem0 := tables.mem;
    EmptySpace(mem0, pml4);
    var size := MappedMemory(limit);
    ok := MapMemory(tables, pml4, size);
    if !ok {
      return;
    }
    ghost var mem1 := tables.mem;
    StillVacant(mem0, mem1, pml4, size);
    ok := MapTop(tables, pml4, size, mem0);
    if ok {
      KernelSpaceMade(mem0, mem1, tables.mem, pml4, size);
    }
  }

  /** Its first call of `pt_map_pages` (src/paging.c:204-205). */
  method MapMemory(tables: Tables, pml4: nat, size: nat) returns (ok: bool)
    requires Tree(tables.mem, pml4, 4) && tables.Supplied() && tables.mem[pml4] == EMPTY
    requires 0 < size <= MAX_PMEM_SIZE && size % PAGE == 0 && forall va: nat :: Translate(tables.mem, pml4, va) == None
    modifies tables
    ensures !ok ==> tables.supply == []
    ensures ok ==> Tree(tables.mem, pml4, 4) && tables.Supplied()
    ensures ok ==> Maps(old(tables.mem), tables.mem, pml4, HIGHER_BASE, HIGHER_BASE + size - 1, 0)
    ensures ok <==> FirstTables(size) <= old(|tables.supply|)
    ensures ok ==> tables.supply == old(tables.supply)[FirstTables(size)..]
    ensures ok ==> TablesAfter(old(tables.mem), tables.mem, pml4, 4, HIGH, FirstAsked(size))
  {
    hide Walk, Tree, Keeps, Ready, Translate, Needed, TablesAfter, Sized, FirstTables, FirstSet, Maps, Asked, Vacant,
      InOneHalf, Base;
    HasEntries(tables.mem, pml4, 4);
    FirstNeeded(tables.mem, pml4, size);
    FirstCount(size);
    MemoryInterval(tables.mem, pml4, size);
    ok := tables.PtMapPages(pml4, HIGHER_BASE, HIGHER_BASE + size, 0);
  }

  lemma MemoryInterval(mem: Mem, pml4: nat, size: nat)
    requires 0 < size <= MAX_PMEM_SIZE && size % PAGE == 0 && forall va: nat :: Translate(mem, pml4, va) == None
    ensures (HIGHER_BASE + size + WORD - 1) % WORD == HIGHER_BASE + size - 1 && HIGHER_BASE + size < WORD
    ensures HIGHER_BASE % PAGE == 0 && (HIGHER_BASE + size) % PAGE == 0 && Base(HIGHER_BASE) == HIGH
    ensures InOneHalf(HIGHER_BASE, HIGHER_BASE + size - 1) && Vacant(mem, pml4, HIGHER_BASE, HIGHER_BASE + size - 1)
    ensures size - 1 < FRAMES
  {
    hide Translate;
  }

  /** The second (src/paging.c:207). */
  method MapTop(tables: Tables, pml4: nat, size: nat, ghost mem0: Mem) returns (ok: bool)
    requires Tree(tables.mem, pml4, 4) && tables.Supplied() && Vacant(tables.mem, pml4, KMAP_END, WORD - 1)
    requires pml4 in mem0 && mem0[pml4] == EMPTY && 0 < size <= MAX_PMEM_SIZE
    requires TablesAfter(mem0, tables.mem, pml4, 4, HIGH, FirstAsked(size))
    modifies tables
    ensures !ok ==> tables.supply == []
    ensures ok ==> Tree(tables.mem, pml4, 4) && tables.Supplied()
    ensures ok ==> Maps(old(tables.mem), tables.mem, pml4, KMAP_END, WORD - 1, 0)
    ensures ok <==> SecondTables(size) <= old(|tables.supply|)
    ensures ok ==> tables.supply == old(tables.supply)[SecondTables(size)..]
    ensures ok ==> forall va: nat :: KMAP_END <= va < WORD ==> LeafLevel(tables.mem, pml4, 4, va % SPAN) == 3
  {
    hide Walk, Tree, Keeps, Ready, Needed, TablesAfter, Sized, LeafLevel, SecondTables, Vacant, Maps, Asked;
    ghost var mem1 := tables.mem;
    SecondNeeded(mem0, mem1, pml4, size);
    ok := tables.PtMapPages(pml4, KMAP_END, 0, 0);
    if ok { TopSized(mem0, mem1, tables.mem, pml4, size); }
  }

  lemma EmptySpace(mem: Mem, pml4: nat)
    requires pml4 in mem && mem[pml4] == EMPTY
    ensures Tree(mem, pml4, 4) && forall va: nat :: Translate(mem, pml4, va) == None
  {
    EmptyTable(mem, pml4, 4);
  }

  lemma StillVacant(mem0: Mem, mem: Mem, pml4: nat, size: nat)
    requires forall va: nat :: Translate(mem0, pml4, va) == None
    requires 0 < size <= MAX_PMEM_SIZE && Maps(mem0, mem, pml4, HIGHER_BASE, HIGHER_BASE + size - 1, 0)
    ensures Vacant(mem, pml4, KMAP_END, WORD - 1)
  {
    forall va: nat | KMAP_END <= va <= WORD - 1 ensures Translate(mem, pml4, va) == None {
      assert Canonical(va);
    }
  }

  lemma KernelSpaceMade(mem0: Mem, mem1: Mem, mem: Mem, pml4: nat, size: nat)
    requires forall va: nat :: Translate(mem0, pml4, va) == None
    requires 0 < size <= MAX_PMEM_SIZE && Maps(mem0, mem1, pml4, HIGHER_BASE, HIGHER_BASE + size - 1, 0)
    requires Maps(mem1, mem, pml4, KMAP_END, WORD - 1, 0)
    ensures IsKernelSpace(mem, pml4, size) && Vacant(mem, pml4, KMAP_BEGIN, KMAP_END - 1)
  {
    forall va: nat | Canonical(va) ensures Translate(mem, pml4, va) == KernelAt(size, va) {
      assert Translate(mem1, pml4, va)
        == if HIGHER_BASE <= va < HIGHER_BASE + size then Some(va - HIGHER_BASE) else None;
    }
    forall va: nat | KMAP_BEGIN <= va <= KMAP_END - 1 ensures Translate(mem, pml4, va) == None {
      assert Canonical(va) && Translate(mem, pml4, va) == KernelAt(size, va);
    }
  }

  // ---- how many pages that takes -------------------------------------------------------------

  const GIGA: nat := 0x4000_0000
  const MEGAS: nat := 0x20_0000
  const HALF_TERA: nat := 0x80_0000_0000

  /** The tables for `size` bytes at `HIGHER_BASE`: one for each half terabyte, and one of each lower level for what
      does not fill a page of a gigabyte, or of two megabytes, at the end. */
  function FirstTables(size: nat): nat {
    (size + HALF_TERA - 1) / HALF_TERA + (if size % GIGA != 0 then 1 else 0) + (if size % MEGAS != 0 then 1 else 0)
  }

  /** The table for the two gigabytes at `KMAP_END`, which is there already if memory reaches so far. */
  function SecondTables(size: nat): nat { if size > 255 * HALF_TERA then 0 else 1 }

  /** The request of the first mapping. */
  function FirstAsked(size: nat): Request { Asked(HIGHER_BASE, HIGHER_BASE + size - 1, 0, true) }

  function SecondAsked(): Request { Asked(KMAP_END, WORD - 1, 0, true) }

  /** In an empty space there are no tables below the root. */
  lemma NoTables(mem: Mem, pml4: nat, v: nat, l: int)
    requires pml4 in mem && mem[pml4] == EMPTY && l < 4
    ensures !HasTable(mem, pml4, 4, v, l)
  {
    if Index(v, 4) < ENTRIES { assert mem[pml4][Index(v, 4)] == Pte(false, false, 0); }
  }

  /** A large page has room if the memory goes as far. */
  lemma FirstBig(size: nat, a: nat, m: int)
    requires 2 <= m <= 3 && HIGHER_BASE <= a < HIGHER_BASE + size
    ensures Big(FirstAsked(size), a, m) <==> RegionStart(a, m) + Size(m) <= HIGHER_BASE + size
  {
    var k: nat := HIGHER_BASE / Size(m);
    assert HIGHER_BASE == k * Size(m);
    DivisionFacts(a, m, Index(a, m));
    MulOrder(k, Index(a, m), Size(m));
    MulOrder(Index(a, m) + 1, k, Size(m));
    assert (Index(a, m) + 1) * Size(m) == Index(a, m) * Size(m) + Size(m);
    assert (Index(a, m) - k) * Size(m) == Index(a, m) * Size(m) - k * Size(m);
    MultipleMod(Index(a, m) - k, Size(m));
  }

  /** The level of the page for an address of the first mapping. */
  lemma FirstLevel(mem: Mem, pml4: nat, size: nat, a: nat)
    requires pml4 in mem && mem[pml4] == EMPTY && HIGHER_BASE <= a < HIGHER_BASE + size
    ensures
      var l, end := PageLevel(mem, pml4, 4, HIGH, FirstAsked(size), a), HIGHER_BASE + size;
      && (l <= 2 <==> RegionStart(a, 3) + GIGA > end)
      && (l <= 1 <==> RegionStart(a, 3) + GIGA > end && RegionStart(a, 2) + MEGAS > end)
  {
    hide HasTable, Big, Index;
    NoTables(mem, pml4, a - HIGH, 1);
    NoTables(mem, pml4, a - HIGH, 2);
    FirstBig(size, a, 2);
    FirstBig(size, a, 3);
  }

  /** Who needs a table of level `l`, in plain numbers. */
  lemma FirstNeedsFor(mem: Mem, pml4: nat, size: nat, l: int, x: int, a: nat)
    requires pml4 in mem && mem[pml4] == EMPTY
    ensures NeedsFor(mem, pml4, 4, HIGH, FirstAsked(size), l, x, a) <==>
      && 1 <= l <= 3 && HIGHER_BASE <= a < HIGHER_BASE + size && x == Index(a, l + 1)
      && (l <= 2 ==> RegionStart(a, 3) + GIGA > HIGHER_BASE + size)
      && (l <= 1 ==> RegionStart(a, 2) + MEGAS > HIGHER_BASE + size)
  {
    hide HasTable, PageLevel, Index;
    if HIGHER_BASE <= a < HIGHER_BASE + size && 1 <= l <= 3 {
      NoTables(mem, pml4, a - HIGH, l);
      FirstLevel(mem, pml4, size, a);
      LevelAtMost3(mem, pml4, 4, HIGH, FirstAsked(size), a);
    }
  }

  lemma LevelAtMost3(mem: Mem, t: nat, lvl: int, base: nat, q: Request, a: nat)
    requires Level(lvl) && base <= a
    ensures 1 <= PageLevel(mem, t, lvl, base, q, a) <= 3
  {
  }

  /** The tables of level 3, by number. */
  ghost function Thirds(size: nat): set<(int, int)>
    requires size > 0
  {
    set i: int | Index(HIGHER_BASE, 4) <= i <= Index(HIGHER_BASE + size - 1, 4) :: (3, i)
  }

  ghost function FirstSet(size: nat): set<(int, int)>
    requires size > 0
  {
    Thirds(size)
    + (if size % GIGA != 0 then {(2, Index(HIGHER_BASE + size - 1, 3) as int)} else {})
    + (if size % MEGAS != 0 then {(1, Index(HIGHER_BASE + size - 1, 2) as int)} else {})
  }

  lemma FirstNeeded(mem: Mem, pml4: nat, size: nat)
    requires pml4 in mem && mem[pml4] == EMPTY && size > 0
    ensures Needed(mem, pml4, 4, HIGH, FirstAsked(size)) == FirstSet(size)
  {
    hide Needed, Index, FirstSet;
    forall x: (int, int) ensures x in Needed(mem, pml4, 4, HIGH, FirstAsked(size)) <==> x in FirstSet(size) {
      FirstNeedsOne(mem, pml4, size, x);
    }
  }

  lemma FirstNeedsOne(mem: Mem, pml4: nat, size: nat, x: (int, int))
    requires pml4 in mem && mem[pml4] == EMPTY && size > 0
    ensures x in Needed(mem, pml4, 4, HIGH, FirstAsked(size)) <==> x in FirstSet(size)
  {
    hide Needed, NeedsFor, FirstSet, Index;
    var q := FirstAsked(size);
    NeededIff(mem, pml4, 4, HIGH, q, x);
    if a: nat :| NeedsFor(mem, pml4, 4, HIGH, q, x.0, x.1, a) {
      FirstNeedsFor(mem, pml4, size, x.0, x.1, a);
      InFirstSet(size, x, a);
    }
    if x in FirstSet(size) {
      var a := FirstWitness(size, x);
      FirstNeedsFor(mem, pml4, size, x.0, x.1, a);
      assert NeedsFor(mem, pml4, 4, HIGH, q, x.0, x.1, a);
    }
  }

  lemma InFirstSet(size: nat, x: (int, int), a: nat)
    requires size > 0 && 1 <= x.0 <= 3 && HIGHER_BASE <= a < HIGHER_BASE + size && x.1 == Index(a, x.0 + 1)
    requires x.0 <= 2 ==> RegionStart(a, 3) + GIGA > HIGHER_BASE + size
    requires x.0 <= 1 ==> RegionStart(a, 2) + MEGAS > HIGHER_BASE + size
    ensures x in FirstSet(size)
  {
  }

  lemma FirstWitness(size: nat, x: (int, int)) returns (a: nat)
    requires size > 0 && x in FirstSet(size)
    ensures 1 <= x.0 <= 3 && HIGHER_BASE <= a < HIGHER_BASE + size && x.1 == Index(a, x.0 + 1)
    ensures x.0 <= 2 ==> RegionStart(a, 3) + GIGA > HIGHER_BASE + size
    ensures x.0 <= 1 ==> RegionStart(a, 2) + MEGAS > HIGHER_BASE + size
  {
    a := if x.0 == 3 && x.1 != Index(HIGHER_BASE, 4) then x.1 * HALF_TERA
         else if x.0 == 3 then HIGHER_BASE else HIGHER_BASE + size - 1;
  }

  lemma {:induction false} CountFrom(from: int, n: nat, S: set<(int, int)>)
    requires S == set i: int | from <= i < from + n :: (3, i)
    ensures |S| == n
  {
    if n > 0 {
      var y: (int, int) := (3, from + n - 1);
      CountFrom(from, n - 1, S - {y});
    }
  }

  lemma FirstCount(size: nat)
    requires size > 0
    ensures |FirstSet(size)| == FirstTables(size)
  {
    var from: int, n := Index(HIGHER_BASE, 4), (size + HALF_TERA - 1) / HALF_TERA;
    assert Index(HIGHER_BASE + size - 1, 4) + 1 == from + n;
    CountFrom(from, n, Thirds(size));
  }

  /** Which tables the first mapping has left for the top two gigabytes. */
  lemma TopTables(mem0: Mem, mem: Mem, pml4: nat, size: nat, a: nat, l: int)
    requires pml4 in mem0 && mem0[pml4] == EMPTY && 0 < size <= MAX_PMEM_SIZE && KMAP_END <= a < WORD && 1 <= l <= 3
    requires TablesAfter(mem0, mem, pml4, 4, HIGH, FirstAsked(size))
    ensures HasTable(mem, pml4, 4, a - HIGH, l) <==> l == 3 && size > 255 * HALF_TERA
  {
    hide HasTable, Needed;
    FirstNeeded(mem0, pml4, size);
    NoTables(mem0, pml4, a - HIGH, l);
    var v: nat := a - HIGH;
    assert HIGH + v == a;
    assert HasTable(mem, pml4, 4, v, l) == ((l, Index(a, l + 1)) in Needed(mem0, pml4, 4, HIGH, FirstAsked(size)));
  }

  /** They are mapped by pages of a gigabyte. */
  lemma TopLevel(mem0: Mem, mem: Mem, pml4: nat, size: nat, a: nat)
    requires pml4 in mem0 && mem0[pml4] == EMPTY && 0 < size <= MAX_PMEM_SIZE && KMAP_END <= a < WORD
    requires TablesAfter(mem0, mem, pml4, 4, HIGH, FirstAsked(size))
    ensures PageLevel(mem, pml4, 4, HIGH, SecondAsked(), a) == 3
  {
    hide HasTable, TablesAfter;
    TopTables(mem0, mem, pml4, size, a, 2);
  }

  lemma SecondNeeded(mem0: Mem, mem: Mem, pml4: nat, size: nat)
    requires pml4 in mem0 && mem0[pml4] == EMPTY && 0 < size <= MAX_PMEM_SIZE
    requires TablesAfter(mem0, mem, pml4, 4, HIGH, FirstAsked(size))
    ensures |Needed(mem, pml4, 4, HIGH, SecondAsked())| == SecondTables(size)
  {
    hide Needed, HasTable, PageLevel, TablesAfter;
    var y: (int, int) := (3, Index(KMAP_END, 4));
    forall x: (int, int)
      ensures x in Needed(mem, pml4, 4, HIGH, SecondAsked()) <==> x == y && size <= 255 * HALF_TERA
    {
      NeededIff(mem, pml4, 4, HIGH, SecondAsked(), x);
      if a: nat :| NeedsFor(mem, pml4, 4, HIGH, SecondAsked(), x.0, x.1, a) {
        TopLevel(mem0, mem, pml4, size, a);
        TopTables(mem0, mem, pml4, size, a, 3);
      }
      if x == y && size <= 255 * HALF_TERA {
        TopLevel(mem0, mem, pml4, size, KMAP_END);
        TopTables(mem0, mem, pml4, size, KMAP_END, 3);
        assert NeedsFor(mem, pml4, 4, HIGH, SecondAsked(), 3, y.1, KMAP_END);
      }
    }
    assert Needed(mem, pml4, 4, HIGH, SecondAsked()) == if size <= 255 * HALF_TERA then {y} else {};
  }

  /** After the second mapping the top two gigabytes are mapped by pages of a gigabyte. */
  lemma TopSized(mem0: Mem, mem1: Mem, mem: Mem, pml4: nat, size: nat)
    requires pml4 in mem0 && mem0[pml4] == EMPTY && 0 < size <= MAX_PMEM_SIZE
    requires TablesAfter(mem0, mem1, pml4, 4, HIGH, FirstAsked(size)) && Sized(mem1, mem, pml4, KMAP_END, WORD - 1, 0)
    ensures forall va: nat :: KMAP_END <= va < WORD ==> LeafLevel(mem, pml4, 4, va % SPAN) == 3
  {
    hide LeafLevel, PageLevel, TablesAfter;
    forall va: nat | KMAP_END <= va < WORD ensures LeafLevel(mem, pml4, 4, va % SPAN) == 3 {
      TopLevel(mem0, mem1, pml4, size, va);
    }
  }
}
