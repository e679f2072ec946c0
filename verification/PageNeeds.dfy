/**
 Which tables a mapping needs, and how large its pages are: told from the tables that exist and the request alone,
 whatever `__pt_map_pages` (src/paging.c:86-137) does to get there.
 */
module PageNeeds {
  import opened Arithmetic
  import opened PageTables

  /** The addresses [begin, end) are to lead to `phys` onwards, with large pages if `bit7` says so. */
  datatype Request = Request(begin: int, end: int, phys: int, bit7: bool)

  /** On the walk from table `t` to offset `v` there is a table of level `l`. */
  predicate HasTable(mem: Mem, t: nat, lvl: int, v: nat, l: int)
    requires Level(lvl)
    decreases lvl
  {
    l >= lvl || (t in mem && Index(v, lvl) < |mem[t]| && IsTable(mem[t][Index(v, lvl)], lvl)
                 && HasTable(mem, mem[t][Index(v, lvl)].addr, lvl - 1, Rest(v, lvl), l))
  }

  /** The level at which the walk to offset `v` ends in a leaf, or 0. */
  function LeafLevel(mem: Mem, t: nat, lvl: int, v: nat): int
    requires Level(lvl)
    decreases lvl
  {
    var i := Index(v, lvl);
    if t !in mem || i >= |mem[t]| then 0
    else if IsLeaf(mem[t][i], lvl) then lvl
    else if IsTable(mem[t][i], lvl) then LeafLevel(mem, mem[t][i].addr, lvl - 1, Rest(v, lvl))
    else 0
  }

  /** The region of level `m` around address `a`. */
  function RegionStart(a: nat, m: int): nat
    requires Level(m)
  {
    Index(a, m) * Size(m)
  }

  /** A large page of level `m` has room around address `a`, and its place in memory is aligned. */
  predicate Big(q: Request, a: nat, m: int)
    requires Level(m)
  {
    var s := RegionStart(a, m);
    q.bit7 && q.begin <= s && s + Size(m) <= q.end && (q.phys + (s - q.begin)) % Size(m) == 0
  }

  /** The level of the page for address `a`: the largest that has room and for which there is no table yet. */
  function PageLevel(mem: Mem, t: nat, lvl: int, base: nat, q: Request, a: nat): int
    requires Level(lvl) && base <= a
  {
    if lvl >= 3 && Big(q, a, 3) && !HasTable(mem, t, lvl, a - base, 2) then 3
    else if lvl >= 2 && Big(q, a, 2) && !HasTable(mem, t, lvl, a - base, 1) then 2
    else 1
  }

  /** Address `a` needs a table of level `l`, which serves the `i`-th region of its size and is not there. */
  predicate NeedsFor(mem: Mem, t: nat, lvl: int, base: nat, q: Request, l: int, i: int, a: nat)
    requires Level(lvl)
  {
    && 1 <= l < lvl && base <= a && q.begin <= a < q.end && Index(a, l + 1) == i
    && !HasTable(mem, t, lvl, a - base, l) && PageLevel(mem, t, lvl, base, q, a) <= l
  }

  ghost predicate Needs(mem: Mem, t: nat, lvl: int, base: nat, q: Request, x: (int, int))
    requires Level(lvl)
  {
    exists a :: NeedsFor(mem, t, lvl, base, q, x.0, x.1, a)
  }

  /** The tables that the request needs and that are not there, by level and number. */
  ghost function Needed(mem: Mem, t: nat, lvl: int, base: nat, q: Request): set<(int, int)>
    requires Level(lvl)
  {
    set l: int, i: int | 1 <= l < 4 && 0 <= i <= q.end && Needs(mem, t, lvl, base, q, (l, i)) :: (l, i)
  }

  lemma IndexLess(a: nat, lvl: int)
    requires Level(lvl)
    ensures Index(a, lvl) <= a
  {
  }

  lemma NeededIff(mem: Mem, t: nat, lvl: int, base: nat, q: Request, x: (int, int))
    requires Level(lvl)
    ensures x in Needed(mem, t, lvl, base, q) <==> Needs(mem, t, lvl, base, q, x)
  {
    hide HasTable, PageLevel, Index;
    if a: nat :| NeedsFor(mem, t, lvl, base, q, x.0, x.1, a) { IndexLess(a, x.0 + 1); }
  }

  // ---- regions and entries -------------------------------------------------------------------

  lemma SizeDivides(m: int, lvl: int) returns (k: nat)
    requires Level(m) && Level(lvl) && m <= lvl
    ensures Size(lvl) == k * Size(m) && k > 0
  {
    k := Size(lvl) / Size(m);
  }

  /** The region of level `m` <= `lvl` around an address lies in the entry that serves the address. */
  lemma RegionInEntry(base: nat, lvl: int, i: nat, a: nat, m: int)
    requires Level(lvl) && Level(m) && m <= lvl && Region(base, lvl) && Serves(base, lvl, i, a)
    ensures base + i * Size(lvl) <= RegionStart(a, m) <= a < RegionStart(a, m) + Size(m)
    ensures RegionStart(a, m) + Size(m) <= base + i * Size(lvl) + Size(lvl)
  {
    hide Region, Index, Size;
    var q := RegionMultiple(base, lvl);
    var k := SizeDivides(m, lvl);
    DivisionFacts(a, m, Index(a, m));
    assert (q + i) * Size(lvl) == q * Size(lvl) + i * Size(lvl);
    MultiplesApart(q + i, k, Index(a, m), Size(m), Size(lvl));
  }

  /** Between two multiples of a multiple there are whole steps only. */
  lemma MultiplesApart(p: nat, k: nat, j: nat, n: nat, big: nat)
    requires n > 0 && big == k * n && p * big < j * n + n && j * n < p * big + big
    ensures p * big <= j * n && j * n + n <= p * big + big
  {
    var e := p * k;
    assert p * big == e * n by { assert p * (k * n) == (p * k) * n; }
    assert (e + k) * n == e * n + k * n && (j + 1) * n == j * n + n;
    MulOrder(e, j, n);
    MulOrder(j + 1, e, n);
    MulOrder(e + k, j, n);
    MulOrder(j + 1, e + k, n);
  }

  /** Addresses in the same region of level `m` <= `lvl` are served by the same entry. */
  lemma SameEntry(base: nat, lvl: int, i: nat, a: nat, j: nat, b: nat, m: int)
    requires Level(lvl) && Level(m) && m <= lvl && Region(base, lvl)
    requires Serves(base, lvl, i, a) && Serves(base, lvl, j, b) && Index(a, m) == Index(b, m)
    ensures i == j
  {
    hide Region, Index, Size;
    RegionInEntry(base, lvl, i, a, m);
    RegionInEntry(base, lvl, j, b, m);
    ServesOne(base, lvl, i, j, a);
  }

  lemma ServesOne(base: nat, lvl: int, i: nat, j: nat, a: int)
    requires Level(lvl) && base + i * Size(lvl) <= a < base + i * Size(lvl) + Size(lvl)
    requires base + j * Size(lvl) <= a < base + j * Size(lvl) + Size(lvl)
    ensures i == j
  {
    MulOrder(i + 1, j, Size(lvl));
    MulOrder(j + 1, i, Size(lvl));
  }

  /** All addresses of the request are served by entry `i`. */
  predicate Within(q: Request, base: nat, lvl: int, i: nat)
    requires Level(lvl)
  {
    base + i * Size(lvl) <= q.begin && q.end <= base + i * Size(lvl) + Size(lvl)
  }

  predicate Asks(q: Request, a: nat) { q.begin <= a < q.end }

  // ---- a request below one entry -------------------------------------------------------------

  lemma ChildAt(mem: Mem, t: nat, lvl: int, i: nat, base: nat, q: Request, a: nat)
    requires 2 <= lvl <= 4 && t in mem && i < |mem[t]| && IsTable(mem[t][i], lvl) && Serves(base, lvl, i, a)
    ensures
      var child, base' := mem[t][i].addr, base + i * Size(lvl);
      && base' <= a && Index(a - base, lvl) == i
      && PageLevel(mem, t, lvl, base, q, a) == PageLevel(mem, child, lvl - 1, base', q, a)
  {
    hide Big, IsTable;
    ServesIndex(base, lvl, i, a);
    DivisionFacts(a - base, lvl, i);
  }

  lemma ChildHas(mem: Mem, t: nat, lvl: int, i: nat, base: nat, a: nat, l: int)
    requires 2 <= lvl <= 4 && t in mem && i < |mem[t]| && IsTable(mem[t][i], lvl) && Serves(base, lvl, i, a) && l < lvl
    ensures
      var child, base' := mem[t][i].addr, base + i * Size(lvl);
      base' <= a && HasTable(mem, t, lvl, a - base, l) == HasTable(mem, child, lvl - 1, a - base', l)
  {
    hide IsTable;
    ServesIndex(base, lvl, i, a);
    DivisionFacts(a - base, lvl, i);
  }

  lemma ChildLeaf(mem: Mem, t: nat, lvl: int, i: nat, base: nat, a: nat)
    requires 2 <= lvl <= 4 && t in mem && i < |mem[t]| && IsTable(mem[t][i], lvl) && Serves(base, lvl, i, a)
    ensures
      var child, base' := mem[t][i].addr, base + i * Size(lvl);
      base' <= a && LeafLevel(mem, t, lvl, a - base) == LeafLevel(mem, child, lvl - 1, a - base')
  {
    ServesIndex(base, lvl, i, a);
    DivisionFacts(a - base, lvl, i);
  }

  lemma ChildNeedsFor(mem: Mem, t: nat, lvl: int, i: nat, base: nat, q: Request, l: int, x: int, a: nat)
    requires 2 <= lvl <= 4 && t in mem && i < |mem[t]| && IsTable(mem[t][i], lvl) && Within(q, base, lvl, i)
    ensures NeedsFor(mem, t, lvl, base, q, l, x, a)
       <==> NeedsFor(mem, mem[t][i].addr, lvl - 1, base + i * Size(lvl), q, l, x, a)
  {
    hide Index, PageLevel, Size, HasTable;
    if Asks(q, a) && 1 <= l < lvl {
      ChildAt(mem, t, lvl, i, base, q, a);
      ChildHas(mem, t, lvl, i, base, a, l);
      LevelAtMost(mem, t, lvl, base, q, a);
      if l == lvl - 1 { OwnTable(mem, mem[t][i].addr, l, a - (base + i * Size(lvl))); }
    }
  }

  lemma LevelAtMost(mem: Mem, t: nat, lvl: int, base: nat, q: Request, a: nat)
    requires Level(lvl) && base <= a
    ensures 1 <= PageLevel(mem, t, lvl, base, q, a) <= lvl
  {
  }

  lemma OwnTable(mem: Mem, t: nat, lvl: int, v: nat)
    requires Level(lvl)
    ensures HasTable(mem, t, lvl, v, lvl)
  {
  }

  /** What is needed below an entry with a table is what the table needs. */
  lemma ChildNeeded(mem: Mem, t: nat, lvl: int, i: nat, base: nat, q: Request)
    requires 2 <= lvl <= 4 && t in mem && i < |mem[t]| && IsTable(mem[t][i], lvl) && Within(q, base, lvl, i)
    ensures Needed(mem, t, lvl, base, q) == Needed(mem, mem[t][i].addr, lvl - 1, base + i * Size(lvl), q)
  {
    hide NeedsFor, Within, Needed, IsTable, Size;
    var child, below, base' := mem[t][i].addr, lvl - 1, base + i * Size(lvl);
    forall x: (int, int) ensures x in Needed(mem, t, lvl, base, q) <==> x in Needed(mem, child, below, base', q) {
      NeededIff(mem, t, lvl, base, q, x);
      NeededIff(mem, child, below, base', q, x);
      if a: nat :| NeedsFor(mem, t, lvl, base, q, x.0, x.1, a) {
        ChildNeedsFor(mem, t, lvl, i, base, q, x.0, x.1, a);
      }
      if a: nat :| NeedsFor(mem, child, below, base', q, x.0, x.1, a) {
        ChildNeedsFor(mem, t, lvl, i, base, q, x.0, x.1, a);
      }
    }
  }

  // ---- an absent entry -----------------------------------------------------------------------

  /** Below an absent entry there is no table. */
  lemma AbsentAt(mem: Mem, t: nat, lvl: int, i: nat, base: nat, a: nat)
    requires Level(lvl) && t in mem && i < |mem[t]| && !mem[t][i].present && Serves(base, lvl, i, a)
    ensures base <= a && Index(a - base, lvl) == i
  {
    ServesIndex(base, lvl, i, a);
  }

  lemma AbsentHas(mem: Mem, t: nat, lvl: int, v: nat)
    requires Level(lvl) && t in mem && Index(v, lvl) < |mem[t]| && !mem[t][Index(v, lvl)].present
    ensures !HasTable(mem, t, lvl, v, 1) || lvl == 1
    ensures !HasTable(mem, t, lvl, v, 2) || lvl <= 2
    ensures !HasTable(mem, t, lvl, v, 3) || lvl <= 3
  {
  }

  /** A leaf takes the place of an absent entry when the request is for its whole region: no table is needed. */
  lemma LeafNeeds(mem: Mem, t: nat, lvl: int, i: nat, base: nat, q: Request)
    requires Level(lvl) && t in mem && i < |mem[t]| && !mem[t][i].present
    requires Region(base, lvl) && Within(q, base, lvl, i)
    requires lvl == 1 || (lvl < 4 && forall a: nat :: Asks(q, a) ==> Big(q, a, lvl))
    ensures Needed(mem, t, lvl, base, q) == {}
    ensures forall a: nat :: base <= a && Asks(q, a) ==> PageLevel(mem, t, lvl, base, q, a) == lvl
  {
    hide HasTable, Needed, Big, Index, Size, Region;
    forall a: nat | base <= a && Asks(q, a) ensures PageLevel(mem, t, lvl, base, q, a) == lvl {
      AbsentAt(mem, t, lvl, i, base, a);
      AbsentHas(mem, t, lvl, a - base);
    }
    forall x: (int, int) ensures x !in Needed(mem, t, lvl, base, q) {
      NeededIff(mem, t, lvl, base, q, x);
    }
  }

  /** When the request asks for the whole region and `phys` is aligned, the page is as large as the entry. */
  lemma WholeIsBig(base: nat, lvl: int, i: nat, q: Request, a: nat)
    requires 2 <= lvl <= 3 && Region(base, lvl) && Serves(base, lvl, i, a) && q.bit7
    requires q.begin == base + i * Size(lvl) && q.end == q.begin + Size(lvl)
    ensures Big(q, a, lvl) <==> q.phys % Size(lvl) == 0
  {
    RegionInEntry(base, lvl, i, a, lvl);
  }

  /** Otherwise it cannot be. */
  lemma PartIsNotBig(base: nat, lvl: int, i: nat, q: Request, a: nat)
    requires 2 <= lvl <= 3 && Region(base, lvl) && Within(q, base, lvl, i) && Serves(base, lvl, i, a)
    requires q.end - q.begin != Size(lvl) || !q.bit7 || q.phys % Size(lvl) != 0
    ensures !Big(q, a, lvl)
  {
    hide Region;
    RegionInEntry(base, lvl, i, a, lvl);
  }

  // ---- a new table ---------------------------------------------------------------------------

  lemma NewTableHas(mem: Mem, mem': Mem, t: nat, lvl: int, i: nat, page: nat, v: nat, l: int)
    requires 2 <= lvl <= 4 && t in mem && |mem[t]| == ENTRIES && i < ENTRIES && page !in mem && Index(v, lvl) == i
    requires mem' == mem[page := EMPTY][t := mem[t][i := Pte(true, false, page)]] && 1 <= l < lvl
    ensures HasTable(mem', t, lvl, v, l) <==> l == lvl - 1
  {
  }

  lemma NewTableNeedsFor(mem: Mem, mem': Mem, t: nat, lvl: int, i: nat, page: nat, base: nat, q: Request,
                         l: int, x: int, a: nat)
    requires 2 <= lvl <= 4 && t in mem && |mem[t]| == ENTRIES && i < ENTRIES && !mem[t][i].present && page !in mem
    requires mem' == mem[page := EMPTY][t := mem[t][i := Pte(true, false, page)]]
    requires Serves(base, lvl, i, a) && (lvl < 4 ==> !Big(q, a, lvl))
    ensures base <= a && PageLevel(mem', t, lvl, base, q, a) == PageLevel(mem, t, lvl, base, q, a) <= lvl - 1
    ensures NeedsFor(mem', t, lvl, base, q, l, x, a) <==> NeedsFor(mem, t, lvl, base, q, l, x, a) && l != lvl - 1
    ensures NeedsFor(mem, t, lvl, base, q, lvl - 1, x, a) <==> Asks(q, a) && x == Index(a, lvl)
  {
    hide HasTable, Big, Size;
    AbsentAt(mem, t, lvl, i, base, a);
    AbsentHas(mem, t, lvl, a - base);
    if 1 <= l < lvl { NewTableHas(mem, mem', t, lvl, i, page, a - base, l); }
    if 1 < lvl { NewTableHas(mem, mem', t, lvl, i, page, a - base, 1); }
    if 2 < lvl { NewTableHas(mem, mem', t, lvl, i, page, a - base, 2); }
  }

  /** A new table takes exactly itself from what is needed. */
  lemma NewTableNeeded(mem: Mem, mem': Mem, t: nat, lvl: int, i: nat, page: nat, base: nat, q: Request)
    requires 2 <= lvl <= 4 && t in mem && |mem[t]| == ENTRIES && i < ENTRIES && !mem[t][i].present && page !in mem
    requires mem' == mem[page := EMPTY][t := mem[t][i := Pte(true, false, page)]]
    requires Region(base, lvl) && Within(q, base, lvl, i) && q.begin < q.end
    requires lvl < 4 ==> forall a: nat :: Asks(q, a) ==> !Big(q, a, lvl)
    ensures
      var x, N' := (lvl - 1, Index(q.begin, lvl)), Needed(mem', t, lvl, base, q);
      x !in N' && Needed(mem, t, lvl, base, q) == N' + {x}
    ensures forall a: nat :: base <= a && Asks(q, a) ==>
      PageLevel(mem', t, lvl, base, q, a) == PageLevel(mem, t, lvl, base, q, a)
  {
    hide NeedsFor, Needed, PageLevel, Big, Index, Size, Region;
    var y: (int, int) := (lvl - 1, Index(q.begin, lvl));
    forall a: nat | base <= a && Asks(q, a)
      ensures PageLevel(mem', t, lvl, base, q, a) == PageLevel(mem, t, lvl, base, q, a)
    {
      NewTableNeedsFor(mem, mem', t, lvl, i, page, base, q, 1, 0, a);
    }
    forall x: (int, int)
      ensures x in Needed(mem', t, lvl, base, q) <==> x in Needed(mem, t, lvl, base, q) && x != y
    {
      NewTableOne(mem, mem', t, lvl, i, page, base, q, x);
    }
    NewTableNeedsFor(mem, mem', t, lvl, i, page, base, q, lvl - 1, y.1, q.begin);
    NeededIff(mem, t, lvl, base, q, y);
  }

  lemma NewTableOne(mem: Mem, mem': Mem, t: nat, lvl: int, i: nat, page: nat, base: nat, q: Request, x: (int, int))
    requires 2 <= lvl <= 4 && t in mem && |mem[t]| == ENTRIES && i < ENTRIES && !mem[t][i].present && page !in mem
    requires mem' == mem[page := EMPTY][t := mem[t][i := Pte(true, false, page)]]
    requires Region(base, lvl) && Within(q, base, lvl, i) && q.begin < q.end
    requires lvl < 4 ==> forall a: nat :: Asks(q, a) ==> !Big(q, a, lvl)
    ensures x in Needed(mem', t, lvl, base, q)
       <==> x in Needed(mem, t, lvl, base, q) && x != (lvl - 1, Index(q.begin, lvl))
  {
    hide HasTable, Needed, PageLevel, Big, Index, Size, Region;
    NeededIff(mem, t, lvl, base, q, x);
    NeededIff(mem', t, lvl, base, q, x);
    if a: nat :| NeedsFor(mem, t, lvl, base, q, x.0, x.1, a) {
      NewTableNeedsFor(mem, mem', t, lvl, i, page, base, q, x.0, x.1, a);
      EntryNumber(base, lvl, i, a, q.begin);
    }
    if a: nat :| NeedsFor(mem', t, lvl, base, q, x.0, x.1, a) {
      NewTableNeedsFor(mem, mem', t, lvl, i, page, base, q, x.0, x.1, a);
    }
  }

  /** All addresses that one entry serves have the same number at its level. */
  lemma EntryNumber(base: nat, lvl: int, i: nat, a: nat, b: nat)
    requires Level(lvl) && Region(base, lvl) && Serves(base, lvl, i, a) && Serves(base, lvl, i, b)
    ensures Index(a, lvl) == Index(b, lvl)
  {
    hide Region;
    var q := RegionMultiple(base, lvl);
    assert (q + i) * Size(lvl) == q * Size(lvl) + i * Size(lvl);
    DivisionFacts(a, lvl, q + i);
    DivisionFacts(b, lvl, q + i);
  }

  // ---- requests in parts ---------------------------------------------------------------------

  /** The request up to address `c`, and from there on. */
  function Front(q: Request, c: int): Request { q.(end := c) }

  function Back(q: Request, c: int): Request { q.(begin := c, phys := q.phys + (c - q.begin)) }

  /** At `c` entry `i` begins, or the request begins or ends. */
  predicate Cuts(base: nat, lvl: int, q: Request, i: nat, c: int)
    requires Level(lvl)
  {
    && base <= q.begin <= c <= q.end <= base + ENTRIES * Size(lvl)
    && (c == q.begin || c == q.end || c == base + i * Size(lvl))
  }

  /** A region of level `m` <= `lvl` lies on one side of the cut. */
  lemma OneSide(base: nat, lvl: int, q: Request, i: nat, c: int, a: nat, m: int)
    requires Level(lvl) && Level(m) && m <= lvl && Region(base, lvl) && Cuts(base, lvl, q, i, c) && Asks(q, a)
    ensures a < c ==> (Big(q, a, m) <==> Big(Front(q, c), a, m))
    ensures a >= c ==> (Big(q, a, m) <==> Big(Back(q, c), a, m))
    ensures c == base + i * Size(lvl) && a < c ==> RegionStart(a, m) + Size(m) <= c
    ensures c == base + i * Size(lvl) && a >= c ==> c <= RegionStart(a, m)
  {
    hide Region, Index;
    var j := Index(a - base, lvl);
    ServesIndex(base, lvl, j, a);
    RegionInEntry(base, lvl, j, a, m);
    if c == base + i * Size(lvl) { EntryOrder(base, lvl, i, j, a); }
  }

  lemma EntryOrder(base: nat, lvl: int, i: nat, j: nat, a: int)
    requires Level(lvl) && Serves(base, lvl, j, a)
    ensures a < base + i * Size(lvl) ==> base + j * Size(lvl) + Size(lvl) <= base + i * Size(lvl)
    ensures a >= base + i * Size(lvl) ==> base + i * Size(lvl) <= base + j * Size(lvl)
  {
    assert (j + 1) * Size(lvl) == j * Size(lvl) + Size(lvl);
    MulOrder(j + 1, i, Size(lvl));
    MulOrder(i, j, Size(lvl));
    MulOrder(j, i - 1, Size(lvl));
  }

  lemma CutAt(mem: Mem, t: nat, lvl: int, base: nat, q: Request, i: nat, c: int, a: nat)
    requires Level(lvl) && Region(base, lvl) && Cuts(base, lvl, q, i, c) && Asks(q, a)
    ensures base <= a
    ensures
      var part := if a < c then Front(q, c) else Back(q, c);
      && PageLevel(mem, t, lvl, base, q, a) == PageLevel(mem, t, lvl, base, part, a)
      && forall l, x :: NeedsFor(mem, t, lvl, base, q, l, x, a) <==> NeedsFor(mem, t, lvl, base, part, l, x, a)
  {
    hide HasTable, Big, Index, Region;
    if lvl >= 2 { OneSide(base, lvl, q, i, c, a, 2); }
    if lvl >= 3 { OneSide(base, lvl, q, i, c, a, 3); }
  }

  /** What a request needs is what its parts need, and they need different tables. */
  lemma CutNeeded(mem: Mem, t: nat, lvl: int, base: nat, q: Request, i: nat, c: int)
    requires Level(lvl) && Region(base, lvl) && Cuts(base, lvl, q, i, c)
    ensures
      var f, b := Needed(mem, t, lvl, base, Front(q, c)), Needed(mem, t, lvl, base, Back(q, c));
      Needed(mem, t, lvl, base, q) == f + b && f !! b
  {
    hide NeedsFor, Needed, Index, Size, Region, Cuts;
    forall x: (int, int)
      ensures x in Needed(mem, t, lvl, base, q) <==>
        x in Needed(mem, t, lvl, base, Front(q, c)) || x in Needed(mem, t, lvl, base, Back(q, c))
      ensures !(x in Needed(mem, t, lvl, base, Front(q, c)) && x in Needed(mem, t, lvl, base, Back(q, c)))
    {
      CutOne(mem, t, lvl, base, q, i, c, x);
    }
  }

  lemma CutOne(mem: Mem, t: nat, lvl: int, base: nat, q: Request, i: nat, c: int, x: (int, int))
    requires Level(lvl) && Region(base, lvl) && Cuts(base, lvl, q, i, c)
    ensures x in Needed(mem, t, lvl, base, q) <==>
      x in Needed(mem, t, lvl, base, Front(q, c)) || x in Needed(mem, t, lvl, base, Back(q, c))
    ensures !(x in Needed(mem, t, lvl, base, Front(q, c)) && x in Needed(mem, t, lvl, base, Back(q, c)))
  {
    hide Needed, PageLevel, HasTable, Index, Size, Region;
    NeededIff(mem, t, lvl, base, q, x);
    NeededIff(mem, t, lvl, base, Front(q, c), x);
    NeededIff(mem, t, lvl, base, Back(q, c), x);
    if a: nat :| NeedsFor(mem, t, lvl, base, q, x.0, x.1, a) {
      CutAt(mem, t, lvl, base, q, i, c, a);
      assert NeedsFor(mem, t, lvl, base, if a < c then Front(q, c) else Back(q, c), x.0, x.1, a);
    }
    if a: nat :| NeedsFor(mem, t, lvl, base, Front(q, c), x.0, x.1, a) {
      CutAt(mem, t, lvl, base, q, i, c, a);
      assert NeedsFor(mem, t, lvl, base, q, x.0, x.1, a);
      if b: nat :| NeedsFor(mem, t, lvl, base, Back(q, c), x.0, x.1, b) {
        OneSide(base, lvl, q, i, c, a, x.0 + 1);
        OneSide(base, lvl, q, i, c, b, x.0 + 1);
      }
    }
    if b: nat :| NeedsFor(mem, t, lvl, base, Back(q, c), x.0, x.1, b) {
      CutAt(mem, t, lvl, base, q, i, c, b);
      assert NeedsFor(mem, t, lvl, base, q, x.0, x.1, b);
    }
  }

  // ---- other tables --------------------------------------------------------------------------

  /** For the entries from `i` on the same tables exist. */
  ghost predicate SameTables(mem0: Mem, mem: Mem, t: nat, lvl: int, i: nat)
    requires Level(lvl)
  {
    forall v: nat, l: int :: Index(v, lvl) >= i ==> HasTable(mem, t, lvl, v, l) == HasTable(mem0, t, lvl, v, l)
  }

  lemma SameNeeded(mem0: Mem, mem: Mem, t: nat, lvl: int, i: nat, base: nat, q: Request)
    requires Level(lvl) && SameTables(mem0, mem, t, lvl, i) && base + i * Size(lvl) <= q.begin
    ensures Needed(mem, t, lvl, base, q) == Needed(mem0, t, lvl, base, q)
    ensures forall a: nat :: base <= a && Asks(q, a) ==>
      PageLevel(mem, t, lvl, base, q, a) == PageLevel(mem0, t, lvl, base, q, a)
  {
    hide HasTable, Big, Needed, Size;
    forall a: nat | base <= a && Asks(q, a)
      ensures PageLevel(mem, t, lvl, base, q, a) == PageLevel(mem0, t, lvl, base, q, a)
    {
      IndexFrom(a - base, lvl, i);
    }
    forall x: (int, int) ensures x in Needed(mem, t, lvl, base, q) <==> x in Needed(mem0, t, lvl, base, q) {
      NeededIff(mem, t, lvl, base, q, x);
      NeededIff(mem0, t, lvl, base, q, x);
      forall a: nat
        ensures NeedsFor(mem, t, lvl, base, q, x.0, x.1, a) <==> NeedsFor(mem0, t, lvl, base, q, x.0, x.1, a)
      {
        if base <= a && Asks(q, a) { IndexFrom(a - base, lvl, i); }
      }
    }
  }

  lemma IndexFrom(v: nat, lvl: int, i: nat)
    requires Level(lvl) && i * Size(lvl) <= v
    ensures Index(v, lvl) >= i
  {
    DivisionFacts(v, lvl, Index(v, lvl));
    MulOrder(Index(v, lvl) + 1, i, Size(lvl));
  }

  lemma {:induction false} FrameHas(mem: Mem, mem': Mem, t: nat, lvl: int, v: nat, l: int)
    requires Level(lvl) && Tree(mem, t, lvl) && Agree(mem, mem', Reach(mem, t, lvl))
    ensures HasTable(mem', t, lvl, v, l) == HasTable(mem, t, lvl, v, l)
    ensures LeafLevel(mem', t, lvl, v) == LeafLevel(mem, t, lvl, v)
    decreases lvl
  {
    SelfReached(mem, t, lvl);
    var i := Index(v, lvl);
    if i < ENTRIES && IsTable(mem[t][i], lvl) {
      assert GoodEntry(mem, t, lvl, i);
      BelowInReach(mem, t, lvl, i);
      FrameHas(mem, mem', mem[t][i].addr, lvl - 1, Rest(v, lvl), l);
    }
  }

  /** Nothing that happens below one entry matters to the others. */
  lemma OtherEntry(mem: Mem, mem': Mem, t: nat, lvl: int, i: nat, v: nat, l: int)
    requires Level(lvl) && Tree(mem, t, lvl) && OnlyEntry(mem, mem', t, lvl, i) && Index(v, lvl) != i
    ensures HasTable(mem', t, lvl, v, l) == HasTable(mem, t, lvl, v, l)
    ensures LeafLevel(mem', t, lvl, v) == LeafLevel(mem, t, lvl, v)
  {
    var j := Index(v, lvl);
    if j < ENTRIES {
      assert GoodEntry(mem, t, lvl, j);
      if IsTable(mem[t][j], lvl) { FrameHas(mem, mem', mem[t][j].addr, lvl - 1, Rest(v, lvl), l); }
    }
  }

  // ---- what a call uses up, and how large its pages are --------------------------------------

  /** Every address of the request is translated by a page of its level. */
  ghost predicate Leveled(mem0: Mem, mem: Mem, t: nat, lvl: int, base: nat, q: Request)
    requires Level(lvl)
  {
    forall a: nat :: base <= a && Asks(q, a) ==>
      LeafLevel(mem, t, lvl, a - base) == PageLevel(mem0, t, lvl, base, q, a)
  }

  /** Exactly the tables needed have come. */
  ghost predicate TablesAfter(mem0: Mem, mem: Mem, t: nat, lvl: int, base: nat, q: Request)
    requires Level(lvl)
  {
    forall v: nat, l: int :: v < ENTRIES * Size(lvl) && 1 <= l < lvl ==>
      HasTable(mem, t, lvl, v, l)
        == (HasTable(mem0, t, lvl, v, l) || (l, Index(base + v, l + 1)) in Needed(mem0, t, lvl, base, q))
  }

  /** A needed table serves an address of the request. */
  lemma NeededWithin(mem: Mem, t: nat, lvl: int, base: nat, q: Request, i: nat, l: int, j: nat, a: nat)
    requires Level(lvl) && Region(base, lvl) && Within(q, base, lvl, i) && Serves(base, lvl, j, a) && 1 <= l < lvl
    requires (l, Index(a, l + 1)) in Needed(mem, t, lvl, base, q)
    ensures i == j
  {
    hide Needed, HasTable, PageLevel, Region, Index;
    NeededIff(mem, t, lvl, base, q, (l, Index(a, l + 1)));
    var b: nat :| NeedsFor(mem, t, lvl, base, q, l, Index(a, l + 1), b);
    SameEntry(base, lvl, i, b, j, a, l + 1);
  }

  lemma LeafTables(mem: Mem, mem': Mem, t: nat, lvl: int, i: nat, e: Pte, base: nat, q: Request)
    requires Level(lvl) && Tree(mem, t, lvl) && i < ENTRIES && !mem[t][i].present && mem' == mem[t := mem[t][i := e]]
    requires !IsTable(e, lvl) && OnlyEntry(mem, mem', t, lvl, i) && Needed(mem, t, lvl, base, q) == {}
    ensures TablesAfter(mem, mem', t, lvl, base, q)
  {
    hide Needed, Tree, OnlyEntry, Size, Index;
    HasEntries(mem, t, lvl);
    forall v: nat, l: int | v < ENTRIES * Size(lvl) && 1 <= l < lvl
      ensures HasTable(mem', t, lvl, v, l) == HasTable(mem, t, lvl, v, l)
    {
      if Index(v, lvl) != i { OtherEntry(mem, mem', t, lvl, i, v, l); }
    }
  }

  lemma ChildTables(mem: Mem, mem': Mem, t: nat, lvl: int, i: nat, base: nat, q: Request)
    requires 2 <= lvl <= 4 && Tree(mem, t, lvl) && i < ENTRIES && t in mem' && mem'[t] == mem[t]
    requires IsTable(mem[t][i], lvl) && OnlyEntry(mem, mem', t, lvl, i) && Region(base, lvl) && Within(q, base, lvl, i)
    requires TablesAfter(mem, mem', mem[t][i].addr, lvl - 1, base + i * Size(lvl), q)
    ensures TablesAfter(mem, mem', t, lvl, base, q)
  {
    hide Needed, Tree, OnlyEntry, IsTable, HasTable, TablesAfter;
    HasEntries(mem, t, lvl);
    forall v: nat, l: int | v < ENTRIES * Size(lvl) && 1 <= l < lvl
      ensures HasTable(mem', t, lvl, v, l)
        == (HasTable(mem, t, lvl, v, l) || (l, Index(base + v, l + 1)) in Needed(mem, t, lvl, base, q))
    {
      ChildTablesAt(mem, mem', t, lvl, i, base, q, v, l);
    }
    TablesAfterIs(mem, mem', t, lvl, base, q);
  }

  lemma TablesAfterIs(mem0: Mem, mem: Mem, t: nat, lvl: int, base: nat, q: Request)
    requires Level(lvl)
    requires forall v: nat, l: int :: v < ENTRIES * Size(lvl) && 1 <= l < lvl ==>
      HasTable(mem, t, lvl, v, l)
        == (HasTable(mem0, t, lvl, v, l) || (l, Index(base + v, l + 1)) in Needed(mem0, t, lvl, base, q))
    ensures TablesAfter(mem0, mem, t, lvl, base, q)
  {
  }

  lemma ChildTablesAt(mem: Mem, mem': Mem, t: nat, lvl: int, i: nat, base: nat, q: Request, v: nat, l: int)
    requires 2 <= lvl <= 4 && Tree(mem, t, lvl) && i < ENTRIES && t in mem' && mem'[t] == mem[t]
    requires IsTable(mem[t][i], lvl) && OnlyEntry(mem, mem', t, lvl, i) && Region(base, lvl) && Within(q, base, lvl, i)
    requires TablesAfter(mem, mem', mem[t][i].addr, lvl - 1, base + i * Size(lvl), q)
    requires v < ENTRIES * Size(lvl) && 1 <= l < lvl
    ensures HasTable(mem', t, lvl, v, l)
      == (HasTable(mem, t, lvl, v, l) || (l, Index(base + v, l + 1)) in Needed(mem, t, lvl, base, q))
  {
    hide Needed, Tree, OnlyEntry, IsTable, HasTable, Within, Region, Index;
    HasEntries(mem, t, lvl);
    var a, j, child, below := base + v, Index(v, lvl), mem[t][i].addr, lvl - 1;
    ServesIndex(base, lvl, j, a);
    if j != i {
      OtherEntry(mem, mem', t, lvl, i, v, l);
      if (l, Index(a, l + 1)) in Needed(mem, t, lvl, base, q) { NeededWithin(mem, t, lvl, base, q, i, l, j, a); }
    } else {
      ChildHas(mem, t, lvl, i, base, a, l);
      ChildHas(mem', t, lvl, i, base, a, l);
      if l == below {
        OwnTable(mem, child, below, a - (base + i * Size(lvl)));
        OwnTable(mem', child, below, a - (base + i * Size(lvl)));
      } else {
        ChildNeeded(mem, t, lvl, i, base, q);
        SizeStep(lvl);
        var v': nat := a - (base + i * Size(lvl));
        var base' := base + i * Size(lvl);
        assert HasTable(mem', child, below, v', l) ==
          (HasTable(mem, child, below, v', l) || (l, Index(base' + v', l + 1)) in Needed(mem, child, below, base', q));
      }
    }
  }

  lemma NewTableTables(mem: Mem, mem1: Mem, mem': Mem, t: nat, lvl: int, i: nat, page: nat, base: nat, q: Request)
    requires 2 <= lvl <= 4 && Tree(mem, t, lvl) && i < ENTRIES && !mem[t][i].present && page !in mem
    requires mem1 == mem[page := EMPTY][t := mem[t][i := Pte(true, false, page)]] && OnlyEntry(mem, mem1, t, lvl, i)
    requires Region(base, lvl) && Within(q, base, lvl, i) && q.begin < q.end
    requires Needed(mem, t, lvl, base, q) == Needed(mem1, t, lvl, base, q) + {(lvl - 1, Index(q.begin, lvl))}
    requires TablesAfter(mem1, mem', t, lvl, base, q)
    ensures TablesAfter(mem, mem', t, lvl, base, q)
  {
    hide Needed, Tree, OnlyEntry, HasTable, Index, Region, Size;
    forall v: nat, l: int | v < ENTRIES * Size(lvl) && 1 <= l < lvl
      ensures HasTable(mem1, t, lvl, v, l)
        == (HasTable(mem, t, lvl, v, l) || (l, Index(base + v, l + 1)) == (lvl - 1, Index(q.begin, lvl)))
    {
      NewTableTablesAt(mem, mem1, t, lvl, i, page, base, q.begin, v, l);
    }
  }

  lemma NewTableTablesAt(mem: Mem, mem1: Mem, t: nat, lvl: int, i: nat, page: nat, base: nat, begin: nat, v: nat,
                         l: int)
    requires 2 <= lvl <= 4 && Tree(mem, t, lvl) && i < ENTRIES && !mem[t][i].present && page !in mem
    requires mem1 == mem[page := EMPTY][t := mem[t][i := Pte(true, false, page)]] && OnlyEntry(mem, mem1, t, lvl, i)
    requires Region(base, lvl) && Serves(base, lvl, i, begin) && 1 <= l < lvl
    ensures HasTable(mem1, t, lvl, v, l)
      == (HasTable(mem, t, lvl, v, l) || (l, Index(base + v, l + 1)) == (lvl - 1, Index(begin, lvl)))
  {
    hide Tree, OnlyEntry, Index, Region, Size, HasTable;
    HasEntries(mem, t, lvl);
    var j := Index(v, lvl);
    ServesIndex(base, lvl, j, base + v);
    if j != i {
      OtherEntry(mem, mem1, t, lvl, i, v, l);
      if Index(base + v, lvl) == Index(begin, lvl) { SameEntry(base, lvl, j, base + v, i, begin, lvl); }
    } else {
      NewTableHas(mem, mem1, t, lvl, i, page, v, l);
      AbsentHas(mem, t, lvl, v);
      EntryNumber(base, lvl, i, base + v, begin);
    }
  }

  /** Exactly the pages for the tables needed have left the pool, and the pages have the right size. */
  ghost predicate Served(mem0: Mem, supply0: seq<nat>, mem: Mem, supply: seq<nat>, t: nat, lvl: int, base: nat,
                         q: Request, present: bool)
    requires Level(lvl)
  {
    var n := |Needed(mem0, t, lvl, base, q)|;
    && n <= |supply0| && supply == supply0[n..]
    && TablesAfter(mem0, mem, t, lvl, base, q) && (present ==> Leveled(mem0, mem, t, lvl, base, q))
  }

  lemma LeafServes(mem: Mem, mem': Mem, supply: seq<nat>, t: nat, lvl: int, i: nat, e: Pte, base: nat, q: Request)
    requires Level(lvl) && Tree(mem, t, lvl) && i < ENTRIES && !mem[t][i].present && mem' == mem[t := mem[t][i := e]]
    requires Region(base, lvl) && q.begin == base + i * Size(lvl) && q.end == q.begin + Size(lvl)
    requires lvl == 1 || (lvl < 4 && q.bit7 && e.bit7 && q.phys % Size(lvl) == 0)
    requires !IsTable(e, lvl) && OnlyEntry(mem, mem', t, lvl, i)
    ensures Needed(mem, t, lvl, base, q) == {}
    ensures Served(mem, supply, mem', supply, t, lvl, base, q, e.present)
  {
    hide Needed, Tree, PageLevel, Big, TablesAfter, OnlyEntry;
    HasEntries(mem, t, lvl);
    forall a: nat | Asks(q, a) && lvl > 1 ensures Big(q, a, lvl) { WholeIsBig(base, lvl, i, q, a); }
    LeafNeeds(mem, t, lvl, i, base, q);
    LeafTables(mem, mem', t, lvl, i, e, base, q);
    forall a: nat | base <= a && Asks(q, a) && e.present ensures LeafLevel(mem', t, lvl, a - base) == lvl {
      ServesIndex(base, lvl, i, a);
    }
  }

  lemma ChildServes(mem: Mem, supply: seq<nat>, mem': Mem, supply': seq<nat>, t: nat, lvl: int, i: nat, base: nat,
                    q: Request, present: bool)
    requires 2 <= lvl <= 4 && t in mem && t in mem' && mem'[t] == mem[t] && i < |mem[t]| == ENTRIES
    requires IsTable(mem[t][i], lvl)
    requires Tree(mem, t, lvl) && OnlyEntry(mem, mem', t, lvl, i) && Region(base, lvl) && Within(q, base, lvl, i)
    requires Served(mem, supply, mem', supply', mem[t][i].addr, lvl - 1, base + i * Size(lvl), q, present)
    ensures Served(mem, supply, mem', supply', t, lvl, base, q, present)
  {
    hide Needed, LeafLevel, PageLevel, IsTable, Size, Tree, OnlyEntry, TablesAfter;
    HasEntries(mem, t, lvl);
    ChildNeeded(mem, t, lvl, i, base, q);
    ChildTables(mem, mem', t, lvl, i, base, q);
    forall a: nat | base <= a && Asks(q, a) && present
      ensures LeafLevel(mem', t, lvl, a - base) == PageLevel(mem, t, lvl, base, q, a)
    {
      ChildAt(mem, t, lvl, i, base, q, a);
      ChildLeaf(mem', t, lvl, i, base, a);
    }
  }

  lemma TableServes(mem: Mem, supply: seq<nat>, mem1: Mem, mem': Mem, supply': seq<nat>, t: nat, lvl: int, i: nat,
                    page: nat, base: nat, q: Request, present: bool)
    requires 2 <= lvl <= 4 && Tree(mem, t, lvl) && i < ENTRIES && !mem[t][i].present && page !in mem
    requires mem1 == mem[page := EMPTY][t := mem[t][i := Pte(true, false, page)]] && supply != []
    requires OnlyEntry(mem, mem1, t, lvl, i)
    requires Region(base, lvl) && Within(q, base, lvl, i) && q.begin < q.end
    requires lvl < 4 ==> q.end - q.begin != Size(lvl) || !q.bit7 || q.phys % Size(lvl) != 0
    ensures |Needed(mem, t, lvl, base, q)| == |Needed(mem1, t, lvl, base, q)| + 1
    ensures Served(mem1, supply[1..], mem', supply', t, lvl, base, q, present) ==>
      Served(mem, supply, mem', supply', t, lvl, base, q, present)
  {
    hide Needed, LeafLevel, PageLevel, Big, Size, Index, Tree, OnlyEntry, TablesAfter;
    HasEntries(mem, t, lvl);
    if lvl < 4 {
      forall a: nat | Asks(q, a) ensures !Big(q, a, lvl) { PartIsNotBig(base, lvl, i, q, a); }
    }
    NewTableNeeded(mem, mem1, t, lvl, i, page, base, q);
    if TablesAfter(mem1, mem', t, lvl, base, q) { NewTableTables(mem, mem1, mem', t, lvl, i, page, base, q); }
  }

  /** What happens below one entry. */
  lemma TableNeedsOne(mem: Mem, t: nat, lvl: int, i: nat, base: nat, q: Request)
    requires 2 <= lvl <= 4 && t in mem && |mem[t]| == ENTRIES && i < ENTRIES && !mem[t][i].present
    requires Region(base, lvl) && Within(q, base, lvl, i) && 0 <= q.begin < q.end
    requires lvl < 4 ==> q.end - q.begin != Size(lvl) || !q.bit7 || q.phys % Size(lvl) != 0
    ensures |Needed(mem, t, lvl, base, q)| > 0
  {
    hide Needed, HasTable, Big, Index, Region;
    var a: nat := q.begin;
    if lvl < 4 { PartIsNotBig(base, lvl, i, q, a); }
    AbsentAt(mem, t, lvl, i, base, a);
    AbsentHas(mem, t, lvl, a - base);
    assert NeedsFor(mem, t, lvl, base, q, lvl - 1, Index(a, lvl), a);
    NeededIff(mem, t, lvl, base, q, (lvl - 1, Index(a, lvl)));
  }

  /** Where the loop over the entries stands: the request is served up to `c`, and nothing has changed from entry `i`
      on. */
  ghost predicate RoundServed(mem0: Mem, supply0: seq<nat>, mem: Mem, supply: seq<nat>, t: nat, lvl: int, base: nat,
                              q: Request, i: nat, c: int, present: bool)
    requires Level(lvl)
  {
    SameTables(mem0, mem, t, lvl, i) && Served(mem0, supply0, mem, supply, t, lvl, base, Front(q, c), present)
  }

  lemma RoundServedStart(mem: Mem, supply: seq<nat>, t: nat, lvl: int, base: nat, q: Request, i: nat, present: bool)
    requires Level(lvl)
    ensures RoundServed(mem, supply, mem, supply, t, lvl, base, q, i, q.begin, present)
  {
    hide HasTable, PageLevel, LeafLevel, Needed;
    forall x: (int, int) ensures x !in Needed(mem, t, lvl, base, Front(q, q.begin)) {
      NeededIff(mem, t, lvl, base, Front(q, q.begin), x);
    }
    assert Needed(mem, t, lvl, base, Front(q, q.begin)) == {};
  }

  lemma SameTablesNext(mem0: Mem, mem1: Mem, mem: Mem, t: nat, lvl: int, i: nat)
    requires Level(lvl) && SameTables(mem0, mem1, t, lvl, i) && Tree(mem1, t, lvl) && OnlyEntry(mem1, mem, t, lvl, i)
    ensures SameTables(mem0, mem, t, lvl, i + 1)
  {
    hide HasTable, Tree, OnlyEntry, Index;
    forall v: nat, l: int | Index(v, lvl) >= i + 1
      ensures HasTable(mem, t, lvl, v, l) == HasTable(mem0, t, lvl, v, l)
    {
      OtherEntry(mem1, mem, t, lvl, i, v, l);
    }
  }

  /** The part of the request that one round is about. */
  function Chunk(q: Request, c: int, c': int): Request { Front(Back(q, c), c') }

  lemma ChunkNeeded(mem0: Mem, mem1: Mem, t: nat, lvl: int, base: nat, q: Request, i: nat, c: int, c': int)
    requires Level(lvl) && Region(base, lvl) && SameTables(mem0, mem1, t, lvl, i)
    requires Cuts(base, lvl, Front(q, c'), i, c) && base + i * Size(lvl) <= c
    ensures |Needed(mem0, t, lvl, base, Front(q, c'))|
         == |Needed(mem0, t, lvl, base, Front(q, c))| + |Needed(mem1, t, lvl, base, Chunk(q, c, c'))|
  {
    hide Needed, Cuts, Size, Region, SameTables;
    CutNeeded(mem0, t, lvl, base, Front(q, c'), i, c);
    assert Front(Front(q, c'), c) == Front(q, c) && Back(Front(q, c'), c) == Chunk(q, c, c');
    SameNeeded(mem0, mem1, t, lvl, i, base, Chunk(q, c, c'));
  }

  lemma ChunkLeveled(mem0: Mem, mem1: Mem, mem: Mem, t: nat, lvl: int, base: nat, q: Request, i: nat, c: int, c': int)
    requires Level(lvl) && Region(base, lvl) && SameTables(mem0, mem1, t, lvl, i)
    requires Tree(mem1, t, lvl) && OnlyEntry(mem1, mem, t, lvl, i)
    requires Cuts(base, lvl, Front(q, c'), i, c) && base + i * Size(lvl) <= c
    requires c == q.begin || c == base + i * Size(lvl)
    requires Leveled(mem0, mem1, t, lvl, base, Front(q, c)) && Leveled(mem1, mem, t, lvl, base, Chunk(q, c, c'))
    ensures Leveled(mem0, mem, t, lvl, base, Front(q, c'))
  {
    hide PageLevel, LeafLevel, Size, Region, SameTables, Tree, OnlyEntry, Index;
    SameNeeded(mem0, mem1, t, lvl, i, base, Chunk(q, c, c'));
    forall a: nat | base <= a && Asks(Front(q, c'), a)
      ensures LeafLevel(mem, t, lvl, a - base) == PageLevel(mem0, t, lvl, base, Front(q, c'), a)
    {
      CutAt(mem0, t, lvl, base, Front(q, c'), i, c, a);
      if a < c {
        BeforeEntry(a - base, lvl, i);
        OtherEntry(mem1, mem, t, lvl, i, a - base, 1);
        assert Asks(Front(q, c), a);
      } else {
        assert Asks(Chunk(q, c, c'), a);
      }
    }
  }

  lemma BeforeEntry(v: nat, lvl: int, i: nat)
    requires Level(lvl) && v < i * Size(lvl)
    ensures Index(v, lvl) < i
  {
    DivisionFacts(v, lvl, Index(v, lvl));
    MulOrder(i, Index(v, lvl), Size(lvl));
  }

  lemma ChunkTables(mem0: Mem, mem1: Mem, mem: Mem, t: nat, lvl: int, base: nat, q: Request, i: nat, c: int, c': int)
    requires Level(lvl) && Region(base, lvl) && SameTables(mem0, mem1, t, lvl, i)
    requires Cuts(base, lvl, Front(q, c'), i, c) && base + i * Size(lvl) <= c
    requires TablesAfter(mem0, mem1, t, lvl, base, Front(q, c))
    requires TablesAfter(mem1, mem, t, lvl, base, Chunk(q, c, c'))
    ensures TablesAfter(mem0, mem, t, lvl, base, Front(q, c'))
  {
    hide Needed, Cuts, Size, Region, SameTables, HasTable, Index;
    CutNeeded(mem0, t, lvl, base, Front(q, c'), i, c);
    assert Front(Front(q, c'), c) == Front(q, c) && Back(Front(q, c'), c) == Chunk(q, c, c');
    SameNeeded(mem0, mem1, t, lvl, i, base, Chunk(q, c, c'));
  }

  lemma RoundServedStep(mem0: Mem, supply0: seq<nat>, mem1: Mem, supply1: seq<nat>, mem: Mem, supply: seq<nat>,
                        t: nat, lvl: int, base: nat, q: Request, i: nat, c: int, c': int, present: bool)
    requires Level(lvl) && Region(base, lvl) && Tree(mem1, t, lvl) && OnlyEntry(mem1, mem, t, lvl, i)
    requires RoundServed(mem0, supply0, mem1, supply1, t, lvl, base, q, i, c, present)
    requires Cuts(base, lvl, Front(q, c'), i, c) && base + i * Size(lvl) <= c
    requires c == q.begin || c == base + i * Size(lvl)
    requires Served(mem1, supply1, mem, supply, t, lvl, base, Chunk(q, c, c'), present)
    ensures RoundServed(mem0, supply0, mem, supply, t, lvl, base, q, i + 1, c', present)
  {
    hide Needed, Leveled, Cuts, Size, Region, SameTables, Tree, OnlyEntry, TablesAfter;
    ChunkNeeded(mem0, mem1, t, lvl, base, q, i, c, c');
    ChunkTables(mem0, mem1, mem, t, lvl, base, q, i, c, c');
    SameTablesNext(mem0, mem1, mem, t, lvl, i);
    if present { ChunkLeveled(mem0, mem1, mem, t, lvl, base, q, i, c, c'); }
  }

  /** If the pool is too small for a part it is too small for the whole. */
  lemma RoundFails(mem0: Mem, supply0: seq<nat>, mem1: Mem, supply1: seq<nat>, t: nat, lvl: int, base: nat,
                   q: Request, i: nat, c: int, c': int, present: bool)
    requires Level(lvl) && Region(base, lvl)
    requires RoundServed(mem0, supply0, mem1, supply1, t, lvl, base, q, i, c, present)
    requires Cuts(base, lvl, Front(q, c'), i, c) && base + i * Size(lvl) <= c && Cuts(base, lvl, q, i + 1, c')
    requires |Needed(mem1, t, lvl, base, Chunk(q, c, c'))| > |supply1|
    ensures |Needed(mem0, t, lvl, base, q)| > |supply0|
  {
    hide Needed, Leveled, Cuts, Size, Region, SameTables;
    ChunkNeeded(mem0, mem1, t, lvl, base, q, i, c, c');
    CutNeeded(mem0, t, lvl, base, q, i + 1, c');
  }
}
