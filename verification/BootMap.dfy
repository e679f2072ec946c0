/**
 What boot makes of the firmware memory map (src/balloc.c:190-241): first every entry goes into both
 trees, then the busy ranges leave the tree of free ranges.
 */
module BootMap {
  import opened RbShape
  import opened RbTree
  import opened RangeSeq
  import opened Balloc

  /** One entry of the Multiboot memory map; kind 1 is usable memory. */
  datatype Entry = Entry(begin: int, end: int, kind: int)

  function Area(e: Entry): Range {
    Range(e.begin, e.end)
  }

  function Areas(es: seq<Entry>): seq<Range> {
    if es == [] then [] else [Area(es[0])] + Areas(es[1..])
  }

  function Reserved(es: seq<Entry>): seq<Range> {
    if es == [] then []
    else (if es[0].kind != 1 then [Area(es[0])] else []) + Reserved(es[1..])
  }

  function AddAll(s: seq<Range>, rs: seq<Range>): seq<Range>
    decreases rs
  {
    if rs == [] then s else AddAll(Added(s, rs[0].begin, rs[0].end), rs[1..])
  }

  function RemoveAll(s: seq<Range>, rs: seq<Range>): seq<Range>
    decreases rs
  {
    if rs == [] then s else RemoveAll(Removed(s, rs[0].begin, rs[0].end), rs[1..])
  }

  function MemoryMap(es: seq<Entry>, kernel: Range): seq<Range> {
    AddAll([], Areas(es) + [kernel])
  }

  function FreeRanges(es: seq<Entry>, kernel: Range, initramfs: Range): seq<Range> {
    RemoveAll(MemoryMap(es, kernel), Reserved(es) + [initramfs, kernel])
  }

  /** Entries have a length, possibly zero, and do not wrap around. */
  ghost predicate Ordered(rs: seq<Range>) {
    forall i :: 0 <= i < |rs| ==> rs[i].begin <= rs[i].end
  }

  lemma {:induction false} AddAllSeparated(s: seq<Range>, rs: seq<Range>)
    requires Separated(s) && Ordered(rs)
    ensures Separated(AddAll(s, rs))
    decreases rs
  {
    if rs != [] {
      AddedSeparated(s, rs[0].begin, rs[0].end);
      AddAllSeparated(Added(s, rs[0].begin, rs[0].end), rs[1..]);
    }
  }

  /** The `j`-th addition brings byte `x`, unless another did before. */
  ghost predicate Brings(s: seq<Range>, rs: seq<Range>, j: nat, x: int) {
    j < |rs| && In(x, rs[j]) && !Passes(AddAll(s, rs[..j]), rs[j].begin, x)
  }

  /** Exactly the bytes that some addition brings are in the map. */
  lemma {:induction false} AddAllExact(s: seq<Range>, rs: seq<Range>, x: int)
    requires Separated(s) && Ordered(rs)
    ensures Covers(AddAll(s, rs), x) <==> Covers(s, x) || exists j :: Brings(s, rs, j, x)
    decreases rs
  {
    if rs != [] {
      var t := Added(s, rs[0].begin, rs[0].end);
      AddedSeparated(s, rs[0].begin, rs[0].end);
      AddedPoint(s, rs[0].begin, rs[0].end, x);
      AddAllExact(t, rs[1..], x);
      BringsFirst(s, rs, x);
      BringsLater(s, rs, x);
    }
  }

  lemma BringsFirst(s: seq<Range>, rs: seq<Range>, x: int)
    requires rs != []
    ensures Brings(s, rs, 0, x) <==> In(x, rs[0]) && !Passes(s, rs[0].begin, x)
  {
    assert rs[..0] == [];
  }

  lemma BringsLater(s: seq<Range>, rs: seq<Range>, x: int)
    requires rs != []
    ensures
      var t := Added(s, rs[0].begin, rs[0].end);
      (exists j :: Brings(s, rs, j, x)) <==> Brings(s, rs, 0, x) || exists j :: Brings(t, rs[1..], j, x)
  {
    hide In, Passes, Added;
    var t := Added(s, rs[0].begin, rs[0].end);
    forall j: nat ensures Brings(t, rs[1..], j, x) <==> Brings(s, rs, j + 1, x) {
      if j < |rs| - 1 { assert rs[..j + 1][1..] == rs[1..][..j]; }
    }
    if j: nat :| Brings(s, rs, j, x) && j > 0 { assert Brings(t, rs[1..], j - 1, x); }
  }

  /** Every range of the map has one of the areas inside it. */
  ghost predicate Hosts(s: seq<Range>, rs: seq<Range>) {
    forall k :: 0 <= k < |s| ==> HostsOne(s[k], rs)
  }

  ghost predicate HostsOne(r: Range, rs: seq<Range>) {
    exists i :: 0 <= i < |rs| && r.begin <= rs[i].begin && rs[i].end <= r.end
  }

  lemma HostsStep(s: seq<Range>, rs: seq<Range>, r: Range)
    requires Separated(s) && Hosts(s, rs) && r.begin <= r.end
    ensures Hosts(Added(s, r.begin, r.end), rs + [r])
  {
    var t, i := Added(s, r.begin, r.end), Below(s, r.begin);
    AddedSpliced(s, r.begin, r.end);
    forall k | 0 <= k < |s| ensures HostsOne(s[k], rs + [r]) {
      HostsMore(s[k], s[k], rs, r);
    }
    JoinedHosts(s, rs, r);
  }

  lemma HostsMore(q: Range, q': Range, rs: seq<Range>, r: Range)
    requires HostsOne(q, rs) && q'.begin <= q.begin && q.end <= q'.end
    ensures HostsOne(q', rs + [r])
  {
    var i :| 0 <= i < |rs| && q.begin <= rs[i].begin && rs[i].end <= q.end;
    assert (rs + [r])[i] == rs[i];
  }

  lemma JoinedHosts(s: seq<Range>, rs: seq<Range>, r: Range)
    requires Separated(s) && Hosts(s, rs) && r.begin <= r.end
    ensures HostsOne(Joined(s, r.begin, r.end), rs + [r])
  {
    var m, i := Joined(s, r.begin, r.end), Below(s, r.begin);
    if JoinsNext(s, r.begin, r.end) {
      if i > 0 { assert s[i - 1].end < s[i].begin; }
      HostsMore(s[i], m, rs, r);
    } else if JoinsPrev(s, r.begin) {
      HostsMore(s[i - 1], m, rs, r);
    } else {
      assert (rs + [r])[|rs|] == r;
    }
  }

  lemma {:induction false} MapHosts(rs: seq<Range>, j: nat)
    requires Ordered(rs) && j <= |rs|
    ensures Separated(AddAll([], rs[..j])) && Hosts(AddAll([], rs[..j]), rs[..j])
  {
    AddAllSeparated([], rs[..j]);
    if j > 0 {
      MapHosts(rs, j - 1);
      assert rs[..j] == rs[..j - 1] + [rs[j - 1]];
      AddAllLast([], rs[..j - 1], rs[j - 1]);
      HostsStep(AddAll([], rs[..j - 1]), rs[..j - 1], rs[j - 1]);
    }
  }

  /** No area has an earlier one inside it that ends before it does. */
  ghost predicate Plain(rs: seq<Range>) {
    forall i, j :: 0 <= i < j < |rs| ==> !(rs[j].begin <= rs[i].begin && rs[i].end < rs[j].end)
  }

  /** Then nothing is lost: the map is the union of the areas. */
  lemma PlainUnion(rs: seq<Range>, x: int)
    requires Ordered(rs) && Plain(rs)
    ensures Covers(AddAll([], rs), x) <==> Covers(rs, x)
  {
    AddAllExact([], rs, x);
    if Covers(rs, x) {
      var j :| 0 <= j < |rs| && In(x, rs[j]);
      MapHosts(rs, j);
      NothingPassed(rs, j, x);
      assert Brings([], rs, j, x);
    }
  }

  lemma NothingPassed(rs: seq<Range>, j: nat, x: int)
    requires Plain(rs) && j < |rs| && In(x, rs[j]) && Hosts(AddAll([], rs[..j]), rs[..j])
    ensures !Passes(AddAll([], rs[..j]), rs[j].begin, x)
  {
    var s := AddAll([], rs[..j]);
    forall k | 0 <= k < |s| ensures !(rs[j].begin <= s[k].begin && s[k].end <= x) {
      assert HostsOne(s[k], rs[..j]);
      var i :| 0 <= i < j && s[k].begin <= rs[..j][i].begin && rs[..j][i].end <= s[k].end;
      assert !(rs[j].begin <= rs[i].begin && rs[i].end < rs[j].end);
    }
  }

  /** Which bytes of the entries are in the map: in general, and all of them if no entry, nor the kernel, has an
      earlier entry inside it that ends before it does. */
  lemma MapExact(es: seq<Entry>, kernel: Range, x: int)
    requires Ordered(Areas(es)) && kernel.begin <= kernel.end
    ensures Covers(MemoryMap(es, kernel), x) <==> exists j :: Brings([], Areas(es) + [kernel], j, x)
    ensures Plain(Areas(es) + [kernel]) ==>
      (Covers(MemoryMap(es, kernel), x) <==> Covers(Areas(es), x) || In(x, kernel))
  {
    hide Brings, Plain;
    var rs := Areas(es) + [kernel];
    AddAllExact([], rs, x);
    assert !Covers([], x) && MemoryMap(es, kernel) == AddAll([], rs);
    if Plain(rs) {
      PlainUnion(rs, x);
      CoversConcat(Areas(es), [kernel], x);
      CoversOne(kernel, x);
    }
  }

  /** A map that loses a byte: the second entry has the first one inside it. */
  lemma MapLosesExample()
    ensures
      var es, kernel := [Entry(10, 20, 1), Entry(0, 30, 1)], Range(12, 14);
      Covers(Areas(es), 25) && !Covers(MemoryMap(es, kernel), 25)
  {
    var es, kernel := [Entry(10, 20, 1), Entry(0, 30, 1)], Range(12, 14);
    var rs := Areas(es) + [kernel];
    assert Areas(es[1..]) == [Range(0, 30)] && Areas(es) == [Range(10, 20), Range(0, 30)];
    assert In(25, Areas(es)[1]);
    assert AddAll([], rs) == AddAll([Range(10, 20)], [Range(0, 30), kernel]);
    AddAllExact([Range(10, 20)], [Range(0, 30), kernel], 25);
    forall j ensures !Brings([Range(10, 20)], [Range(0, 30), kernel], j, 25) {
      assert [Range(0, 30), kernel][..0] == [];
      assert Passes([Range(10, 20)], 0, 25) by { assert [Range(10, 20)][0].end <= 25; }
    }
  }

  /** Every range of `f` lies in one range of `m`. */
  ghost predicate Inside(f: seq<Range>, m: seq<Range>) {
    forall i :: 0 <= i < |f| ==> InsideOne(f[i], m)
  }

  ghost predicate InsideOne(r: Range, m: seq<Range>) {
    exists j :: 0 <= j < |m| && m[j].begin <= r.begin && r.end <= m[j].end
  }

  lemma {:induction false} RemovedParts(s: seq<Range>, from: int, to: int)
    ensures Inside(Removed(s, from, to), s)
  {
    if s != [] {
      RemovedParts(s[1..], from, to);
      var c, t := Cut(s[0], from, to), Removed(s[1..], from, to);
      forall i | 0 <= i < |c + t| ensures InsideOne((c + t)[i], s) {
        if i < |c| {
          assert s[0].begin <= c[i].begin && c[i].end <= s[0].end;
        } else {
          assert InsideOne(t[i - |c|], s[1..]);
          var j :| 0 <= j < |s| - 1 && s[1..][j].begin <= t[i - |c|].begin && t[i - |c|].end <= s[1..][j].end;
          assert s[1..][j] == s[j + 1];
        }
      }
    }
  }

  /** Taking more away keeps every range inside the map; so do all later allocations at boot. */
  lemma RemovedInsideMap(f: seq<Range>, m: seq<Range>, from: int, to: int)
    requires Inside(f, m)
    ensures Inside(Removed(f, from, to), m)
  {
    RemovedParts(f, from, to);
    var t := Removed(f, from, to);
    forall i | 0 <= i < |t| ensures InsideOne(t[i], m) {
      assert InsideOne(t[i], f);
      var j :| 0 <= j < |f| && f[j].begin <= t[i].begin && t[i].end <= f[j].end;
      assert InsideOne(f[j], m);
      var k :| 0 <= k < |m| && m[k].begin <= f[j].begin && f[j].end <= m[k].end;
      assert m[k].begin <= t[i].begin && t[i].end <= m[k].end;
    }
  }

  lemma {:induction false} RemoveAllKeeps(s: seq<Range>, rs: seq<Range>, m: seq<Range>)
    requires Separated(s) && Inside(s, m)
    ensures Separated(RemoveAll(s, rs)) && Inside(RemoveAll(s, rs), m)
    decreases rs
  {
    if rs != [] {
      RemovedSeparated(s, rs[0].begin, rs[0].end);
      RemovedInsideMap(s, m, rs[0].begin, rs[0].end);
      RemoveAllKeeps(Removed(s, rs[0].begin, rs[0].end), rs[1..], m);
    }
  }

  lemma {:induction false} RemoveAllExact(s: seq<Range>, rs: seq<Range>, x: int)
    ensures Covers(RemoveAll(s, rs), x) <==> Covers(s, x) && !Covers(rs, x)
    decreases rs
  {
    if rs != [] {
      RemovedExact(s, rs[0].begin, rs[0].end, x);
      RemoveAllExact(Removed(s, rs[0].begin, rs[0].end), rs[1..], x);
      assert rs == [rs[0]] + rs[1..];
      CoversConcat([rs[0]], rs[1..], x);
      CoversOne(rs[0], x);
    }
  }

  /** After boot a byte is free exactly when the map has it and neither a reserved entry, nor the
      kernel, nor the initial file system does; and every free range lies in one range of the map. */
  lemma BootIsSafe(es: seq<Entry>, kernel: Range, initramfs: Range)
    requires Ordered(Areas(es)) && kernel.begin <= kernel.end
    ensures var m, f := MemoryMap(es, kernel), FreeRanges(es, kernel, initramfs);
      && Separated(m) && Separated(f) && Inside(f, m)
      && (forall x :: Covers(f, x) <==> Covers(m, x) && !Covers(Reserved(es), x) && !In(x, initramfs) && !In(x, kernel))
      && (Plain(Areas(es) + [kernel]) ==> forall x ::
            Covers(f, x) <==> Covers(Areas(es), x) && !Covers(Reserved(es), x) && !In(x, initramfs) && !In(x, kernel))
  {
    var m, f := MemoryMap(es, kernel), FreeRanges(es, kernel, initramfs);
    AddAllSeparated([], Areas(es) + [kernel]);
    RemoveAllKeeps(m, Reserved(es) + [initramfs, kernel], m);
    forall x ensures Covers(f, x) <==> Covers(m, x) && !Covers(Reserved(es), x) && !In(x, initramfs) && !In(x, kernel) {
      RemoveAllExact(m, Reserved(es) + [initramfs, kernel], x);
      CoversConcat(Reserved(es), [initramfs, kernel], x);
      assert [initramfs, kernel] == [initramfs] + [kernel];
      CoversConcat([initramfs], [kernel], x);
      CoversOne(initramfs, x);
      CoversOne(kernel, x);
      MapExact(es, kernel, x);
    }
    if Plain(Areas(es) + [kernel]) {
      forall x ensures Covers(f, x) <==>
        Covers(Areas(es), x) && !Covers(Reserved(es), x) && !In(x, initramfs) && !In(x, kernel)
      {
        MapExact(es, kernel, x);
      }
    }
  }

  // ---- page zones (src/memory.c:56-65 and 148-163) -------------------------------------------

  const PAGE_SIZE := 4096

  function PageUp(x: int): int { (x + PAGE_SIZE - 1) / PAGE_SIZE }
  function PageDown(x: int): int { x / PAGE_SIZE }

  /** The pages of the zone that a range of the map becomes. */
  function ZonePages(m: Range): Range {
    Range(PageUp(m.begin), PageDown(m.end))
  }

  /** The pages that a free range gives to its zone; page 0 is never given. */
  function FreePages(f: Range): Range {
    Range(if PageUp(f.begin) != 0 then PageUp(f.begin) else 1, PageDown(f.end))
  }

  /** The bound checks of `__page_alloc_zone_free` cannot fail: the zone that contains the first page
      of a free range exists, is the only one, and contains all its pages. */
  lemma ZoneChecksHold(f: seq<Range>, m: seq<Range>, i: nat)
    requires Separated(m) && Inside(f, m) && i < |f|
    requires f[i].begin >= 0 && FreePages(f[i]).begin < FreePages(f[i]).end
    ensures exists j :: 0 <= j < |m| && In(FreePages(f[i]).begin, ZonePages(m[j]))
    ensures forall j :: 0 <= j < |m| && In(FreePages(f[i]).begin, ZonePages(m[j])) ==>
              ZonePages(m[j]).begin < FreePages(f[i]).end <= ZonePages(m[j]).end
  {
    var p := FreePages(f[i]);
    assert InsideOne(f[i], m);
    var k :| 0 <= k < |m| && m[k].begin <= f[i].begin && f[i].end <= m[k].end;
    assert In(p.begin, ZonePages(m[k]));
    forall j | 0 <= j < |m| && In(p.begin, ZonePages(m[j]))
      ensures ZonePages(m[j]).begin < p.end <= ZonePages(m[j]).end
    {
      assert j == k;
    }
  }

  /** Between the pages of two free ranges there is at least one page that is not free, so blocks of
      different ranges are never buddies. */
  lemma FreePagesApart(f: seq<Range>, i: nat, j: nat)
    requires Separated(f) && i < j < |f|
    ensures FreePages(f[i]).end < FreePages(f[j]).begin
  {
    assert f[i].end < f[j].begin;
  }

  // ---- the parsing loops (src/balloc.c:198-241) ----------------------------------------------

  /** Both trees are in order, share no node, and hold the ranges `r` and `q`. */
  ghost predicate Booting(pool: Pool, tree: Tree, other: Tree, r: seq<Range>, q: seq<Range>, S: set<Node>)
    reads pool, tree, other, S
  {
    && tree != other && Within(pool, tree, S) && Within(pool, other, S)
    && Nodes(tree.shape) !! Nodes(other.shape)
    && Ready(pool, tree) && Ready(pool, other) && Separated(r) && Separated(q)
    && (forall i :: 0 <= i < |Inorder(tree.shape)| ==> Inorder(tree.shape)[i] in S)
    && (forall i :: 0 <= i < |Inorder(other.shape)| ==> Inorder(other.shape)[i] in S)
    && Shows(Inorder(tree.shape), r) && Shows(Inorder(other.shape), q)
  }

  method AddTo(pool: Pool, tree: Tree, other: Tree, from: int, to: int,
               ghost r: seq<Range>, ghost q: seq<Range>, ghost S: set<Node>)
    requires Booting(pool, tree, other, r, q, S) && pool.free != [] && from <= to
    modifies pool, tree, S
    ensures Booting(pool, tree, other, Added(r, from, to), q, S)
    ensures |pool.free| + |Added(r, from, to)| == old(|pool.free|) + |r|
  {
    AddedSeparated(r, from, to);
    InorderNodes(other.shape);
    ghost var mine := Nodes(tree.shape) + (set n | n in pool.free);
    AddRange(pool, tree, from, to, Inorder(tree.shape), r, mine);
    InorderNodes(tree.shape);
  }

  method RemoveFrom(pool: Pool, tree: Tree, other: Tree, from: int, to: int,
                    ghost r: seq<Range>, ghost q: seq<Range>, ghost S: set<Node>)
    requires Booting(pool, tree, other, r, q, S) && |pool.free| >= Needed(r, from, to)
    modifies pool, tree, S
    ensures Booting(pool, tree, other, Removed(r, from, to), q, S)
    ensures |pool.free| + |Removed(r, from, to)| == old(|pool.free|) + |r|
  {
    RemovedSeparated(r, from, to);
    InorderNodes(other.shape);
    ghost var mine := Nodes(tree.shape) + (set n | n in pool.free);
    RemoveRange(pool, tree, from, to, r, mine);
    InorderNodes(tree.shape);
  }

  lemma {:induction false} AddAllLast(s: seq<Range>, rs: seq<Range>, x: Range)
    ensures AddAll(s, rs + [x]) == Added(AddAll(s, rs), x.begin, x.end)
    decreases rs
  {
    if rs == [] {
      assert rs + [x] == [x];
    } else {
      assert (rs + [x])[1..] == rs[1..] + [x];
      AddAllLast(Added(s, rs[0].begin, rs[0].end), rs[1..], x);
    }
  }

  lemma {:induction false} RemoveAllLast(s: seq<Range>, rs: seq<Range>, x: Range)
    ensures RemoveAll(s, rs + [x]) == Removed(RemoveAll(s, rs), x.begin, x.end)
    decreases rs
  {
    if rs == [] {
      assert rs + [x] == [x];
    } else {
      assert (rs + [x])[1..] == rs[1..] + [x];
      RemoveAllLast(Removed(s, rs[0].begin, rs[0].end), rs[1..], x);
    }
  }

  lemma AreasStep(es: seq<Entry>, i: nat)
    requires i < |es|
    ensures Areas(es[..i + 1]) == Areas(es[..i]) + [Area(es[i])]
    ensures Reserved(es[..i + 1]) == if es[i].kind != 1 then Reserved(es[..i]) + [Area(es[i])] else Reserved(es[..i])
  {
    AreasLast(es[..i], es[i]);
    ReservedLast(es[..i], es[i]);
    assert es[..i + 1] == es[..i] + [es[i]];
  }

  lemma {:induction false} AreasLast(es: seq<Entry>, e: Entry)
    ensures Areas(es + [e]) == Areas(es) + [Area(e)]
  {
    if es == [] {
      assert es + [e] == [e];
    } else {
      assert (es + [e])[1..] == es[1..] + [e];
      AreasLast(es[1..], e);
      Regroup([Area(es[0])], Areas(es[1..]), [Area(e)]);
    }
  }

  lemma {:induction false} ReservedLast(es: seq<Entry>, e: Entry)
    ensures Reserved(es + [e]) == Reserved(es) + if e.kind != 1 then [Area(e)] else []
  {
    if es == [] {
      assert es + [e] == [e];
    } else {
      assert (es + [e])[1..] == es[1..] + [e];
      ReservedLast(es[1..], e);
      Regroup(if es[0].kind != 1 then [Area(es[0])] else [], Reserved(es[1..]), if e.kind != 1 then [Area(e)] else []);
    }
  }

  lemma Regroup(a: seq<Range>, b: seq<Range>, c: seq<Range>)
    ensures a + (b + c) == (a + b) + c
  {
  }

  lemma {:induction false} AreasIndex(es: seq<Entry>)
    ensures |Areas(es)| == |es| && forall i :: 0 <= i < |es| ==> Areas(es)[i] == Area(es[i])
  {
    if es != [] { AreasIndex(es[1..]); }
  }

  /** A removal splits at most one range. */
  lemma {:induction false} RemovedCount(s: seq<Range>, from: int, to: int)
    requires Separated(s)
    ensures |Removed(s, from, to)| <= |s| + 1
  {
    if s != [] {
      if |Cut(s[0], from, to)| == 2 {
        RemovedUntouched(s[1..], from, to);
      } else {
        RemovedCount(s[1..], from, to);
      }
    }
  }

  // ---- how many nodes boot takes -------------------------------------------------------------

  /** With `n` nodes in all, adding the ranges to both trees one after the other never finds the pool empty. */
  ghost predicate EnoughToAdd(n: int, rs: seq<Range>) {
    forall i :: 0 <= i < |rs| ==> RoomToAdd(n, AddAll([], rs[..i]), rs[i])
  }

  ghost predicate RoomToAdd(n: int, s: seq<Range>, r: Range) {
    n - 2 * |s| > 0 && n - |s| - |Added(s, r.begin, r.end)| > 0
  }

  /** And with `m` of them in the memory map, removing the ranges from the free ranges never needs more. */
  ghost predicate EnoughToRemove(n: int, m: seq<Range>, rs: seq<Range>) {
    forall i :: 0 <= i < |rs| ==> RoomToRemove(n, m, RemoveAll(m, rs[..i]), rs[i])
  }

  ghost predicate RoomToRemove(n: int, m: seq<Range>, f: seq<Range>, r: Range) {
    n - |m| - |f| >= Needed(f, r.begin, r.end)
  }

  /** What the program demands of the number of nodes (src/balloc.c:33-34). */
  ghost predicate PoolSuffices(n: int, es: seq<Entry>, kernel: Range, initramfs: Range) {
    EnoughToAdd(n, Areas(es) + [kernel]) && EnoughToRemove(n, MemoryMap(es, kernel), Reserved(es) + [initramfs, kernel])
  }

  lemma {:induction false} AreasPrefix(es: seq<Entry>, i: nat)
    requires i <= |es|
    ensures |Areas(es)| == |es| && Areas(es)[..i] == Areas(es[..i])
  {
    AreasIndex(es);
    AreasIndex(es[..i]);
  }

  lemma {:induction false} ReservedPrefix(es: seq<Entry>, i: nat)
    requires i <= |es|
    ensures |Reserved(es[..i])| <= |Reserved(es)| && Reserved(es)[..|Reserved(es[..i])|] == Reserved(es[..i])
    ensures i < |es| && es[i].kind != 1 ==>
      |Reserved(es[..i])| < |Reserved(es)| && Reserved(es)[|Reserved(es[..i])|] == Area(es[i])
  {
    if i == 0 {
      assert es[..0] == [];
    } else {
      ReservedPrefix(es[1..], i - 1);
      assert es[..i][1..] == es[1..][..i - 1];
    }
  }

  lemma {:induction false} AddAllCount(s: seq<Range>, rs: seq<Range>)
    ensures |AddAll(s, rs)| <= |s| + |rs|
    decreases rs
  {
    if rs != [] {
      AddedSpliced(s, rs[0].begin, rs[0].end);
      AddAllCount(Added(s, rs[0].begin, rs[0].end), rs[1..]);
    }
  }

  lemma {:induction false} RemoveAllCount(s: seq<Range>, rs: seq<Range>)
    requires Separated(s)
    ensures |RemoveAll(s, rs)| <= |s| + |rs|
    decreases rs
  {
    if rs != [] {
      RemovedCount(s, rs[0].begin, rs[0].end);
      RemovedSeparated(s, rs[0].begin, rs[0].end);
      RemoveAllCount(Removed(s, rs[0].begin, rs[0].end), rs[1..]);
    }
  }

  lemma {:induction false} ReservedCount(es: seq<Entry>)
    ensures |Reserved(es)| <= |es|
  {
    if es != [] { ReservedCount(es[1..]); }
  }

  /** Three nodes for each entry and five more are always enough. */
  lemma ThreeEach(n: int, es: seq<Entry>, kernel: Range, initramfs: Range)
    requires n >= 3 * |es| + 5 && Ordered(Areas(es)) && kernel.begin <= kernel.end
    ensures PoolSuffices(n, es, kernel, initramfs)
  {
    AreasIndex(es);
    ReservedCount(es);
    var a, b, m := Areas(es) + [kernel], Reserved(es) + [initramfs, kernel], MemoryMap(es, kernel);
    forall i | 0 <= i < |a| ensures RoomToAdd(n, AddAll([], a[..i]), a[i]) {
      AddAllCount([], a[..i]);
      AddedSpliced(AddAll([], a[..i]), a[i].begin, a[i].end);
    }
    AddAllSeparated([], a);
    AddAllCount([], a);
    forall i | 0 <= i < |b| ensures RoomToRemove(n, m, RemoveAll(m, b[..i]), b[i]) {
      RemoveAllCount(m, b[..i]);
    }
  }

  /** The first loop: every entry goes into both trees. */
  method AddEntries(pool: Pool, memoryMap: Tree, freeRanges: Tree, entries: seq<Entry>, ghost kernel: Range,
                    ghost S: set<Node>)
    requires Booting(pool, memoryMap, freeRanges, [], [], S)
    requires Ordered(Areas(entries)) && EnoughToAdd(|pool.free|, Areas(entries) + [kernel])
    modifies pool, memoryMap, freeRanges, S
    ensures var m := AddAll([], Areas(entries)); Booting(pool, memoryMap, freeRanges, m, m, S)
    ensures |pool.free| + 2 * |AddAll([], Areas(entries))| == old(|pool.free|)
  {
    AreasIndex(entries);
    ghost var m, n, rs := [], |pool.free|, Areas(entries) + [kernel];
    for i := 0 to |entries|
      invariant m == AddAll([], Areas(entries[..i])) && Booting(pool, memoryMap, freeRanges, m, m, S)
      invariant |pool.free| + 2 * |m| == n
    {
      var e := entries[i];
      AreasPrefix(entries, i);
      assert rs[..i] == Areas(entries[..i]) && rs[i] == Area(e);
      assert RoomToAdd(n, m, rs[i]);
      AddTo(pool, memoryMap, freeRanges, e.begin, e.end, m, m, S);
      AddTo(pool, freeRanges, memoryMap, e.begin, e.end, m, Added(m, e.begin, e.end), S);
      AreasStep(entries, i);
      AddAllLast([], Areas(entries[..i]), Area(e));
      m := Added(m, e.begin, e.end);
    }
    assert entries[..|entries|] == entries;
  }

  /** The second loop: every reserved entry leaves the free ranges. */
  method RemoveReserved(pool: Pool, memoryMap: Tree, freeRanges: Tree, entries: seq<Entry>,
                        ghost m: seq<Range>, ghost n: int, ghost last: seq<Range>, ghost S: set<Node>)
    requires Booting(pool, memoryMap, freeRanges, m, m, S) && |pool.free| + 2 * |m| == n
    requires EnoughToRemove(n, m, Reserved(entries) + last)
    modifies pool, freeRanges, S
    ensures Booting(pool, memoryMap, freeRanges, m, RemoveAll(m, Reserved(entries)), S)
    ensures |pool.free| + |m| + |RemoveAll(m, Reserved(entries))| == n
  {
    ghost var f, rs := m, Reserved(entries) + last;
    for i := 0 to |entries|
      invariant f == RemoveAll(m, Reserved(entries[..i])) && Booting(pool, memoryMap, freeRanges, m, f, S)
      invariant |pool.free| + |m| + |f| == n
    {
      var e := entries[i];
      AreasStep(entries, i);
      if e.kind != 1 {
        ReservedPrefix(entries, i);
        ghost var k := |Reserved(entries[..i])|;
        assert rs[..k] == Reserved(entries[..i]) && rs[k] == Area(e);
        assert RoomToRemove(n, m, f, rs[k]);
        RemoveFrom(pool, freeRanges, memoryMap, e.begin, e.end, f, m, S);
        RemoveAllLast(m, Reserved(entries[..i]), Area(e));
        f := Removed(f, e.begin, e.end);
      }
    }
    assert entries[..|entries|] == entries;
  }

  /** The initial file system and the kernel leave the free ranges (src/balloc.c:238-240). */
  method RemoveLoaded(pool: Pool, memoryMap: Tree, freeRanges: Tree, kernel: Range, initramfs: Range,
                      ghost m: seq<Range>, ghost n: int, ghost done: seq<Range>, ghost S: set<Node>)
    requires Booting(pool, memoryMap, freeRanges, m, RemoveAll(m, done), S) &&
      |pool.free| + |m| + |RemoveAll(m, done)| == n
    requires EnoughToRemove(n, m, done + [initramfs, kernel])
    modifies pool, freeRanges, S
    ensures Booting(pool, memoryMap, freeRanges, m, RemoveAll(m, done + [initramfs, kernel]), S)
  {
    hide EnoughToRemove, Booting, RemoveAll, Removed, Needed;
    LoadedRoom(n, m, done, initramfs, kernel);
    BootingBoth(pool, memoryMap, freeRanges, m, RemoveAll(m, done), S);
    ghost var f := RemoveAll(m, done);
    RemoveFrom(pool, freeRanges, memoryMap, initramfs.begin, initramfs.end, f, m, S);
    f := Removed(f, initramfs.begin, initramfs.end);
    RemoveFrom(pool, freeRanges, memoryMap, kernel.begin, kernel.end, f, m, S);
    BootingBoth(pool, freeRanges, memoryMap, Removed(f, kernel.begin, kernel.end), m, S);
  }

  lemma BootingBoth(pool: Pool, a: Tree, b: Tree, r: seq<Range>, q: seq<Range>, S: set<Node>)
    requires Booting(pool, a, b, r, q, S)
    ensures Booting(pool, b, a, q, r, S)
  {
  }

  lemma LoadedRoom(n: int, m: seq<Range>, done: seq<Range>, x: Range, y: Range)
    requires EnoughToRemove(n, m, done + [x, y])
    ensures
      var f := RemoveAll(m, done);
      var f' := Removed(f, x.begin, x.end);
      && RoomToRemove(n, m, f, x) && RoomToRemove(n, m, f', y)
      && RemoveAll(m, done + [x, y]) == Removed(f', y.begin, y.end)
  {
    hide RoomToRemove, RemoveAll, Removed;
    var rs := done + [x, y];
    assert rs[..|done|] == done && rs[|done|] == x;
    assert rs[..|done| + 1] == done + [x] && rs[|done| + 1] == y;
    assert rs == (done + [x]) + [y];
    RemoveAllLast(m, done, x);
    RemoveAllLast(m, done + [x], y);
  }

  /** The kernel image goes into both trees (src/balloc.c:223-224). */
  method AddKernel(pool: Pool, memoryMap: Tree, freeRanges: Tree, kernel: Range, ghost a: seq<Range>, ghost n: int,
                   ghost S: set<Node>)
    requires Booting(pool, memoryMap, freeRanges, a, a, S) && kernel.begin <= kernel.end
    requires |pool.free| + 2 * |a| == n && RoomToAdd(n, a, kernel)
    modifies pool, memoryMap, freeRanges, S
    ensures var m := Added(a, kernel.begin, kernel.end);
      Booting(pool, memoryMap, freeRanges, m, m, S) && |pool.free| + 2 * |m| == n
  {
    ghost var m := Added(a, kernel.begin, kernel.end);
    AddTo(pool, memoryMap, freeRanges, kernel.begin, kernel.end, a, a, S);
    AddTo(pool, freeRanges, memoryMap, kernel.begin, kernel.end, a, m, S);
  }

  /** `balloc_parse_mmap` on empty trees, with as many nodes in the pool as the program demands. */
  method ParseMmap(pool: Pool, memoryMap: Tree, freeRanges: Tree, entries: seq<Entry>, kernel: Range, initramfs: Range,
                   ghost S: set<Node>)
    requires Booting(pool, memoryMap, freeRanges, [], [], S)
    requires Ordered(Areas(entries)) && kernel.begin <= kernel.end
    requires PoolSuffices(|pool.free|, entries, kernel, initramfs)
    modifies pool, memoryMap, freeRanges, S
    ensures Booting(pool, memoryMap, freeRanges, MemoryMap(entries, kernel), FreeRanges(entries, kernel, initramfs), S)
  {
    ghost var n, a, rs := |pool.free|, AddAll([], Areas(entries)), Areas(entries) + [kernel];
    AddEntries(pool, memoryMap, freeRanges, entries, kernel, S);
    AddAllLast([], Areas(entries), kernel);
    assert rs[..|Areas(entries)|] == Areas(entries) && rs[|Areas(entries)|] == kernel;
    assert RoomToAdd(n, a, kernel);
    AddKernel(pool, memoryMap, freeRanges, kernel, a, n, S);
    ghost var m := MemoryMap(entries, kernel);
    RemoveReserved(pool, memoryMap, freeRanges, entries, m, n, [initramfs, kernel], S);
    RemoveLoaded(pool, memoryMap, freeRanges, kernel, initramfs, m, n, Reserved(entries), S);
  }
}
