/**
 From the ranges of early boot to the page allocator (src/memory.c:56-85, 148-183 and 201-222): the zone
 of one range of the memory map.
 */
module PageSetup {
  import opened RangeSeq
  import opened BootMap
  import opened BuddyBlocks
  import Buddy

  /** All bytes of page `p` are in the ranges. */
  ghost predicate WholePage(f: seq<Range>, p: int) {
    forall x :: p * PAGE_SIZE <= x < (p + 1) * PAGE_SIZE ==> Covers(f, x)
  }

  /** The free range `r` has pages, and they belong to the zone `z`. */
  predicate Gives(r: Range, z: Range) {
    FreePages(r).begin < FreePages(r).end && In(FreePages(r).begin, z)
  }

  /** A page is free as a whole exactly when a single free range has all of it. */
  lemma WholePageOfOne(f: seq<Range>, p: int) returns (i: nat)
    requires Separated(f) && WholePage(f, p)
    ensures i < |f| && f[i].begin <= p * PAGE_SIZE && (p + 1) * PAGE_SIZE <= f[i].end
  {
    assert Covers(f, p * PAGE_SIZE);
    i :| 0 <= i < |f| && In(p * PAGE_SIZE, f[i]);
    if f[i].end < (p + 1) * PAGE_SIZE {
      NotCovered(f, i, f[i].end);
    }
  }

  /** The pages that a zone gets from the free ranges are the whole pages of the zone, without page 0. */
  lemma PagesGiven(f: seq<Range>, m: seq<Range>, j: nat, p: int)
    requires Separated(f) && Separated(m) && Inside(f, m) && j < |m| && (forall i :: 0 <= i < |f| ==> f[i].begin >= 0)
    ensures (exists i :: 0 <= i < |f| && Gives(f[i], ZonePages(m[j])) && In(p, FreePages(f[i])))
       <==> In(p, ZonePages(m[j])) && p != 0 && WholePage(f, p)
  {
    hide WholePage, Gives;
    var z := ZonePages(m[j]);
    if i :| 0 <= i < |f| && Gives(f[i], z) && In(p, FreePages(f[i])) {
      GivenIsWhole(f, m, j, p, i);
    }
    if In(p, z) && p != 0 && WholePage(f, p) {
      var i := WholeIsGiven(f, m, j, p);
    }
  }

  lemma GivenIsWhole(f: seq<Range>, m: seq<Range>, j: nat, p: int, i: nat)
    requires Separated(m) && Inside(f, m) && j < |m| && i < |f| && f[i].begin >= 0
    requires Gives(f[i], ZonePages(m[j])) && In(p, FreePages(f[i]))
    ensures In(p, ZonePages(m[j])) && p != 0 && WholePage(f, p)
  {
    ZoneChecksHold(f, m, i);
    forall x | p * PAGE_SIZE <= x < (p + 1) * PAGE_SIZE ensures Covers(f, x) {
      assert In(x, f[i]);
    }
  }

  lemma WholeIsGiven(f: seq<Range>, m: seq<Range>, j: nat, p: int) returns (i: nat)
    requires Separated(f) && Separated(m) && Inside(f, m) && j < |m| && (forall i :: 0 <= i < |f| ==> f[i].begin >= 0)
    requires In(p, ZonePages(m[j])) && p != 0 && WholePage(f, p)
    ensures i < |f| && Gives(f[i], ZonePages(m[j])) && In(p, FreePages(f[i]))
  {
    hide WholePage;
    i := WholePageOfOne(f, p);
    assert InsideOne(f[i], m);
    var k :| 0 <= k < |m| && m[k].begin <= f[i].begin && f[i].end <= m[k].end;
    assert k == j;
  }

  /** The ranges picked so far, with where they come from. */
  ghost predicate Picked(f: seq<Range>, z: Range, n: nat, ranges: seq<(nat, nat)>, from: seq<nat>) {
    && n <= |f| && |ranges| == |from|
    && (forall k :: 0 <= k < |from| ==> from[k] < n && Gives(f[from[k]], z))
    && (forall k :: 0 <= k < |from| ==>
      ranges[k].0 == FreePages(f[from[k]]).begin && ranges[k].1 == FreePages(f[from[k]]).end)
    && (forall k, l :: 0 <= k < l < |from| ==> from[k] < from[l])
    && (forall i :: 0 <= i < n && Gives(f[i], z) ==> i in from)
  }

  /** The loop of `page_alloc_setup` over the free ranges, as far as it concerns one zone. */
  method Pick(f: seq<Range>, z: Range) returns (ranges: seq<(nat, nat)>, ghost from: seq<nat>)
    requires forall i :: 0 <= i < |f| ==> f[i].begin >= 0
    ensures Picked(f, z, |f|, ranges, from)
  {
    ranges, from := [], [];
    for n := 0 to |f|
      invariant Picked(f, z, n, ranges, from)
    {
      if Gives(f[n], z) {
        ranges := ranges + [(FreePages(f[n]).begin, FreePages(f[n]).end)];
        from := from + [n];
      }
    }
  }

  /** The zone of range `j` of the memory map, with its share of the free ranges: a page of it is free
      exactly when all its bytes are, except for page 0. */
  method SetupZone(m: seq<Range>, f: seq<Range>, j: nat) returns (zone: Buddy.Zone?)
    requires Separated(m) && Separated(f) && Inside(f, m) && j < |m|
    requires (forall i :: 0 <= i < |m| ==> m[i].begin >= 0) && forall i :: 0 <= i < |f| ==> f[i].begin >= 0
    ensures zone == null <==> ZonePages(m[j]).begin >= ZonePages(m[j]).end
    ensures zone != null ==> fresh(zone) && zone.Valid() && zone.held == {}
    ensures zone != null ==>
      forall p :: Covered(zone.FreeSet(), p) <==> In(p, ZonePages(m[j])) && p != 0 && WholePage(f, p)
    ensures zone != null ==> !zone.Owns(0)
  {
    hide Buddy.Zone.Valid;
    var z := ZonePages(m[j]);
    if z.begin >= z.end {
      return null;
    }
    var ranges;
    ghost var from;
    ranges, from := Pick(f, z);
    RangesFit(f, m, j, ranges, from);
    var made := new Buddy.Zone(z.begin, z.end);
    made.FreeRanges(ranges);
    forall p ensures Buddy.InRanges(ranges, p) <==> In(p, z) && p != 0 && WholePage(f, p) {
      PagesGiven(f, m, j, p);
      PickedPages(f, z, ranges, from, p);
    }
    assert made.FreeSet() + made.held == made.FreeSet();
    zone := made;
  }

  lemma RangesFit(f: seq<Range>, m: seq<Range>, j: nat, ranges: seq<(nat, nat)>, from: seq<nat>)
    requires Separated(f) && Separated(m) && Inside(f, m) && j < |m| && (forall i :: 0 <= i < |f| ==> f[i].begin >= 0)
    requires Picked(f, ZonePages(m[j]), |f|, ranges, from)
    ensures forall k :: 0 <= k < |ranges| ==> ZonePages(m[j]).begin <= ranges[k].0 <= ranges[k].1 <= ZonePages(m[j]).end
    ensures forall k, l :: 0 <= k < l < |ranges| ==> ranges[k].1 < ranges[l].0
  {
    forall k | 0 <= k < |ranges| ensures ZonePages(m[j]).begin <= ranges[k].0 <= ranges[k].1 <= ZonePages(m[j]).end {
      ZoneChecksHold(f, m, from[k]);
    }
    forall k, l | 0 <= k < l < |ranges| ensures ranges[k].1 < ranges[l].0 {
      FreePagesApart(f, from[k], from[l]);
    }
  }

  lemma PickedPages(f: seq<Range>, z: Range, ranges: seq<(nat, nat)>, from: seq<nat>, p: int)
    requires Picked(f, z, |f|, ranges, from)
    ensures Buddy.InRanges(ranges, p) <==> exists i :: 0 <= i < |f| && Gives(f[i], z) && In(p, FreePages(f[i]))
  {
    if i :| 0 <= i < |f| && Gives(f[i], z) && In(p, FreePages(f[i])) {
      assert i in from;
      var k :| 0 <= k < |from| && from[k] == i;
      assert ranges[k].0 <= p < ranges[k].1;
    }
    if Buddy.InRanges(ranges, p) {
      var k :| 0 <= k < |ranges| && ranges[k].0 <= p < ranges[k].1;
      assert Gives(f[from[k]], z) && In(p, FreePages(f[from[k]]));
    }
  }
}
