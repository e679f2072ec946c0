/**
 The ranges of the kmap window (src/paging.c:216-319): a boundary-tag allocator.  Every page of the
 window has a descriptor with a length tag and a list link, and only the descriptors at the two ends
 of a range mean anything; the rest hold whatever earlier ranges left there.
 */
module KmapRanges {
  import opened Collections
  import opened BuddyBlocks

  const ORDERS: nat := 16

  /** A range of the window. */
  datatype Tile = Tile(len: nat, free: bool)

  /** The list link of a descriptor: pointing to itself, on a free list, or cleared by `list_del`. */
  datatype Link = Self | Listed | Cleared

  type Tiles = map<nat, Tile>

  // ---- tilings -------------------------------------------------------------------------------

  /** Where the range after `h` starts. */
  ghost function Next(t: Tiles, h: nat): nat
    requires h in t
  {
    h + t[h].len
  }

  /** The ranges, by their first page, tile the pages 0 up to `n`. */
  ghost predicate Tiling(t: Tiles, n: nat) {
    && 0 in t
    && (forall h :: h in t ==> t[h].len > 0 && h + t[h].len <= n)
    && (forall h {:trigger Next(t, h)} :: h in t && Next(t, h) < n ==> Next(t, h) in t)
    && (forall h, k :: h in t && k in t && h < k ==> h + t[h].len <= k)
  }

  /** No two neighbours are free. */
  ghost predicate Merged(t: Tiles) {
    forall h {:trigger Next(t, h)} :: h in t && t[h].free && Next(t, h) in t ==> !t[Next(t, h)].free
  }

  /** The ranges handed out: first page and length. */
  ghost function Live(t: Tiles): map<nat, nat> {
    map h | h in t && !t[h].free :: t[h].len
  }

  ghost predicate Holds(t: Tiles, h: nat, page: nat) {
    h in t && h <= page < h + t[h].len
  }

  /** Every page of the window lies in exactly one range. */
  lemma TileOfPage(t: Tiles, n: nat, page: nat) returns (h: nat)
    requires Tiling(t, n) && page < n
    ensures Holds(t, h, page)
    ensures forall k :: Holds(t, k, page) ==> k == h
  {
    h := TileFrom(t, n, page, 0);
  }

  lemma {:induction false} TileFrom(t: Tiles, n: nat, page: nat, from: nat) returns (h: nat)
    requires Tiling(t, n) && from <= page < n && from in t
    ensures Holds(t, h, page)
    decreases page - from
  {
    if page < Next(t, from) {
      h := from;
    } else {
      h := TileFrom(t, n, page, Next(t, from));
    }
  }

  /** Every range but the first follows another one. */
  lemma Neighbour(t: Tiles, n: nat, h: nat) returns (p: nat)
    requires Tiling(t, n) && h in t && h > 0
    ensures p in t && p < Next(t, p) == h
  {
    p := TileFrom(t, n, h - 1, 0);
    assert Next(t, p) <= h;
  }

  /** A range starts at the beginning of the window, or where a handed-out range starts or ends. */
  lemma HeadsFromLive(t: Tiles, n: nat, h: nat)
    requires Tiling(t, n) && Merged(t) && h < n
    ensures h in t <==> h == 0 || h in Live(t) || (exists p :: p in Live(t) && p + Live(t)[p] == h)
  {
    forall p | p in Live(t) && p + Live(t)[p] == h ensures h in t {
      assert Next(t, p) == h;
    }
    if h in t && h > 0 && h !in Live(t) {
      var p := Neighbour(t, n, h);
      assert p in Live(t) && p + Live(t)[p] == h;
    }
  }

  /** What is handed out determines all the ranges: free space is merged as far as it can be. */
  lemma LiveDeterminesTiles(s: Tiles, t: Tiles, n: nat)
    requires Tiling(s, n) && Tiling(t, n) && Merged(s) && Merged(t) && Live(s) == Live(t)
    ensures s == t
  {
    forall h: nat ensures h in s <==> h in t {
      if h < n {
        HeadsFromLive(s, n, h);
        HeadsFromLive(t, n, h);
      }
    }
    forall h | h in s ensures s[h] == t[h] {
      SameLength(s, t, n, h);
      SameLength(t, s, n, h);
      assert s[h].free <==> h !in Live(s);
      assert t[h].free <==> h !in Live(t);
    }
  }

  /** With nothing handed out the window is one free range again. */
  lemma AllReturned(t: Tiles, n: nat)
    requires Tiling(t, n) && Merged(t) && Live(t) == map[] && n > 0
    ensures t == map[0 := Tile(n, true)]
  {
    LiveDeterminesTiles(t, map[0 := Tile(n, true)], n);
  }

  lemma SameLength(s: Tiles, t: Tiles, n: nat, h: nat)
    requires Tiling(s, n) && Tiling(t, n) && h in s && s.Keys == t.Keys
    ensures s[h].len >= t[h].len
  {
    assert h in t.Keys;
    assert Next(s, h) < n ==> Next(s, h) in t.Keys;
  }

  // ---- size classes --------------------------------------------------------------------------

  /** Free ranges of `len` pages are on list `k`: k is min(floor(log2 len), 15). */
  predicate InBin(len: nat, k: nat) {
    k < ORDERS && Size(k) <= len && (k + 1 < ORDERS ==> len < Size(k + 1))
  }

  lemma {:induction false} SizeMonotone(j: nat, k: nat)
    requires j <= k
    ensures Size(j) <= Size(k)
  {
    if j < k { SizeMonotone(j, k - 1); }
  }

  lemma Limit()
    ensures Size(ORDERS) == 65536
  {
    assert Size(8) == 256;
  }

  lemma BinUnique(len: nat, j: nat, k: nat)
    requires InBin(len, j) && InBin(len, k)
    ensures j == k
  {
    if j < k { SizeMonotone(j + 1, k); }
    if k < j { SizeMonotone(k + 1, j); }
  }

  /** The order of the first power of two from 2^k on that is not less than `pages`. */
  function RoundedUp(pages: nat, k: nat): nat
    decreases ORDERS - k
  {
    if k >= ORDERS || pages <= Size(k) then k else RoundedUp(pages, k + 1)
  }

  /** `kmap_order` (src/paging.c:243-250): the smallest order that has room, or 16. */
  method KmapOrder(pages: nat) returns (order: nat)
    ensures order <= ORDERS && order == RoundedUp(pages, 0)
    ensures order < ORDERS ==> pages <= Size(order)
    ensures order > 0 ==> Size(order - 1) < pages
  {
    order := 0;
    while Size(order) < pages && order != ORDERS
      invariant order <= ORDERS && RoundedUp(pages, order) == RoundedUp(pages, 0)
      invariant order > 0 ==> Size(order - 1) < pages
    {
      order := order + 1;
    }
  }

  /** Where the search for `pages` pages has to look. */
  lemma SearchedBins(pages: nat, start: nat, len: nat, k: nat)
    requires start <= ORDERS && (start < ORDERS ==> pages <= Size(start)) && (start > 0 ==> Size(start - 1) < pages)
    requires 1 <= pages <= len && InBin(len, k) && pages < Size(ORDERS)
    ensures k >= start || (Size(start) > pages && start > 0 && k == start - 1)
  {
    if k < start {
      if k + 1 < start { SizeMonotone(k + 1, start - 1); }
    }
  }

  // ---- lists ---------------------------------------------------------------------------------

  /** The free lists show exactly the free ranges. */
  ghost predicate Binned(lists: seq<seq<nat>>, t: Tiles) {
    && |lists| == ORDERS
    && (forall k: nat :: k < ORDERS ==> NoDup(lists[k]))
    && (forall k: nat, h :: k < ORDERS ==> (h in lists[k] <==> h in t && t[h].free && InBin(t[h].len, k)))
  }

  function Unlisted(lists: seq<seq<nat>>, x: nat): seq<seq<nat>> {
    seq(|lists|, k requires 0 <= k < |lists| => Without(lists[k], x))
  }

  lemma UnlistedBinned(lists: seq<seq<nat>>, t: Tiles, x: nat, t': Tiles)
    requires Binned(lists, t)
    requires forall h: nat :: (h in t' && t'[h].free) <==> (h in t && t[h].free && h != x)
    requires forall h: nat :: h in t' && t'[h].free ==> t'[h].len == t[h].len
    ensures Binned(Unlisted(lists, x), t')
  {
    forall k: nat | k < ORDERS
      ensures NoDup(Unlisted(lists, x)[k])
      ensures forall h :: h in Unlisted(lists, x)[k] <==> h in t' && t'[h].free && InBin(t'[h].len, k)
    {
      WithoutMembers(lists[k], x);
    }
  }

  lemma ListedBinned(lists: seq<seq<nat>>, t: Tiles, x: nat, t': Tiles, b: nat)
    requires Binned(lists, t) && (x !in t || !t[x].free) && x in t' && t'[x].free && InBin(t'[x].len, b)
    requires forall h: nat :: h != x ==> (h in t <==> h in t') && (h in t ==> t'[h] == t[h])
    ensures Binned(lists[b := [x] + lists[b]], t')
  {
    PushedMembers(lists[b], x);
    var lists' := lists[b := [x] + lists[b]];
    forall k: nat, h: nat | k < ORDERS
      ensures h in lists'[k] <==> h in t' && t'[h].free && InBin(t'[h].len, k)
    {
      if h == x && InBin(t'[x].len, k) { BinUnique(t'[x].len, b, k); }
    }
  }

  // ---- steps on tilings ----------------------------------------------------------------------

  /** Range `h` and the one after it become one, which counts as handed out. */
  ghost function Joined(t: Tiles, h: nat): Tiles
    requires h in t && Next(t, h) in t
  {
    map k | k in t && k != Next(t, h) :: if k == h then Tile(t[h].len + t[Next(t, h)].len, false) else t[k]
  }

  /** The range before `h`, if any, is not free. */
  ghost predicate LeftBusy(t: Tiles, h: nat) {
    forall p {:trigger Next(t, p)} :: p in t && Next(t, p) == h ==> !t[p].free
  }

  /** The range after `h`, if any, is not free. */
  ghost predicate RightBusy(t: Tiles, h: nat)
    requires h in t
  {
    Next(t, h) in t ==> !t[Next(t, h)].free
  }

  lemma JoinedTiling(t: Tiles, n: nat, h: nat)
    requires Tiling(t, n) && h in t && Next(t, h) in t && Merged(t)
    ensures Tiling(Joined(t, h), n) && Merged(Joined(t, h))
    ensures LeftBusy(t, h) || t[h].free ==> LeftBusy(Joined(t, h), h)
    ensures t[Next(t, h)].free ==> RightBusy(Joined(t, h), h)
  {
    hide Tiling, Merged, LeftBusy, RightBusy;
    JoinedTiles(t, n, h);
    JoinedMerged(t, n, h);
    JoinedSides(t, n, h);
  }

  lemma JoinedTiles(t: Tiles, n: nat, h: nat)
    requires Tiling(t, n) && h in t && Next(t, h) in t
    ensures Tiling(Joined(t, h), n)
  {
    var t', e := Joined(t, h), Next(t, h);
    assert Next(t', h) == Next(t, e);
    forall k | k in t' && Next(t', k) < n ensures Next(t', k) in t' {
      assert Next(t', k) == Next(t, if k == h then e else k);
    }
  }

  lemma JoinedMerged(t: Tiles, n: nat, h: nat)
    requires Tiling(t, n) && h in t && Next(t, h) in t && Merged(t)
    ensures Merged(Joined(t, h))
  {
    var t' := Joined(t, h);
    forall k | k in t' && t'[k].free && Next(t', k) in t' ensures !t'[Next(t', k)].free {
      assert t'[k] == t[k] && Next(t', k) == Next(t, k);
    }
  }

  lemma JoinedSides(t: Tiles, n: nat, h: nat)
    requires Tiling(t, n) && h in t && Next(t, h) in t && Merged(t)
    ensures LeftBusy(t, h) || t[h].free ==> LeftBusy(Joined(t, h), h)
    ensures t[Next(t, h)].free ==> RightBusy(Joined(t, h), h)
  {
    var t' := Joined(t, h);
    assert Next(t', h) == Next(t, Next(t, h));
    forall p | p in t' && Next(t', p) == h && t'[p].free ensures !LeftBusy(t, h) && !t[h].free {
      assert t'[p] == t[p] && Next(t, p) == h;
    }
  }

  /** A free range joins a handed-out neighbour: `x`, the free one, leaves its list. */
  lemma Absorbed(lists: seq<seq<nat>>, t: Tiles, n: nat, h: nat, x: nat, busy: nat)
    requires Tiling(t, n) && h in t && Next(t, h) in t && Merged(t) && Binned(lists, t)
    requires {x, busy} == {h, Next(t, h)} && t[x].free && !t[busy].free
    ensures Binned(Unlisted(lists, x), Joined(t, h))
    ensures Live(Joined(t, h)) - {h} == Live(t) - {busy}
  {
    hide Tiling, Merged;
    UnlistedBinned(lists, t, x, Joined(t, h));
  }

  /** Ranges do not share their ends. */
  lemma EndsApart(t: Tiles, n: nat, h: nat, k: nat)
    requires Tiling(t, n) && h in t && k in t && h != k
    ensures k + t[k].len <= h || h + t[h].len <= k
  {
  }

  lemma SettledTiling(t: Tiles, n: nat, h: nat, t': Tiles)
    requires Tiling(t, n) && Merged(t) && h in t && LeftBusy(t, h) && RightBusy(t, h)
    requires t' == t[h := Tile(t[h].len, true)]
    ensures Tiling(t', n) && Merged(t')
  {
    forall k | k in t' && Next(t', k) < n ensures Next(t', k) in t' {
      assert Next(t', k) == Next(t, k);
    }
    forall k | k in t' && t'[k].free && Next(t', k) in t' ensures !t'[Next(t', k)].free {
      assert Next(t', k) == Next(t, k) != k;
    }
  }

  lemma Settled(lists: seq<seq<nat>>, t: Tiles, n: nat, h: nat, b: nat, t': Tiles)
    requires Tiling(t, n) && Merged(t) && Binned(lists, t) && h in t && !t[h].free && LeftBusy(t, h) && RightBusy(t, h)
    requires InBin(t[h].len, b) && t' == t[h := Tile(t[h].len, true)]
    ensures Tiling(t', n) && Merged(t')
    ensures Binned(lists[b := [h] + lists[b]], t')
    ensures Live(t') == Live(t) - {h}
  {
    hide Tiling, Merged, LeftBusy, RightBusy, InBin, NoDup, Live;
    SettledTiling(t, n, h, t');
    ListedBinned(lists, t, h, t', b);
    SettledLive(t, h, t');
  }

  lemma SettledLive(t: Tiles, h: nat, t': Tiles)
    requires h in t && !t[h].free && t' == t[h := Tile(t[h].len, true)]
    ensures Live(t') == Live(t) - {h}
  {
  }

  /** A range is cut after `pages` and both parts are handed out. */
  ghost function CutAt(t: Tiles, h: nat, pages: nat): Tiles
    requires h in t
  {
    if pages < t[h].len
    then t[h := Tile(pages, false)][h + pages := Tile(t[h].len - pages, false)]
    else t[h := Tile(t[h].len, false)]
  }

  lemma CutTiling(t: Tiles, n: nat, h: nat, pages: nat)
    requires Tiling(t, n) && h in t && 1 <= pages < t[h].len
    ensures Tiling(CutAt(t, h, pages), n)
    ensures h + pages !in t
  {
    hide CutAt;
    var t' := CutAt(t, h, pages);
    CutKeys(t, n, h, pages);
    forall k | k in t' && Next(t', k) < n ensures Next(t', k) in t' { CutNext(t, n, h, pages, k); }
    forall j, k | j in t' && k in t' && j < k ensures j + t'[j].len <= k { CutPair(t, n, h, pages, j, k); }
  }

  lemma CutKeys(t: Tiles, n: nat, h: nat, pages: nat)
    requires Tiling(t, n) && h in t && 1 <= pages < t[h].len
    ensures var t' := CutAt(t, h, pages); 0 in t' && forall k :: k in t' ==> t'[k].len > 0 && k + t'[k].len <= n
    ensures h + pages !in t
  {
  }

  lemma CutNext(t: Tiles, n: nat, h: nat, pages: nat, k: nat)
    requires Tiling(t, n) && h in t && 1 <= pages < t[h].len
    requires var t' := CutAt(t, h, pages); k in t' && Next(t', k) < n
    ensures var t' := CutAt(t, h, pages); Next(t', k) in t'
  {
    var t' := CutAt(t, h, pages);
    if k != h { assert Next(t', k) == Next(t, if k == h + pages then h else k); }
  }

  lemma CutPair(t: Tiles, n: nat, h: nat, pages: nat, j: nat, k: nat)
    requires Tiling(t, n) && h in t && 1 <= pages < t[h].len
    requires var t' := CutAt(t, h, pages); j in t' && k in t' && j < k
    ensures var t' := CutAt(t, h, pages); j + t'[j].len <= k
  {
    assert j == h + pages || j in t;
    assert k == h + pages || k in t;
  }

  lemma CutMerged(t: Tiles, n: nat, h: nat, pages: nat)
    requires h in t && Tiling(t, n) && Tiling(CutAt(t, h, pages), n) && 1 <= pages <= t[h].len && Merged(t)
    ensures Merged(CutAt(t, h, pages))
  {
    var t' := CutAt(t, h, pages);
    forall k | k in t' && t'[k].free && Next(t', k) in t' ensures !t'[Next(t', k)].free {
      assert t'[k] == t[k] && Next(t', k) == Next(t, k);
    }
  }

  /** The free range `h` is taken off its list and cut. */
  lemma Taken(lists: seq<seq<nat>>, t: Tiles, n: nat, h: nat, pages: nat, t': Tiles)
    requires Tiling(t, n) && Merged(t) && Binned(lists, t) && h in t && t[h].free && 1 <= pages <= t[h].len
    requires t' == CutAt(t, h, pages)
    ensures Tiling(t', n) && Merged(t')
    ensures Binned(Unlisted(lists, h), t')
    ensures pages < t[h].len ==> h + pages !in t
  {
    if pages < t[h].len { CutTiling(t, n, h, pages); } else { TakenWhole(t, n, h); }
    CutMerged(t, n, h, pages);
    hide Tiling, Merged;
    UnlistedBinned(lists, t, h, t');
  }

  lemma TakenLive(t: Tiles, h: nat, pages: nat, t': Tiles)
    requires h in t && t[h].free && 1 <= pages <= t[h].len && t' == CutAt(t, h, pages)
    requires pages < t[h].len ==> h + pages !in t
    ensures pages < t[h].len ==> Live(t') - {h + pages} == Live(t)[h := pages]
    ensures pages == t[h].len ==> Live(t') == Live(t)[h := pages]
  {
  }

  lemma TakenWhole(t: Tiles, n: nat, h: nat)
    requires Tiling(t, n) && h in t
    ensures Tiling(CutAt(t, h, t[h].len), n)
  {
    var t' := CutAt(t, h, t[h].len);
    forall k | k in t' ensures Next(t', k) == Next(t, k) {
    }
  }

  /** With every list from the right one upwards searched in vain, no free range is long enough. */
  lemma NothingFits(lists: seq<seq<nat>>, t: Tiles, n: nat, pages: nat, start: nat)
    requires Tiling(t, n) && Binned(lists, t) && 1 <= pages < Size(ORDERS)
    requires start <= ORDERS && (start < ORDERS ==> pages <= Size(start)) && (start > 0 ==> Size(start - 1) < pages)
    requires forall k: nat, h :: start <= k < ORDERS && h in lists[k] ==> h in t && t[h].len < pages
    requires start > 0 && Size(start) > pages ==> forall h :: h in lists[start - 1] ==> h in t && t[h].len < pages
    ensures forall h :: h in t && t[h].free ==> t[h].len < pages
  {
    forall h | h in t && t[h].free ensures t[h].len < pages {
      var k := BinOf(t[h].len);
      assert h in lists[k];
      if t[h].len >= pages { SearchedBins(pages, start, t[h].len, k); }
    }
  }

  lemma BinOf(len: nat) returns (k: nat)
    requires len > 0
    ensures InBin(len, k)
  {
    k := 0;
    while k + 1 < ORDERS && Size(k + 1) <= len
      invariant k < ORDERS && Size(k) <= len
    {
      k := k + 1;
    }
  }

  lemma InWindow(t: Tiles, n: nat, h: nat)
    requires Tiling(t, n) && h in t
    ensures t[h].len > 0 && h + t[h].len <= n
  {
  }

  /** The range `h` is a good choice for `pages`: of all free ranges with room for the next power of two it is of the
      lowest order there is, and it has less room only if there are none. */
  ghost predicate WellChosen(t: Tiles, h: nat, pages: nat) {
    var start := RoundedUp(pages, 0);
    start < ORDERS ==>
      forall k :: h in t && k in t && t[k].free && t[k].len >= Size(start) ==>
        t[h].len >= Size(start) && NoHigher(t[h].len, t[k].len)
  }

  predicate NoHigher(len: nat, len': nat) {
    forall b, j :: 0 <= b < ORDERS && 0 <= j < ORDERS && InBin(len, b) && InBin(len', j) ==> b <= j
  }

  lemma ChosenAbove(lists: seq<seq<nat>>, t: Tiles, h: nat, pages: nat, start: nat, b: nat)
    requires Binned(lists, t) && start == RoundedUp(pages, 0) && start <= b < ORDERS && h in lists[b]
    requires pages <= Size(start)
    requires forall k: nat, x :: start <= k < b && x in lists[k] ==> x in t && t[x].len < pages
    ensures WellChosen(t, h, pages)
  {
    hide InBin;
    SizeMonotone(start, b);
    forall k | k in t && t[k].free && t[k].len >= Size(start)
      ensures t[h].len >= Size(start) && NoHigher(t[h].len, t[k].len)
    {
      InBinAtLeast(t[h].len, b);
      forall b', j | 0 <= b' < ORDERS && 0 <= j < ORDERS && InBin(t[h].len, b') && InBin(t[k].len, j) ensures b' <= j {
        assert k in lists[j];
        BinUnique(t[h].len, b, b');
        LongEnough(t[k].len, j, start);
      }
    }
  }

  lemma InBinAtLeast(len: nat, b: nat)
    requires InBin(len, b)
    ensures len >= Size(b)
  {
  }

  lemma LongEnough(len: nat, j: nat, start: nat)
    requires InBin(len, j) && start < ORDERS && len >= Size(start)
    ensures j >= start
  {
    if j < start { SizeMonotone(j + 1, start); }
  }

  lemma ChosenBelow(lists: seq<seq<nat>>, t: Tiles, n: nat, h: nat, pages: nat, start: nat)
    requires Tiling(t, n) && Binned(lists, t) && start == RoundedUp(pages, 0)
    requires start < ORDERS ==> pages <= Size(start)
    requires forall k: nat, x :: start <= k < ORDERS && x in lists[k] ==> x in t && t[x].len < pages
    ensures WellChosen(t, h, pages)
  {
    forall k | k in t && t[k].free && start < ORDERS ensures t[k].len < Size(start) {
      var j := BinOf(t[k].len);
      assert k in lists[j];
      if t[k].len >= Size(start) { LongEnough(t[k].len, j, start); }
    }
  }

  lemma StartFits(start: nat, pages: nat)
    requires pages > 0
    ensures start < ORDERS && pages <= Size(start) ==> pages < Size(ORDERS)
    ensures Size(start) > pages ==> start > 0
  {
    if start < ORDERS { SizeMonotone(start, ORDERS - 1); }
  }

  lemma TilesApart(t: Tiles, n: nat, h: nat)
    requires Tiling(t, n) && h in t
    ensures forall k :: k in t && k != h ==> k + t[k].len <= h || h + t[h].len <= k
  {
    forall k | k in t && k != h ensures k + t[k].len <= h || h + t[h].len <= k {
      EndsApart(t, n, h, k);
    }
  }

  lemma NextInside(t: Tiles, n: nat, h: nat)
    requires Tiling(t, n) && h in t
    ensures h < Next(t, h)
    ensures Next(t, h) in t <==> Next(t, h) < n
  {
  }

  lemma BusyLeft(t: Tiles, n: nat, p: nat)
    requires Tiling(t, n) && p in t && !t[p].free
    ensures LeftBusy(t, Next(t, p))
  {
    forall k | k in t && Next(t, k) == Next(t, p) ensures k == p {
      if k != p { EndsApart(t, n, k, p); }
    }
  }

  lemma FirstLeft(t: Tiles, n: nat)
    requires Tiling(t, n)
    ensures LeftBusy(t, 0)
  {
  }

  // ---- the allocator -------------------------------------------------------------------------

  class Ranges {
    var tag: array<nat>
    var link: array<Link>
    var lists: seq<seq<nat>>
    ghost var tiles: Tiles

    /** The descriptors at both ends of a range say what it is. */
    ghost predicate Shown(h: nat, r: Tile)
      reads this, tag, link
    {
      && 0 < r.len <= tag.Length - h && tag.Length == link.Length
      && tag[h] == tag[h + r.len - 1] == r.len
      && link[h] == if r.free then Listed else Self
    }

    /** The descriptors at both ends of every range but `hole` say what the range is. */
    ghost predicate Tagged(hole: int)
      reads this, tag, link
    {
      && tag.Length == link.Length
      && (forall h: nat :: h in tiles && h != hole ==> Shown(h, tiles[h]))
    }

    /** Like `Valid`, but the descriptors of the handed-out range `hole` may say anything. */
    ghost predicate ValidBut(hole: int)
      reads this, tag, link
    {
      && Tagged(hole)
      && Tiling(tiles, tag.Length) && Merged(tiles) && Binned(lists, tiles)
      && (hole in tiles ==> !tiles[hole].free)
    }

    ghost predicate Valid()
      reads this, tag, link
    {
      ValidBut(-1)
    }

    /** `kmap_setup` (src/paging.c:425-431): the descriptors come uninitialised. */
    constructor (tags: array<nat>, links: array<Link>)
      requires tags.Length == links.Length > 0
      ensures tag == tags && link == links
      ensures ValidBut(0) && tiles == map[0 := Tile(tags.Length, false)]
    {
      tag, link := tags, links;
      lists := seq(ORDERS, _ => []);
      tiles := map[0 := Tile(tags.Length, false)];
    }

    /** `kmap_find_free` (src/paging.c:252-265): the first range of the list that is long enough. */
    method FindFree(order: nat, pages: nat) returns (r: Option<nat>)
      requires Valid() && order < ORDERS
      ensures r.Some? ==> r.value in tiles && tiles[r.value].free && tiles[r.value].len >= pages
      ensures r.Some? ==> r.value in lists[order]
      ensures r.None? ==> forall h :: h in lists[order] ==> h in tiles && tiles[h].len < pages
    {
      hide Tiling, Merged, InBin;
      var s := lists[order];
      for i := 0 to |s|
        invariant forall j :: 0 <= j < i ==> s[j] in tiles && tiles[s[j]].len < pages
      {
        assert s[i] in lists[order];
        if tag[s[i]] >= pages {
          return Some(s[i]);
        }
      }
      return None;
    }

    /** The first half of `kmap_free_range` (src/paging.c:269-277): a free range before `range` joins it. */
    method AbsorbPrev(range: nat, pages: nat) returns (range': nat, pages': nat)
      requires ValidBut(range) && range in tiles && tiles[range] == Tile(pages, false)
      modifies this`lists, this`tiles, link
      ensures ValidBut(range') && range' in tiles && tiles[range'] == Tile(pages', false)
      ensures LeftBusy(tiles, range')
      ensures Live(tiles) - {range'} == old(Live(tiles)) - {range}
    {
      hide Tiling, Merged, Binned, LeftBusy, Live, Unlisted;
      range', pages' := range, pages;
      if range > 0 {
        ghost var p := Neighbour(tiles, tag.Length, range);
        assert Shown(p, tiles[p]);
        var prev := range - tag[range - 1];
        if link[prev] != Self {
          JoinedTiling(tiles, tag.Length, p);
          Absorbed(lists, tiles, tag.Length, p, p, range);
          lists := Unlisted(lists, prev);
          link[prev] := Cleared;
          pages' := pages + tag[prev];
          range' := prev;
          tiles := Joined(tiles, p);
        } else {
          BusyLeft(tiles, tag.Length, p);
        }
      } else {
        FirstLeft(tiles, tag.Length);
      }
    }

    /** The second half (src/paging.c:279-286): a free range after it joins it too. */
    method AbsorbNext(range: nat, pages: nat) returns (pages': nat)
      requires ValidBut(range) && range in tiles && tiles[range] == Tile(pages, false) && LeftBusy(tiles, range)
      modifies this`lists, this`tiles, link
      ensures ValidBut(range) && range in tiles && tiles[range] == Tile(pages', false)
      ensures LeftBusy(tiles, range) && RightBusy(tiles, range)
      ensures Live(tiles) - {range} == old(Live(tiles)) - {range}
    {
      hide Tiling, Merged, Binned, LeftBusy, Live, Unlisted;
      pages' := pages;
      NextInside(tiles, tag.Length, range);
      if range + pages < tag.Length {
        var next := range + pages;
        assert Shown(next, tiles[next]);
        if link[next] != Self {
          JoinedTiling(tiles, tag.Length, range);
          Absorbed(lists, tiles, tag.Length, range, next, range);
          lists := Unlisted(lists, next);
          link[next] := Cleared;
          pages' := pages + tag[next];
          tiles := Joined(tiles, range);
        }
      }
    }

    /** The end of `kmap_free_range` (src/paging.c:288-289). */
    method Settle(range: nat, pages: nat)
      requires ValidBut(range) && range in tiles && tiles[range] == Tile(pages, false)
      requires LeftBusy(tiles, range) && RightBusy(tiles, range)
      modifies this`lists, this`tiles, tag, link
      ensures Valid() && Live(tiles) == old(Live(tiles)) - {range}
    {
      hide Tiling, Merged, LeftBusy, RightBusy, Live;
      InWindow(tiles, tag.Length, range);
      var order := KmapOrder(pages + 1);
      ghost var t' := tiles[range := Tile(pages, true)];
      Settled(lists, tiles, tag.Length, range, order - 1, t');
      WriteTags(range, pages);
      link[range] := Listed;
      lists := lists[order - 1 := [range] + lists[order - 1]];
      tiles := t';
    }

    /** Both ends of a range get its length (src/paging.c:288 and 314). */
    method WriteTags(range: nat, pages: nat)
      requires Tiling(tiles, tag.Length) && range in tiles && tiles[range].len == pages && Tagged(range)
      modifies tag
      ensures Tagged(range) && range + pages <= tag.Length && tag[range] == tag[range + pages - 1] == pages
    {
      forall k | k in tiles && k != range ensures k + tiles[k].len <= range || range + pages <= k {
        EndsApart(tiles, tag.Length, range, k);
      }
      tag[range] := pages;
      tag[range + pages - 1] := pages;
    }

    /** `kmap_free_range` (src/paging.c:267-290): exactly this range is no longer handed out. */
    method FreeRange(range: nat, pages: nat)
      requires ValidBut(range) && range in tiles && tiles[range] == Tile(pages, false)
      modifies this`lists, this`tiles, tag, link
      ensures Valid() && Live(tiles) == old(Live(tiles)) - {range}
    {
      hide *;
      var r, n := AbsorbPrev(range, pages);
      n := AbsorbNext(r, n);
      Settle(r, n);
    }

    /** The search of `kmap_alloc_range` (src/paging.c:294-305). */
    method Search(pages: nat) returns (r: Option<nat>)
      requires Valid() && pages > 0
      ensures r.Some? ==> r.value in tiles && tiles[r.value].free && tiles[r.value].len >= pages
      ensures r.Some? ==> pages < Size(ORDERS) && WellChosen(tiles, r.value, pages)
      ensures r.None? ==> pages >= Size(ORDERS) || forall h :: h in tiles && tiles[h].free ==> tiles[h].len < pages
    {
      hide Tiling, Merged, Binned, Size;
      var start := KmapOrder(pages);
      StartFits(start, pages);
      ghost var b;
      r, b := SearchUp(start, pages);
      if r.Some? { ChosenAbove(lists, tiles, r.value, pages, start, b); }
      if r.None? && Size(start) > pages {
        r := FindFree(start - 1, pages);
        if r.Some? { ChosenBelow(lists, tiles, tag.Length, r.value, pages, start); }
      }
      if r.None? && pages < Size(ORDERS) { NothingFits(lists, tiles, tag.Length, pages, start); }
    }

    /** The loop over the lists from the right one upwards (src/paging.c:297-302). */
    method SearchUp(start: nat, pages: nat) returns (r: Option<nat>, ghost b: nat)
      requires Valid() && start <= ORDERS
      ensures r.Some? ==> start <= b < ORDERS && r.value in lists[b]
      ensures r.Some? ==>
        forall k: nat, h :: start <= k < b && h in lists[k] ==> h in tiles && tiles[h].len < pages
      ensures r.Some? ==> start < ORDERS && r.value in tiles && tiles[r.value].free && tiles[r.value].len >= pages
      ensures r.None? ==>
        forall k: nat, h :: start <= k < ORDERS && h in lists[k] ==> h in tiles && tiles[h].len < pages
    {
      hide Tiling, Merged, InBin;
      r := None;
      var order := start;
      while order != ORDERS && r.None?
        invariant start <= order <= ORDERS
        invariant r.None? ==>
          forall k: nat, h :: start <= k < order && h in lists[k] ==> h in tiles && tiles[h].len < pages
        invariant r.Some? ==> order < ORDERS && r.value in tiles && tiles[r.value].free && tiles[r.value].len >= pages
        invariant r.Some? ==> r.value in lists[order]
        invariant r.Some? ==>
          forall k: nat, h :: start <= k < order && h in lists[k] ==> h in tiles && tiles[h].len < pages
        decreases ORDERS - order, r.None?
      {
        r := FindFree(order, pages);
        if r.None? { order := order + 1; }
      }
      b := order;
    }

    /** `kmap_alloc_range` (src/paging.c:292-319): a fresh range of exactly `pages` pages out of free
        space; it fails if and only if no free range is long enough or 65536 pages are asked for. */
    method AllocRange(pages: nat) returns (r: Option<nat>)
      requires Valid() && pages > 0
      modifies this`lists, this`tiles, tag, link
      ensures Valid()
      ensures r.None? <==>
        pages >= 65536 || forall h :: h in old(tiles) && old(tiles)[h].free ==> old(tiles)[h].len < pages
      ensures r.None? ==> tiles == old(tiles)
      ensures r.Some? ==> r.value in old(tiles) && old(tiles)[r.value].free && old(tiles)[r.value].len >= pages
      ensures r.Some? ==> WellChosen(old(tiles), r.value, pages)
      ensures r.Some? ==> Live(tiles) == old(Live(tiles))[r.value := pages]
    {
      hide Tiling, Merged, Binned, Live;
      Limit();
      r := Search(pages);
      if r.None? {
        return;
      }
      var range := r.value;
      var rangePages := tag[range];
      TakeRange(range, pages);
      if rangePages > pages {
        FreeRange(range + pages, rangePages - pages);
      }
    }

    /** `range` leaves its list and gets its new length (src/paging.c:312-314). */
    method TakeRange(range: nat, pages: nat)
      requires Valid() && range in tiles && tiles[range].free && 1 <= pages <= tiles[range].len
      modifies this`lists, this`tiles, tag, link
      ensures pages == old(tiles)[range].len ==> Valid() && Live(tiles) == old(Live(tiles))[range := pages]
      ensures pages < old(tiles)[range].len ==>
        ValidBut(range + pages) && range + pages in tiles &&
          tiles[range + pages] == Tile(old(tiles)[range].len - pages, false)
      ensures pages < old(tiles)[range].len ==> Live(tiles) - {range + pages} == old(Live(tiles))[range := pages]
    {
      hide Tiling, Merged, Binned, Live;
      InWindow(tiles, tag.Length, range);
      ghost var t' := CutAt(tiles, range, pages);
      Taken(lists, tiles, tag.Length, range, pages, t');
      TakenLive(tiles, range, pages, t');
      lists := Unlisted(lists, range);
      Retag(range, pages);
    }

    /** The descriptors of the part that is handed out (src/paging.c:312-314). */
    method Retag(range: nat, pages: nat)
      requires Tiling(tiles, tag.Length) && range in tiles && 1 <= pages <= tiles[range].len && Tagged(-1)
      modifies this`tiles, tag, link
      ensures tiles == CutAt(old(tiles), range, pages)
      ensures Tagged(if pages < old(tiles)[range].len then range + pages else -1)
    {
      hide Tiling;
      InWindow(tiles, tag.Length, range);
      TilesApart(tiles, tag.Length, range);
      link[range] := Cleared;
      link[range] := Self;
      tag[range] := pages;
      tag[range + pages - 1] := pages;
      tiles := CutAt(tiles, range, pages);
    }
  }
}
