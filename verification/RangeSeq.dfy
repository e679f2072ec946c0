/**
 Sorted sequences of address ranges: what the trees of the boot allocator hold, read in order.
 The functions follow src/balloc.c; the lemmas say which sets of addresses they stand for.
 */
module RangeSeq {
  import opened Arithmetic

  datatype Range = Range(begin: int, end: int)

  predicate In(x: int, r: Range) {
    r.begin <= x < r.end
  }

  /** Ascending, and with a gap between any two.  A map entry of length zero leaves an empty range. */
  ghost predicate Separated(s: seq<Range>) {
    && (forall i :: 0 <= i < |s| ==> s[i].begin <= s[i].end)
    && (forall i, j :: 0 <= i < j < |s| ==> s[i].end < s[j].begin)
  }

  ghost predicate NonEmpty(s: seq<Range>) {
    forall i :: 0 <= i < |s| ==> s[i].begin < s[i].end
  }

  ghost predicate Covers(s: seq<Range>, x: int) {
    exists i :: 0 <= i < |s| && In(x, s[i])
  }

  // ---- adding a range (src/balloc.c:47-88) ---------------------------------------------------

  /** How many leading ranges begin below `from`: where the search loop puts a new node. */
  function Below(s: seq<Range>, from: int): (i: nat)
    ensures i <= |s|
    ensures forall k :: 0 <= k < i ==> s[k].begin < from
    ensures i < |s| ==> s[i].begin >= from
  {
    if s == [] || s[0].begin >= from then 0 else 1 + Below(s[1..], from)
  }

  lemma BelowUnique(s: seq<Range>, from: int, i: nat)
    requires Separated(s) && i <= |s| && (i > 0 ==> s[i - 1].begin < from) && (i < |s| ==> s[i].begin >= from)
    ensures Below(s, from) == i
  {
  }

  predicate JoinsPrev(s: seq<Range>, from: int) {
    var i := Below(s, from);
    i > 0 && s[i - 1].end >= from
  }

  /** The end of the new node after its predecessor has been taken in. */
  function Reach(s: seq<Range>, from: int, to: int): int {
    var i := Below(s, from);
    if JoinsPrev(s, from) && s[i - 1].end > to then s[i - 1].end else to
  }

  predicate JoinsNext(s: seq<Range>, from: int, to: int) {
    var i := Below(s, from);
    i < |s| && s[i].begin <= Reach(s, from, to)
  }

  /** The range the new node ends up with; the end of an absorbed successor is taken as it is. */
  function Joined(s: seq<Range>, from: int, to: int): Range {
    var i := Below(s, from);
    Range(if JoinsPrev(s, from) then s[i - 1].begin else from,
          if JoinsNext(s, from, to) then s[i].end else Reach(s, from, to))
  }

  function Added(s: seq<Range>, from: int, to: int): seq<Range> {
    var i := Below(s, from);
    s[..if JoinsPrev(s, from) then i - 1 else i]
    + [Joined(s, from, to)]
    + s[if JoinsNext(s, from, to) then i + 1 else i..]
  }

  /** `t` is `s` with the ranges from `a` to `b` replaced by `m`, index by index. */
  ghost predicate Spliced(s: seq<Range>, a: int, b: int, m: Range, t: seq<Range>) {
    && 0 <= a <= b <= |s| && |t| == a + 1 + |s| - b && t[a] == m
    && (forall k :: 0 <= k < a ==> t[k] == s[k])
    && (forall k :: a < k < |t| ==> t[k] == s[k - a - 1 + b])
  }

  function First(s: seq<Range>, from: int): nat {
    if JoinsPrev(s, from) then Below(s, from) - 1 else Below(s, from)
  }

  function Last(s: seq<Range>, from: int, to: int): nat {
    if JoinsNext(s, from, to) then Below(s, from) + 1 else Below(s, from)
  }

  lemma AddedSpliced(s: seq<Range>, from: int, to: int)
    ensures Spliced(s, First(s, from), Last(s, from, to), Joined(s, from, to), Added(s, from, to))
  {
  }

  /** How the new range lies between its neighbours. */
  lemma JoinedFits(s: seq<Range>, from: int, to: int)
    requires Separated(s) && from <= to
    ensures var m := Joined(s, from, to);
      && m.begin <= m.end && (from < to && NonEmpty(s) ==> m.begin < m.end)
      && (First(s, from) > 0 ==> s[First(s, from) - 1].end < m.begin)
      && (Last(s, from, to) < |s| ==> m.end < s[Last(s, from, to)].begin)
  {
    var i := Below(s, from);
    if i >= 2 { assert s[i - 2].end < s[i - 1].begin; }
    if 0 < i < |s| { assert s[i - 1].end < s[i].begin; }
    if i + 1 < |s| { assert s[i].end < s[i + 1].begin; }
  }

  lemma SplicedSeparated(s: seq<Range>, a: int, b: int, m: Range, t: seq<Range>)
    requires Separated(s) && Spliced(s, a, b, m, t) && m.begin <= m.end
    requires a > 0 ==> s[a - 1].end < m.begin
    requires b < |s| ==> m.end < s[b].begin
    ensures Separated(t)
    ensures NonEmpty(s) && m.begin < m.end ==> NonEmpty(t)
  {
    SplicedSides(s, a, b, m);
    forall i, j | 0 <= i < j < |t| ensures t[i].end < t[j].begin {
      if j < a {
        assert s[i].end < s[j].begin;
      } else if j > a && i != a {
        assert s[if i < a then i else i - a - 1 + b].end < s[j - a - 1 + b].begin;
      }
    }
  }

  lemma SplicedSides(s: seq<Range>, a: int, b: int, m: Range)
    requires Separated(s) && 0 <= a <= b <= |s|
    requires (a > 0 ==> s[a - 1].end < m.begin) && (b < |s| ==> m.end < s[b].begin)
    ensures forall k :: 0 <= k < a ==> s[k].end < m.begin
    ensures forall k :: b <= k < |s| ==> m.end < s[k].begin
  {
    forall k | 0 <= k < a ensures s[k].end < m.begin { if k < a - 1 { assert s[k].end < s[a - 1].begin; } }
    forall k | b <= k < |s| ensures m.end < s[k].begin { if k > b { assert s[b].end < s[k].begin; } }
  }

  lemma AddedSeparated(s: seq<Range>, from: int, to: int)
    requires Separated(s) && from <= to
    ensures Separated(Added(s, from, to))
    ensures NonEmpty(s) && from < to ==> NonEmpty(Added(s, from, to))
  {
    JoinedFits(s, from, to);
    AddedSpliced(s, from, to);
    SplicedSeparated(s, First(s, from), Last(s, from, to), Joined(s, from, to), Added(s, from, to));
  }

  lemma SplicedCovers(s: seq<Range>, a: int, b: int, m: Range, t: seq<Range>, x: int)
    requires Spliced(s, a, b, m, t)
    ensures Covers(t, x) <==> Covers(s[..a], x) || In(x, m) || Covers(s[b..], x)
    ensures Covers(s, x) <==> Covers(s[..a], x) || Covers(s[a..b], x) || Covers(s[b..], x)
  {
    assert s == s[..a] + s[a..b] + s[b..];
    CoversConcat(s[..a] + s[a..b], s[b..], x);
    CoversConcat(s[..a], s[a..b], x);
    assert t == s[..a] + [m] + s[b..];
    CoversConcat(s[..a] + [m], s[b..], x);
    CoversConcat(s[..a], [m], x);
    CoversOne(m, x);
  }

  lemma CoversOne(r: Range, x: int)
    ensures Covers([r], x) <==> In(x, r)
  {
    if In(x, r) { assert In(x, [r][0]); }
  }

  /** The ranges that the new node takes in. */
  lemma JoinedCovers(s: seq<Range>, from: int, to: int, x: int)
    requires Separated(s) && from <= to
    ensures Covers(s[First(s, from)..Last(s, from, to)], x) ==> In(x, Joined(s, from, to))
    ensures In(x, Joined(s, from, to)) ==>
              Covers(s[First(s, from)..Last(s, from, to)], x) || from <= x < to
  {
    var i := Below(s, from);
    var u := s[First(s, from)..Last(s, from, to)];
    var p, n := JoinsPrev(s, from), JoinsNext(s, from, to);
    assert u == (if p then [s[i - 1]] else []) + (if n then [s[i]] else []);
    CoversConcat(if p then [s[i - 1]] else [], if n then [s[i]] else [], x);
    if p { CoversOne(s[i - 1], x); }
    if n { CoversOne(s[i], x); }
    if p && n { assert s[i - 1].end < s[i].begin; }
  }

  /** Some existing range lies inside the new one and ends before it. */
  ghost predicate Swallows(s: seq<Range>, from: int, to: int) {
    exists i :: 0 <= i < |s| && from <= s[i].begin && s[i].end < to
  }

  /** Nothing that was covered is lost, and nothing outside the union appears. */
  lemma AddedBetween(s: seq<Range>, from: int, to: int, x: int)
    requires Separated(s) && from <= to
    ensures Covers(s, x) ==> Covers(Added(s, from, to), x)
    ensures Covers(Added(s, from, to), x) ==> Covers(s, x) || from <= x < to
  {
    AddedSpliced(s, from, to);
    JoinedCovers(s, from, to, x);
    SplicedCovers(s, First(s, from), Last(s, from, to), Joined(s, from, to), Added(s, from, to), x);
  }

  lemma AddedComplete(s: seq<Range>, from: int, to: int, x: int)
    requires Separated(s) && from <= x < to && !Swallows(s, from, to)
    ensures Covers(Added(s, from, to), x)
  {
    AddedSpliced(s, from, to);
    var i := Below(s, from);
    assert JoinsNext(s, from, to) ==> s[i].end >= to;
    assert In(x, Added(s, from, to)[First(s, from)]);
  }

  lemma NotCovered(t: seq<Range>, a: int, x: int)
    requires Separated(t) && 0 <= a < |t| && x == t[a].end
    ensures !Covers(t, x)
  {
    forall k | 0 <= k < |t| ensures !In(x, t[k]) {
      if k < a { assert t[k].end < t[a].begin; }
      if k > a { assert t[a].end < t[k].begin; }
    }
  }

  lemma AddedLoses(s: seq<Range>, from: int, to: int) returns (x: int)
    requires Separated(s) && from <= to && Swallows(s, from, to)
    ensures from <= x < to && !Covers(Added(s, from, to), x)
  {
    var m :| 0 <= m < |s| && from <= s[m].begin && s[m].end < to;
    var i := Below(s, from);
    assert i <= m;
    if i < m { assert s[i].end < s[m].begin; }
    x := s[i].end;
    AddedSpliced(s, from, to);
    AddedSeparated(s, from, to);
    NotCovered(Added(s, from, to), First(s, from), x);
  }

  /** Adding yields the union of the sets exactly when no range is swallowed. */
  lemma AddedExact(s: seq<Range>, from: int, to: int)
    requires Separated(s) && from <= to
    ensures (forall x :: Covers(Added(s, from, to), x) <==> Covers(s, x) || from <= x < to)
       <==> !Swallows(s, from, to)
  {
    if Swallows(s, from, to) {
      var x := AddedLoses(s, from, to);
    } else {
      forall x ensures Covers(Added(s, from, to), x) <==> Covers(s, x) || from <= x < to {
        AddedBetween(s, from, to, x);
        if from <= x < to { AddedComplete(s, from, to, x); }
      }
    }
  }

  /** An existing range begins in or behind the new one and has ended by `x`. */
  ghost predicate Passes(s: seq<Range>, from: int, x: int) {
    exists k :: 0 <= k < |s| && from <= s[k].begin && s[k].end <= x
  }

  /** Which bytes an addition brings: those of the new range that lie behind no existing range inside it. */
  lemma AddedPoint(s: seq<Range>, from: int, to: int, x: int)
    requires Separated(s) && from <= to
    ensures Covers(Added(s, from, to), x) <==> Covers(s, x) || (from <= x < to && !Passes(s, from, x))
  {
    AddedBetween(s, from, to, x);
    if from <= x < to && !Covers(s, x) {
      AddedSpliced(s, from, to);
      if Passes(s, from, x) {
        AddedDrops(s, from, to, x);
      } else {
        assert In(x, Added(s, from, to)[First(s, from)]);
      }
    }
  }

  lemma AddedDrops(s: seq<Range>, from: int, to: int, x: int)
    requires Separated(s) && from <= x < to && !Covers(s, x) && Passes(s, from, x)
    ensures !Covers(Added(s, from, to), x)
  {
    var k :| 0 <= k < |s| && from <= s[k].begin && s[k].end <= x;
    var i := Below(s, from);
    if i < k { assert s[i].end < s[k].begin; }
    AddedSpliced(s, from, to);
    SplicedCovers(s, First(s, from), Last(s, from, to), Joined(s, from, to), Added(s, from, to), x);
  }

  /** A case where the union is not reached: the tail [3, 10) of the new range is dropped. */
  lemma AddedLosesExample()
    ensures Added([Range(2, 3)], 1, 10) == [Range(1, 3)]
  {
    assert Below([Range(2, 3)], 1) == 0;
  }

  // ---- removing a range (src/balloc.c:90-119) ------------------------------------------------

  /** What is put back for a range `r` taken out because it meets [from, to). */
  function Cut(r: Range, from: int, to: int): seq<Range> {
    if from >= to || r.end <= from || r.begin >= to then [r]
    else
      (if r.begin < from then [Range(r.begin, from)] else [])
      + (if r.end > to then [Range(to, r.end)] else [])
  }

  function Removed(s: seq<Range>, from: int, to: int): seq<Range> {
    if s == [] then [] else Cut(s[0], from, to) + Removed(s[1..], from, to)
  }

  lemma SeparatedWithout(r: seq<Range>, k: nat)
    requires Separated(r) && k < |r|
    ensures Separated(r[..k] + r[k + 1..])
  {
  }

  /** Putting back the part below `from` of the range `r[k]` that has been taken out. */
  lemma LowerPiece(r: seq<Range>, k: nat, from: int)
    requires Separated(r) && k < |r| && r[k].begin < from <= r[k].end
    ensures var t, b := r[..k] + r[k + 1..], r[k].begin;
      && Separated(t) && First(t, b) == k == Last(t, b, from) && Joined(t, b, from) == Range(b, from)
      && !JoinsPrev(t, b) && !JoinsNext(t, b, from)
    ensures Separated(r[k := Range(r[k].begin, from)])
  {
    var t := r[..k] + r[k + 1..];
    SeparatedWithout(r, k);
    if k > 0 { assert t[k - 1] == r[k - 1] && r[k - 1].end < r[k].begin; }
    if k < |t| { assert t[k] == r[k + 1] && r[k].end < r[k + 1].begin; }
    BelowUnique(t, r[k].begin, k);
  }

  /** Putting back the part from `to` on, when nothing was put back below. */
  lemma UpperPiece(r: seq<Range>, k: nat, to: int)
    requires Separated(r) && k < |r| && r[k].begin <= to < r[k].end
    ensures var t, e := r[..k] + r[k + 1..], r[k].end;
      && Separated(t) && First(t, to) == k == Last(t, to, e) && Joined(t, to, e) == Range(to, e)
      && !JoinsPrev(t, to) && !JoinsNext(t, to, e)
  {
    var t := r[..k] + r[k + 1..];
    SeparatedWithout(r, k);
    if k > 0 { assert t[k - 1] == r[k - 1] && r[k - 1].end < r[k].begin; }
    if k < |t| { assert t[k] == r[k + 1] && r[k].end < r[k + 1].begin; }
    BelowUnique(t, to, k);
  }

  /** Putting it back next to the lower part; the two join again exactly when nothing was to go. */
  lemma BothPieces(r: seq<Range>, k: nat, from: int, to: int)
    requires Separated(r) && k < |r| && r[k].begin < from <= r[k].end && r[k].begin < to < r[k].end
    ensures var t, e := r[k := Range(r[k].begin, from)], r[k].end;
      && Separated(t) && Below(t, to) == k + 1 == Last(t, to, e) && !JoinsNext(t, to, e)
      && First(t, to) == (if from >= to then k else k + 1)
      && JoinsPrev(t, to) == (from >= to)
      && Joined(t, to, e) == Range(if from >= to then r[k].begin else to, e)
  {
    var t := r[k := Range(r[k].begin, from)];
    LowerPiece(r, k, from);
    if k + 1 < |t| { assert t[k + 1] == r[k + 1] && r[k].end < r[k + 1].begin; }
    BelowUnique(t, to, k + 1);
  }

  lemma {:induction false} RemovedConcat(s: seq<Range>, t: seq<Range>, from: int, to: int)
    ensures Removed(s + t, from, to) == Removed(s, from, to) + Removed(t, from, to)
  {
    if s == [] {
      assert s + t == t;
    } else {
      assert (s + t)[1..] == s[1..] + t;
      RemovedConcat(s[1..], t, from, to);
    }
  }

  /** Ranges that do not meet [from, to) stay as they are. */
  lemma {:induction false} RemovedUntouched(s: seq<Range>, from: int, to: int)
    requires forall i :: 0 <= i < |s| ==> s[i].end <= from || s[i].begin >= to
    ensures Removed(s, from, to) == s
  {
    if s != [] {
      RemovedUntouched(s[1..], from, to);
      assert s == [s[0]] + s[1..];
    }
  }

  lemma {:induction false} RemovedBelow(s: seq<Range>, from: int, to: int, x: int)
    requires forall i :: 0 <= i < |s| ==> s[i].end < x
    ensures forall i :: 0 <= i < |Removed(s, from, to)| ==> Removed(s, from, to)[i].end < x
  {
    if s != [] {
      RemovedBelow(s[1..], from, to, x);
      var c, t := Cut(s[0], from, to), Removed(s[1..], from, to);
      assert forall k :: 0 <= k < |c| ==> c[k].end < x;
      assert forall k :: 0 <= k < |c + t| ==> (c + t)[k] == if k < |c| then c[k] else t[k - |c|];
    }
  }

  /** Half-way through the removal loop the ranges are separated as well. */
  lemma RemovedPrefix(s: seq<Range>, j: nat, from: int, to: int)
    requires Separated(s) && j <= |s|
    ensures Separated(Removed(s[..j], from, to) + s[j..])
  {
    RemovedSeparated(s[..j], from, to);
    if j < |s| {
      RemovedBelow(s[..j], from, to, s[j].begin);
      assert forall k :: j <= k < |s| ==> s[j].begin <= s[k].begin;
    }
    SeparatedConcat(Removed(s[..j], from, to), s[j..]);
  }

  /** One round of the removal loop. */
  lemma RemovedStep(s: seq<Range>, j: nat, from: int, to: int)
    requires j < |s|
    ensures Removed(s[..j + 1], from, to) == Removed(s[..j], from, to) + Cut(s[j], from, to)
  {
    assert s[..j + 1] == s[..j] + [s[j]];
    RemovedConcat(s[..j], [s[j]], from, to);
    assert Removed([s[j]], from, to) == Cut(s[j], from, to) + [];
  }

  lemma RemovedFinish(s: seq<Range>, j: nat, from: int, to: int)
    requires Separated(s) && j <= |s| && (j < |s| ==> s[j].begin >= to)
    ensures Removed(s, from, to) == Removed(s[..j], from, to) + s[j..]
  {
    assert s == s[..j] + s[j..];
    RemovedConcat(s[..j], s[j..], from, to);
    if j < |s| { assert forall i :: j < i < |s| ==> s[j].end < s[i].begin; }
    RemovedUntouched(s[j..], from, to);
  }

  /** Removing a part of one range only. */
  lemma RemovedInside(s: seq<Range>, k: nat, from: int, to: int)
    requires Separated(s) && k < |s| && s[k].begin <= from <= to <= s[k].end
    ensures Removed(s, from, to) == s[..k] + Cut(s[k], from, to) + s[k + 1..]
  {
    assert s == s[..k + 1] + s[k + 1..];
    RemovedConcat(s[..k + 1], s[k + 1..], from, to);
    RemovedStep(s, k, from, to);
    RemovedUntouched(s[..k], from, to);
    RemovedUntouched(s[k + 1..], from, to);
  }

  lemma CutCovers(r: Range, from: int, to: int, x: int)
    ensures Covers(Cut(r, from, to), x) <==> In(x, r) && !(from <= x < to)
  {
    var c := Cut(r, from, to);
    if In(x, r) && !(from <= x < to) {
      assert In(x, c[0]) || In(x, c[1]);
    }
  }

  lemma CoversConcat(s: seq<Range>, t: seq<Range>, x: int)
    ensures Covers(s + t, x) <==> Covers(s, x) || Covers(t, x)
  {
    if Covers(s, x) { var i :| 0 <= i < |s| && In(x, s[i]); assert In(x, (s + t)[i]); }
    if Covers(t, x) { var i :| 0 <= i < |t| && In(x, t[i]); assert In(x, (s + t)[|s| + i]); }
  }

  /** Removal is exact set difference. */
  lemma {:induction false} RemovedExact(s: seq<Range>, from: int, to: int, x: int)
    ensures Covers(Removed(s, from, to), x) <==> Covers(s, x) && !(from <= x < to)
  {
    if s != [] {
      CutCovers(s[0], from, to, x);
      RemovedExact(s[1..], from, to, x);
      CoversConcat(Cut(s[0], from, to), Removed(s[1..], from, to), x);
      CoversConcat([s[0]], s[1..], x);
      assert s == [s[0]] + s[1..];
      assert Covers([s[0]], x) <==> In(x, s[0]) by { if In(x, s[0]) { assert In(x, [s[0]][0]); } }
    }
  }

  lemma SeparatedConcat(a: seq<Range>, b: seq<Range>)
    requires Separated(a) && Separated(b)
    requires forall i, j :: 0 <= i < |a| && 0 <= j < |b| ==> a[i].end < b[j].begin
    ensures Separated(a + b)
  {
    var t := a + b;
    forall i, j | 0 <= i < j < |t| ensures t[i].end < t[j].begin {
      if j >= |a| {
        assert t[j] == b[j - |a|];
        if i >= |a| { assert t[i] == b[i - |a|]; }
      }
    }
    forall i | 0 <= i < |t| ensures t[i].begin <= t[i].end {
      if i >= |a| { assert t[i] == b[i - |a|]; }
    }
  }

  lemma CutWithin(r: Range, from: int, to: int)
    requires Separated([r])
    ensures Separated(Cut(r, from, to))
    ensures r.begin < r.end ==> NonEmpty(Cut(r, from, to))
    ensures forall k :: 0 <= k < |Cut(r, from, to)| ==>
      r.begin <= Cut(r, from, to)[k].begin && Cut(r, from, to)[k].end <= r.end
  {
  }

  lemma {:induction false} RemovedSeparated(s: seq<Range>, from: int, to: int)
    requires Separated(s)
    ensures Separated(Removed(s, from, to))
    ensures NonEmpty(s) ==> NonEmpty(Removed(s, from, to))
    ensures forall k :: 0 <= k < |Removed(s, from, to)| ==> s != [] && s[0].begin <= Removed(s, from, to)[k].begin
  {
    if s != [] {
      hide Cut;
      RemovedSeparated(s[1..], from, to);
      CutWithin(s[0], from, to);
      CutBefore(s, Cut(s[0], from, to), Removed(s[1..], from, to));
    }
  }

  /** What is left of the first range comes before what is left of the others. */
  lemma CutBefore(s: seq<Range>, c: seq<Range>, t: seq<Range>)
    requires Separated(s) && s != [] && Separated(c) && Separated(t)
    requires forall k :: 0 <= k < |c| ==> s[0].begin <= c[k].begin && c[k].end <= s[0].end
    requires forall k :: 0 <= k < |t| ==> s[1..] != [] && s[1..][0].begin <= t[k].begin
    ensures Separated(c + t) && forall k :: 0 <= k < |c + t| ==> s[0].begin <= (c + t)[k].begin
    ensures NonEmpty(c) && NonEmpty(t) ==> NonEmpty(c + t)
  {
    assert forall k :: 0 <= k < |t| ==> s[0].end < t[k].begin;
    SeparatedConcat(c, t);
  }

  // ---- first fit (src/balloc.c:121-160) ------------------------------------------------------

  function Max(a: int, b: int): int { if a > b then a else b }
  function Min(a: int, b: int): int { if a < b then a else b }

  /** `(b + mask) & ~mask` for a power of two: the least multiple not below `b`. */
  function AlignUp(b: int, align: int): int
    requires align > 0
  {
    (b + align - 1) / align * align
  }

  function Candidate(r: Range, align: int, from: int): int
    requires align > 0
  {
    AlignUp(Max(r.begin, from), align)
  }

  predicate Fits(r: Range, size: int, align: int, from: int, to: int)
    requires align > 0
  {
    Candidate(r, align, from) + size <= Min(r.end, to)
  }

  /** How many leading ranges end at or below `from`: where the search for space starts. */
  function Start(s: seq<Range>, from: int): (i: nat)
    ensures i <= |s|
    ensures forall k :: 0 <= k < i ==> s[k].end <= from
    ensures i < |s| ==> s[i].end > from
  {
    if s == [] || s[0].end > from then 0 else 1 + Start(s[1..], from)
  }

  lemma StartUnique(s: seq<Range>, from: int, i: nat)
    requires Separated(s) && i <= |s| && (i > 0 ==> s[i - 1].end <= from) && (i < |s| ==> s[i].end > from)
    ensures Start(s, from) == i
  {
  }

  /** The first range from `i` on that fits, or `|s|`. */
  function FirstFit(s: seq<Range>, i: nat, size: int, align: int, from: int, to: int): (k: nat)
    requires i <= |s| && align > 0
    ensures i <= k <= |s|
    ensures k < |s| ==> s[k].begin < to && Fits(s[k], size, align, from, to)
    decreases |s| - i
  {
    if i == |s| || s[i].begin >= to then |s|
    else if Fits(s[i], size, align, from, to) then i
    else FirstFit(s, i + 1, size, align, from, to)
  }

  function FitIndex(s: seq<Range>, size: int, align: int, from: int, to: int): (k: nat)
    requires align > 0
    ensures k <= |s|
  {
    FirstFit(s, Start(s, from), size, align, from, to)
  }

  /** The address handed out, or `to` when nothing fits. */
  function FitAddress(s: seq<Range>, size: int, align: int, from: int, to: int): int
    requires align > 0
  {
    var k := FitIndex(s, size, align, from, to);
    if k < |s| then Candidate(s[k], align, from) else to
  }

  lemma AlignUpLeast(b: int, align: int, a: int)
    requires align > 0
    ensures AlignUp(b, align) >= b && AlignUp(b, align) % align == 0
    ensures a >= b && a % align == 0 ==> AlignUp(b, align) <= a
  {
    var q := (b + align - 1) / align;
    var c := b + align - 1;
    assert c == q * align + c % align;
    MultipleMod(q, align);
    if a >= b && a % align == 0 {
      var p := a / align;
      assert a == p * align;
      assert (p + 1) * align == p * align + align;
      MulOrder(p + 1, q, align);
      MulOrder(q, p, align);
    }
  }

  lemma {:induction false} FirstFitFirst(s: seq<Range>, i: nat, size: int, align: int, from: int, to: int, j: nat)
    requires i <= j < |s| && align > 0 && Separated(s)
    requires s[j].begin < to && Fits(s[j], size, align, from, to)
    ensures FirstFit(s, i, size, align, from, to) <= j
    decreases j - i
  {
    if i < j {
      assert s[i].end < s[j].begin;
      FirstFitFirst(s, i + 1, size, align, from, to, j);
    }
  }

  /** A block of `size` bytes at `a` that the caller could be given. */
  ghost predicate Suitable(s: seq<Range>, size: int, align: int, from: int, to: int, a: int)
    requires align > 0
  {
    && a % align == 0 && from <= a && a + size <= to
    && exists i :: 0 <= i < |s| && s[i].begin <= a && a + size <= s[i].end
  }

  /** The address is the lowest suitable one, and is `to` exactly when there is none. */
  lemma FitAddressLowest(s: seq<Range>, size: int, align: int, from: int, to: int)
    requires Separated(s) && size > 0 && align > 0
    ensures var addr := FitAddress(s, size, align, from, to);
      && (addr != to ==> Suitable(s, size, align, from, to, addr))
      && (forall a :: Suitable(s, size, align, from, to, a) ==> addr != to && addr <= a)
  {
    var k := FitIndex(s, size, align, from, to);
    var addr := FitAddress(s, size, align, from, to);
    if k < |s| { AlignUpLeast(Max(s[k].begin, from), align, 0); }
    forall a | Suitable(s, size, align, from, to, a) ensures addr != to && addr <= a {
      var i :| 0 <= i < |s| && s[i].begin <= a && a + size <= s[i].end;
      AlignUpLeast(Max(s[i].begin, from), align, a);
      FirstFitFirst(s, Start(s, from), size, align, from, to, i);
      if k < i { assert s[k].end < s[i].begin; }
    }
  }
}
