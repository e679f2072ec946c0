/**
 The boot-time range allocator of src/balloc.c: two trees of ranges, ordered by address, whose
 nodes come from one fixed pool.
 */
module Balloc {
  import opened Collections
  import opened RbShape
  import opened RbTree
  import opened RangeSeq

  /** `balloc_free_list`, most recently freed node first. */
  class Pool {
    var free: seq<Node>
  }

  /** The nodes `s` carry the ranges `r`. */
  ghost predicate Shows(s: seq<Node>, r: seq<Range>)
    reads s
  {
    |s| == |r| && forall i :: 0 <= i < |s| ==> s[i].begin == r[i].begin && s[i].end == r[i].end
  }

  ghost predicate Ready(pool: Pool, tree: Tree)
    reads pool, tree, Nodes(tree.shape)`left, Nodes(tree.shape)`right, Nodes(tree.shape)`parent, Nodes(tree.shape)`red
  {
    && tree.Valid() && NoDup(pool.free)
    && (forall i :: 0 <= i < |pool.free| ==> pool.free[i] !in Nodes(tree.shape))
  }

  ghost function Hi(t: Shape, p: Path): nat {
    |Pre(p)| + |Inorder(t)|
  }

  /** A search stands at the focus `t` of `whole`: the ranges `r` of all nodes before it satisfy
      `before`, and those of all nodes after it do not. */
  ghost predicate Slot(whole: Shape, r: seq<Range>, before: Range -> bool, t: Shape, p: Path) {
    var lo, hi := |Pre(p)|, Hi(t, p);
    && Plug(t, p) == whole && hi <= |Inorder(whole)| == |r|
    && (lo > 0 ==> before(r[lo - 1]))
    && (hi < |r| ==> !before(r[hi]))
  }

  lemma {:induction false} SlotStep(whole: Shape, r: seq<Range>, before: Range -> bool, t: Shape, p: Path)
    returns (i: nat)
    requires Slot(whole, r, before, t, p) && t.Branch?
    ensures i < |r| && Inorder(whole)[i] == t.node
    ensures before(r[i]) ==> Slot(whole, r, before, t.right, InRight(p, t.left, t.node, t.red))
    ensures !before(r[i]) ==> Slot(whole, r, before, t.left, InLeft(p, t.node, t.red, t.right))
    ensures Hi(t.right, InRight(p, t.left, t.node, t.red)) == Hi(t, p)
    ensures Hi(t.left, InLeft(p, t.node, t.red, t.right)) == i
  {
    FocusIndex(t, p);
    i := |Pre(p)| + |Inorder(t.left)|;
  }

  /** The search loop of `__balloc_add_range` (src/balloc.c:50-61). */
  method FindSlot(tree: Tree, from: int, ghost r: seq<Range>) returns (parent: Node?, left: bool, ghost p: Path)
    requires tree.Valid() && Separated(r) && Shows(Inorder(tree.shape), r)
    ensures Plug(Leaf, p) == tree.shape
    ensures parent == PNode(p) && (parent != null ==> left == p.InLeft?)
    ensures |Pre(p)| == Below(r, from)
  {
    assert allocated(Inorder(tree.shape)) && allocated(Nodes(tree.shape));
    ghost var before := (x: Range) => x.begin < from;
    ghost var t := tree.shape;
    var link := tree.root;
    parent, left, p := null, false, Top;
    while link != null
      invariant tree.Zip(t, p) && link == Root(t)
      invariant parent == PNode(p) && (parent != null ==> left == p.InLeft?)
      invariant Slot(tree.shape, r, before, t, p)
      decreases t
    {
      ghost var i := SlotStep(tree.shape, r, before, t, p);
      parent := link;
      if link.begin < from {
        tree.ZipRight(t.right, InRight(p, t.left, t.node, t.red));
        link, left := link.right, false;
        p, t := InRight(p, t.left, t.node, t.red), t.right;
      } else {
        tree.ZipLeft(t.left, InLeft(p, t.node, t.red, t.right));
        link, left := link.left, true;
        p, t := InLeft(p, t.node, t.red, t.right), t.left;
      }
    }
    BelowUnique(r, from, |Pre(p)|);
  }

  /** The search loop of `__balloc_remove_range` and `__balloc_alloc` (src/balloc.c:93-105 and
      125-137): the first node that ends above `from`. */
  method FindStart(tree: Tree, from: int, ghost r: seq<Range>) returns (ptr: Node?)
    requires tree.Valid() && Separated(r) && Shows(Inorder(tree.shape), r)
    ensures var i := Start(r, from);
      ptr == if i < |r| then Inorder(tree.shape)[i] else null
  {
    assert allocated(Inorder(tree.shape)) && allocated(Nodes(tree.shape));
    ghost var before := (x: Range) => x.end <= from;
    ghost var t, p := tree.shape, Top;
    var link := tree.root;
    ptr := null;
    while link != null
      invariant tree.Zip(t, p) && link == Root(t)
      invariant Slot(tree.shape, r, before, t, p)
      invariant ptr == if Hi(t, p) < |r| then Inorder(tree.shape)[Hi(t, p)] else null
      decreases t
    {
      ghost var i := SlotStep(tree.shape, r, before, t, p);
      if link.end > from {
        tree.ZipLeft(t.left, InLeft(p, t.node, t.red, t.right));
        link, ptr := link.left, link;
        p, t := InLeft(p, t.node, t.red, t.right), t.left;
      } else {
        tree.ZipRight(t.right, InRight(p, t.left, t.node, t.red));
        link := link.right;
        p, t := InRight(p, t.left, t.node, t.red), t.right;
      }
    }
    StartUnique(r, from, |Pre(p)|);
  }

  /** `balloc_alloc_node`, then linking and inserting the node (src/balloc.c:63-69). */
  method InsertNew(pool: Pool, tree: Tree, from: int, to: int, ghost r: seq<Range>) returns (n: Node, ghost i: nat)
    requires Ready(pool, tree) && pool.free != [] && Separated(r) && Shows(Inorder(tree.shape), r)
    modifies pool, tree, pool.free[0],
      Nodes(tree.shape)`left, Nodes(tree.shape)`right, Nodes(tree.shape)`parent, Nodes(tree.shape)`red
    ensures Ready(pool, tree) && n == old(pool.free[0]) && pool.free == old(pool.free)[1..]
    ensures n.begin == from && n.end == to && Nodes(tree.shape) == old(Nodes(tree.shape)) + {n}
    ensures i == Below(r, from) && |r| == |old(Inorder(tree.shape))|
    ensures Inorder(tree.shape) == old(Inorder(tree.shape))[..i] + [n] + old(Inorder(tree.shape))[i..]
  {
    var parent, left;
    ghost var p;
    assert allocated(Nodes(tree.shape));
    parent, left, p := FindSlot(tree, from, r);
    n := pool.free[0];
    pool.free := pool.free[1..];
    n.begin, n.end := from, to;
    i := tree.LinkInsert(n, parent, left, p);
  }

  /** `rb_erase`, then `balloc_free_node`. */
  method DropNode(pool: Pool, tree: Tree, m: Node, ghost k: nat)
    requires Ready(pool, tree) && k < |Inorder(tree.shape)| && Inorder(tree.shape)[k] == m
    modifies pool, tree,
      Nodes(tree.shape)`left, Nodes(tree.shape)`right, Nodes(tree.shape)`parent, Nodes(tree.shape)`red
    ensures Ready(pool, tree) && pool.free == [m] + old(pool.free)
    ensures Nodes(tree.shape) == old(Nodes(tree.shape)) - {m}
    ensures Inorder(tree.shape) == old(Inorder(tree.shape))[..k] + old(Inorder(tree.shape))[k + 1..]
  {
    NodeInInorder(tree.shape, m);
    InorderNoDup(tree.shape);
    ghost var j := tree.Erase(m);
    pool.free := [m] + pool.free;
  }

  /** Taking in the predecessor of `n` (src/balloc.c:71-79), which stands at position `k` of `s`. */
  method AbsorbPrev(pool: Pool, tree: Tree, n: Node, ghost s: seq<Node>, ghost k: nat)
    requires Ready(pool, tree) && s == Inorder(tree.shape) && k < |s| && s[k] == n
    modifies pool, tree, n`begin, n`end, Nodes(tree.shape)`left, Nodes(tree.shape)`right, Nodes(tree.shape)`parent,
      Nodes(tree.shape)`red
    ensures Ready(pool, tree) && Nodes(tree.shape) <= old(Nodes(tree.shape))
    ensures old(k > 0 && s[k - 1].end >= n.begin) ==>
      && Inorder(tree.shape) == s[..k - 1] + s[k..] && pool.free == [s[k - 1]] + old(pool.free)
      && n.begin == old(s[k - 1].begin) && n.end == Max(old(n.end), old(s[k - 1].end))
    ensures old(!(k > 0 && s[k - 1].end >= n.begin)) ==>
      && Inorder(tree.shape) == s && pool.free == old(pool.free)
      && n.begin == old(n.begin) && n.end == old(n.end)
  {
    assert allocated(Nodes(tree.shape));
    var prev := tree.Prev(n, k);
    if prev != null && prev.end >= n.begin {
      InorderNoDup(tree.shape);
      n.begin := prev.begin;
      if prev.end > n.end {
        n.end := prev.end;
      }
      DropNode(pool, tree, prev, k - 1);
    }
  }

  /** Taking in the successor of `n`, whose end is used as it is (src/balloc.c:81-87). */
  method AbsorbNext(pool: Pool, tree: Tree, n: Node, ghost s: seq<Node>, ghost k: nat)
    requires Ready(pool, tree) && s == Inorder(tree.shape) && k < |s| && s[k] == n
    modifies pool, tree, n`end, Nodes(tree.shape)`left, Nodes(tree.shape)`right, Nodes(tree.shape)`parent,
      Nodes(tree.shape)`red
    ensures Ready(pool, tree) && Nodes(tree.shape) <= old(Nodes(tree.shape))
    ensures old(k + 1 < |s| && s[k + 1].begin <= n.end) ==>
      && Inorder(tree.shape) == s[..k + 1] + s[k + 2..] && pool.free == [s[k + 1]] + old(pool.free)
      && n.end == old(s[k + 1].end)
    ensures old(!(k + 1 < |s| && s[k + 1].begin <= n.end)) ==>
      Inorder(tree.shape) == s && pool.free == old(pool.free) && n.end == old(n.end)
  {
    assert allocated(Nodes(tree.shape));
    var next := tree.Next(n, k);
    if next != null && next.begin <= n.end {
      InorderNoDup(tree.shape);
      n.end := next.end;
      DropNode(pool, tree, next, k + 1);
    }
  }

  /** The pool `rest` after adding a range has given back the nodes it took in. */
  ghost function GivenBack(s: seq<Node>, r: seq<Range>, from: int, to: int, rest: seq<Node>): seq<Node>
    requires |s| == |r|
  {
    var i := Below(r, from);
    var b := (if JoinsPrev(r, from) then [s[i - 1]] else []) + rest;
    if JoinsNext(r, from, to) then [s[i]] + b else b
  }

  lemma SpliceAt(s: seq<Node>, n: Node, i: nat)
    requires i <= |s|
    ensures var t := s[..i] + [n] + s[i..];
      && t[i] == n && |t| == |s| + 1
      && (i > 0 ==> t[i - 1] == s[i - 1] && t[..i - 1] + t[i..] == s[..i - 1] + [n] + s[i..])
  {
  }

  /** What taking in the successor adds to the range of the new node. */
  lemma JoinNext(r: seq<Range>, from: int, to: int)
    ensures First(r, from) <= Below(r, from) <= |r|
    ensures JoinsNext(r, from, to) <==> Below(r, from) < |r| && r[Below(r, from)].begin <= Reach(r, from, to)
    ensures JoinsPrev(r, from) ==> Below(r, from) > 0
    ensures Last(r, from, to) == if JoinsNext(r, from, to) then Below(r, from) + 1 else Below(r, from)
    ensures Joined(r, from, to).end == if JoinsNext(r, from, to) then r[Below(r, from)].end else Reach(r, from, to)
  {
  }

  lemma SpliceAfter(s: seq<Node>, n: Node, a: nat, i: nat)
    requires a <= i <= |s|
    ensures var t := s[..a] + [n] + s[i..];
      && t[a] == n && |t| == a + 1 + |s| - i
      && (i < |s| ==> t[a + 1] == s[i] && t[..a + 1] + t[a + 2..] == s[..a] + [n] + s[i + 1..])
  {
  }

  /** The first half of `__balloc_add_range` (src/balloc.c:50-79). */
  method AddJoinPrev(pool: Pool, tree: Tree, from: int, to: int, ghost s: seq<Node>, ghost r: seq<Range>)
    returns (n: Node, ghost t: seq<Node>)
    requires Ready(pool, tree) && pool.free != [] && s == Inorder(tree.shape) && Separated(r) && Shows(s, r)
    modifies pool, tree, pool.free[0], Nodes(tree.shape)`left, Nodes(tree.shape)`right, Nodes(tree.shape)`parent,
      Nodes(tree.shape)`red
    ensures Ready(pool, tree) && n == old(pool.free[0])
    ensures n.begin == Joined(r, from, to).begin && n.end == Reach(r, from, to)
    ensures t == Inorder(tree.shape) == s[..First(r, from)] + [n] + s[Below(r, from)..]
    ensures pool.free == (if JoinsPrev(r, from) then [s[Below(r, from) - 1]] else []) + old(pool.free)[1..]
    ensures Nodes(tree.shape) <= old(Nodes(tree.shape)) + {n}
    ensures Below(r, from) < |s| ==> s[Below(r, from)] != n
  {
    ghost var i;
    InorderNodes(tree.shape);
    n, i := InsertNew(pool, tree, from, to, r);
    SpliceAt(s, n, i);
    assert i > 0 ==> s[i - 1].end == r[i - 1].end && s[i - 1].begin == r[i - 1].begin;
    t := s[..i] + [n] + s[i..];
    AbsorbPrev(pool, tree, n, t, i);
    t := s[..First(r, from)] + [n] + s[i..];
  }

  /** `__balloc_add_range` (src/balloc.c:47-88), on the nodes: which of them stay, where the new one
      goes, and what it covers. */
  method AddNode(pool: Pool, tree: Tree, from: int, to: int, ghost s: seq<Node>, ghost r: seq<Range>) returns (n: Node)
    requires Ready(pool, tree) && pool.free != [] && s == Inorder(tree.shape) && Separated(r) && Shows(s, r)
    modifies pool, tree, pool.free[0], Nodes(tree.shape)`left, Nodes(tree.shape)`right, Nodes(tree.shape)`parent,
      Nodes(tree.shape)`red
    ensures Ready(pool, tree) && n == old(pool.free[0])
    ensures Range(n.begin, n.end) == Joined(r, from, to)
    ensures Inorder(tree.shape) == s[..First(r, from)] + [n] + s[Last(r, from, to)..]
    ensures pool.free == GivenBack(s, r, from, to, old(pool.free)[1..])
    ensures Nodes(tree.shape) <= old(Nodes(tree.shape)) + {n}
  {
    hide Separated, Joined, Reach, First, Last, JoinsPrev, JoinsNext, Below;
    ghost var t;
    JoinNext(r, from, to);
    n, t := AddJoinPrev(pool, tree, from, to, s, r);
    ghost var i := Below(r, from);
    SpliceAfter(s, n, First(r, from), i);
    assert i < |s| ==> s[i].end == r[i].end && s[i].begin == r[i].begin;
    AbsorbNext(pool, tree, n, t, First(r, from));
  }

  /** Every node in use or in the pool belongs to `S`. */
  ghost predicate Within(pool: Pool, tree: Tree, S: set<Node>)
    reads pool, tree
  {
    Nodes(tree.shape) <= S && forall i :: 0 <= i < |pool.free| ==> pool.free[i] in S
  }

  lemma ShowsSplice(s: seq<Node>, r: seq<Range>, n: Node, m: Range, a: nat, b: nat)
    requires Shows(s, r) && a <= b <= |s| && n.begin == m.begin && n.end == m.end
    ensures Shows(s[..a] + [n] + s[b..], r[..a] + [m] + r[b..])
  {
  }

  lemma AddedParts(r: seq<Range>, from: int, to: int)
    ensures First(r, from) <= Last(r, from, to) <= |r| &&
      |Added(r, from, to)| == |r| + 1 - (Last(r, from, to) - First(r, from))
    ensures Added(r, from, to) == r[..First(r, from)] + [Joined(r, from, to)] + r[Last(r, from, to)..]
  {
  }

  lemma GivenBackNodes(s: seq<Node>, r: seq<Range>, from: int, to: int, rest: seq<Node>)
    requires |s| == |r|
    ensures |GivenBack(s, r, from, to, rest)| == |rest| + Last(r, from, to) - First(r, from)
    ensures forall i :: 0 <= i < |GivenBack(s, r, from, to, rest)| ==>
      GivenBack(s, r, from, to, rest)[i] in s || GivenBack(s, r, from, to, rest)[i] in rest
  {
  }

  /** `__balloc_add_range` on the ranges; nodes only move between the pool and the tree. */
  method AddRange(pool: Pool, tree: Tree, from: int, to: int,
                  ghost s: seq<Node>, ghost r: seq<Range>, ghost S: set<Node>)
    requires Ready(pool, tree) && pool.free != [] && s == Inorder(tree.shape) && Separated(r) && Shows(s, r)
    requires Within(pool, tree, S)
    modifies pool, tree, S
    ensures Ready(pool, tree) && Within(pool, tree, S)
    ensures Shows(Inorder(tree.shape), Added(r, from, to))
    ensures |pool.free| + |Inorder(tree.shape)| == old(|pool.free|) + |s|
  {
    hide Separated, Joined, Reach, First, Last, JoinsPrev, JoinsNext, Below, Added, GivenBack;
    InorderNodes(tree.shape);
    assert forall x :: x in s || x in pool.free[1..] ==> x in S;
    AddedParts(r, from, to);
    GivenBackNodes(s, r, from, to, pool.free[1..]);
    var n := AddNode(pool, tree, from, to, s, r);
    assert Shows(s, r);
    ShowsSplice(s, r, n, Joined(r, from, to), First(r, from), Last(r, from, to));
  }

  /** `x` is neither in the tree nor in the pool. */
  ghost predicate Outside(x: Node, pool: Pool, tree: Tree)
    reads pool, tree
  {
    x !in Nodes(tree.shape) && x !in pool.free
  }

  lemma SpliceBack(s: seq<Node>, r: seq<Range>, k: nat, n: Node)
    requires |s| == |r| && k < |s|
    ensures var t, u := s[..k] + s[k + 1..], r[..k] + r[k + 1..];
      t[..k] + [n] + t[k..] == s[k := n] && |t| == |u|
  {
  }

  /** `if (ptr->begin < from) __balloc_add_range(tree, ptr->begin, from)`, with `ptr`, once at
      position `k` of `s`, taken out of the tree. */
  method PutLower(pool: Pool, tree: Tree, ptr: Node, from: int, ghost s: seq<Node>, ghost r: seq<Range>, ghost k: nat)
    returns (ghost n: Node)
    requires Ready(pool, tree) && Outside(ptr, pool, tree) && Separated(r) && Shows(s, r)
    requires k < |s| && s[k] == ptr && Inorder(tree.shape) == s[..k] + s[k + 1..]
    requires from <= ptr.end && (ptr.begin < from ==> pool.free != [])
    modifies pool, tree, if pool.free != [] then {pool.free[0]} else {}, Nodes(tree.shape)`left,
      Nodes(tree.shape)`right, Nodes(tree.shape)`parent, Nodes(tree.shape)`red
    ensures Ready(pool, tree) && Outside(ptr, pool, tree)
    ensures r[k].begin < from ==>
      && old(pool.free != []) && n == old(pool.free)[0] && pool.free == old(pool.free)[1..]
      && Inorder(tree.shape) == s[k := n] && n.begin == r[k].begin && n.end == from
      && Nodes(tree.shape) <= old(Nodes(tree.shape)) + {n}
    ensures r[k].begin >= from ==> tree.shape == old(tree.shape) && pool.free == old(pool.free)
  {
    hide Separated, Joined, Reach, First, Last, JoinsPrev, JoinsNext, Below;
    n := ptr;
    if ptr.begin < from {
      LowerPiece(r, k, from);
      assert allocated(s);
      n := AddNode(pool, tree, ptr.begin, from, s[..k] + s[k + 1..], r[..k] + r[k + 1..]);
      SpliceBack(s, r, k, n);
    }
  }

  /** `if (ptr->end > to) __balloc_add_range(tree, to, ptr->end)` when no lower part was put back. */
  method PutUpper(pool: Pool, tree: Tree, ptr: Node, to: int, ghost s: seq<Node>, ghost r: seq<Range>, ghost k: nat)
    returns (ghost n: Node)
    requires Ready(pool, tree) && Outside(ptr, pool, tree) && Separated(r) && Shows(s, r)
    requires k < |s| && s[k] == ptr && Inorder(tree.shape) == s[..k] + s[k + 1..]
    requires ptr.begin <= to && (ptr.end > to ==> pool.free != [])
    modifies pool, tree, if pool.free != [] then {pool.free[0]} else {}, Nodes(tree.shape)`left,
      Nodes(tree.shape)`right, Nodes(tree.shape)`parent, Nodes(tree.shape)`red
    ensures Ready(pool, tree) && Outside(ptr, pool, tree)
    ensures r[k].end > to ==>
      && old(pool.free != []) && n == old(pool.free)[0] && pool.free == old(pool.free)[1..]
      && Inorder(tree.shape) == s[k := n] && n.begin == to && n.end == r[k].end
      && Nodes(tree.shape) <= old(Nodes(tree.shape)) + {n}
    ensures r[k].end <= to ==> tree.shape == old(tree.shape) && pool.free == old(pool.free)
  {
    hide Separated, Joined, Reach, First, Last, JoinsPrev, JoinsNext, Below;
    n := ptr;
    if ptr.end > to {
      UpperPiece(r, k, to);
      assert allocated(s);
      n := AddNode(pool, tree, to, ptr.end, s[..k] + s[k + 1..], r[..k] + r[k + 1..]);
      SpliceBack(s, r, k, n);
    }
  }

  lemma SpliceAbove(s: seq<Node>, k: nat, low: Node, n: Node)
    requires k < |s|
    ensures var t := s[k := low];
      && t[..k] + [n] + t[k + 1..] == s[k := n]
      && t[..k + 1] + [n] + t[k + 1..] == s[..k] + [low, n] + s[k + 1..]
  {
  }

  /** The same when the lower part sits at position `k` in the node `low`: if the cut is empty, the
      two parts become one node again. */
  method PutUpperAbove(pool: Pool, tree: Tree, ptr: Node, from: int, to: int,
                       ghost s: seq<Node>, ghost r: seq<Range>, ghost k: nat, ghost low: Node)
    returns (ghost n: Node)
    requires Ready(pool, tree) && Outside(ptr, pool, tree) && Separated(r) && Shows(s, r)
    requires k < |s| && s[k] == ptr && Inorder(tree.shape) == s[k := low]
    requires ptr.begin == low.begin < from == low.end <= ptr.end
    requires ptr.begin < to && (ptr.end > to ==> pool.free != [])
    modifies pool, tree, if pool.free != [] then {pool.free[0]} else {}, Nodes(tree.shape)`left,
      Nodes(tree.shape)`right, Nodes(tree.shape)`parent, Nodes(tree.shape)`red
    ensures Ready(pool, tree) && Outside(ptr, pool, tree)
    ensures r[k].end > to ==>
      && old(pool.free != []) && n == old(pool.free)[0] && n.end == r[k].end
      && Nodes(tree.shape) <= old(Nodes(tree.shape)) + {n}
      && (if from >= to then
            Inorder(tree.shape) == s[k := n] && n.begin == r[k].begin && pool.free == [low] + old(pool.free)[1..]
          else
            Inorder(tree.shape) == s[..k] + [low, n] + s[k + 1..] && n.begin == to
            && pool.free == old(pool.free)[1..] && low.begin == r[k].begin && low.end == from && low != n)
    ensures r[k].end <= to ==>
      && tree.shape == old(tree.shape) && pool.free == old(pool.free)
      && low.begin == old(low.begin) && low.end == old(low.end)
  {
    hide Separated, Joined, Reach, First, Last, JoinsPrev, JoinsNext, Below;
    n := ptr;
    if ptr.end > to {
      BothPieces(r, k, from, to);
      assert allocated(s);
      ghost var t, u := s[k := low], r[k := Range(r[k].begin, from)];
      assert t[k] == low;
      InorderNodes(tree.shape);
      n := AddNode(pool, tree, to, ptr.end, t, u);
      SpliceAbove(s, k, low, n);
    }
  }

  lemma PiecesOf(r: Range, from: int, to: int)
    requires Meets(r, from, to) && r.begin < from
    ensures from <= r.end && r.begin < to && Parts(r, from, to) == (if r.end > to then 2 else 1)
    ensures Cut(r, from, to) ==
      if r.end <= to then [Range(r.begin, from)]
      else if from >= to then [r] else [Range(r.begin, from), Range(to, r.end)]
  {
  }

  /** The part of `r[k]` below `from` goes back, and then the part from `to` on. */
  method PutBoth(pool: Pool, tree: Tree, ptr: Node, from: int, to: int,
                 ghost s: seq<Node>, ghost r: seq<Range>, ghost k: nat, ghost S: set<Node>)
    returns (ghost news: seq<Node>)
    requires Ready(pool, tree) && Outside(ptr, pool, tree) && Within(pool, tree, S) && ptr in S
    requires Separated(r) && Shows(s, r) && NoDup(s)
    requires k < |s| && s[k] == ptr && Inorder(tree.shape) == s[..k] + s[k + 1..]
    requires Meets(r[k], from, to) && |pool.free| >= Parts(r[k], from, to)
    requires r[k].begin < from
    modifies pool, tree, S
    ensures Ready(pool, tree) && Outside(ptr, pool, tree) && Within(pool, tree, S)
    ensures Inorder(tree.shape) == s[..k] + news + s[k + 1..] && Shows(news, Cut(r[k], from, to))
    ensures |pool.free| + |news| == old(|pool.free|)
    ensures forall i :: 0 <= i < |s| && i != k ==> s[i].begin == r[i].begin && s[i].end == r[i].end
  {
    hide Separated, Cut, Parts, Meets;
    OtherNodes(tree.shape, s, k);
    PiecesOf(r[k], from, to);
    ghost var low := PutLower(pool, tree, ptr, from, s, r, k);
    news := PutSecond(pool, tree, ptr, from, to, s, r, k, S, low);
  }

  /** The second half of it. */
  method PutSecond(pool: Pool, tree: Tree, ptr: Node, from: int, to: int,
                   ghost s: seq<Node>, ghost r: seq<Range>, ghost k: nat, ghost S: set<Node>, ghost low: Node)
    returns (ghost news: seq<Node>)
    requires Ready(pool, tree) && Outside(ptr, pool, tree) && Within(pool, tree, S) && Separated(r) && Shows(s, r)
    requires k < |s| && s[k] == ptr && Inorder(tree.shape) == s[k := low] && low in S
    requires Meets(r[k], from, to) && low.begin == r[k].begin < from == low.end && (r[k].end > to ==> pool.free != [])
    modifies pool, tree, S
    ensures Ready(pool, tree) && Outside(ptr, pool, tree) && Within(pool, tree, S)
    ensures Inorder(tree.shape) == s[..k] + news + s[k + 1..] && Shows(news, Cut(r[k], from, to))
    ensures |pool.free| + |news| == old(|pool.free|) + 1
    ensures forall i :: 0 <= i < |s| && i != k ==> s[i].begin == r[i].begin && s[i].end == r[i].end
  {
    hide Separated, Cut, Parts, Meets;
    PiecesOf(r[k], from, to);
    InorderNodes(tree.shape);
    forall i | 0 <= i < |s| && i != k ensures s[i] in Nodes(tree.shape) {
      assert s[i] == Inorder(tree.shape)[i];
    }
    assert s[k := low] == s[..k] + [low] + s[k + 1..];
    ghost var n := PutUpperAbove(pool, tree, ptr, from, to, s, r, k, low);
    news := if r[k].end <= to then [low] else if from >= to then [n] else [low, n];
  }

  lemma OtherNodes(t: Shape, s: seq<Node>, k: nat)
    requires k < |s| && Inorder(t) == s[..k] + s[k + 1..]
    ensures forall i :: 0 <= i < |s| && i != k ==> s[i] in Nodes(t)
  {
    InorderNodes(t);
    forall i | 0 <= i < |s| && i != k ensures s[i] in Nodes(t) {
      assert s[i] == Inorder(t)[if i < k then i else i - 1];
    }
  }

  /** Both parts of `r[k]` outside [from, to) go back, and then its node is freed
      (src/balloc.c:112-116 and 148-152). */
  method PutBack(pool: Pool, tree: Tree, ptr: Node, from: int, to: int,
                 ghost s: seq<Node>, ghost r: seq<Range>, ghost k: nat, ghost S: set<Node>)
    returns (ghost news: seq<Node>)
    requires Ready(pool, tree) && Outside(ptr, pool, tree) && Within(pool, tree, S) && ptr in S
    requires Separated(r) && Shows(s, r) && NoDup(s)
    requires k < |s| && s[k] == ptr && Inorder(tree.shape) == s[..k] + s[k + 1..]
    requires Meets(r[k], from, to) && |pool.free| >= Parts(r[k], from, to)
    modifies pool, tree, S
    ensures Ready(pool, tree) && Within(pool, tree, S)
    ensures Inorder(tree.shape) == s[..k] + news + s[k + 1..] && Shows(news, Carved(r[k], from, to))
    ensures |pool.free| + |news| == old(|pool.free|) + 1
    ensures forall i :: 0 <= i < |s| && i != k ==> s[i].begin == r[i].begin && s[i].end == r[i].end
  {
    if ptr.begin < from {
      news := PutBoth(pool, tree, ptr, from, to, s, r, k, S);
    } else {
      OtherNodes(tree.shape, s, k);
      ghost var n := PutUpper(pool, tree, ptr, to, s, r, k);
      news := if r[k].end <= to then [] else [n];
    }
    pool.free := [ptr] + pool.free;
  }

  /** [from, to) overlaps `r`, or is an empty range inside it. */
  predicate Meets(r: Range, from: int, to: int) {
    (r.begin < to && from < r.end) || r.begin <= from == to <= r.end
  }

  /** What is left of `r`: an empty range out of which an empty block is taken is gone. */
  function Carved(r: Range, from: int, to: int): seq<Range> {
    if r.begin == r.end && from == to then [] else Cut(r, from, to)
  }

  /** How many nodes the parts of `r` outside [from, to) take. */
  function Parts(r: Range, from: int, to: int): nat {
    (if r.begin < from then 1 else 0) + (if r.end > to then 1 else 0)
  }

  /** `rb_erase` of the node at position `k`, before its parts go back. */
  method TakeOut(pool: Pool, tree: Tree, ptr: Node, ghost s: seq<Node>, ghost k: nat)
    requires Ready(pool, tree) && s == Inorder(tree.shape) && k < |s| && s[k] == ptr
    modifies tree, Nodes(tree.shape)`left, Nodes(tree.shape)`right, Nodes(tree.shape)`parent, Nodes(tree.shape)`red
    ensures Ready(pool, tree) && Outside(ptr, pool, tree) && NoDup(s)
    ensures Inorder(tree.shape) == s[..k] + s[k + 1..] && Nodes(tree.shape) <= old(Nodes(tree.shape))
  {
    NodeInInorder(tree.shape, ptr);
    InorderNoDup(tree.shape);
    ghost var j := tree.Erase(ptr);
  }

  /** A node is taken out, and what remains of its range goes back in its place
      (src/balloc.c:111-116 and 147-152). */
  method Carve(pool: Pool, tree: Tree, ptr: Node, from: int, to: int,
               ghost s: seq<Node>, ghost r: seq<Range>, ghost k: nat, ghost S: set<Node>)
    returns (ghost news: seq<Node>)
    requires Ready(pool, tree) && Within(pool, tree, S) && s == Inorder(tree.shape)
    requires Separated(r) && Shows(s, r) && k < |s| && s[k] == ptr
    requires Meets(r[k], from, to) && |pool.free| >= Parts(r[k], from, to)
    modifies pool, tree, S
    ensures Ready(pool, tree) && Within(pool, tree, S)
    ensures Inorder(tree.shape) == s[..k] + news + s[k + 1..] && Shows(news, Carved(r[k], from, to))
    ensures |pool.free| + |news| == old(|pool.free|) + 1
    ensures ShowsBut(s, r, k)
  {
    InorderNodes(tree.shape);
    assert allocated(s);
    TakeOut(pool, tree, ptr, s, k);
    news := PutBack(pool, tree, ptr, from, to, s, r, k, S);
  }

  ghost predicate ShowsBut(s: seq<Node>, r: seq<Range>, k: nat)
    reads s
  {
    |s| == |r| && forall i :: 0 <= i < |s| && i != k ==> s[i].begin == r[i].begin && s[i].end == r[i].end
  }

  lemma ShowsParts(a: seq<Node>, b: seq<Node>, r: seq<Range>, q: seq<Range>)
    ensures Shows(a, r) && Shows(b, q) ==> Shows(a + b, r + q)
  {
  }

  lemma ShowsBefore(done: seq<Node>, rest: seq<Node>, dr: seq<Range>, rr: seq<Range>)
    requires |done| == |dr| && ShowsBut(done + rest, dr + rr, |done|)
    ensures Shows(done, dr)
  {
    forall i | 0 <= i < |done| ensures done[i].begin == dr[i].begin && done[i].end == dr[i].end {
      assert (done + rest)[i] == done[i] && (dr + rr)[i] == dr[i];
    }
  }

  lemma ShowsAfter(done: seq<Node>, rest: seq<Node>, dr: seq<Range>, rr: seq<Range>)
    requires |done| == |dr| && |rest| == |rr| > 0 && ShowsBut(done + rest, dr + rr, |done|)
    ensures Shows(rest[1..], rr[1..])
  {
    forall i | 1 <= i < |rest| ensures rest[i].begin == rr[i].begin && rest[i].end == rr[i].end {
      assert (done + rest)[|done| + i] == rest[i] && (dr + rr)[|done| + i] == rr[i];
    }
  }

  /** One round of the removal loop: the node at the head of `rest` is replaced by what remains of
      its range (src/balloc.c:108-116). */
  method RemoveOne(pool: Pool, tree: Tree, ptr: Node, from: int, to: int, ghost done: seq<Node>, ghost rest: seq<Node>,
                   ghost dr: seq<Range>, ghost rr: seq<Range>, ghost S: set<Node>)
    returns (next: Node?, ghost done': seq<Node>)
    requires Ready(pool, tree) && Within(pool, tree, S) && Inorder(tree.shape) == done + rest
    requires Shows(done, dr) && Shows(rest, rr) && Separated(dr + rr) && rest != [] && rest[0] == ptr
    requires rr[0].begin < to && from < rr[0].end && |pool.free| >= Parts(rr[0], from, to)
    modifies pool, tree, S
    ensures Ready(pool, tree) && Within(pool, tree, S) && Inorder(tree.shape) == done' + rest[1..]
    ensures Shows(done', dr + Cut(rr[0], from, to)) && Shows(rest[1..], rr[1..])
    ensures next == if |rest| > 1 then rest[1] else null
    ensures |pool.free| + |done'| == old(|pool.free|) + |done| + 1
  {
    ghost var s, k := done + rest, |done|;
    ShowsParts(done, rest, dr, rr);
    assert allocated(Nodes(tree.shape));
    next := tree.Next(ptr, k);
    ghost var news := Carve(pool, tree, ptr, from, to, s, dr + rr, k, S);
    assert s[k + 1..] == rest[1..] && s[..k] == done;
    done' := done + news;
    ShowsBefore(done, rest, dr, rr);
    ShowsAfter(done, rest, dr, rr);
    ShowsParts(done, news, dr, Cut(rr[0], from, to));
  }

  /** The loop of `__balloc_remove_range` (src/balloc.c:107-118). */
  method RemoveLoop(pool: Pool, tree: Tree, first: Node?, from: int, to: int, ghost r: seq<Range>, ghost S: set<Node>,
                    ghost done0: seq<Node>, ghost rest0: seq<Node>, ghost j0: nat)
    requires Ready(pool, tree) && Within(pool, tree, S) && Separated(r)
    requires Inorder(tree.shape) == done0 + rest0 && first == if rest0 != [] then rest0[0] else null
    requires RemovedSoFar(r, from, to, done0, rest0, j0, |pool.free|)
    modifies pool, tree, S
    ensures Ready(pool, tree) && Within(pool, tree, S)
    ensures Shows(Inorder(tree.shape), Removed(r, from, to))
    ensures |pool.free| + |Inorder(tree.shape)| == old(|pool.free|) + |done0| + |rest0|
  {
    hide Removed, Cut, Separated, Parts;
    var ptr := first;
    ghost var done, rest, j := done0, rest0, j0;
    while ptr != null && ptr.begin < to
      invariant Ready(pool, tree) && Within(pool, tree, S) && Inorder(tree.shape) == done + rest
      invariant ptr == if rest != [] then rest[0] else null
      invariant RemovedSoFar(r, from, to, done, rest, j, |pool.free|)
      invariant |pool.free| + |done| + |rest| == old(|pool.free|) + |done0| + |rest0|
      decreases |r| - j
    {
      RemoveRound(r, from, to, done, rest, j, |pool.free|);
      ptr, done := RemoveOne(pool, tree, ptr, from, to, done, rest, Removed(r[..j], from, to), r[j..], S);
      rest, j := rest[1..], j + 1;
    }
    RemovedFinish(r, j, from, to);
    ShowsParts(done, rest, Removed(r[..j], from, to), r[j..]);
  }

  /** `__balloc_remove_range` (src/balloc.c:90-119), with the nodes in the pool that it needs: with fewer the
      program stops (src/balloc.c:33-34). */
  method RemoveRange(pool: Pool, tree: Tree, from: int, to: int, ghost r: seq<Range>, ghost S: set<Node>)
    requires Ready(pool, tree) && Within(pool, tree, S) && Separated(r) && Shows(Inorder(tree.shape), r)
    requires |pool.free| >= Needed(r, from, to)
    modifies pool, tree, S
    ensures Ready(pool, tree) && Within(pool, tree, S)
    ensures Shows(Inorder(tree.shape), Removed(r, from, to))
    ensures |pool.free| + |Inorder(tree.shape)| == old(|pool.free|) + |r|
  {
    assert allocated(Nodes(tree.shape)) && allocated(Inorder(tree.shape));
    var ptr := FindStart(tree, from, r);
    ghost var j := Start(r, from);
    ghost var s := Inorder(tree.shape);
    assert s == s[..j] + s[j..];
    RemoveStarts(r, from, to, s, j, |pool.free|);
    hide RemovedSoFar, Separated, Removed, Start;
    RemoveLoop(pool, tree, ptr, from, to, r, S, s[..j], s[j..], j);
  }

  /** Where the removal loop stands: the ranges before `j` have been dealt with, and the pool can
      serve the next one. */
  ghost predicate RemovedSoFar(r: seq<Range>, from: int, to: int, done: seq<Node>, rest: seq<Node>, j: nat, spare: nat)
    reads done, rest
  {
    && j <= |r| && Shows(done, Removed(r[..j], from, to)) && Shows(rest, r[j..])
    && (j < |r| ==> r[j].end > from)
    && (j < |r| && r[j].begin < to ==> spare >= Parts(r[j], from, to))
  }

  /** How many nodes the removal takes from the pool before it gives any back: those for the parts of the
      first range it meets. */
  function Needed(r: seq<Range>, from: int, to: int): nat {
    var j := Start(r, from);
    if j < |r| && r[j].begin < to then Parts(r[j], from, to) else 0
  }

  lemma RemoveStarts(r: seq<Range>, from: int, to: int, s: seq<Node>, j: nat, spare: nat)
    requires Shows(s, r) && j == Start(r, from) && spare >= Needed(r, from, to)
    ensures RemovedSoFar(r, from, to, s[..j], s[j..], j, spare)
  {
    RemovedUntouched(r[..j], from, to);
  }

  lemma RemoveRound(r: seq<Range>, from: int, to: int, done: seq<Node>, rest: seq<Node>, j: nat, spare: nat)
    requires Separated(r) && RemovedSoFar(r, from, to, done, rest, j, spare) && j < |r| && r[j].begin < to
    ensures r[j..][0] == r[j] && r[j..][1..] == r[j + 1..]
    ensures Separated(Removed(r[..j], from, to) + r[j..])
    ensures Removed(r[..j + 1], from, to) == Removed(r[..j], from, to) + Cut(r[j], from, to)
    ensures Parts(r[j], from, to) <= spare
    ensures j + 1 < |r| ==> r[j + 1].end > from
    ensures j + 1 < |r| && r[j + 1].begin < to ==> spare + 1 - |Cut(r[j], from, to)| >= Parts(r[j + 1], from, to)
  {
    RemovedPrefix(r, j, from, to);
    RemovedStep(r, j, from, to);
    assert j + 1 < |r| ==> r[j].end < r[j + 1].begin;
  }

  /** The search for space in `__balloc_alloc` (src/balloc.c:124-146 and 156). */
  method FindFit(tree: Tree, size: int, align: int, from: int, to: int, ghost r: seq<Range>)
    returns (ptr: Node?, addr: int)
    requires tree.Valid() && Separated(r) && Shows(Inorder(tree.shape), r) && align > 0
    ensures var k := FitIndex(r, size, align, from, to);
      ptr == if k < |r| then Inorder(tree.shape)[k] else null
    ensures addr == FitAddress(r, size, align, from, to)
  {
    hide Separated, Start, FirstFit;
    assert allocated(Nodes(tree.shape)) && allocated(Inorder(tree.shape));
    ptr := FindStart(tree, from, r);
    ghost var i := Start(r, from);
    while ptr != null && ptr.begin < to
      invariant i <= |r| && ptr == if i < |r| then Inorder(tree.shape)[i] else null
      invariant FitIndex(r, size, align, from, to) == FirstFit(r, i, size, align, from, to)
      decreases |r| - i
    {
      FitStep(r, i, size, align, from, to);
      var b := if ptr.begin > from then ptr.begin else from;
      var e := if ptr.end < to then ptr.end else to;
      addr := AlignUp(b, align);
      if addr + size <= e {
        return;
      }
      ptr := tree.Next(ptr, i);
      i := i + 1;
    }
    FitStep(r, i, size, align, from, to);
    ptr, addr := null, to;
  }

  lemma FitStep(r: seq<Range>, i: nat, size: int, align: int, from: int, to: int)
    requires align > 0 && i <= |r|
    ensures i == |r| || r[i].begin >= to ==> FirstFit(r, i, size, align, from, to) == |r|
    ensures i < |r| && r[i].begin < to ==>
      FirstFit(r, i, size, align, from, to)
        == if Fits(r[i], size, align, from, to) then i else FirstFit(r, i + 1, size, align, from, to)
  {
  }

  /** How many nodes the allocation takes from the pool before it gives one back. */
  function NeededToAlloc(r: seq<Range>, size: int, align: int, from: int, to: int): nat
    requires align > 0
  {
    var k, a := FitIndex(r, size, align, from, to), FitAddress(r, size, align, from, to);
    if k < |r| then Parts(r[k], a, a + size) else 0
  }

  /** `__balloc_alloc` (src/balloc.c:121-160), with the nodes in the pool that it needs: the block handed
      out, and nothing else, leaves the tree. */
  method Alloc(pool: Pool, tree: Tree, size: int, align: int, from: int, to: int, ghost r: seq<Range>,
               ghost S: set<Node>)
    returns (addr: int)
    requires Ready(pool, tree) && Within(pool, tree, S) && Separated(r) && Shows(Inorder(tree.shape), r)
    requires align > 0 && size >= 0 && |pool.free| >= NeededToAlloc(r, size, align, from, to)
    modifies pool, tree, S
    ensures Ready(pool, tree) && Within(pool, tree, S)
    ensures addr == FitAddress(r, size, align, from, to)
    ensures Shows(Inorder(tree.shape), AfterAlloc(r, size, align, from, to))
    ensures |pool.free| + |Inorder(tree.shape)| == old(|pool.free|) + |r|
  {
    hide Removed, Cut, Separated, FitAddress, FitIndex, FirstFit, Carved, Meets, AfterAlloc;
    NothingOut(r, size, align, from, to);
    var ptr;
    assert allocated(Nodes(tree.shape)) && allocated(Inorder(tree.shape));
    ptr, addr := FindFit(tree, size, align, from, to, r);
    if ptr != null {
      ghost var k, s := FitIndex(r, size, align, from, to), Inorder(tree.shape);
      FitInside(r, size, align, from, to);
      ghost var news := Carve(pool, tree, ptr, addr, addr + size, s, r, k, S);
      CarvedOut(r, size, align, from, to);
      ShowsReplaced(s, r, k, news, Carved(r[k], addr, addr + size));
    }
  }

  /** The ranges after an allocation: the block is removed.  A request for nothing that meets an empty range
      removes that range. */
  function AfterAlloc(r: seq<Range>, size: int, align: int, from: int, to: int): seq<Range>
    requires align > 0
  {
    var k, a := FitIndex(r, size, align, from, to), FitAddress(r, size, align, from, to);
    if k == |r| then r else if size == 0 && r[k].begin == r[k].end then r[..k] + r[k + 1..] else Removed(r, a, a + size)
  }

  /** In every case exactly the bytes of the block are gone. */
  lemma AfterAllocExact(r: seq<Range>, size: int, align: int, from: int, to: int, x: int)
    requires align > 0 && size >= 0 && Separated(r)
    ensures
      var k, a := FitIndex(r, size, align, from, to), FitAddress(r, size, align, from, to);
      Covers(AfterAlloc(r, size, align, from, to), x) <==> Covers(r, x) && !(k < |r| && a <= x < a + size)
  {
    hide FitAddress, FitIndex, Removed;
    var k, a := FitIndex(r, size, align, from, to), FitAddress(r, size, align, from, to);
    if k < |r| {
      if size == 0 && r[k].begin == r[k].end {
        assert r == r[..k] + [r[k]] + r[k + 1..];
        CoversConcat(r[..k] + [r[k]], r[k + 1..], x);
        CoversConcat(r[..k], [r[k]], x);
        CoversConcat(r[..k], r[k + 1..], x);
        CoversOne(r[k], x);
      } else {
        RemovedExact(r, a, a + size, x);
      }
    }
  }

  lemma NothingOut(r: seq<Range>, size: int, align: int, from: int, to: int)
    requires align > 0
    ensures FitIndex(r, size, align, from, to) == |r| ==> AfterAlloc(r, size, align, from, to) == r
  {
  }

  lemma CarvedOut(r: seq<Range>, size: int, align: int, from: int, to: int)
    requires align > 0 && size >= 0 && FitIndex(r, size, align, from, to) < |r| && Separated(r)
    ensures
      var k, a := FitIndex(r, size, align, from, to), FitAddress(r, size, align, from, to);
      AfterAlloc(r, size, align, from, to) == r[..k] + Carved(r[k], a, a + size) + r[k + 1..]
  {
    hide FitAddress, FitIndex, Removed, Cut, Separated;
    FitInside(r, size, align, from, to);
    var k, a := FitIndex(r, size, align, from, to), FitAddress(r, size, align, from, to);
    if !(size == 0 && r[k].begin == r[k].end) { RemovedInside(r, k, a, a + size); }
  }

  lemma FitInside(r: seq<Range>, size: int, align: int, from: int, to: int)
    requires align > 0 && size >= 0 && FitIndex(r, size, align, from, to) < |r| && Separated(r)
    ensures
      var k, a := FitIndex(r, size, align, from, to), FitAddress(r, size, align, from, to);
      r[k].begin <= a && a + size <= r[k].end && Meets(r[k], a, a + size)
  {
    AlignUpLeast(Max(r[FitIndex(r, size, align, from, to)].begin, from), align, 0);
  }

  lemma ShowsReplaced(s: seq<Node>, r: seq<Range>, k: nat, news: seq<Node>, nr: seq<Range>)
    requires k < |s| && ShowsBut(s, r, k) && Shows(news, nr)
    ensures Shows(s[..k] + news + s[k + 1..], r[..k] + nr + r[k + 1..])
  {
    assert Shows(s[..k], r[..k]) && Shows(s[k + 1..], r[k + 1..]);
    ShowsParts(s[..k], news, r[..k], nr);
    ShowsParts(s[..k] + news, s[k + 1..], r[..k] + nr, r[k + 1..]);
  }
}
