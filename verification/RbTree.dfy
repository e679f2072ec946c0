/**
 The red-black tree of src/rbtree.c on linked nodes with parent pointers.
 */
module RbTree {
  import opened Collections
  import opened RbShape

  /** The nodes of `t` are linked as `t` says, and its root points up to `parent`. */
  ghost predicate Linked(t: Shape, parent: Node?)
    reads Nodes(t)`left, Nodes(t)`right, Nodes(t)`parent, Nodes(t)`red
  {
    t.Branch? ==>
      && t.node.left == Root(t.left) && t.node.right == Root(t.right)
      && t.node.parent == parent && t.node.red == t.red
      && Linked(t.left, t.node) && Linked(t.right, t.node)
  }

  /** The nodes around the hole of `p` are linked as `p` says, with `child` in the hole. */
  ghost predicate PathLinked(p: Path, child: Node?)
    reads PNodes(p)`left, PNodes(p)`right, PNodes(p)`parent, PNodes(p)`red
  {
    match p
    case Top => true
    case InLeft(up, n, c, r) =>
      && n.left == child && n.right == Root(r) && n.parent == PNode(up) && n.red == c
      && Linked(r, n) && PathLinked(up, n)
    case InRight(up, l, n, c) =>
      && n.right == child && n.left == Root(l) && n.parent == PNode(up) && n.red == c
      && Linked(l, n) && PathLinked(up, n)
  }

  lemma {:induction false} PlugLinked(t: Shape, p: Path)
    requires Distinct(Plug(t, p))
    ensures Nodes(Plug(t, p)) == Nodes(t) + PNodes(p)
    ensures Linked(Plug(t, p), null) <==> Linked(t, PNode(p)) && PathLinked(p, Root(t))
    decreases p
  {
    PlugNodes(t, p);
    match p
    case Top =>
    case InLeft(up, n, c, r) => PlugLinked(Branch(t, n, c, r), up);
    case InRight(up, l, n, c) => PlugLinked(Branch(l, n, c, t), up);
  }

  function RotatedLeft(t: Shape): Shape
    requires t.Branch? && t.right.Branch?
  {
    Branch(Branch(t.left, t.node, t.red, t.right.left), t.right.node, t.right.red, t.right.right)
  }

  lemma {:induction false} RotatedLeftShape(t: Shape)
    requires t.Branch? && t.right.Branch?
    ensures Nodes(RotatedLeft(t)) == Nodes(t)
    ensures Distinct(t) ==> Distinct(RotatedLeft(t))
  {
    if Distinct(t) { assert Distinct(t.right); }
  }

  lemma {:induction false} RotatedLeftInorder(t: Shape)
    requires t.Branch? && t.right.Branch?
    ensures Inorder(RotatedLeft(t)) == Inorder(t)
  {
    Reassociate(Inorder(t.left), t.node, Inorder(t.right.left), t.right.node, Inorder(t.right.right));
  }

  function RotatedRight(t: Shape): Shape
    requires t.Branch? && t.left.Branch?
  {
    Branch(t.left.left, t.left.node, t.left.red, Branch(t.left.right, t.node, t.red, t.right))
  }

  lemma {:induction false} RotatedRightShape(t: Shape)
    requires t.Branch? && t.left.Branch?
    ensures Nodes(RotatedRight(t)) == Nodes(t)
    ensures Distinct(t) ==> Distinct(RotatedRight(t))
  {
    if Distinct(t) { assert Distinct(t.left); }
  }

  lemma {:induction false} RotatedRightInorder(t: Shape)
    requires t.Branch? && t.left.Branch?
    ensures Inorder(RotatedRight(t)) == Inorder(t)
  {
    Reassociate(Inorder(t.left.left), t.left.node, Inorder(t.left.right), t.node, Inorder(t.right));
  }

  /** When a subtree and its surroundings have no node in common. */
  lemma BranchApart(l: Shape, n: Node, red: bool, r: Shape, q: Path)
    ensures
      var t := Branch(l, n, red, r);
      && Nodes(t) == Nodes(l) + {n} + Nodes(r)
      && RootSet(l) <= Nodes(l) && RootSet(r) <= Nodes(r) && PNodeSet(q) <= PNodes(q)
      && (Distinct(t) <==>
          Distinct(l) && Distinct(r) && n !in Nodes(l) && n !in Nodes(r) && Nodes(l) !! Nodes(r))
  {
  }

  lemma RedLeaf(node: Node)
    ensures
      var leaf := Branch(Leaf, node, true, Leaf);
      Inorder(leaf) == [node] && Nodes(leaf) == {node} && Balanced(leaf, 0)
  {
  }

  lemma RootIsNode(t: Shape)
    ensures if Nodes(t) == {} then t.Leaf? else t.Branch? && t.node in Nodes(t)
  {
  }

  /** The subtree rooted at the grandparent of the focus. */
  ghost function Grand(t: Shape, q: Path): Shape
    requires !q.Top? && !q.up.Top?
  {
    Above(Above(t, q), q.up)
  }

  /** The subtree rooted at the parent of the focus. */
  ghost function Above(t: Shape, q: Path): Shape
    requires !q.Top?
  {
    if q.InLeft? then Branch(t, q.node, q.red, q.right) else Branch(q.left, q.node, q.red, t)
  }

  /** What the recolouring step of `rb_insert` makes of the grandparent's subtree. */
  function Flipped(t: Shape): Shape
    requires t.Branch? && t.left.Branch? && t.right.Branch?
  {
    Branch(t.left.(red := false), t.node, true, t.right.(red := false))
  }

  /** What the rotating step of `rb_insert` makes of the grandparent's subtree. */
  function Settled(t: Shape, q: Path): Shape
    requires t.Branch? && !q.Top? && !q.up.Top?
  {
    match (q.up, q)
    case (InLeft(_, g, _, u), InLeft(_, p, _, r)) => Branch(t, p, false, Branch(r, g, true, u))
    case (InLeft(_, g, _, u), InRight(_, l, p, c)) =>
      Branch(Branch(l, p, c, t.left), t.node, false, Branch(t.right, g, true, u))
    case (InRight(_, u, g, _), InRight(_, l, p, _)) => Branch(Branch(u, g, true, l), p, false, t)
    case (InRight(_, u, g, _), InLeft(_, p, c, r)) =>
      Branch(Branch(u, g, true, t.left), t.node, false, Branch(t.right, p, c, r))
  }

  lemma {:induction false} SettledInorder(t: Shape, q: Path)
    requires t.Branch? && !q.Top? && !q.up.Top?
    ensures Inorder(Settled(t, q)) == Inorder(Grand(t, q))
  {
    var p := Above(t, q);
    var g := Grand(t, q);
    match (q.up, q)
    case (InLeft(_, _, _, _), InLeft(_, _, _, _)) =>
      RotatedRightInorder(g);
      assert Inorder(Settled(t, q)) == Inorder(RotatedRight(g));
    case (InLeft(_, _, _, u), InRight(_, _, _, _)) =>
      var g' := Branch(RotatedLeft(p), g.node, g.red, u);
      RotatedLeftInorder(p);
      RotatedRightInorder(g');
      assert Inorder(Settled(t, q)) == Inorder(RotatedRight(g'));
    case (InRight(_, _, _, _), InRight(_, _, _, _)) =>
      RotatedLeftInorder(g);
      assert Inorder(Settled(t, q)) == Inorder(RotatedLeft(g));
    case (InRight(_, u, _, _), InLeft(_, _, _, _)) =>
      var g' := Branch(u, g.node, g.red, RotatedRight(p));
      RotatedRightInorder(p);
      RotatedLeftInorder(g');
      assert Inorder(Settled(t, q)) == Inorder(RotatedLeft(g'));
  }

  lemma {:induction false} GrandReplaced(t: Shape, q: Path, t': Shape)
    requires !q.Top? && !q.up.Top?
    requires Inorder(t') == Inorder(Grand(t, q)) && Nodes(t') == Nodes(Grand(t, q))
    ensures Inorder(Plug(t', q.up.up)) == Inorder(Plug(t, q))
    ensures Nodes(Plug(t', q.up.up)) == Nodes(Plug(t, q))
    ensures Depth(q.up.up) < Depth(q)
  {
    var gt := Grand(t, q);
    assert Plug(gt, q.up.up) == Plug(t, q);
    SameInorder(t', gt, q.up.up);
    PlugNodes(gt, q.up.up);
    PlugNodes(t', q.up.up);
  }

  lemma {:induction false} SettledNodes(t: Shape, q: Path)
    requires t.Branch? && !q.Top? && !q.up.Top?
    ensures Nodes(Settled(t, q)) == Nodes(Grand(t, q))
  {
    assert Nodes(t) == Nodes(t.left) + {t.node} + Nodes(t.right);
    assert Nodes(Grand(t, q)) == Nodes(Above(t, q)) + {q.up.node}
                                 + Nodes(if q.up.InLeft? then q.up.right else q.up.left);
  }

  lemma {:induction false} InsertStepBalanced(t: Shape, q: Path, h: int)
    requires IsRed(t) && Balanced(t, h) && Context(q, h) && RedTop(q)
    ensures !q.up.Top? && Context(q.up.up, h + 1)
    ensures var g := Grand(t, q);
      if IsRed(g.left) && IsRed(g.right) then Balanced(Flipped(g), h + 1)
      else Balanced(Settled(t, q), h + 1)
  {
  }

  // ---- the rebalancing of `rb_erase_fix`, as functions on shapes -----------------------------

  function Blackened(t: Shape): Shape {
    if t.Leaf? then Leaf else t.(red := false)
  }

  /** A focus that is one black level short for its context; a red focus may even have a red child,
      since it is about to be painted black. */
  ghost predicate Short(t: Shape, h: int) {
    if IsRed(t) then Balanced(Blackened(t), h + 1) else Balanced(t, h)
  }

  /** The context of a left child after its red sibling has been rotated above its parent. */
  function LoweredLeft(p: Path): Path
    requires p.InLeft? && p.right.Branch?
  {
    InLeft(InLeft(p.up, p.right.node, false, p.right.right), p.node, true, p.right.left)
  }

  /** The sibling after its red inner child, if the outer one is black, has been rotated above it. */
  function TurnedRight(b: Shape): Shape
    requires b.Branch? && (IsRed(b.left) || IsRed(b.right))
  {
    if IsRed(b.right) then b
    else Branch(b.left.left, b.left.node, false, Branch(b.left.right, b.node, true, b.right))
  }

  lemma {:induction false} TurnedRightNodes(b: Shape)
    requires b.Branch? && (IsRed(b.left) || IsRed(b.right))
    ensures Nodes(TurnedRight(b)) == Nodes(b) && Inorder(TurnedRight(b)) == Inorder(b)
  {
    if !IsRed(b.right) {
      RotatedRightShape(b);
      RotatedRightInorder(b);
      assert Inorder(TurnedRight(b)) == Inorder(RotatedRight(b));
      assert Nodes(TurnedRight(b)) == Nodes(RotatedRight(b));
    }
  }

  /** The parent's subtree when the missing black level of a left child has been made up. */
  function RepairedLeft(t: Shape, p: Path): Shape
    requires p.InLeft? && p.right.Branch? && (IsRed(p.right.left) || IsRed(p.right.right))
  {
    var b := TurnedRight(p.right);
    Branch(Branch(t, p.node, false, b.left), b.node, p.red, Blackened(b.right))
  }

  lemma {:induction false} RepairLeftBalanced(t: Shape, p: Path, h: int)
    requires !IsRed(t) && Balanced(t, h) && p.InLeft? && Context(p, h + 1)
    ensures p.right.Branch?
    ensures IsRed(p.right) ==> !p.red && LoweredLeft(p).right.Branch? && !IsRed(LoweredLeft(p).right)
                               && Context(LoweredLeft(p), h + 1)
    ensures !IsRed(p.right) && !IsRed(p.right.left) && !IsRed(p.right.right) ==>
              var k := if p.red then h else h + 1;
              Short(Branch(t, p.node, p.red, p.right.(red := true)), k) && Context(p.up, k + 1)
    ensures !IsRed(p.right) && (IsRed(p.right.left) || IsRed(p.right.right)) ==>
              var k := if p.red then h + 1 else h + 2;
              Balanced(RepairedLeft(t, p), k) && Context(p.up, k) && (p.red ==> !p.up.Top? && !RedTop(p.up))
  {
    BalancedNonNegative(t, h);
    var b := p.right;
    assert Balanced(b, h + 1);
    var k := if b.red then h + 1 else h;
    assert Balanced(b.left, k) && Balanced(b.right, k);
  }

  lemma {:induction false} RepairLeftInorder(t: Shape, p: Path)
    requires p.InLeft? && p.right.Branch? && (IsRed(p.right.left) || IsRed(p.right.right))
    ensures Inorder(RepairedLeft(t, p)) == Inorder(Above(t, p))
  {
    TurnedRightNodes(p.right);
    var b := TurnedRight(p.right);
    assert Inorder(Blackened(b.right)) == Inorder(b.right);
    RotatedLeftInorder(Branch(t, p.node, p.red, b));
  }

  lemma {:induction false} RepairLeftNodes(t: Shape, p: Path)
    requires p.InLeft? && p.right.Branch? && (IsRed(p.right.left) || IsRed(p.right.right))
    ensures Nodes(RepairedLeft(t, p)) == Nodes(Above(t, p))
  {
    TurnedRightNodes(p.right);
    assert Nodes(Blackened(TurnedRight(p.right).right)) == Nodes(TurnedRight(p.right).right);
  }

  lemma {:induction false} AboveReplaced(t: Shape, q: Path, t': Shape)
    requires !q.Top?
    requires Inorder(t') == Inorder(Above(t, q)) && Nodes(t') == Nodes(Above(t, q))
    ensures Inorder(Plug(t', q.up)) == Inorder(Plug(t, q))
    ensures Nodes(Plug(t', q.up)) == Nodes(Plug(t, q))
  {
    assert Plug(Above(t, q), q.up) == Plug(t, q);
    SameInorder(t', Above(t, q), q.up);
    PlugNodes(Above(t, q), q.up);
    PlugNodes(t', q.up);
  }

  lemma {:induction false} LoweredLeftPlug(t: Shape, p: Path)
    requires p.InLeft? && p.right.Branch?
    ensures Inorder(Plug(t, LoweredLeft(p))) == Inorder(Plug(t, p))
    ensures Nodes(Plug(t, LoweredLeft(p))) == Nodes(Plug(t, p))
    ensures Nodes(t) + PNodes(LoweredLeft(p)) == Nodes(t) + PNodes(p)
    ensures Depth(LoweredLeft(p)) == Depth(p) + 1
  {
    var low := LoweredLeft(p);
    var w := Branch(t, p.node, true, p.right.(red := false));
    RotatedLeftInorder(w);
    assert RotatedLeft(w) == Grand(t, low);
    assert Plug(Grand(t, low), p.up) == Plug(t, low);
    RotatedLeftShape(w);
    AboveReplaced(t, p, RotatedLeft(w));
  }

  /** The mirror images for a right child. */
  function LoweredRight(p: Path): Path
    requires p.InRight? && p.left.Branch?
  {
    InRight(InRight(p.up, p.left.left, p.left.node, false), p.left.right, p.node, true)
  }

  function TurnedLeft(b: Shape): Shape
    requires b.Branch? && (IsRed(b.left) || IsRed(b.right))
  {
    if IsRed(b.left) then b
    else Branch(Branch(b.left, b.node, true, b.right.left), b.right.node, false, b.right.right)
  }

  function RepairedRight(t: Shape, p: Path): Shape
    requires p.InRight? && p.left.Branch? && (IsRed(p.left.left) || IsRed(p.left.right))
  {
    var b := TurnedLeft(p.left);
    Branch(Blackened(b.left), b.node, p.red, Branch(b.right, p.node, false, t))
  }

  lemma {:induction false} RepairRightBalanced(t: Shape, p: Path, h: int)
    requires !IsRed(t) && Balanced(t, h) && p.InRight? && Context(p, h + 1)
    ensures p.left.Branch?
    ensures IsRed(p.left) ==> !p.red && LoweredRight(p).left.Branch? && !IsRed(LoweredRight(p).left)
                              && Context(LoweredRight(p), h + 1)
    ensures !IsRed(p.left) && !IsRed(p.left.left) && !IsRed(p.left.right) ==>
              var k := if p.red then h else h + 1;
              Short(Branch(p.left.(red := true), p.node, p.red, t), k) && Context(p.up, k + 1)
    ensures !IsRed(p.left) && (IsRed(p.left.left) || IsRed(p.left.right)) ==>
              var k := if p.red then h + 1 else h + 2;
              Balanced(RepairedRight(t, p), k) && Context(p.up, k) && (p.red ==> !p.up.Top? && !RedTop(p.up))
  {
    BalancedNonNegative(t, h);
    var b := p.left;
    assert Balanced(b, h + 1);
    var k := if b.red then h + 1 else h;
    assert Balanced(b.left, k) && Balanced(b.right, k);
  }

  lemma {:induction false} TurnedLeftNodes(b: Shape)
    requires b.Branch? && (IsRed(b.left) || IsRed(b.right))
    ensures Nodes(TurnedLeft(b)) == Nodes(b) && Inorder(TurnedLeft(b)) == Inorder(b)
  {
    if !IsRed(b.left) {
      RotatedLeftShape(b);
      RotatedLeftInorder(b);
      assert Inorder(TurnedLeft(b)) == Inorder(RotatedLeft(b));
      assert Nodes(TurnedLeft(b)) == Nodes(RotatedLeft(b));
    }
  }

  lemma {:induction false} RepairRightInorder(t: Shape, p: Path)
    requires p.InRight? && p.left.Branch? && (IsRed(p.left.left) || IsRed(p.left.right))
    ensures Inorder(RepairedRight(t, p)) == Inorder(Above(t, p))
  {
    TurnedLeftNodes(p.left);
    var b := TurnedLeft(p.left);
    assert Inorder(Blackened(b.left)) == Inorder(b.left);
    RotatedRightInorder(Branch(b, p.node, p.red, t));
  }

  lemma {:induction false} RepairRightNodes(t: Shape, p: Path)
    requires p.InRight? && p.left.Branch? && (IsRed(p.left.left) || IsRed(p.left.right))
    ensures Nodes(RepairedRight(t, p)) == Nodes(Above(t, p))
  {
    TurnedLeftNodes(p.left);
    assert Nodes(Blackened(TurnedLeft(p.left).left)) == Nodes(TurnedLeft(p.left).left);
  }

  lemma {:induction false} LoweredRightPlug(t: Shape, p: Path)
    requires p.InRight? && p.left.Branch?
    ensures Inorder(Plug(t, LoweredRight(p))) == Inorder(Plug(t, p))
    ensures Nodes(Plug(t, LoweredRight(p))) == Nodes(Plug(t, p))
    ensures Nodes(t) + PNodes(LoweredRight(p)) == Nodes(t) + PNodes(p)
    ensures Depth(LoweredRight(p)) == Depth(p) + 1
  {
    var low := LoweredRight(p);
    var w := Branch(p.left.(red := false), p.node, true, t);
    RotatedRightInorder(w);
    assert RotatedRight(w) == Grand(t, low);
    assert Plug(Grand(t, low), p.up) == Plug(t, low);
    RotatedRightShape(w);
    AboveReplaced(t, p, RotatedRight(w));
  }

  lemma {:induction false} PathRootInside(p: Path, child: Node?)
    ensures !p.Top? ==> PathRoot(p, child) != null && PathRoot(p, child) in PNodes(p)
  {
    if !p.Top? { PathRootInside(p.up, p.node); }
  }

  /** `t` at `u` is `f` at `q` without the root of `f`; `red` is the colour that has gone. */
  ghost predicate Unlinked(f: Shape, q: Path, red: bool, t: Shape, u: Path)
    requires f.Branch?
  {
    if f.left.Branch? && f.right.Branch? then
      && red == MinTree(f.right).red && t == MinTree(f.right).right
      && u == MinPath(f.right, InRight(q, f.left, MinNode(f.right), f.red))
    else
      red == f.red && t == (if f.left.Branch? then f.left else f.right) && u == q
  }

  lemma {:induction false} UnlinkedInorder(f: Shape, q: Path, red: bool, t: Shape, u: Path)
    requires f.Branch? && Unlinked(f, q, red, t, u)
    ensures Inorder(Plug(t, u)) == (Pre(q) + Inorder(f.left)) + (Inorder(f.right) + Post(q))
    ensures Inorder(Plug(f, q)) == (Pre(q) + Inorder(f.left)) + [f.node] + (Inorder(f.right) + Post(q))
  {
    PlugInorder(f, q);
    SpliceAround(Pre(q), Inorder(f.left), f.node, Inorder(f.right), Post(q));
    if f.left.Branch? && f.right.Branch? {
      var x := MinNode(f.right);
      var base := InRight(q, f.left, x, f.red);
      MinParts(f.right, base);
      DropMinInorder(f.right);
      PlugInorder(Branch(f.left, x, f.red, DropMin(f.right)), q);
      SpliceOut(Pre(q), Inorder(f.left), x, Inorder(DropMin(f.right)), Post(q));
    } else {
      PlugInorder(t, q);
      SpliceNone(Pre(q), Inorder(f.left), Inorder(f.right), Post(q));
    }
  }

  lemma SpliceOut(a: seq<Node>, l: seq<Node>, x: Node, r: seq<Node>, b: seq<Node>)
    ensures a + (l + [x] + r) + b == (a + l) + (([x] + r) + b)
  {
  }

  lemma SpliceAround(a: seq<Node>, l: seq<Node>, x: Node, r: seq<Node>, b: seq<Node>)
    ensures a + (l + [x] + r) + b == (a + l) + [x] + (r + b)
  {
  }

  lemma SpliceIndex(a: seq<Node>, x: Node, b: seq<Node>) returns (k: nat)
    ensures var s := a + [x] + b; k < |s| && s[k] == x && a + b == s[..k] + s[k + 1..]
  {
    k := |a|;
  }

  lemma SpliceIn(a: seq<Node>, x: Node, b: seq<Node>) returns (i: nat)
    ensures var s := a + [] + b; i == |a| <= |s| && a + [x] + b == s[..i] + [x] + s[i..]
  {
    i := |a|;
  }

  lemma SpliceNone(a: seq<Node>, l: seq<Node>, r: seq<Node>, b: seq<Node>)
    requires l == [] || r == []
    ensures a + (if l == [] then r else l) + b == (a + l) + (r + b)
  {
  }

  lemma {:induction false} UnlinkedNodes(f: Shape, q: Path, red: bool, t: Shape, u: Path)
    requires f.Branch? && Unlinked(f, q, red, t, u) && Distinct(Plug(f, q))
    ensures Nodes(Plug(t, u)) == Nodes(Plug(f, q)) - {f.node}
  {
    PlugDistinct(f, q);
    PlugNodes(f, q);
    if f.left.Branch? && f.right.Branch? {
      var base := InRight(q, f.left, MinNode(f.right), f.red);
      MinParts(f.right, base);
      DropMinNodes(f.right);
      PlugNodes(DropMin(f.right), base);
    } else {
      PlugNodes(t, q);
    }
  }

  /** Taking out a red node costs no black level, taking out a black one costs one. */
  lemma {:induction false} UnlinkedBalanced(f: Shape, q: Path, red: bool, t: Shape, u: Path) returns (k: int)
    requires f.Branch? && Unlinked(f, q, red, t, u) && RedBlack(Plug(f, q))
    ensures if red then Balanced(t, k) && Context(u, k) && !IsRed(t) else Short(t, k) && Context(u, k + 1)
  {
    k := UnplugBalanced(f, q);
    if f.left.Branch? && f.right.Branch? {
      var base := InRight(q, f.left, MinNode(f.right), f.red);
      k := MinBalanced(f.right, base, if f.red then k else k - 1);
      assert Balanced(MinTree(f.right), k);
    }
    if !red { k := k - 1; }
  }

  ghost function RootSet(t: Shape): set<Node> {
    if t.Leaf? then {} else {t.node}
  }

  ghost function PNodeSet(p: Path): set<Node> {
    if p.Top? then {} else {p.node}
  }

  /** `rb_set_parent` on a possibly absent child. */
  method SetParent(n: Node?, parent: Node?, ghost t: Shape, ghost was: Node?)
    requires n == Root(t) && Linked(t, was) && Distinct(t)
    modifies RootSet(t)`parent
    ensures Linked(t, parent)
  {
    if n != null {
      n.parent := parent;
      assert Linked(t.left, n) && Linked(t.right, n);
    }
  }

  /** src/rbtree.c:82-90. */
  method Leftmost(n: Node?, ghost t: Shape, ghost up: Node?) returns (r: Node?)
    requires n == Root(t) && Linked(t, up)
    ensures r == if t.Leaf? then null else MinNode(t)
  {
    if n == null {
      return null;
    }
    var x: Node := n;
    ghost var f, u := t, up;
    while x.left != null
      invariant f.Branch? && f.node == x && Linked(f, u) && MinNode(f) == MinNode(t)
      decreases f
    {
      x, u, f := x.left, x, f.left;
    }
    r := x;
  }

  /** src/rbtree.c:72-80. */
  method Rightmost(n: Node?, ghost t: Shape, ghost up: Node?) returns (r: Node?)
    requires n == Root(t) && Linked(t, up)
    ensures r == if t.Leaf? then null else MaxNode(t)
  {
    if n == null {
      return null;
    }
    var x: Node := n;
    ghost var f, u := t, up;
    while x.right != null
      invariant f.Branch? && f.node == x && Linked(f, u) && MaxNode(f) == MaxNode(t)
      decreases f
    {
      x, u, f := x.right, x, f.right;
    }
    r := x;
  }

  lemma {:induction false} MinLinked(t: Shape, up: Node?)
    requires t.Branch? && Linked(t, up) && Distinct(t)
    ensures MinNode(t).red == MinTree(t).red && MinNode(t).right == Root(MinTree(t).right)
    ensures MinNode(t) in Nodes(t) && (MinNode(t) == t.node <==> t.left.Leaf?)
    decreases t
  {
    if t.left.Branch? { MinLinked(t.left, t.node); }
  }

  class Tree {
    var root: Node?
    ghost var shape: Shape

    /** The heap holds the tree `Plug(t, p)`. */
    ghost predicate Zip(t: Shape, p: Path)
      reads this, Nodes(t)`left, Nodes(t)`right, Nodes(t)`parent, Nodes(t)`red,
        PNodes(p)`left, PNodes(p)`right, PNodes(p)`parent, PNodes(p)`red
    {
      && root == PathRoot(p, Root(t))
      && Linked(t, PNode(p)) && PathLinked(p, Root(t))
      && Distinct(t) && PathDistinct(p) && Nodes(t) !! PNodes(p)
    }

    /** Puts `y` where `x` hangs: below `up`, or at the root. */
    method ReplaceChild(up: Node?, x: Node, y: Node?, ghost p: Path)
      requires up == PNode(p) && PathLinked(p, x) && PathDistinct(p) && x !in PNodes(p)
      requires root == PathRoot(p, x)
      modifies this`root, PNodeSet(p)`left, PNodeSet(p)`right
      ensures PathLinked(p, y) && root == PathRoot(p, y)
    {
      assert p.InRight? && p.left.Branch? ==> p.left.node in Nodes(p.left);
      if up != null {
        if up.left == x {
          up.left := y;
        } else {
          up.right := y;
        }
        assert PathLinked(p.up, p.node);
        assert Linked(if p.InLeft? then p.right else p.left, p.node);
      } else {
        root := y;
      }
    }

    method PivotLeft(x: Node, r: Node, ghost t: Shape, ghost up: Node?)
      requires t.Branch? && t.node == x && t.right.Branch? && t.right.node == r
      requires Linked(t, up) && Distinct(t)
      modifies {x, r}`left, {x, r}`right, ({x, r} + RootSet(t.right.left))`parent
      ensures Linked(RotatedLeft(t), up)
    {
      ghost var a, b, c := t.left, t.right.left, t.right.right;
      assert Distinct(t.right) && Linked(t.right, x);
      assert RootSet(b) <= Nodes(b);
      assert allocated(Nodes(a)) && allocated(Nodes(b)) && allocated(Nodes(c));
      x.right := r.left;
      SetParent(x.right, x, b, r);
      r.left := x;
      r.parent := x.parent;
      x.parent := r;
      assert Linked(a, x) && Linked(b, x) && Linked(c, r);
    }

    /** src/rbtree.c:30-49. */
    method RotateLeft(x: Node, ghost t: Shape, ghost p: Path)
      requires t.Branch? && t.node == x && t.right.Branch? && Zip(t, p)
      modifies this`root, (Nodes(t) + PNodes(p))`left, (Nodes(t) + PNodes(p))`right, (Nodes(t) + PNodes(p))`parent
      ensures Zip(RotatedLeft(t), p) && Inorder(RotatedLeft(t)) == Inorder(t)
    {
      RotatedLeftShape(t);
      RotatedLeftInorder(t);
      assert RootSet(t.right.left) <= Nodes(t.right.left) && PNodeSet(p) <= PNodes(p);
      assert allocated(PNodes(p)) && allocated(Nodes(RotatedLeft(t)));
      var up := x.parent;
      var r := x.right;
      PivotLeft(x, r, t, up);
      ReplaceChild(up, x, r, p);
    }

    method PivotRight(x: Node, l: Node, ghost t: Shape, ghost up: Node?)
      requires t.Branch? && t.node == x && t.left.Branch? && t.left.node == l
      requires Linked(t, up) && Distinct(t)
      modifies {x, l}`left, {x, l}`right, ({x, l} + RootSet(t.left.right))`parent
      ensures Linked(RotatedRight(t), up)
    {
      ghost var a, b, c := t.left.left, t.left.right, t.right;
      assert Distinct(t.left) && Linked(t.left, x);
      assert RootSet(b) <= Nodes(b);
      assert allocated(Nodes(a)) && allocated(Nodes(b)) && allocated(Nodes(c));
      x.left := l.right;
      SetParent(x.left, x, b, l);
      l.right := x;
      l.parent := x.parent;
      x.parent := l;
      assert Linked(a, l) && Linked(b, x) && Linked(c, x);
    }

    /** src/rbtree.c:51-70. */
    method RotateRight(x: Node, ghost t: Shape, ghost p: Path)
      requires t.Branch? && t.node == x && t.left.Branch? && Zip(t, p)
      modifies this`root, (Nodes(t) + PNodes(p))`left, (Nodes(t) + PNodes(p))`right, (Nodes(t) + PNodes(p))`parent
      ensures Zip(RotatedRight(t), p) && Inorder(RotatedRight(t)) == Inorder(t)
    {
      RotatedRightShape(t);
      RotatedRightInorder(t);
      assert RootSet(t.left.right) <= Nodes(t.left.right) && PNodeSet(p) <= PNodes(p);
      assert allocated(PNodes(p)) && allocated(Nodes(RotatedRight(t)));
      var up := x.parent;
      var l := x.left;
      PivotRight(x, l, t, up);
      ReplaceChild(up, x, l, p);
    }

    /** `rb_set_red` and `rb_set_black`. */
    method Paint(n: Node, red: bool, ghost t: Shape, ghost p: Path)
      requires t.Branch? && t.node == n && Zip(t, p)
      modifies n`red
      ensures Zip(t.(red := red), p)
    {
      assert allocated(PNodes(p)) && allocated(Nodes(t.left)) && allocated(Nodes(t.right));
      n.red := red;
      assert Linked(t.left, n) && Linked(t.right, n) && PathLinked(p, n);
    }

    lemma ZipLeft(t: Shape, p: Path)
      requires p.InLeft?
      ensures Zip(t, p) <==> Zip(Branch(t, p.node, p.red, p.right), p.up)
    {
    }

    lemma ZipRight(t: Shape, p: Path)
      requires p.InRight?
      ensures Zip(t, p) <==> Zip(Branch(p.left, p.node, p.red, t), p.up)
    {
    }

    /** Paints `g` red and its two children black (src/rbtree.c:139-141 and 159-161). */
    method FlipColours(g: Node, l: Node, r: Node, ghost t: Shape, ghost p: Path) returns (ghost t': Shape)
      requires t.Branch? && t.node == g && Root(t.left) == l && Root(t.right) == r && Zip(t, p)
      modifies {g, l, r}`red
      ensures t' == Flipped(t) && Zip(t', p)
    {
      ghost var a, b := t.left, t.right;
      Paint(g, true, t, p);
      ZipLeft(a, InLeft(p, g, true, b));
      Paint(l, false, a, InLeft(p, g, true, b));
      a := a.(red := false);
      ZipLeft(a, InLeft(p, g, true, b));
      ZipRight(b, InRight(p, a, g, true));
      Paint(r, false, b, InRight(p, a, g, true));
      b := b.(red := false);
      ZipRight(b, InRight(p, a, g, true));
      t' := Branch(a, g, true, b);
    }

    /** The rotations that end `rb_insert` below a left child (src/rbtree.c:147-153). */
    method SettleLeft(n: Node, p: Node, g: Node, ghost t: Shape, ghost q: Path) returns (ghost t': Shape)
      requires Zip(t, q) && t.Branch? && t.node == n && !q.Top? && q.node == p && q.up.InLeft? && q.up.node == g
      modifies this`root, (Nodes(t) + PNodes(q))`left, (Nodes(t) + PNodes(q))`right,
        (Nodes(t) + PNodes(q))`parent, (Nodes(t) + PNodes(q))`red
      ensures t' == Settled(t, q)
      ensures Zip(t', q.up.up)
    {
      ghost var up, u, pc, gc := q.up.up, q.up.right, q.red, q.up.red;
      ghost var f := if q.InLeft? then Branch(t, p, pc, q.right) else Branch(q.left, p, pc, t);
      assert Zip(f, q.up) by { if q.InLeft? { ZipLeft(t, q); } else { ZipRight(t, q); } }
      var top := p;
      if n == p.right {
        assert q.InRight?;
        RotateLeft(p, f, q.up);
        f := RotatedLeft(f);
        top := n;
      }
      ZipLeft(f, q.up);
      ghost var w := Branch(f, g, gc, u);
      RotateRight(g, w, up);
      w := RotatedRight(w);
      Paint(top, false, w, up);
      w := w.(red := false);
      ZipRight(w.right, InRight(up, w.left, top, false));
      Paint(g, true, w.right, InRight(up, w.left, top, false));
      t' := Branch(w.left, top, false, w.right.(red := true));
      ZipRight(t'.right, InRight(up, w.left, top, false));
    }

    /** The mirror image (src/rbtree.c:167-173). */
    method SettleRight(n: Node, p: Node, g: Node, ghost t: Shape, ghost q: Path) returns (ghost t': Shape)
      requires Zip(t, q) && t.Branch? && t.node == n && !q.Top? && q.node == p && q.up.InRight? && q.up.node == g
      modifies this`root, (Nodes(t) + PNodes(q))`left, (Nodes(t) + PNodes(q))`right,
        (Nodes(t) + PNodes(q))`parent, (Nodes(t) + PNodes(q))`red
      ensures t' == Settled(t, q)
      ensures Zip(t', q.up.up)
    {
      ghost var up, u, pc, gc := q.up.up, q.up.left, q.red, q.up.red;
      ghost var f := if q.InLeft? then Branch(t, p, pc, q.right) else Branch(q.left, p, pc, t);
      assert Zip(f, q.up) by { if q.InLeft? { ZipLeft(t, q); } else { ZipRight(t, q); } }
      var top := p;
      if n == p.left {
        assert q.InLeft?;
        RotateRight(p, f, q.up);
        f := RotatedRight(f);
        top := n;
      }
      ZipRight(f, q.up);
      ghost var w := Branch(u, g, gc, f);
      RotateLeft(g, w, up);
      w := RotatedLeft(w);
      Paint(top, false, w, up);
      w := w.(red := false);
      ZipLeft(w.left, InLeft(up, top, false, w.right));
      Paint(g, true, w.left, InLeft(up, top, false, w.right));
      t' := Branch(w.left.(red := true), top, false, w.right);
      ZipLeft(t'.left, InLeft(up, top, false, w.right));
    }

    /** The whole tree is linked as the ghost shape says, and is a red-black tree. */
    ghost predicate Valid()
      reads this, Nodes(shape)`left, Nodes(shape)`right, Nodes(shape)`parent, Nodes(shape)`red
    {
      Holds(shape) && RedBlack(shape)
    }

    ghost predicate Holds(s: Shape)
      reads this`root, Nodes(s)`left, Nodes(s)`right, Nodes(s)`parent, Nodes(s)`red
    {
      root == Root(s) && Linked(s, null) && Distinct(s)
    }

    lemma ZipHolds(t: Shape, p: Path)
      ensures Nodes(Plug(t, p)) == Nodes(t) + PNodes(p)
      ensures Zip(t, p) <==> Holds(Plug(t, p))
    {
      PlugNodes(t, p);
      PlugDistinct(t, p);
      if Distinct(Plug(t, p)) { PlugLinked(t, p); }
    }

    /** One round of the loop of `rb_insert`: either the red-red pair moves two levels up, or it
        is gone. */
    method InsertStep(n: Node, p: Node, ghost t: Shape, ghost q: Path, ghost h: int)
      returns (again: bool, g: Node, up: Node?, ghost t': Shape)
      requires Zip(t, q) && IsRed(t) && t.node == n && PNode(q) == p && RedTop(q)
      requires Balanced(t, h) && Context(q, h)
      modifies this`root, (Nodes(t) + PNodes(q))`left, (Nodes(t) + PNodes(q))`right,
        (Nodes(t) + PNodes(q))`parent, (Nodes(t) + PNodes(q))`red
      ensures !q.up.Top? && Depth(q.up.up) < Depth(q)
      ensures InsertState(again, g, up, Inorder(Plug(t, q)), Nodes(Plug(t, q)), t', q.up.up, h + 1)
    {
      InsertStepBalanced(t, q, h);
      SettledInorder(t, q);
      SettledNodes(t, q);
      g := p.parent;
      ghost var gt := Grand(t, q);
      assert Zip(gt, q.up.up) by {
        if q.InLeft? { ZipLeft(t, q); } else { ZipRight(t, q); }
        if q.up.InLeft? { ZipLeft(Above(t, q), q.up); } else { ZipRight(Above(t, q), q.up); }
      }
      assert Linked(gt.left, g) && Linked(gt.right, g);
      assert IsRed(gt.left) == (g.left != null && g.left.red);
      assert IsRed(gt.right) == (g.right != null && g.right.red);
      if p == g.left {
        assert q.up.InLeft?;
        var r := g.right;
        if r != null && r.red {
          t' := FlipColours(g, p, r, gt, q.up.up);
          again := true;
        } else {
          t' := SettleLeft(n, p, g, t, q);
          again := false;
        }
      } else {
        assert q.up.InRight?;
        var l := g.left;
        if l != null && l.red {
          t' := FlipColours(g, l, p, gt, q.up.up);
          again := true;
        } else {
          t' := SettleRight(n, p, g, t, q);
          again := false;
        }
      }
      up := g.parent;
      GrandReplaced(t, q, t');
    }

    /** The final `rb_set_black(tree->root)` (src/rbtree.c:177). */
    method BlackenRoot(ghost s: Shape, ghost h: int)
      requires s.Branch? && Holds(s) && Balanced(s, h)
      modifies this`shape, {s.node}`red
      ensures Valid() && shape == s.(red := false)
      ensures Inorder(shape) == Inorder(s) && Nodes(shape) == Nodes(s)
    {
      Paint(root, false, s, Top);
      shape := s.(red := false);
      assert Balanced(shape, if s.red then h + 1 else h);
    }

    /** `rb_link` (inc/rbtree.h:19-25).  The slot `plink` is the root when `parent` is absent, and
        otherwise the left or right link of `parent`. */
    method Link(node: Node, parent: Node?, left: bool, ghost p: Path)
      requires Zip(Leaf, p) && node !in PNodes(p)
      requires parent == PNode(p) && (parent != null ==> left == p.InLeft?)
      modifies this`root, node`left, node`right, node`parent, node`red, PNodeSet(p)`left, PNodeSet(p)`right
      ensures Zip(Branch(Leaf, node, true, Leaf), p)
    {
      assert allocated(PNodes(p));
      node.parent, node.red := parent, true;
      node.left, node.right := null, null;
      assert PathLinked(p, null);
      if parent == null {
        root := node;
      } else if left {
        parent.left := node;
        assert PathLinked(p.up, parent) && Linked(p.right, parent);
      } else {
        parent.right := node;
        assert PathLinked(p.up, parent) && Linked(p.left, parent);
      }
    }

    /** Where `rb_insert` stands: only a red focus below a red node can break the balance. */
    ghost predicate InsertState(again: bool, n: Node, p: Node?, order: seq<Node>, S: set<Node>,
                                t: Shape, q: Path, h: int)
      reads this, Nodes(t), PNodes(q)
    {
      && Zip(t, q) && Inorder(Plug(t, q)) == order && Nodes(Plug(t, q)) == S
      && Balanced(t, h) && Context(q, h)
      && again == IsRed(t) && (again ==> t.node == n && p == PNode(q))
    }

    /** The loop of `rb_insert` (src/rbtree.c:132-176). */
    method InsertLoop(node: Node, ghost t0: Shape, ghost q0: Path) returns (ghost t: Shape, ghost q: Path, ghost h: int)
      requires Zip(t0, q0) && IsRed(t0) && t0.node == node && Balanced(t0, 0) && Context(q0, 0)
      modifies this`root, (Nodes(t0) + PNodes(q0))`left, (Nodes(t0) + PNodes(q0))`right,
        (Nodes(t0) + PNodes(q0))`parent, (Nodes(t0) + PNodes(q0))`red
      ensures Zip(t, q) && Balanced(t, h) && Context(q, h)
      ensures IsRed(t) ==> !RedTop(q)
      ensures Inorder(Plug(t, q)) == Inorder(Plug(t0, q0)) && Nodes(Plug(t, q)) == Nodes(t0) + PNodes(q0)
    {
      PlugNodes(t0, q0);
      var n, again := node, true;
      var p := n.parent;
      t, q, h := t0, q0, 0;
      while again && p != null && p.red
        invariant InsertState(again, n, p, Inorder(Plug(t0, q0)), Nodes(t0) + PNodes(q0), t, q, h)
        decreases Depth(q)
      {
        PlugNodes(t, q);
        again, n, p, t := InsertStep(n, p, t, q, h);
        q, h := q.up.up, h + 1;
      }
    }

    /** src/rbtree.c:128-178.  `rb_link` has hung the red leaf `node` into the context `p0` of a
        red-black tree. */
    method Insert(node: Node, ghost p0: Path)
      requires Zip(Branch(Leaf, node, true, Leaf), p0) && Context(p0, 0)
      modifies this, ({node} + PNodes(p0))`left, ({node} + PNodes(p0))`right,
        ({node} + PNodes(p0))`parent, ({node} + PNodes(p0))`red
      ensures Valid()
      ensures Inorder(shape) == Pre(p0) + [node] + Post(p0)
      ensures Nodes(shape) == {node} + PNodes(p0)
    {
      hide Nodes, Inorder, Balanced, Context, Plug, Pre, Post, PNodes, Tree.Zip, Tree.Holds;
      RedLeaf(node);
      PlugInorder(Branch(Leaf, node, true, Leaf), p0);
      ghost var t, q, h := InsertLoop(node, Branch(Leaf, node, true, Leaf), p0);
      ghost var k := PlugBalanced(t, q, h);
      ZipHolds(t, q);
      RootIsNode(Plug(t, q));
      BlackenRoot(Plug(t, q), k);
    }

    /** The successor of the focus: the node after it in order (src/rbtree.c:92-108). */
    method NextAt(n: Node, ghost f: Shape, ghost q: Path) returns (r: Node?)
      requires Zip(f, q) && f.Branch? && f.node == n
      ensures var s, k := Inorder(Plug(f, q)), |Pre(q)| + |Inorder(f.left)|;
        k < |s| && s[k] == n && r == if k + 1 < |s| then s[k + 1] else null
    {
      PlugInorder(f, q);
      ghost var s, k := Inorder(Plug(f, q)), |Pre(q)| + |Inorder(f.left)|;
      assert s[k] == n;
      if n.right != null {
        MinNodeFirst(f.right);
        r := Leftmost(n.right, f.right, n);
        assert s[k + 1] == Inorder(f.right)[0];
        return;
      }
      ghost var g, u := f, q;
      var x := n;
      var p := n.parent;
      while p != null && p.right == x
        invariant Zip(g, u) && g.Branch? && g.node == x && p == PNode(u)
        invariant Plug(g, u) == Plug(f, q) && |Pre(u)| + |Inorder(g)| == k + 1
        decreases Depth(u)
      {
        assert u.InRight?;
        ZipRight(g, u);
        g, u := Branch(u.left, u.node, u.red, g), u.up;
        x, p := p, p.parent;
      }
      PlugInorder(g, u);
      r := p;
    }

    /** The predecessor of the focus (src/rbtree.c:110-126). */
    method PrevAt(n: Node, ghost f: Shape, ghost q: Path) returns (r: Node?)
      requires Zip(f, q) && f.Branch? && f.node == n
      ensures var s, k := Inorder(Plug(f, q)), |Pre(q)| + |Inorder(f.left)|;
        k < |s| && s[k] == n && r == if k > 0 then s[k - 1] else null
    {
      PlugInorder(f, q);
      ghost var s, k := Inorder(Plug(f, q)), |Pre(q)| + |Inorder(f.left)|;
      assert s[k] == n;
      if n.left != null {
        MaxNodeLast(f.left);
        r := Rightmost(n.left, f.left, n);
        assert s[k - 1] == Inorder(f.left)[|Inorder(f.left)| - 1];
        return;
      }
      ghost var g, u := f, q;
      var x := n;
      var p := n.parent;
      while p != null && p.left == x
        invariant Zip(g, u) && g.Branch? && g.node == x && p == PNode(u)
        invariant Plug(g, u) == Plug(f, q) && |Pre(u)| == k
        decreases Depth(u)
      {
        assert u.InLeft?;
        ZipLeft(g, u);
        g, u := Branch(g, u.node, u.red, u.right), u.up;
        x, p := p, p.parent;
      }
      PlugInorder(g, u);
      r := p;
    }

    /** A node of a valid tree, as a focus in its context. */
    lemma FocusOn(n: Node) returns (f: Shape, q: Path)
      requires Holds(shape) && n in Nodes(shape)
      ensures Zip(f, q) && f.Branch? && f.node == n && Plug(f, q) == shape
    {
      f, q := Focus(shape, Top, n);
      ZipHolds(f, q);
    }

    /** `rb_next` is the in-order successor: `k` is the position of `n`. */
    method Next(n: Node, ghost k: nat) returns (r: Node?)
      requires Valid() && k < |Inorder(shape)| && Inorder(shape)[k] == n
      ensures r == if k + 1 < |Inorder(shape)| then Inorder(shape)[k + 1] else null
    {
      NodeInInorder(shape, n);
      ghost var f, q := FocusOn(n);
      InorderNoDup(shape);
      r := NextAt(n, f, q);
    }

    /** `rb_prev` is the in-order predecessor. */
    method Prev(n: Node, ghost k: nat) returns (r: Node?)
      requires Valid() && k < |Inorder(shape)| && Inorder(shape)[k] == n
      ensures r == if k > 0 then Inorder(shape)[k - 1] else null
    {
      NodeInInorder(shape, n);
      ghost var f, q := FocusOn(n);
      InorderNoDup(shape);
      r := PrevAt(n, f, q);
    }

    /** Red sibling of a left child: rotate it above the parent (src/rbtree.c:187-192). */
    method LowerLeft(parent: Node, b: Node, ghost t: Shape, ghost p: Path)
      requires Zip(t, p) && p.InLeft? && p.node == parent && Root(p.right) == b
      modifies this`root, (Nodes(t) + PNodes(p))`left, (Nodes(t) + PNodes(p))`right,
        (Nodes(t) + PNodes(p))`parent, (Nodes(t) + PNodes(p))`red
      ensures Zip(t, LoweredLeft(p))
    {
      ghost var up, s := p.up, p.right;
      ZipLeft(t, p);
      ZipRight(s, InRight(up, t, parent, p.red));
      Paint(b, false, s, InRight(up, t, parent, p.red));
      s := s.(red := false);
      ZipRight(s, InRight(up, t, parent, p.red));
      Paint(parent, true, Branch(t, parent, p.red, s), up);
      RotateLeft(parent, Branch(t, parent, true, s), up);
      ghost var low := LoweredLeft(p);
      ZipLeft(Branch(t, parent, true, s.left), low.up);
      ZipLeft(t, low);
    }

    /** A red inner nephew is rotated outwards, unless the outer one is red (src/rbtree.c:199-204). */
    method TurnRight(b: Node, ghost t: Shape, ghost p: Path) returns (b': Node)
      requires Zip(t, p) && t.Branch? && t.node == b && (IsRed(t.left) || IsRed(t.right))
      modifies this`root, (Nodes(t) + PNodes(p))`left, (Nodes(t) + PNodes(p))`right,
        (Nodes(t) + PNodes(p))`parent, (Nodes(t) + PNodes(p))`red
      ensures Zip(TurnedRight(t), p) && b' == TurnedRight(t).node
    {
      assert Linked(t.left, b) && Linked(t.right, b);
      b' := b;
      if !(b.right != null && b.right.red) {
        ghost var lp := InLeft(p, b, t.red, t.right);
        ZipLeft(t.left, lp);
        b' := b.left;
        Paint(b', false, t.left, lp);
        ghost var s := t.(left := t.left.(red := false));
        ZipLeft(s.left, lp);
        Paint(b, true, s, p);
        RotateRight(b, s.(red := true), p);
      }
    }

    /** The sibling with a red outer child takes the parent's place (src/rbtree.c:205-209). */
    method HoistRight(parent: Node, b: Node, ghost t: Shape, ghost p: Path)
      requires Zip(t, p) && t.Branch? && t.node == parent && Root(t.right) == b
      modifies this`root, (Nodes(t) + PNodes(p))`left, (Nodes(t) + PNodes(p))`right,
        (Nodes(t) + PNodes(p))`parent, (Nodes(t) + PNodes(p))`red
      ensures Zip(Branch(Branch(t.left, parent, false, t.right.left), b, t.red, Blackened(t.right.right)), p)
    {
      ghost var s, sp := t.right, InRight(p, t.left, parent, t.red);
      ZipRight(s, sp);
      Paint(b, parent.red, s, sp);
      s := s.(red := t.red);
      ZipRight(s, sp);
      Paint(parent, false, t.(right := s), p);
      sp := InRight(p, t.left, parent, false);
      ZipRight(s, sp);
      ZipRight(s.right, InRight(sp, s.left, b, t.red));
      if b.right != null {
        Paint(b.right, false, s.right, InRight(sp, s.left, b, t.red));
      }
      s := s.(right := Blackened(s.right));
      ZipRight(s.right, InRight(sp, s.left, b, t.red));
      ZipRight(s, sp);
      RotateLeft(parent, Branch(t.left, parent, false, s), p);
    }

    /** Black sibling with a red child: the missing level is made up (src/rbtree.c:199-209). */
    method RepairLeft(parent: Node, ghost t: Shape, ghost p: Path)
      requires Zip(t, p) && p.InLeft? && p.node == parent && p.right.Branch?
      requires IsRed(p.right.left) || IsRed(p.right.right)
      modifies this`root, (Nodes(t) + PNodes(p))`left, (Nodes(t) + PNodes(p))`right,
        (Nodes(t) + PNodes(p))`parent, (Nodes(t) + PNodes(p))`red
      ensures Zip(RepairedLeft(t, p), p.up)
    {
      ghost var s, sp := p.right, InRight(p.up, t, parent, p.red);
      ZipLeft(t, p);
      ZipRight(s, sp);
      var b := TurnRight(parent.right, s, sp);
      s := TurnedRight(s);
      ZipRight(s, sp);
      assert Nodes(s) <= Nodes(p.right) by { TurnedRightNodes(p.right); }
      HoistRight(parent, b, Branch(t, parent, p.red, s), p.up);
    }

    /** The second half of a round: the sibling is black (src/rbtree.c:194-212). */
    method FixLeftBlack(parent: Node, b: Node, ghost t: Shape, ghost p: Path, ghost h: int)
      returns (done: bool, child: Node?, above: Node?, ghost t': Shape, ghost h': int)
      requires Zip(t, p) && p.InLeft? && p.node == parent && !IsRed(t) && Balanced(t, h) && Context(p, h + 1)
      requires Root(p.right) == b && !IsRed(p.right)
      modifies this`root, (Nodes(t) + PNodes(p))`left, (Nodes(t) + PNodes(p))`right,
        (Nodes(t) + PNodes(p))`parent, (Nodes(t) + PNodes(p))`red
      ensures FixStep(done, child, above, t, p, t', p.up, h') && (!done ==> IsRed(t') == p.red)
    {
      RepairLeftBalanced(t, p, h);
      ghost var s := p.right;
      assert Linked(s, parent) && Linked(s.left, s.node) && Linked(s.right, s.node);
      if !(b.left != null && b.left.red) && !(b.right != null && b.right.red) {
        ghost var sp := InRight(p.up, t, parent, p.red);
        ZipLeft(t, p);
        ZipRight(s, sp);
        Paint(b, true, s, sp);
        s := s.(red := true);
        ZipRight(s, sp);
        done, child, above := false, parent, parent.parent;
        t', h' := Branch(t, parent, p.red, s), if p.red then h else h + 1;
      } else {
        RepairLeftInorder(t, p);
        RepairLeftNodes(t, p);
        RepairLeft(parent, t, p);
        done, child, above := true, root, null;
        t', h' := RepairedLeft(t, p), if p.red then h + 1 else h + 2;
      }
      AboveReplaced(t, p, t');
    }

    /** One round of `rb_erase_fix` below a left child (src/rbtree.c:184-212). */
    method FixLeft(parent: Node, ghost t: Shape, ghost p: Path, ghost h: int)
      returns (done: bool, child: Node?, above: Node?, ghost t': Shape, ghost p': Path, ghost h': int)
      requires Zip(t, p) && p.InLeft? && p.node == parent && !IsRed(t) && Balanced(t, h) && Context(p, h + 1)
      modifies this`root, (Nodes(t) + PNodes(p))`left, (Nodes(t) + PNodes(p))`right,
        (Nodes(t) + PNodes(p))`parent, (Nodes(t) + PNodes(p))`red
      ensures FixStep(done, child, above, t, p, t', p', h')
    {
      RepairLeftBalanced(t, p, h);
      var b := parent.right;
      ghost var q := p;
      assert Linked(p.right, parent);
      if b.red {
        LowerLeft(parent, b, t, p);
        LoweredLeftPlug(t, p);
        q := LoweredLeft(p);
        b := parent.right;
      }
      p' := q.up;
      done, child, above, t', h' := FixLeftBlack(parent, b, t, q, h);
    }

    /** The mirror images of the above for a right child (src/rbtree.c:213-242). */
    method LowerRight(parent: Node, b: Node, ghost t: Shape, ghost p: Path)
      requires Zip(t, p) && p.InRight? && p.node == parent && Root(p.left) == b
      modifies this`root, (Nodes(t) + PNodes(p))`left, (Nodes(t) + PNodes(p))`right,
        (Nodes(t) + PNodes(p))`parent, (Nodes(t) + PNodes(p))`red
      ensures Zip(t, LoweredRight(p))
    {
      ghost var up, s := p.up, p.left;
      ZipRight(t, p);
      ZipLeft(s, InLeft(up, parent, p.red, t));
      Paint(b, false, s, InLeft(up, parent, p.red, t));
      s := s.(red := false);
      ZipLeft(s, InLeft(up, parent, p.red, t));
      Paint(parent, true, Branch(s, parent, p.red, t), up);
      RotateRight(parent, Branch(s, parent, true, t), up);
      ghost var low := LoweredRight(p);
      ZipRight(Branch(s.right, parent, true, t), low.up);
      ZipRight(t, low);
    }

    method TurnLeft(b: Node, ghost t: Shape, ghost p: Path) returns (b': Node)
      requires Zip(t, p) && t.Branch? && t.node == b && (IsRed(t.left) || IsRed(t.right))
      modifies this`root, (Nodes(t) + PNodes(p))`left, (Nodes(t) + PNodes(p))`right,
        (Nodes(t) + PNodes(p))`parent, (Nodes(t) + PNodes(p))`red
      ensures Zip(TurnedLeft(t), p) && b' == TurnedLeft(t).node
    {
      assert Linked(t.left, b) && Linked(t.right, b);
      b' := b;
      if !(b.left != null && b.left.red) {
        ghost var rp := InRight(p, t.left, b, t.red);
        ZipRight(t.right, rp);
        b' := b.right;
        Paint(b', false, t.right, rp);
        ghost var s := t.(right := t.right.(red := false));
        ZipRight(s.right, rp);
        Paint(b, true, s, p);
        RotateLeft(b, s.(red := true), p);
      }
    }

    method HoistLeft(parent: Node, b: Node, ghost t: Shape, ghost p: Path)
      requires Zip(t, p) && t.Branch? && t.node == parent && Root(t.left) == b
      modifies this`root, (Nodes(t) + PNodes(p))`left, (Nodes(t) + PNodes(p))`right,
        (Nodes(t) + PNodes(p))`parent, (Nodes(t) + PNodes(p))`red
      ensures Zip(Branch(Blackened(t.left.left), b, t.red, Branch(t.left.right, parent, false, t.right)), p)
    {
      ghost var s, sp := t.left, InLeft(p, parent, t.red, t.right);
      ZipLeft(s, sp);
      Paint(b, parent.red, s, sp);
      s := s.(red := t.red);
      ZipLeft(s, sp);
      Paint(parent, false, t.(left := s), p);
      sp := InLeft(p, parent, false, t.right);
      ZipLeft(s, sp);
      ZipLeft(s.left, InLeft(sp, b, t.red, s.right));
      if b.left != null {
        Paint(b.left, false, s.left, InLeft(sp, b, t.red, s.right));
      }
      s := s.(left := Blackened(s.left));
      ZipLeft(s.left, InLeft(sp, b, t.red, s.right));
      ZipLeft(s, sp);
      RotateRight(parent, Branch(s, parent, false, t.right), p);
    }

    method RepairRight(parent: Node, ghost t: Shape, ghost p: Path)
      requires Zip(t, p) && p.InRight? && p.node == parent && p.left.Branch?
      requires IsRed(p.left.left) || IsRed(p.left.right)
      modifies this`root, (Nodes(t) + PNodes(p))`left, (Nodes(t) + PNodes(p))`right,
        (Nodes(t) + PNodes(p))`parent, (Nodes(t) + PNodes(p))`red
      ensures Zip(RepairedRight(t, p), p.up)
    {
      ghost var s, sp := p.left, InLeft(p.up, parent, p.red, t);
      ZipRight(t, p);
      ZipLeft(s, sp);
      var b := TurnLeft(parent.left, s, sp);
      s := TurnedLeft(s);
      ZipLeft(s, sp);
      assert Nodes(s) <= Nodes(p.left) by { TurnedLeftNodes(p.left); }
      HoistLeft(parent, b, Branch(s, parent, p.red, t), p.up);
    }

    method FixRightBlack(parent: Node, b: Node, ghost t: Shape, ghost p: Path, ghost h: int)
      returns (done: bool, child: Node?, above: Node?, ghost t': Shape, ghost h': int)
      requires Zip(t, p) && p.InRight? && p.node == parent && !IsRed(t) && Balanced(t, h) && Context(p, h + 1)
      requires Root(p.left) == b && !IsRed(p.left)
      modifies this`root, (Nodes(t) + PNodes(p))`left, (Nodes(t) + PNodes(p))`right,
        (Nodes(t) + PNodes(p))`parent, (Nodes(t) + PNodes(p))`red
      ensures FixStep(done, child, above, t, p, t', p.up, h') && (!done ==> IsRed(t') == p.red)
    {
      RepairRightBalanced(t, p, h);
      ghost var s := p.left;
      assert Linked(s, parent) && Linked(s.left, s.node) && Linked(s.right, s.node);
      if !(b.right != null && b.right.red) && !(b.left != null && b.left.red) {
        ghost var sp := InLeft(p.up, parent, p.red, t);
        ZipRight(t, p);
        ZipLeft(s, sp);
        Paint(b, true, s, sp);
        s := s.(red := true);
        ZipLeft(s, sp);
        done, child, above := false, parent, parent.parent;
        t', h' := Branch(s, parent, p.red, t), if p.red then h else h + 1;
      } else {
        RepairRightInorder(t, p);
        RepairRightNodes(t, p);
        RepairRight(parent, t, p);
        done, child, above := true, root, null;
        t', h' := RepairedRight(t, p), if p.red then h + 1 else h + 2;
      }
      AboveReplaced(t, p, t');
    }

    method FixRight(parent: Node, ghost t: Shape, ghost p: Path, ghost h: int)
      returns (done: bool, child: Node?, above: Node?, ghost t': Shape, ghost p': Path, ghost h': int)
      requires Zip(t, p) && p.InRight? && p.node == parent && !IsRed(t) && Balanced(t, h) && Context(p, h + 1)
      modifies this`root, (Nodes(t) + PNodes(p))`left, (Nodes(t) + PNodes(p))`right,
        (Nodes(t) + PNodes(p))`parent, (Nodes(t) + PNodes(p))`red
      ensures FixStep(done, child, above, t, p, t', p', h')
    {
      RepairRightBalanced(t, p, h);
      var b := parent.left;
      ghost var q := p;
      assert Linked(p.left, parent);
      if b.red {
        LowerRight(parent, b, t, p);
        LoweredRightPlug(t, p);
        q := LoweredRight(p);
        b := parent.left;
      }
      p' := q.up;
      done, child, above, t', h' := FixRightBlack(parent, b, t, q, h);
    }

    /** The loop of `rb_erase_fix` (src/rbtree.c:183-243).  The focus `t`, rooted at `child`, is one
        black level short.  The red-sibling case makes the context deeper, but then its round ends
        with a red child. */
    method EraseFixLoop(child: Node?, parent: Node?, ghost t: Shape, ghost p: Path, ghost h: int)
      returns (done: bool, c: Node?, ghost f: Shape, ghost q: Path, ghost g: int)
      requires Zip(t, p) && child == Root(t) && parent == PNode(p) && Short(t, h) && Context(p, h + 1)
      modifies this`root, (Nodes(t) + PNodes(p))`left, (Nodes(t) + PNodes(p))`right,
        (Nodes(t) + PNodes(p))`parent, (Nodes(t) + PNodes(p))`red
      ensures FixState(done, c, PNode(q), Inorder(Plug(t, p)), Nodes(t) + PNodes(p), f, q, g)
      ensures done || IsRed(f) || q.Top?
    {
      PlugNodes(t, p);
      var above := parent;
      c, done := child, false;
      f, q, g := t, p, h;
      while !done && !(c != null && c.red) && c != root
        invariant FixState(done, c, above, Inorder(Plug(t, p)), Nodes(t) + PNodes(p), f, q, g)
        decreases if done then 0 else if IsRed(f) then 1 else 2 + Depth(q)
      {
        PlugNodes(f, q);
        if c == above.left {
          assert q.InLeft?;
          done, c, above, f, q, g := FixLeft(above, f, q, g);
        } else {
          assert q.InRight?;
          done, c, above, f, q, g := FixRight(above, f, q, g);
        }
      }
      PathRootInside(q, Root(f));
    }

    /** src/rbtree.c:180-247. */
    method EraseFix(child: Node?, parent: Node?, ghost t: Shape, ghost p: Path, ghost h: int)
      requires Zip(t, p) && child == Root(t) && parent == PNode(p) && Short(t, h) && Context(p, h + 1)
      modifies this, (Nodes(t) + PNodes(p))`left, (Nodes(t) + PNodes(p))`right,
        (Nodes(t) + PNodes(p))`parent, (Nodes(t) + PNodes(p))`red
      ensures Valid()
      ensures Inorder(shape) == Inorder(Plug(t, p)) && Nodes(shape) == Nodes(t) + PNodes(p)
    {
      var done, c;
      ghost var f, q, g;
      done, c, f, q, g := EraseFixLoop(child, parent, t, p, h);
      ZipHolds(f, q);
      if done {
        ghost var k := PlugBalanced(f, q, g);
        PathRootInside(q, f.node);
        BlackenRoot(Plug(f, q), k);
      } else {
        BlackenChild(c, f, q, g);
      }
    }

    /** `if (child) rb_set_black(child)` (src/rbtree.c:245-246). */
    method BlackenChild(c: Node?, ghost f: Shape, ghost q: Path, ghost g: int)
      requires Zip(f, q) && c == Root(f) && Short(f, g) && Context(q, g + 1) && (IsRed(f) || q.Top?)
      modifies this`shape, RootSet(f)`red
      ensures Valid()
      ensures Inorder(shape) == Inorder(Plug(f, q)) && Nodes(shape) == Nodes(Plug(f, q))
    {
      if c != null {
        Paint(c, false, f, q);
      }
      ghost var f' := Blackened(f);
      ZipHolds(f, q);
      ZipHolds(f', q);
      ghost var k := PlugBalanced(f', q, if IsRed(f) then g + 1 else g);
      shape := Plug(f', q);
      SameInorder(f, f', q);
    }

    /** Where `rb_erase_fix` stands: the whole tree has the nodes `S` in the given order, and either
        it is balanced again or the focus is one black level short. */
    ghost predicate FixState(done: bool, child: Node?, above: Node?, order: seq<Node>, S: set<Node>,
                             t: Shape, p: Path, h: int)
      reads this, Nodes(t), PNodes(p)
    {
      && Zip(t, p) && Inorder(Plug(t, p)) == order && Nodes(Plug(t, p)) == S
      && (if done then child == root && t.Branch? && Balanced(t, h) && Context(p, h) && (IsRed(t) ==> !RedTop(p))
          else child == Root(t) && above == PNode(p) && Short(t, h) && Context(p, h + 1))
    }

    /** What one round does to the state, including why the loop ends. */
    ghost predicate FixStep(done: bool, child: Node?, above: Node?, t: Shape, p: Path, t': Shape, p': Path, h': int)
      reads this, Nodes(t'), PNodes(p')
    {
      && FixState(done, child, above, Inorder(Plug(t, p)), Nodes(Plug(t, p)), t', p', h')
      && (done || IsRed(t') || Depth(p') < Depth(p))
    }

    /** A node with at most one child gives way to it (src/rbtree.c:276-290). */
    method UnlinkSingle(node: Node, ghost f: Shape, ghost q: Path) returns (c: Node?, p: Node?, ghost t: Shape)
      requires Zip(f, q) && f.Branch? && f.node == node && (f.left.Leaf? || f.right.Leaf?)
      modifies this`root, (Nodes(f) + PNodes(q))`left, (Nodes(f) + PNodes(q))`right,
        (Nodes(f) + PNodes(q))`parent, (Nodes(f) + PNodes(q))`red
      ensures t == if f.left.Branch? then f.left else f.right
      ensures Zip(t, q) && c == Root(t) && p == PNode(q)
    {
      t := if f.left.Branch? then f.left else f.right;
      assert RootSet(t) <= Nodes(t) && PNodeSet(q) <= PNodes(q);
      assert allocated(Nodes(t)) && allocated(PNodes(q));
      p := node.parent;
      c := if node.left != null then node.left else node.right;
      SetParent(c, p, t, node);
      ReplaceChild(node.parent, node, c, q);
    }

    /** The successor is the right child: it takes over the left subtree (src/rbtree.c:259-263). */
    method UnlinkAdjacent(node: Node, x: Node, ghost f: Shape, ghost q: Path)
      requires Zip(f, q) && f.Branch? && f.node == node && f.left.Branch? && f.right.Branch?
      requires f.right.left.Leaf? && f.right.node == x
      modifies this`root, (Nodes(f) + PNodes(q))`left, (Nodes(f) + PNodes(q))`right,
        (Nodes(f) + PNodes(q))`parent, (Nodes(f) + PNodes(q))`red
      ensures Zip(Branch(f.left, x, f.red, f.right.right), q)
    {
      hide Nodes, PNodes, Distinct, PathDistinct, PathRoot, RootSet, PNodeSet;
      ghost var l, r := f.left, f.right;
      BranchApart(l, node, f.red, r, q);
      BranchApart(Leaf, x, r.red, r.right, q);
      BranchApart(l, x, f.red, r.right, q);
      assert Linked(r, node) && Linked(l, node) && x in Nodes(r);
      assert allocated(Nodes(l)) && allocated(Nodes(r.right)) && allocated(PNodes(q));
      x.left := node.left;
      x.parent, x.red := node.parent, node.red;
      SetParent(x.left, x, l, node);
      ReplaceChild(node.parent, node, x, q);
      assert Linked(l, x) && Linked(r.right, x);
    }

    /** `p->left = c` and `c`'s way back, with `x` out of the tree (src/rbtree.c:268-270). */
    method Detach(x: Node, p: Node, c: Node?, ghost t: Shape, ghost q: Path)
      requires q.InLeft? && q.node == p && PathLinked(q, x) && root == PathRoot(q, x)
      requires c == Root(t) && Linked(t, x) && Distinct(t) && PathDistinct(q) && Nodes(t) !! PNodes(q)
      modifies p`left, RootSet(t)`parent
      ensures Zip(t, q)
    {
      assert RootSet(t) <= Nodes(t);
      assert allocated(Nodes(t)) && allocated(PNodes(q));
      p.left := c;
      assert PathLinked(q.up, p) && Linked(q.right, p);
      SetParent(c, p, t, x);
    }

    /** `x`, a copy of `node`, takes its place (src/rbtree.c:272-273 and 284-290). */
    method Substitute(node: Node, x: Node, ghost f: Shape, ghost q: Path)
      requires Zip(f, q) && f.Branch? && f.node == node && x !in Nodes(f) && x !in PNodes(q)
      requires x.left == node.left && x.right == node.right && x.parent == node.parent && x.red == node.red
      modifies this`root, PNodeSet(q)`left, PNodeSet(q)`right, (RootSet(f.left) + RootSet(f.right))`parent
      ensures Zip(f.(node := x), q)
    {
      hide Nodes, PNodes, Distinct, PathDistinct, PathRoot, RootSet, PNodeSet;
      ghost var l, r := f.left, f.right;
      BranchApart(l, node, f.red, r, q);
      BranchApart(l, x, f.red, r, q);
      assert allocated(Nodes(l)) && allocated(Nodes(r)) && allocated(PNodes(q));
      SetParent(x.left, x, l, node);
      SetParent(x.right, x, r, node);
      ReplaceChild(node.parent, node, x, q);
      assert Linked(l, x) && Linked(r, x);
    }

    lemma MinZip(r: Shape, p: Path)
      requires r.Branch?
      ensures Zip(r, p) <==> Zip(MinTree(r), MinPath(r, p))
      ensures Zip(DropMin(r), p) <==> Zip(MinTree(r).right, MinPath(r, p))
      ensures Nodes(MinTree(r)) + PNodes(MinPath(r, p)) == Nodes(r) + PNodes(p)
    {
      MinParts(r, p);
      ZipHolds(r, p);
      ZipHolds(MinTree(r), MinPath(r, p));
      ZipHolds(DropMin(r), p);
      ZipHolds(MinTree(r).right, MinPath(r, p));
    }

    /** `x`, the first node of `r`, becomes a copy of `node` and is cut out of `r`
        (src/rbtree.c:265-270). */
    method CutMin(node: Node, x: Node, ghost r: Shape, ghost q: Path) returns (c: Node?, p: Node)
      requires Zip(r, q) && q.InRight? && q.node == node && r.Branch? && r.left.Branch? && MinNode(r) == x
      modifies (Nodes(r) + PNodes(q))`left, (Nodes(r) + PNodes(q))`right,
        (Nodes(r) + PNodes(q))`parent, (Nodes(r) + PNodes(q))`red
      ensures Zip(DropMin(r), q) && x !in Nodes(DropMin(r)) && x !in PNodes(q)
      ensures x.left == node.left && x.right == node.right && x.parent == node.parent && x.red == node.red
      ensures c == Root(MinTree(r).right) && p == PNode(MinPath(r, q))
    {
      MinZip(r, q);
      MinParts(r, q);
      DropMinNodes(r);
      ghost var m, mp := MinTree(r), MinPath(r, q);
      assert Linked(m.right, x) && Distinct(m) && x !in PNodes(mp) && x !in PNodes(q);
      c := x.right;
      p := x.parent;
      assert allocated(Nodes(m.right)) && allocated(PNodes(mp));
      x.left, x.right, x.parent, x.red := node.left, node.right, node.parent, node.red;
      assert PathLinked(mp, x) && Linked(m.right, x);
      Detach(x, p, c, m.right, mp);
      MinZip(r, q);
    }

    /** The successor is deeper: it is cut out and takes the node's place (src/rbtree.c:265-273). */
    method UnlinkDeep(node: Node, x: Node, ghost f: Shape, ghost q: Path) returns (c: Node?, p: Node)
      requires Zip(f, q) && f.Branch? && f.node == node && f.left.Branch? && f.right.Branch?
      requires f.right.left.Branch? && MinNode(f.right) == x
      modifies this`root, (Nodes(f) + PNodes(q))`left, (Nodes(f) + PNodes(q))`right,
        (Nodes(f) + PNodes(q))`parent, (Nodes(f) + PNodes(q))`red
      ensures Zip(Branch(f.left, x, f.red, DropMin(f.right)), q)
      ensures c == Root(MinTree(f.right).right) && p == PNode(MinPath(f.right, InRight(q, f.left, x, f.red)))
    {
      ghost var l, r, base := f.left, f.right, InRight(q, f.left, node, f.red);
      ZipRight(r, base);
      DropMinNodes(r);
      MinPathNode(r, base, InRight(q, l, x, f.red));
      c, p := CutMin(node, x, r, base);
      ZipRight(DropMin(r), base);
      ghost var f' := Branch(l, node, f.red, DropMin(r));
      assert RootSet(l) <= Nodes(l) && RootSet(DropMin(r)) <= Nodes(DropMin(r)) && PNodeSet(q) <= PNodes(q);
      Substitute(node, x, f', q);
    }

    /** The first half of `rb_erase` (src/rbtree.c:254-290): `node` is out of the tree, and the
        subtree rooted at `c`, below `p`, has taken the place of a node of colour `red`. */
    method Unlink(node: Node, ghost f: Shape, ghost q: Path)
      returns (red: bool, c: Node?, p: Node?, ghost t: Shape, ghost u: Path)
      requires Zip(f, q) && f.Branch? && f.node == node
      modifies this`root, (Nodes(f) + PNodes(q))`left, (Nodes(f) + PNodes(q))`right,
        (Nodes(f) + PNodes(q))`parent, (Nodes(f) + PNodes(q))`red
      ensures Zip(t, u) && c == Root(t) && p == PNode(u)
      ensures Unlinked(f, q, red, t, u)
    {
      if node.left != null && node.right != null {
        ghost var l, r := f.left, f.right;
        assert Linked(r, node);
        assert allocated(Nodes(f)) && allocated(PNodes(q));
        var x := Leftmost(node.right, r, node);
        MinLinked(r, node);
        red := x.red;
        if x == node.right {
          c, p := x.right, x;
          UnlinkAdjacent(node, x, f, q);
        } else {
          c, p := UnlinkDeep(node, x, f, q);
        }
        ghost var base := InRight(q, l, x, f.red);
        ZipRight(DropMin(r), base);
        MinZip(r, base);
        t, u := MinTree(r).right, MinPath(r, base);
      } else {
        red := node.red;
        c, p, t := UnlinkSingle(node, f, q);
        u := q;
      }
    }

    /** `rb_erase` (src/rbtree.c:249-294) removes exactly the given node. */
    method Erase(node: Node) returns (ghost k: nat)
      requires Valid() && node in Nodes(shape)
      modifies this, Nodes(shape)`left, Nodes(shape)`right, Nodes(shape)`parent, Nodes(shape)`red
      ensures Valid()
      ensures k < |old(Inorder(shape))| && old(Inorder(shape))[k] == node
      ensures Inorder(shape) == old(Inorder(shape))[..k] + old(Inorder(shape))[k + 1..]
      ensures Nodes(shape) == old(Nodes(shape)) - {node}
    {
      ghost var f, q := FocusOn(node);
      PlugNodes(f, q);
      var red, c, p;
      ghost var t, u;
      red, c, p, t, u := Unlink(node, f, q);
      UnlinkedInorder(f, q, red, t, u);
      UnlinkedNodes(f, q, red, t, u);
      ghost var h := UnlinkedBalanced(f, q, red, t, u);
      ZipHolds(t, u);
      k := SpliceIndex(Pre(q) + Inorder(f.left), node, Inorder(f.right) + Post(q));
      if !red {
        EraseFix(c, p, t, u, h);
      } else {
        shape := Plug(t, u);
        ghost var g := PlugBalanced(t, u, h);
      }
    }

    /** Linking a new node into an empty slot of a red-black tree and rebalancing it. */
    method LinkInsert(node: Node, parent: Node?, left: bool, ghost p: Path) returns (ghost i: nat)
      requires Valid() && Plug(Leaf, p) == shape && node !in Nodes(shape)
      requires parent == PNode(p) && (parent != null ==> left == p.InLeft?)
      modifies this, ({node} + Nodes(shape))`left, ({node} + Nodes(shape))`right,
        ({node} + Nodes(shape))`parent, ({node} + Nodes(shape))`red
      ensures Valid() && Nodes(shape) == {node} + old(Nodes(shape))
      ensures i == |Pre(p)| <= |old(Inorder(shape))|
      ensures Inorder(shape) == old(Inorder(shape))[..i] + [node] + old(Inorder(shape))[i..]
    {
      PlugInorder(Leaf, p);
      ZipHolds(Leaf, p);
      ghost var h := UnplugBalanced(Leaf, p);
      i := SpliceIn(Pre(p), node, Post(p));
      assert PNodeSet(p) <= PNodes(p);
      Link(node, parent, left, p);
      Insert(node, p);
    }
  }
}
