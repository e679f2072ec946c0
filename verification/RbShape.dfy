/**
 The mathematical side of the red-black tree: tree shapes, one-hole contexts, and the
 balance invariants, all as values.  Module RbTree ties them to linked nodes.
 */
module RbShape {
  import opened Collections

  /** A linked node (inc/rbtree.h:7-11).  The colour bit that the program keeps in the low bit
      of the parent word is the field `red`; `begin` and `end` are the payload of the enclosing
      `memory_node` (inc/balloc.h:11-18), which tree operations never touch. */
  class Node {
    var left: Node?
    var right: Node?
    var parent: Node?
    var red: bool
    var begin: int
    var end: int

    constructor (begin: int, end: int)
      ensures this.begin == begin && this.end == end
    {
      this.begin, this.end := begin, end;
      left, right, parent, red := null, null, null, true;
    }
  }

  datatype Shape = Leaf | Branch(left: Shape, node: Node, red: bool, right: Shape)

  /** The way from a subtree up to the root of the tree it sits in. */
  datatype Path =
    | Top
    | InLeft(up: Path, node: Node, red: bool, right: Shape)
    | InRight(up: Path, left: Shape, node: Node, red: bool)

  function Root(t: Shape): Node? {
    if t.Leaf? then null else t.node
  }

  function PNode(p: Path): Node? {
    if p.Top? then null else p.node
  }

  ghost function Nodes(t: Shape): set<Node> {
    if t.Leaf? then {} else Nodes(t.left) + {t.node} + Nodes(t.right)
  }

  ghost function PNodes(p: Path): set<Node> {
    match p
    case Top => {}
    case InLeft(up, n, _, r) => PNodes(up) + {n} + Nodes(r)
    case InRight(up, l, n, _) => PNodes(up) + {n} + Nodes(l)
  }

  /** The root of the whole tree when the hole of `p` is filled with a tree rooted at `child`. */
  ghost function PathRoot(p: Path, child: Node?): Node? {
    if p.Top? then child else PathRoot(p.up, p.node)
  }

  ghost function Plug(t: Shape, p: Path): Shape
    decreases p
  {
    match p
    case Top => t
    case InLeft(up, n, c, r) => Plug(Branch(t, n, c, r), up)
    case InRight(up, l, n, c) => Plug(Branch(l, n, c, t), up)
  }

  ghost function Depth(p: Path): nat {
    if p.Top? then 0 else 1 + Depth(p.up)
  }

  // ---- in-order sequences ------------------------------------------------------------------

  ghost function Inorder(t: Shape): seq<Node> {
    if t.Leaf? then [] else Inorder(t.left) + [t.node] + Inorder(t.right)
  }

  /** The nodes of a context that come before, and after, its hole. */
  ghost function Pre(p: Path): seq<Node> {
    match p
    case Top => []
    case InLeft(up, _, _, _) => Pre(up)
    case InRight(up, l, n, _) => Pre(up) + Inorder(l) + [n]
  }

  ghost function Post(p: Path): seq<Node> {
    match p
    case Top => []
    case InLeft(up, n, _, r) => [n] + Inorder(r) + Post(up)
    case InRight(up, _, _, _) => Post(up)
  }

  /** Bracketing of concatenations, on plain sequences so that no tree gets unfolded. */
  lemma Reassociate(a: seq<Node>, x: Node, b: seq<Node>, y: Node, c: seq<Node>)
    ensures a + [x] + (b + [y] + c) == (a + [x] + b) + [y] + c
  {
  }

  lemma ReassociateLeft(a: seq<Node>, b: seq<Node>, x: Node, c: seq<Node>, d: seq<Node>)
    ensures a + (b + [x] + c) + d == a + b + ([x] + c + d)
  {
  }

  lemma ReassociateRight(a: seq<Node>, b: seq<Node>, x: Node, c: seq<Node>, d: seq<Node>)
    ensures a + (b + [x] + c) + d == (a + b + [x]) + c + d
  {
  }

  lemma {:induction false} PlugInorder(t: Shape, p: Path)
    ensures Inorder(Plug(t, p)) == Pre(p) + Inorder(t) + Post(p)
    decreases p
  {
    match p
    case Top =>
    case InLeft(up, n, c, r) =>
      PlugInorder(Branch(t, n, c, r), up);
      ReassociateLeft(Pre(up), Inorder(t), n, Inorder(r), Post(up));
    case InRight(up, l, n, c) =>
      PlugInorder(Branch(l, n, c, t), up);
      ReassociateRight(Pre(up), Inorder(l), n, Inorder(t), Post(up));
  }

  /** Where the root of the focus stands in the whole order. */
  lemma {:induction false} FocusIndex(t: Shape, p: Path)
    requires t.Branch?
    ensures |Inorder(t)| == |Inorder(t.left)| + 1 + |Inorder(t.right)|
    ensures |Inorder(Plug(t, p))| == |Pre(p)| + |Inorder(t)| + |Post(p)|
    ensures Inorder(Plug(t, p))[|Pre(p)| + |Inorder(t.left)|] == t.node
    ensures |Pre(InRight(p, t.left, t.node, t.red))| == |Pre(p)| + |Inorder(t.left)| + 1
    ensures Pre(InLeft(p, t.node, t.red, t.right)) == Pre(p)
  {
    PlugInorder(t, p);
    ConcatIndex(Pre(p), Inorder(t.left), t.node, Inorder(t.right), Post(p));
  }

  lemma ConcatIndex(a: seq<Node>, l: seq<Node>, x: Node, r: seq<Node>, b: seq<Node>)
    ensures var s := a + (l + [x] + r) + b;
      |s| == |a| + |l| + 1 + |r| + |b| && s[|a| + |l|] == x
  {
  }

  lemma SameInorder(t: Shape, t': Shape, p: Path)
    requires Inorder(t) == Inorder(t')
    ensures Inorder(Plug(t, p)) == Inorder(Plug(t', p))
  {
    PlugInorder(t, p);
    PlugInorder(t', p);
  }

  // ---- no sharing --------------------------------------------------------------------------

  ghost predicate Distinct(t: Shape) {
    t.Branch? ==>
      && Distinct(t.left) && Distinct(t.right)
      && t.node !in Nodes(t.left) && t.node !in Nodes(t.right)
      && Nodes(t.left) !! Nodes(t.right)
  }

  ghost predicate PathDistinct(p: Path) {
    match p
    case Top => true
    case InLeft(up, n, _, r) =>
      && PathDistinct(up) && Distinct(r)
      && n !in PNodes(up) && n !in Nodes(r) && Nodes(r) !! PNodes(up)
    case InRight(up, l, n, _) =>
      && PathDistinct(up) && Distinct(l)
      && n !in PNodes(up) && n !in Nodes(l) && Nodes(l) !! PNodes(up)
  }

  lemma {:induction false} PlugNodes(t: Shape, p: Path)
    ensures Nodes(Plug(t, p)) == Nodes(t) + PNodes(p)
    ensures Root(Plug(t, p)) == PathRoot(p, Root(t))
    decreases p
  {
    match p
    case Top =>
    case InLeft(up, n, c, r) => PlugNodes(Branch(t, n, c, r), up);
    case InRight(up, l, n, c) => PlugNodes(Branch(l, n, c, t), up);
  }

  lemma {:induction false} PlugDistinct(t: Shape, p: Path)
    ensures Distinct(Plug(t, p)) <==> Distinct(t) && PathDistinct(p) && Nodes(t) !! PNodes(p)
    decreases p
  {
    match p
    case Top =>
    case InLeft(up, n, c, r) => PlugDistinct(Branch(t, n, c, r), up);
    case InRight(up, l, n, c) => PlugDistinct(Branch(l, n, c, t), up);
  }

  lemma {:induction false} InorderNodes(t: Shape)
    ensures forall i :: 0 <= i < |Inorder(t)| ==> Inorder(t)[i] in Nodes(t)
  {
    if t.Branch? {
      InorderNodes(t.left);
      InorderNodes(t.right);
    }
  }

  lemma {:induction false} NodeInInorder(t: Shape, n: Node)
    ensures n in Nodes(t) <==> n in Inorder(t)
  {
    if t.Branch? {
      NodeInInorder(t.left, n);
      NodeInInorder(t.right, n);
    }
  }

  lemma {:induction false} InorderNoDup(t: Shape)
    requires Distinct(t)
    ensures NoDup(Inorder(t))
  {
    if t.Branch? {
      InorderNoDup(t.left);
      InorderNoDup(t.right);
      InorderNodes(t.left);
      InorderNodes(t.right);
      var l, r := Inorder(t.left), Inorder(t.right);
      var s := l + [t.node] + r;
      forall i, j | 0 <= i < j < |s| ensures s[i] != s[j] {
        if i < |l| { assert s[i] == l[i]; }
        if j > |l| { assert s[j] == r[j - |l| - 1]; }
        if i > |l| { assert s[i] == r[i - |l| - 1]; }
      }
    }
  }

  /** Every node of a tree is the root of some subtree of it. */
  lemma {:induction false} Focus(t: Shape, p: Path, n: Node) returns (f: Shape, q: Path)
    requires n in Nodes(t)
    ensures f.Branch? && f.node == n
    ensures Plug(f, q) == Plug(t, p)
    decreases t
  {
    if t.node == n {
      f, q := t, p;
    } else if n in Nodes(t.left) {
      f, q := Focus(t.left, InLeft(p, t.node, t.red, t.right), n);
    } else {
      f, q := Focus(t.right, InRight(p, t.left, t.node, t.red), n);
    }
  }

  // ---- balance -----------------------------------------------------------------------------

  predicate IsRed(t: Shape) {
    t.Branch? && t.red
  }

  predicate RedTop(p: Path) {
    !p.Top? && p.red
  }

  /** Black height `h` on every way down, and no red node with a red child. */
  ghost predicate Balanced(t: Shape, h: int) {
    match t
    case Leaf => h == 0
    case Branch(l, _, red, r) =>
      if red then !IsRed(l) && !IsRed(r) && Balanced(l, h) && Balanced(r, h)
      else Balanced(l, h - 1) && Balanced(r, h - 1)
  }

  ghost predicate RedBlack(t: Shape) {
    !IsRed(t) && exists h :: Balanced(t, h)
  }

  /** A context that becomes a red-black tree when a black subtree of black height `h` is put in
      the hole (and also when a red one is, unless the hole hangs below a red node). */
  ghost predicate Context(p: Path, h: int) {
    match p
    case Top => true
    case InLeft(up, _, red, r) =>
      && Balanced(r, h)
      && (if red then !up.Top? && !up.red && !IsRed(r) && Context(up, h) else Context(up, h + 1))
    case InRight(up, l, _, red) =>
      && Balanced(l, h)
      && (if red then !up.Top? && !up.red && !IsRed(l) && Context(up, h) else Context(up, h + 1))
  }

  lemma {:induction false} BalancedNonNegative(t: Shape, h: int)
    requires Balanced(t, h)
    ensures h >= 0
  {
    if t.Branch? {
      BalancedNonNegative(t.left, if t.red then h else h - 1);
    }
  }

  lemma {:induction false} PlugBalanced(t: Shape, p: Path, h: int) returns (k: int)
    requires Balanced(t, h) && Context(p, h)
    requires IsRed(t) ==> !RedTop(p)
    ensures Balanced(Plug(t, p), k)
    ensures IsRed(Plug(t, p)) ==> p.Top?
    decreases p
  {
    match p
    case Top => k := h;
    case InLeft(up, n, c, r) => k := PlugBalanced(Branch(t, n, c, r), up, if c then h else h + 1);
    case InRight(up, l, n, c) => k := PlugBalanced(Branch(l, n, c, t), up, if c then h else h + 1);
  }

  /** The converse: the parts of a red-black tree satisfy the invariants of parts. */
  lemma {:induction false} UnplugBalanced(t: Shape, p: Path) returns (h: int)
    requires RedBlack(Plug(t, p))
    ensures Balanced(t, h) && Context(p, h)
    ensures IsRed(t) ==> !p.Top? && !RedTop(p)
    decreases p
  {
    match p
    case Top => h :| Balanced(t, h);
    case InLeft(up, n, c, r) =>
      h := UnplugBalanced(Branch(t, n, c, r), up);
      h := if c then h else h - 1;
    case InRight(up, l, n, c) =>
      h := UnplugBalanced(Branch(l, n, c, t), up);
      h := if c then h else h - 1;
  }

  ghost function Height(t: Shape): nat {
    if t.Leaf? then 0
    else 1 + if Height(t.left) > Height(t.right) then Height(t.left) else Height(t.right)
  }

  ghost function Pow2(n: nat): nat {
    if n == 0 then 1 else 2 * Pow2(n - 1)
  }

  lemma {:induction false} Pow2Add(a: nat, b: nat)
    ensures Pow2(a + b) == Pow2(a) * Pow2(b)
  {
    if a > 0 {
      Pow2Add(a - 1, b);
      assert a + b - 1 == (a - 1) + b;
    }
  }

  lemma {:induction false} Pow2Monotone(a: nat, b: nat)
    requires a <= b
    ensures Pow2(a) <= Pow2(b)
  {
    if a < b { Pow2Monotone(a, b - 1); }
  }

  lemma SquareMonotone(a: nat, b: nat)
    requires a <= b
    ensures a * a <= b * b
  {
  }

  lemma {:induction false} BalancedSize(t: Shape, h: int)
    requires Balanced(t, h)
    ensures h >= 0
    ensures Pow2(h) <= |Inorder(t)| + 1
    ensures Height(t) <= 2 * h + if IsRed(t) then 1 else 0
  {
    if t.Branch? {
      var k := if t.red then h else h - 1;
      BalancedSize(t.left, k);
      BalancedSize(t.right, k);
    }
  }

  /** Height is at most 2 * log2(n + 1), stated without logarithms. */
  lemma {:induction false} RedBlackHeight(t: Shape)
    requires RedBlack(t)
    ensures Pow2(Height(t)) <= (|Inorder(t)| + 1) * (|Inorder(t)| + 1)
  {
    var h :| Balanced(t, h);
    BalancedSize(t, h);
    Pow2Monotone(Height(t), h + h);
    Pow2Add(h, h);
    SquareMonotone(Pow2(h), |Inorder(t)| + 1);
  }

  // ---- first and last nodes ----------------------------------------------------------------

  function MinNode(t: Shape): Node
    requires t.Branch?
  {
    if t.left.Leaf? then t.node else MinNode(t.left)
  }

  function MaxNode(t: Shape): Node
    requires t.Branch?
  {
    if t.right.Leaf? then t.node else MaxNode(t.right)
  }

  lemma {:induction false} MinNodeFirst(t: Shape)
    requires t.Branch?
    ensures |Inorder(t)| > 0 && Inorder(t)[0] == MinNode(t)
  {
    if t.left.Branch? { MinNodeFirst(t.left); }
  }

  lemma {:induction false} MaxNodeLast(t: Shape)
    requires t.Branch?
    ensures |Inorder(t)| > 0 && Inorder(t)[|Inorder(t)| - 1] == MaxNode(t)
  {
    if t.right.Branch? { MaxNodeLast(t.right); }
  }

  /** The subtree rooted at the first node of `t`, and its context when `t` sits at `p`. */
  ghost function MinTree(t: Shape): (m: Shape)
    requires t.Branch?
    ensures m.Branch?
  {
    if t.left.Leaf? then t else MinTree(t.left)
  }

  ghost function MinPath(t: Shape, p: Path): Path
    requires t.Branch?
    decreases t
  {
    if t.left.Leaf? then p else MinPath(t.left, InLeft(p, t.node, t.red, t.right))
  }

  /** `t` with its first node replaced by that node's right subtree. */
  ghost function DropMin(t: Shape): Shape
    requires t.Branch?
  {
    if t.left.Leaf? then t.right else Branch(DropMin(t.left), t.node, t.red, t.right)
  }

  lemma {:induction false} MinParts(t: Shape, p: Path)
    requires t.Branch?
    ensures MinTree(t).Branch? && MinTree(t).node == MinNode(t) && MinTree(t).left == Leaf
    ensures Plug(MinTree(t), MinPath(t, p)) == Plug(t, p)
    ensures Plug(MinTree(t).right, MinPath(t, p)) == Plug(DropMin(t), p)
    ensures t.left.Branch? ==> MinPath(t, p).InLeft? && DropMin(t).Branch? && DropMin(t).node == t.node
    decreases t
  {
    if t.left.Branch? {
      MinParts(t.left, InLeft(p, t.node, t.red, t.right));
    }
  }

  lemma {:induction false} DropMinInorder(t: Shape)
    requires t.Branch?
    ensures Inorder(t) == [MinNode(t)] + Inorder(DropMin(t))
  {
    if t.left.Branch? {
      DropMinInorder(t.left);
      PrependAssociate(MinNode(t), Inorder(DropMin(t.left)), t.node, Inorder(t.right));
    }
  }

  lemma PrependAssociate(x: Node, a: seq<Node>, n: Node, b: seq<Node>)
    ensures ([x] + a) + [n] + b == [x] + (a + [n] + b)
  {
  }

  lemma {:induction false} DropMinNodes(t: Shape)
    requires t.Branch? && Distinct(t)
    ensures MinNode(t) in Nodes(t) && Nodes(DropMin(t)) == Nodes(t) - {MinNode(t)}
    ensures Distinct(DropMin(t))
  {
    if t.left.Branch? { DropMinNodes(t.left); }
  }

  /** Only the subtree decides where the first node hangs, not the context. */
  lemma {:induction false} MinPathNode(t: Shape, p: Path, p': Path)
    requires t.Branch? && t.left.Branch?
    ensures PNode(MinPath(t, p)) == PNode(MinPath(t, p'))
    decreases t
  {
    var n := InLeft(p, t.node, t.red, t.right);
    var n' := InLeft(p', t.node, t.red, t.right);
    if t.left.left.Branch? { MinPathNode(t.left, n, n'); }
  }

  /** Black heights along the way to the first node: what is left of the hole's subtree when that
      node is taken out, and the context it then sits in. */
  lemma {:induction false} MinBalanced(t: Shape, p: Path, h: int) returns (k: int)
    requires t.Branch? && Balanced(t, h) && Context(p, h) && (IsRed(t) ==> !p.Top? && !RedTop(p))
    ensures Balanced(MinTree(t), k) && Context(MinPath(t, p), k)
    ensures IsRed(MinTree(t)) ==> !MinPath(t, p).Top? && !RedTop(MinPath(t, p))
    decreases t
  {
    if t.left.Branch? {
      k := MinBalanced(t.left, InLeft(p, t.node, t.red, t.right), if t.red then h else h - 1);
    } else {
      k := h;
    }
  }
}
