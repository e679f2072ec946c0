/**
 The intrusive circular list (src/list.c): the head and the entries form a ring, and the contents of the
 list are the entries in the order of `next`.
 */
module List {
  import opened Collections

  /** `struct list_head`. */
  class Link {
    var next: Link?
    var prev: Link?

    constructor () {
      next, prev := null, null;
    }
  }

  function After(i: nat, n: nat): nat
    requires i < n
  {
    if i + 1 == n then 0 else i + 1
  }

  /** Every node points to the one after it, and is pointed back to; the last one is before the first. */
  ghost predicate Ring(ring: seq<Link>)
    reads ring
  {
    && ring != [] && NoDup(ring)
    && (forall i: nat :: i < |ring| ==> ring[i].next == ring[After(i, |ring|)])
    && (forall i: nat :: i < |ring| ==> ring[After(i, |ring|)].prev == ring[i])
  }

  /** The list at `head` holds exactly `s`. */
  ghost predicate Holds(head: Link, s: seq<Link>)
    reads head, s
  {
    Ring([head] + s)
  }

  /** `list_init` (src/list.c:3-4). */
  method ListInit(head: Link)
    modifies head
    ensures Holds(head, [])
  {
    head.next := head;
    head.prev := head;
  }

  /** `list_insert` (src/list.c:6-13), between node `i` of a ring and the one after it. */
  method ListInsert(new_: Link, prev: Link, next: Link, ghost ring: seq<Link>, ghost i: nat)
    requires Ring(ring) && i < |ring| && new_ !in ring && prev == ring[i] && next == ring[After(i, |ring|)]
    modifies new_, prev, next
    ensures Ring(ring[..i + 1] + [new_] + ring[i + 1..])
  {
    hide Ring;
    ghost var p, q := ring[..i + 1], ring[i + 1..];
    RingSegment(ring);
    SegmentSplit(ring, i + 1);
    new_.prev := prev;
    new_.next := next;
    prev.next := new_;
    next.prev := new_;
    assert Segment(p) && Segment(q);
    SegmentJoin(p, [new_]);
    SegmentJoin(p + [new_], q);
    Inserted(ring, new_, i, p + [new_] + q);
    RingSegment(p + [new_] + q);
  }

  /** The nodes of `s` point to each other. */
  ghost predicate Segment(s: seq<Link>)
    reads s
  {
    forall i: nat :: i + 1 < |s| ==> s[i].next == s[i + 1] && s[i + 1].prev == s[i]
  }

  lemma RingSegment(ring: seq<Link>)
    ensures Ring(ring) <==>
      ring != [] && NoDup(ring) && Segment(ring) && ring[|ring| - 1].next == ring[0] && ring[0].prev == ring[|ring| - 1]
  {
    if Ring(ring) {
      assert ring[|ring| - 1].next == ring[After(|ring| - 1, |ring|)];
      forall i: nat | i + 1 < |ring| ensures ring[i].next == ring[i + 1] && ring[i + 1].prev == ring[i] {
        assert After(i, |ring|) == i + 1;
      }
    }
  }

  lemma SegmentSplit(s: seq<Link>, k: nat)
    requires Segment(s) && k <= |s|
    ensures Segment(s[..k]) && Segment(s[k..])
  {
    forall i: nat | i + 1 < |s[k..]| ensures s[k..][i].next == s[k..][i + 1] && s[k..][i + 1].prev == s[k..][i] {
      assert s[k + i].next == s[k + i + 1];
    }
  }

  lemma SegmentJoin(a: seq<Link>, b: seq<Link>)
    requires Segment(a) && Segment(b) && (a != [] && b != [] ==> a[|a| - 1].next == b[0] && b[0].prev == a[|a| - 1])
    ensures Segment(a + b)
  {
    var s := a + b;
    forall i: nat | i + 1 < |s| ensures s[i].next == s[i + 1] && s[i + 1].prev == s[i] {
      if i >= |a| { assert b[i - |a|].next == b[i - |a| + 1]; }
    }
  }

  lemma Inserted(ring: seq<Link>, x: Link, i: nat, now: seq<Link>)
    requires NoDup(ring) && x !in ring && i < |ring| && now == ring[..i + 1] + [x] + ring[i + 1..]
    ensures NoDup(now) && |now| == |ring| + 1
    ensures forall j: nat :: j < |now| ==> now[j] == if j <= i then ring[j] else if j == i + 1 then x else ring[j - 1]
  {
  }

  /** `list_add` (src/list.c:15-16). */
  method ListAdd(new_: Link, head: Link, ghost s: seq<Link>)
    requires Holds(head, s) && new_ != head && new_ !in s
    modifies new_, head, s
    ensures Holds(head, [new_] + s)
  {
    ghost var ring := [head] + s;
    assert ring[0].next == ring[After(0, |ring|)];
    var next: Link := head.next;
    ListInsert(new_, head, next, ring, 0);
    assert ring[..1] + [new_] + ring[1..] == [head] + ([new_] + s);
  }

  /** `list_add_tail` (src/list.c:18-19). */
  method ListAddTail(new_: Link, head: Link, ghost s: seq<Link>)
    requires Holds(head, s) && new_ != head && new_ !in s
    modifies new_, head, s
    ensures Holds(head, s + [new_])
  {
    ghost var ring := [head] + s;
    ghost var last := |ring| - 1;
    assert After(last, |ring|) == 0;
    var prev: Link := head.prev;
    ListInsert(new_, prev, head, ring, last);
    assert ring[..last + 1] + [new_] + ring[last + 1..] == [head] + (s + [new_]);
  }

  /** `list_del` (src/list.c:21-32): the entry leaves its list and points nowhere. */
  method ListDel(entry: Link, ghost head: Link, ghost s: seq<Link>, ghost k: nat)
    requires Holds(head, s) && k < |s| && entry == s[k]
    modifies head, s
    ensures Holds(head, s[..k] + s[k + 1..]) && entry.next == null && entry.prev == null
  {
    ghost var ring := [head] + s;
    assert ring[k + 1] == entry && After(k, |ring|) == k + 1;
    var prev: Link, next: Link := entry.prev, entry.next;
    prev.next := next;
    next.prev := prev;
    entry.next := null;
    entry.prev := null;
    ghost var now := [head] + (s[..k] + s[k + 1..]);
    Deleted(head, s, k, now);
    forall j: nat | j < |now| ensures now[j].next == now[After(j, |now|)] && now[After(j, |now|)].prev == now[j] {
      if j != k {
        ghost var i := if j < k then j else j + 1;
        assert ring[i] == now[j] && ring[After(i, |ring|)] == now[After(j, |now|)];
      }
    }
  }

  lemma Deleted(head: Link, s: seq<Link>, k: nat, now: seq<Link>)
    requires NoDup([head] + s) && k < |s| && now == [head] + (s[..k] + s[k + 1..])
    ensures NoDup(now) && |now| == |s| && s[k] !in now
    ensures forall j: nat :: j < |now| ==> now[j] == ([head] + s)[if j <= k then j else j + 1]
  {
    var ring := [head] + s;
    forall j: nat | j < |now| ensures now[j] == ring[if j <= k then j else j + 1] && now[j] != ring[k + 1] {
    }
  }

  /** `list_empty` (src/list.c:54-55). */
  method ListEmpty(head: Link, ghost s: seq<Link>) returns (empty: bool)
    requires Holds(head, s)
    ensures empty <==> s == []
  {
    empty := head.next == head;
    assert ([head] + s)[0] == head;
  }

  /** `list_first` (src/list.c:57-58). */
  method ListFirst(head: Link, ghost s: seq<Link>) returns (first: Link)
    requires Holds(head, s)
    ensures first == if s == [] then head else s[0]
  {
    ghost var ring := [head] + s;
    assert ring[0] == head;
    first := head.next;
  }

  /** `list_splice` (src/list.c:34-52): all entries of `list` move to the front of the other list. */
  method ListSplice(list: Link, head: Link, ghost a: seq<Link>, ghost b: seq<Link>)
    requires Holds(list, a) && Holds(head, b) && list != head && list !in b && head !in a
    requires forall x :: x in a ==> x !in b
    modifies list, head, a, b
    ensures Holds(list, []) && Holds(head, a + b)
  {
    hide Ring, Holds;
    var empty := ListEmpty(list, a);
    if empty {
      assert a + b == b;
      return;
    }
    RingParts(list, a);
    RingParts(head, b);
    Rest(list, a);
    Rest(head, b);
    var first: Link, last: Link, next: Link := list.next, list.prev, head.next;
    first.prev := head;
    head.next := first;
    last.next := next;
    next.prev := last;
    assert Segment(a) && Segment(b);
    JoinedRing(head, a, b);
    ListInit(list);
  }

  lemma RingParts(head: Link, s: seq<Link>)
    requires Holds(head, s)
    ensures NoDup([head] + s) && Segment(s)
    ensures s == [] ==> head.next == head == head.prev
    ensures s != [] ==> head.next == s[0] && s[0].prev == head && head.prev == s[|s| - 1] && s[|s| - 1].next == head
  {
    var ring := [head] + s;
    RingSegment(ring);
    SegmentSplit(ring, 1);
    assert ring[1..] == s;
    if s != [] { assert ring[0].next == ring[1]; }
  }

  lemma JoinedRing(head: Link, a: seq<Link>, b: seq<Link>)
    requires NoDup(a) && NoDup(b) && head !in a && head !in b && (forall x :: x in a ==> x !in b)
    requires a != [] && Segment(a) && Segment(b) && head.next == a[0] && a[0].prev == head
    requires if b == [] then a[|a| - 1].next == head && head.prev == a[|a| - 1]
             else
               && a[|a| - 1].next == b[0] && b[0].prev == a[|a| - 1]
               && b[|b| - 1].next == head && head.prev == b[|b| - 1]
    ensures Holds(head, a + b)
  {
    var ring := [head] + (a + b);
    SegmentJoin(a, b);
    SegmentJoin([head], a + b);
    Joined(a, b);
    Fronted(head, a + b);
    assert ring[|ring| - 1] == if b == [] then a[|a| - 1] else b[|b| - 1];
    RingSegment(ring);
  }

  lemma Rest(x: Link, a: seq<Link>)
    requires NoDup([x] + a)
    ensures x !in a && NoDup(a)
  {
    var ra := [x] + a;
    forall j | 0 <= j < |a| ensures a[j] != x { assert ra[j + 1] != ra[0]; }
    forall i, j | 0 <= i < j < |a| ensures a[i] != a[j] { assert ra[i + 1] != ra[j + 1]; }
  }

  lemma Joined(a: seq<Link>, b: seq<Link>)
    requires NoDup(a) && NoDup(b) && forall x :: x in a ==> x !in b
    ensures NoDup(a + b)
  {
    forall i, j | 0 <= i < j < |a + b| ensures (a + b)[i] != (a + b)[j] {
      if i < |a| <= j { assert a[i] in a && b[j - |a|] in b; }
    }
  }

  lemma Fronted(x: Link, a: seq<Link>)
    requires NoDup(a) && x !in a
    ensures NoDup([x] + a)
  {
  }

  /** `list_size` (src/list.c:60-68). */
  method ListSize(head: Link, ghost s: seq<Link>) returns (size: nat)
    requires Holds(head, s)
    ensures size == |s|
  {
    ghost var ring := [head] + s;
    assert ring[0] == head;
    size := 0;
    var pos: Link := head.next;
    while pos != head
      invariant size <= |s| && pos == ring[After(size, |ring|)]
      decreases |s| - size
    {
      pos := pos.next;
      size := size + 1;
    }
  }
}
