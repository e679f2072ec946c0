/**
 The queues of threads as the kernel keeps them: the run queue and the wait queues are intrusive lists
 (src/list.c) through nodes in the threads (inc/threads.h:17) and on the stacks of waiting threads
 (src/mutex.c:13-16); the list of a broadcast is walked with a cursor and never taken apart
 (src/condition.c:57-65).
 */
module Rings {
  import opened Collections
  import opened Threads
  import opened List

  /** The nodes from a cursor on lead to `head`, in order; what they point back to does not matter. */
  ghost predicate Chain(s: seq<Link>, head: Link)
    reads s
  {
    forall i :: 0 <= i < |s| ==> s[i].next == Succ(s, i, head)
  }

  ghost function Succ(s: seq<Link>, i: nat, head: Link): Link {
    if i + 1 < |s| then s[i + 1] else head
  }

  /** The nodes of the threads `ts`. */
  ghost function Along(node: map<Tid, Link>, ts: seq<Tid>): (s: seq<Link>)
    requires forall i :: 0 <= i < |ts| ==> ts[i] in node
    ensures |s| == |ts| && forall i :: 0 <= i < |s| ==> s[i] == node[ts[i]] && s[i] in node.Values
  {
    seq(|ts|, i requires 0 <= i < |ts| => node[ts[i]])
  }

  /** Who is queued is known, is on a queue once, and on one wait queue only. */
  ghost predicate SoundQs(qs: Queues, hs: set<Queue>, ts: set<Tid>) {
    && (forall q, t :: t in Q(qs, q) ==> t in ts)
    && (forall q :: Q(qs, q) != [] ==> q in hs)
    && (forall q :: NoDup(Q(qs, q)))
    && (forall q, r, t :: t in Q(qs, q) && t in Q(qs, r) && q != r ==> q == RunQ || r == RunQ)
  }

  /** A thread is on no wait queue but possibly `q`; the run queue has nodes of its own. */
  ghost predicate NotBeside(qs: Queues, q: Queue, t: Tid) {
    q != RunQ ==> forall r :: r != RunQ && r != q ==> t !in Q(qs, r)
  }

  /** One thread has joined a queue. */
  lemma MembersSound(qs: Queues, qs': Queues, hs: set<Queue>, ts: set<Tid>, q: Queue, t: Tid)
    requires SoundQs(qs, hs, ts) && q in hs && t in ts && NotBeside(qs, q, t) && forall r :: NoDup(Q(qs', r))
    requires forall r, u :: u in Q(qs', r) <==> u in Q(qs, r) || (r == q && u == t)
    ensures SoundQs(qs', hs, ts)
  {
    hide NoDup;
    forall r, u | u in Q(qs', r) ensures u in ts { assert u in Q(qs, r) || (r == q && u == t); }
    forall r | Q(qs', r) != [] ensures r in hs {
      var u := Q(qs', r)[0];
      assert u in Q(qs', r);
    }
    forall p, r, u | u in Q(qs', p) && u in Q(qs', r) && p != r ensures p == RunQ || r == RunQ {
      assert u in Q(qs, p) || (p == q && u == t);
      assert u in Q(qs, r) || (r == q && u == t);
    }
  }

  lemma PushSound(qs: Queues, hs: set<Queue>, ts: set<Tid>, q: Queue, t: Tid)
    requires SoundQs(qs, hs, ts) && q in hs && t in ts && t !in Q(qs, q) && NotBeside(qs, q, t)
    ensures SoundQs(Push(qs, q, t), hs, ts)
  {
    var qs' := Push(qs, q, t);
    forall r ensures NoDup(Q(qs', r)) { PushQ(qs, q, t, r); }
    forall r, u ensures u in Q(qs', r) <==> u in Q(qs, r) || (r == q && u == t) { PushQ(qs, q, t, r); }
    MembersSound(qs, qs', hs, ts, q, t);
  }

  lemma PopSound(qs: Queues, hs: set<Queue>, ts: set<Tid>, q: Queue)
    requires SoundQs(qs, hs, ts) && Q(qs, q) != []
    ensures SoundQs(Pop(qs, q), hs, ts)
  {
    var qs' := Pop(qs, q);
    forall r, u ensures u in Q(qs', r) ==> u in Q(qs, r) { PopQ(qs, q, r, u); }
    forall r ensures NoDup(Q(qs', r)) { PopQ(qs, q, r, 0); }
    forall r, u | u in Q(qs', r) ensures u in ts { assert u in Q(qs, r); }
    forall p, r, u | u in Q(qs', p) && u in Q(qs', r) && p != r ensures p == RunQ || r == RunQ {
      assert u in Q(qs, p) && u in Q(qs, r);
    }
  }

  lemma SpliceSound(qs: Queues, hs: set<Queue>, ts: set<Tid>, q: Queue, r: Queue)
    requires SoundQs(qs, hs, ts) && q != RunQ && r != RunQ && q != r && Q(qs, r) == []
    ensures SoundQs(qs[r := Q(qs, q)][q := []], hs + {r}, ts)
  {
    var qs' := qs[r := Q(qs, q)][q := []];
    forall p, u | u in Q(qs', p) ensures u in ts && u in Q(qs, if p == r then q else p) {
      assert Q(qs', p) == if p == q then [] else if p == r then Q(qs, q) else Q(qs, p);
      assert u in Q(qs, if p == r then q else p);
    }
    forall o, p, u | u in Q(qs', o) && u in Q(qs', p) && o != p ensures o == RunQ || p == RunQ {
      assert u in Q(qs, if o == r then q else o) && u in Q(qs, if p == r then q else p);
      assert Q(qs', q) == [];
    }
    forall p ensures NoDup(Q(qs', p)) {
      assert Q(qs', p) == if p == q then [] else if p == r then Q(qs, q) else Q(qs, p);
    }
  }

  /** In memory the queue with this head runs through the nodes `s`; a broadcast has come to the first. */
  ghost predicate ShownAt(q: Queue, head: Link, s: seq<Link>, cursor: Link?)
    reads head, s
  {
    if q.FlightQ? then Chain(s, head) && cursor == (if s == [] then head else s[0]) else Holds(head, s)
  }

  /** The maps behind the queues, as a value. */
  datatype Table = Table(heads: map<Queue, Link>, links: map<Tid, Link>, waits: map<Tid, Link>, owner: map<Link, Tid>,
                         cursors: map<Tid, Link>, qs: Queues)
  {
    /** The nodes that a queue runs through. */
    function Node(q: Queue): map<Tid, Link> { if q == RunQ then links else waits }

    /** All nodes are different. */
    ghost predicate Apart() {
      && (forall q, r :: q in heads && r in heads && q != r ==> heads[q] != heads[r])
      && (forall q, t :: q in heads && t in links ==> heads[q] != links[t])
      && (forall q, t :: q in heads && t in waits ==> heads[q] != waits[t])
      && (forall t, u :: t in links && u in waits ==> links[t] != waits[u])
      && (forall t :: t in links ==> links[t] in owner && owner[links[t]] == t)
      && (forall t :: t in waits ==> waits[t] in owner && owner[waits[t]] == t)
    }

    ghost predicate Sound() {
      links.Keys == waits.Keys && SoundQs(qs, heads.Keys, links.Keys) && RunQ in heads && Apart()
    }

    /** The nodes of a queue, in order. */
    ghost function Nodes(q: Queue): seq<Link>
      requires Sound()
    {
      assert forall i :: 0 <= i < |Q(qs, q)| ==> Q(qs, q)[i] in Q(qs, q);
      Along(Node(q), Q(qs, q))
    }

    /** The links in memory are those of the queue. */
    ghost predicate Shows(q: Queue)
      requires Sound() && q in heads
      reads heads[q], Nodes(q)
    {
      ShownAt(q, heads[q], Nodes(q), Cursor(q))
    }

    function Cursor(q: Queue): Link? {
      if q.FlightQ? && q.sender in cursors then cursors[q.sender] else null
    }
  }

  /** No node of one queue is a node of another. */
  lemma QueuesApart(tb: Table, q: Queue, r: Queue, i: nat, j: nat)
    requires tb.Sound() && q != r && i < |Q(tb.qs, q)| && j < |Q(tb.qs, r)|
    ensures tb.Nodes(q)[i] != tb.Nodes(r)[j]
  {
    var t, u := Q(tb.qs, q)[i], Q(tb.qs, r)[j];
    assert t in Q(tb.qs, q) && u in Q(tb.qs, r);
    if q != RunQ && r != RunQ { assert t != u; }
  }

  /** Queue `r` runs through none of the nodes of queue `q`, nor through `n`. */
  ghost predicate Beside(tb: Table, q: Queue, r: Queue, n: Link)
    requires tb.Sound() && q in tb.heads && r in tb.heads
  {
    && tb.heads[r] != tb.heads[q] && tb.heads[r] != n && tb.heads[r] !in tb.Nodes(q)
    && (forall x :: x in tb.Nodes(r) ==> x != tb.heads[q] && x != n && x !in tb.Nodes(q))
  }

  lemma IsBeside(tb: Table, q: Queue, r: Queue, t: Tid)
    requires tb.Sound() && q != r && q in tb.heads && r in tb.heads && t in tb.Node(q) && NotBeside(tb.qs, q, t)
    ensures Beside(tb, q, r, tb.Node(q)[t])
  {
    var n := tb.Node(q)[t];
    forall j: nat | j < |Q(tb.qs, r)|
      ensures tb.Nodes(r)[j] != tb.heads[q] && tb.Nodes(r)[j] != n && tb.Nodes(r)[j] !in tb.Nodes(q)
    {
      var u := Q(tb.qs, r)[j];
      assert u in Q(tb.qs, r);
      if q != RunQ && r != RunQ { assert u != t; }
      forall i: nat | i < |Q(tb.qs, q)| ensures tb.Nodes(q)[i] != tb.Nodes(r)[j] { QueuesApart(tb, q, r, i, j); }
    }
  }

  lemma HeadBeside(tb: Table, q: Queue, r: Queue)
    requires tb.Sound() && q != r && q in tb.heads && r in tb.heads
    ensures Beside(tb, q, r, tb.heads[q])
  {
    forall j: nat | j < |Q(tb.qs, r)| ensures tb.Nodes(r)[j] != tb.heads[q] && tb.Nodes(r)[j] !in tb.Nodes(q) {
      assert Q(tb.qs, r)[j] in Q(tb.qs, r);
      forall i: nat | i < |Q(tb.qs, q)| ensures tb.Nodes(q)[i] != tb.Nodes(r)[j] { QueuesApart(tb, q, r, i, j); }
    }
  }

  lemma HasNodes(tb: Table, q: Queue, t: Tid)
    requires tb.Sound() && t in tb.links
    ensures t in tb.waits && forall x :: x in tb.Nodes(q) ==> x in tb.Node(q).Values
  {
  }

  lemma NewNode(tb: Table, q: Queue, t: Tid)
    requires tb.Sound() && q in tb.heads && t in tb.Node(q) && t !in Q(tb.qs, q)
    ensures tb.Node(q)[t] != tb.heads[q] && tb.Node(q)[t] !in tb.Nodes(q)
  {
    forall i: nat | i < |Q(tb.qs, q)| ensures tb.Nodes(q)[i] != tb.Node(q)[t] { assert Q(tb.qs, q)[i] in Q(tb.qs, q); }
  }

  lemma HeadQueued(tb: Table, q: Queue)
    requires tb.Sound() && Q(tb.qs, q) != []
    ensures q in tb.heads && Q(tb.qs, q)[0] in tb.Node(q) && NotBeside(tb.qs, q, Q(tb.qs, q)[0])
    ensures tb.Nodes(q) != [] && forall x :: x in tb.Nodes(q) ==> x in tb.Node(q).Values
    ensures tb.Nodes(q)[0] in tb.owner && tb.owner[tb.Nodes(q)[0]] == Q(tb.qs, q)[0]
  {
    assert Q(tb.qs, q)[0] in Q(tb.qs, q);
  }

  lemma NotTheHead(tb: Table, q: Queue)
    requires tb.Sound() && q in tb.heads && Q(tb.qs, q) != []
    ensures tb.Nodes(q)[0] != tb.heads[q]
  {
    HeadQueued(tb, q);
  }

  /** How the nodes of the queues change with the queues. */
  lemma PushNodes(tb: Table, q: Queue, t: Tid, tb': Table)
    requires tb.Sound() && q in tb.heads && t in tb.links && t !in Q(tb.qs, q) && NotBeside(tb.qs, q, t)
    requires tb' == tb.(qs := Push(tb.qs, q, t))
    ensures tb'.Sound() && tb'.Nodes(q) == tb.Nodes(q) + [tb.Node(q)[t]]
    ensures forall r :: r != q ==> tb'.Nodes(r) == tb.Nodes(r)
  {
    PushSound(tb.qs, tb.heads.Keys, tb.links.Keys, q, t);
    forall r | r != q ensures tb'.Nodes(r) == tb.Nodes(r) { PushQ(tb.qs, q, t, r); }
  }

  lemma PopNodes(tb: Table, q: Queue, tb': Table)
    requires tb.Sound() && Q(tb.qs, q) != [] && tb' == tb.(qs := Pop(tb.qs, q), cursors := tb'.cursors)
    ensures tb'.Sound() && tb'.Nodes(q) == tb.Nodes(q)[1..]
    ensures forall r :: r != q ==> tb'.Nodes(r) == tb.Nodes(r)
  {
    PopSound(tb.qs, tb.heads.Keys, tb.links.Keys, q);
    forall r | r != q ensures tb'.Nodes(r) == tb.Nodes(r) { assert Q(tb'.qs, r) == Q(tb.qs, r); }
  }

  lemma SpliceNodes(tb: Table, q: Queue, f: Queue, list: Link, tb': Table)
    requires tb.Sound() && q.CondQ? && f.FlightQ? && q in tb.heads && Q(tb.qs, f) == []
    requires tb' == tb.(qs := tb.qs[f := Q(tb.qs, q)][q := []], heads := tb.heads[f := list], cursors := tb'.cursors)
    requires list !in tb.heads.Values && list !in tb.links.Values && list !in tb.waits.Values
    ensures tb'.Sound() && tb'.Nodes(q) == [] && tb'.Nodes(f) == tb.Nodes(q)
    ensures forall r :: r != q && r != f ==> tb'.Nodes(r) == tb.Nodes(r)
  {
    SpliceSound(tb.qs, tb.heads.Keys, tb.links.Keys, q, f);
    assert tb'.heads.Keys == tb.heads.Keys + {f};
    assert tb'.Apart() by {
      forall r, p | r in tb'.heads && p in tb'.heads && r != p ensures tb'.heads[r] != tb'.heads[p] {
        if r != f { assert tb.heads[r] in tb.heads.Values; }
        if p != f { assert tb.heads[p] in tb.heads.Values; }
      }
      forall t | t in tb.links ensures list != tb.links[t] { assert tb.links[t] in tb.links.Values; }
      forall t | t in tb.waits ensures list != tb.waits[t] { assert tb.waits[t] in tb.waits.Values; }
    }
    forall r | r != q && r != f ensures tb'.Nodes(r) == tb.Nodes(r) { assert Q(tb'.qs, r) == Q(tb.qs, r); }
  }

  /** A queue as it is shown. */
  datatype View = View(q: Queue, head: Link, s: seq<Link>, cursor: Link?) {
    ghost predicate Shown()
      reads head, s
    {
      ShownAt(q, head, s, cursor)
    }
  }

  /** It is shown as long as nothing it runs through changes. */
  twostate lemma StillShown(v: View)
    requires old(v.Shown()) && v.head.next == old(v.head.next) && v.head.prev == old(v.head.prev)
    requires forall x :: x in v.s ==> x.next == old(x.next) && x.prev == old(x.prev)
    ensures v.Shown()
  {
    if !v.q.FlightQ? {
      var ring := [v.head] + v.s;
      forall i: nat | i < |ring| ensures ring[i].next == old(ring[i].next) && ring[i].prev == old(ring[i].prev) {
        if i > 0 { assert ring[i] == v.s[i - 1] && ring[i] in v.s; }
      }
    }
  }

  /** The same nodes mean the same. */
  lemma SameShows(tb: Table, tb': Table, r: Queue)
    requires tb.Sound() && tb'.Sound() && r in tb.heads && r in tb'.heads && tb.Shows(r)
    requires tb'.heads[r] == tb.heads[r] && tb'.Nodes(r) == tb.Nodes(r)
    requires tb'.Cursor(r) == tb.Cursor(r)
    ensures tb'.Shows(r)
  {
  }

  /** After a splice everything is shown again. */
  lemma SpliceShows(tb: Table, q: Queue, f: Queue, list: Link, tb': Table)
    requires tb.Sound() && tb'.Sound() && q.CondQ? && f.FlightQ? && q in tb.heads
    requires tb' == tb.(heads := tb.heads[f := list], cursors := tb'.cursors, qs := tb'.qs)
    requires tb'.Nodes(q) == [] && tb'.Nodes(f) == tb.Nodes(q)
    requires forall r :: r != q && r != f ==> tb'.Nodes(r) == tb.Nodes(r)
    requires forall r :: r != f ==> tb'.Cursor(r) == tb.Cursor(r)
    requires tb'.Cursor(f) == if tb.Nodes(q) == [] then list else tb.Nodes(q)[0]
    requires Holds(tb.heads[q], []) && Chain(tb.Nodes(q), list) && forall r :: r in tb.heads && r != q ==> tb.Shows(r)
    ensures forall r :: r in tb'.heads ==> tb'.Shows(r)
  {
    hide NoDup, SoundQs, Ring, Holds, Chain, Table.Apart;
    forall r | r in tb'.heads ensures tb'.Shows(r) {
      if r != q && r != f { SameShows(tb, tb', r); }
    }
  }

  lemma NewHead(tb: Table, q: Queue, head: Link, tb': Table)
    requires tb.Sound() && q !in tb.heads && !q.FlightQ? && tb' == tb.(heads := tb.heads[q := head])
    requires head !in tb.heads.Values && head !in tb.links.Values && head !in tb.waits.Values && Holds(head, [])
    requires forall r :: r in tb.heads ==> tb.Shows(r)
    ensures tb'.Sound() && forall r :: r in tb'.heads ==> tb'.Shows(r)
  {
    hide NoDup, Ring, Holds, Chain;
    assert Q(tb.qs, q) == [];
    assert tb'.heads.Keys == tb.heads.Keys + {q};
    forall r | r in tb'.heads ensures tb'.Shows(r) {
      if r != q { SameShows(tb, tb', r); }
    }
  }

  lemma NewThread(tb: Table, t: Tid, ll: Link, wait: Link, tb': Table)
    requires tb.Sound() && t !in tb.links && ll != wait
    requires {ll, wait} !! tb.heads.Values && {ll, wait} !! tb.links.Values && {ll, wait} !! tb.waits.Values
    requires tb' == tb.(links := tb.links[t := ll], waits := tb.waits[t := wait], owner := tb.owner[ll := t][wait := t])
    requires forall r :: r in tb.heads ==> tb.Shows(r)
    ensures tb'.Sound() && forall r :: r in tb'.heads ==> tb'.Shows(r)
  {
    hide NoDup, Ring, Holds, Chain, SoundQs;
    NewNodesApart(tb, t, ll, wait, tb');
    hide Table.Apart;
    MoreThreads(tb.qs, tb.heads.Keys, tb.links.Keys, tb'.links.Keys);
    forall r | r in tb'.heads ensures tb'.Shows(r) {
      NotNew(tb, t, r, tb');
      SameShows(tb, tb', r);
    }
  }

  lemma NewNodesApart(tb: Table, t: Tid, ll: Link, wait: Link, tb': Table)
    requires tb.Apart() && t !in tb.links && t !in tb.waits && ll != wait
    requires {ll, wait} !! tb.heads.Values && {ll, wait} !! tb.links.Values && {ll, wait} !! tb.waits.Values
    requires tb' == tb.(links := tb.links[t := ll], waits := tb.waits[t := wait], owner := tb.owner[ll := t][wait := t])
    ensures tb'.Apart()
  {
    forall u | u in tb.links ensures tb.links[u] != ll && tb.links[u] != wait { assert tb.links[u] in tb.links.Values; }
    forall u | u in tb.waits ensures tb.waits[u] != ll && tb.waits[u] != wait { assert tb.waits[u] in tb.waits.Values; }
    forall q | q in tb.heads ensures tb.heads[q] != ll && tb.heads[q] != wait { assert tb.heads[q] in tb.heads.Values; }
    forall u | u in tb'.links ensures tb'.links[u] in tb'.owner && tb'.owner[tb'.links[u]] == u {
    }
    forall u | u in tb'.waits ensures tb'.waits[u] in tb'.owner && tb'.owner[tb'.waits[u]] == u {
    }
  }

  lemma MoreThreads(qs: Queues, hs: set<Queue>, ts: set<Tid>, ts': set<Tid>)
    requires SoundQs(qs, hs, ts) && ts <= ts'
    ensures SoundQs(qs, hs, ts')
  {
    hide NoDup;
  }

  lemma NotNew(tb: Table, t: Tid, r: Queue, tb': Table)
    requires tb.Sound() && t !in tb.links && tb'.Sound() && tb'.qs == tb.qs
    requires forall u :: u in tb.links ==> u in tb'.links && tb'.links[u] == tb.links[u]
    requires forall u :: u in tb.waits ==> u in tb'.waits && tb'.waits[u] == tb.waits[u]
    ensures tb'.Nodes(r) == tb.Nodes(r)
  {
  }

  class Store {
    /** The list heads: of the run queue, of mutexes and conditions, and on the stacks of broadcasts. */
    var heads: map<Queue, Link>
    /** The node in each thread, the node on its stack, and the thread that a node belongs to. */
    var links: map<Tid, Link>
    var waits: map<Tid, Link>
    var owner: map<Link, Tid>
    /** How far each broadcast has come. */
    var cursors: map<Tid, Link>
    ghost var qs: Queues

    ghost function Tab(): Table
      reads this
    {
      Table(heads, links, waits, owner, cursors, qs)
    }

    ghost predicate Valid()
      reads this, heads.Values, links.Values, waits.Values
    {
      Tab().Sound() && forall q :: q in heads ==> Showing(q)
    }

    ghost predicate Showing(q: Queue)
      reads this, heads.Values, links.Values, waits.Values
      requires Tab().Sound() && q in heads
    {
      Tab().Shows(q)
    }

    /** The run queue, with no threads yet (src/threads.c:61). */
    constructor ()
      ensures Valid() && qs == map[] && heads.Keys == {RunQ} && links == map[] && fresh(heads.Values)
    {
      var head := new Link();
      heads, links, waits, owner, cursors, qs := map[RunQ := head], map[], map[], map[], map[], map[];
      new;
      ListInit(head);
      assert forall q :: Q(qs, q) == [];
      assert Tab().Nodes(RunQ) == [];
    }

    /** `mutex_setup` and `condition_setup` (src/mutex.c:6-11, src/condition.c:6-10): an empty queue. */
    method SetupQueue(q: Queue)
      requires Valid() && q !in heads && !q.FlightQ?
      modifies this
      ensures Valid() && qs == old(qs) && links == old(links) && waits == old(waits)
      ensures heads.Keys == old(heads).Keys + {q} && fresh(heads.Values - old(heads).Values)
    {
      hide NoDup, SoundQs, Ring, Holds, Chain, Table.Shows, Table.Sound, Table.Apart, Table.Nodes;
      ghost var tb := Tab();
      forall r | r in heads ensures tb.Shows(r) && allocated(tb.Nodes(r)) { assert Showing(r); }
      var head := new Link();
      assert head !in heads.Values && head !in links.Values && head !in waits.Values;
      ListInit(head);
      ghost var tb' := tb.(heads := heads[q := head]);
      NewHead(tb, q, head, tb');
      Become(heads[q := head], links, waits, owner, cursors, tb');
    }

    /** The nodes of a new thread (inc/threads.h:16-24); the one on its stack is there when it waits. */
    method AddThread(t: Tid)
      requires Valid() && t !in links
      modifies this
      ensures Valid() && qs == old(qs) && heads == old(heads) && links.Keys == old(links).Keys + {t}
      ensures fresh(links.Values - old(links).Values) && fresh(waits.Values - old(waits).Values)
    {
      hide NoDup, SoundQs, Ring, Holds, Chain, Table.Shows, Table.Sound, Table.Apart, Table.Nodes;
      ghost var tb := Tab();
      forall r | r in heads ensures tb.Shows(r) && allocated(tb.Nodes(r)) { assert Showing(r); }
      var ll := new Link();
      var wait := new Link();
      assert {ll, wait} !! heads.Values && {ll, wait} !! links.Values && {ll, wait} !! waits.Values;
      ghost var tb' := tb.(links := links[t := ll], waits := waits[t := wait], owner := owner[ll := t][wait := t]);
      NewThread(tb, t, ll, wait, tb');
      Become(heads, links[t := ll], waits[t := wait], owner[ll := t][wait := t], cursors, tb');
    }

    /** `list_empty` (src/threads.c:180, src/mutex.c:42, src/condition.c:39). */
    method IsEmpty(q: Queue) returns (empty: bool)
      requires Valid() && q in heads && !q.FlightQ?
      ensures empty <==> Q(qs, q) == []
    {
      hide NoDup, SoundQs, Ring, Chain, NotBeside, Table.Apart;
      assert Showing(q);
      empty := ListEmpty(heads[q], Tab().Nodes(q));
    }

    /** The test of the loop of a broadcast (src/condition.c:60). */
    method AtEnd(u: Tid) returns (end: bool)
      requires Valid() && FlightQ(u) in heads
      ensures end <==> Q(qs, FlightQ(u)) == []
    {
      hide NoDup, SoundQs, Ring, Holds, Chain, NotBeside;
      ghost var s := Tab().Nodes(FlightQ(u));
      assert Showing(FlightQ(u));
      if s != [] { NotTheHead(Tab(), FlightQ(u)); }
      end := cursors[u] == heads[FlightQ(u)];
    }

    /** `list_add_tail` on the queue (src/threads.c:76, src/mutex.c:28, src/condition.c:26). */
    method PushTail(q: Queue, t: Tid)
      requires Valid() && q in heads && !q.FlightQ? && t in links && t !in Q(qs, q) && NotBeside(qs, q, t)
      modifies this`qs, heads.Values, links.Values, waits.Values
      ensures Valid() && qs == Push(old(qs), q, t)
    {
      hide NoDup, SoundQs, Ring, Holds, Chain, NotBeside, Table.Apart, Push, Table.Sound, Table.Nodes;
      ghost var tb := Tab();
      HasNodes(tb, q, t);
      ghost var tb' := tb.(qs := Push(qs, q, t));
      NewNode(tb, q, t);
      PushNodes(tb, q, t, tb');
      forall r | r in heads && r != q ensures Beside(tb, q, r, tb.Node(q)[t]) { IsBeside(tb, q, r, t); }
      ghost var n, s := tb.Node(q)[t], tb.Nodes(q);
      forall r | r in heads ensures tb.Shows(r) && allocated(tb.Nodes(r)) && allocated(tb.Cursor(r)) {
        assert Showing(r);
      }
      ListAddTail(if q == RunQ then links[t] else waits[t], heads[q], s);
      forall r | r in heads && r != q ensures tb.Shows(r) {
        assert Beside(tb, q, r, n);
        StillShown(View(r, tb.heads[r], tb.Nodes(r), tb.Cursor(r)));
      }
      qs := Push(qs, q, t);
      forall r | r in heads && r != q ensures Showing(r) { SameShows(tb, tb', r); }
    }

    /** `list_first` and `list_del` on the queue (src/threads.c:181-183, src/mutex.c:48-50, src/condition.c:40-42). */
    method PopHead(q: Queue) returns (t: Tid)
      requires Valid() && !q.FlightQ? && Q(qs, q) != []
      modifies this`qs, heads.Values, links.Values, waits.Values
      ensures Valid() && t == Q(old(qs), q)[0] && qs == Pop(old(qs), q)
    {
      hide NoDup, SoundQs, Ring, Holds, Chain, NotBeside, Table.Apart, Pop, Table.Sound, Table.Nodes;
      ghost var tb := Tab();
      ghost var tb' := tb.(qs := Pop(qs, q));
      HeadQueued(tb, q);
      PopNodes(tb, q, tb');
      forall r | r in heads && r != q ensures Beside(tb, q, r, heads[q]) { HeadBeside(tb, q, r); }
      ghost var s := tb.Nodes(q);
      forall r | r in heads ensures tb.Shows(r) && allocated(tb.Nodes(r)) { assert Showing(r); }
      var first := ListFirst(heads[q], s);
      t := owner[first];
      ListDel(first, heads[q], s, 0);
      assert s[..0] + s[1..] == s[1..];
      forall r | r in heads && r != q ensures tb.Shows(r) {
        assert Beside(tb, q, r, heads[q]);
        StillShown(View(r, tb.heads[r], tb.Nodes(r), tb.Cursor(r)));
      }
      qs := Pop(qs, q);
      forall r | r in heads && r != q ensures Showing(r) { SameShows(tb, tb', r); }
    }

    /** One round of the loop of a broadcast (src/condition.c:60-65): the cursor moves on before the thread
        is woken, and the list is not changed. */
    method Advance(u: Tid) returns (t: Tid)
      requires Valid() && Q(qs, FlightQ(u)) != []
      modifies this`qs, this`cursors
      ensures Valid() && t == Q(old(qs), FlightQ(u))[0] && qs == Pop(old(qs), FlightQ(u))
    {
      hide NoDup, SoundQs, Ring, Holds, Chain, NotBeside, Table.Apart, Pop;
      var q := FlightQ(u);
      ghost var tb := Tab();
      HeadQueued(tb, q);
      assert Showing(q);
      forall r | r in heads ensures tb.Shows(r) { assert Showing(r); }
      ChainStep(tb.Nodes(q), heads[q]);
      var ptr := cursors[u];
      t := owner[ptr];
      ghost var tb' := tb.(qs := Pop(qs, q), cursors := cursors[u := ptr.next]);
      PopNodes(tb, q, tb');
      cursors := cursors[u := ptr.next];
      qs := Pop(qs, q);
      forall r | r in heads && r != q ensures Showing(r) { SameShows(tb, tb', r); }
    }

    /** The links of a queue move to a list on the stack of the caller (src/condition.c:51-54). */
    method SpliceLinks(q: Queue) returns (list: Link)
      requires Valid() && q in heads && !q.FlightQ?
      modifies heads.Values, links.Values, waits.Values
      ensures fresh(list) && Tab() == old(Tab())
      ensures Holds(heads[q], []) && Chain(Tab().Nodes(q), list)
      ensures list.next == if Tab().Nodes(q) == [] then list else Tab().Nodes(q)[0]
      ensures forall r :: r in heads && r != q ==> Tab().Shows(r)
    {
      hide NoDup, SoundQs, Ring, Chain, NotBeside, Table.Apart, Table.Sound;
      ghost var tb, s := Tab(), Tab().Nodes(q);
      forall r | r in heads && r != q ensures Beside(tb, q, r, heads[q]) { HeadBeside(tb, q, r); }
      forall r | r in heads ensures tb.Shows(r) && allocated(tb.Nodes(r)) { assert Showing(r); }
      list := new Link();
      assert list != heads[q] && list !in s;
      ListInit(list);
      ListSplice(heads[q], list, s, []);
      assert s + [] == s;
      RingChain(list, s);
      forall r | r in heads && r != q ensures tb.Shows(r) {
        assert Beside(tb, q, r, heads[q]);
        StillShown(View(r, tb.heads[r], tb.Nodes(r), tb.Cursor(r)));
      }
    }

    /** `list_splice` at the start of a broadcast (src/condition.c:51-58). */
    method SpliceOff(c: Cid, u: Tid)
      requires Valid() && CondQ(c) in heads && Q(qs, FlightQ(u)) == []
      modifies this, heads.Values, links.Values, waits.Values
      ensures Valid() && qs == old(qs)[FlightQ(u) := Q(old(qs), CondQ(c))][CondQ(c) := []]
      ensures links == old(links) && waits == old(waits)
      ensures heads.Keys == old(heads).Keys + {FlightQ(u)} && fresh(heads.Values - old(heads).Values)
    {
      hide NoDup, SoundQs, Ring, Holds, Chain, NotBeside, Table.Apart, ShownAt, Table.Sound, Table.Nodes, Table.Shows;
      var q, f := CondQ(c), FlightQ(u);
      ghost var tb := Tab();
      var list := SpliceLinks(q);
      assert list !in heads.Values && list !in links.Values && list !in waits.Values;
      ghost var tb' := tb.(qs := qs[f := Q(qs, q)][q := []], heads := heads[f := list],
        cursors := cursors[u := list.next]);
      SpliceNodes(tb, q, f, list, tb');
      SpliceShows(tb, q, f, list, tb');
      Become(heads[f := list], links, waits, owner, cursors[u := list.next], tb');
    }

    /** The maps are replaced. */
    method Become(heads': map<Queue, Link>, links': map<Tid, Link>, waits': map<Tid, Link>, owner': map<Link, Tid>,
                  cursors': map<Tid, Link>, ghost tb: Table)
      requires tb.Sound() && tb == Table(heads', links', waits', owner', cursors', tb.qs)
      requires forall r :: r in tb.heads ==> tb.Shows(r)
      modifies this
      ensures Valid() && Tab() == tb
    {
      hide Table.Sound, Table.Nodes;
      heads, links, waits, owner, cursors, qs := heads', links', waits', owner', cursors', tb.qs;
      assert Tab() == tb;
    }
  }

  /** The ring of a list leads from its first entry to its head. */
  lemma RingChain(head: Link, s: seq<Link>)
    requires Holds(head, s)
    ensures Chain(s, head) && head.next == if s == [] then head else s[0]
  {
    var ring := [head] + s;
    assert ring[0] == head && After(0, |ring|) == if s == [] then 0 else 1;
    forall i | 0 <= i < |s| ensures s[i].next == Succ(s, i, head) {
      assert ring[i + 1] == s[i] && ring[After(i + 1, |ring|)] == if i + 1 < |s| then s[i + 1] else head;
    }
  }

  lemma ChainStep(s: seq<Link>, head: Link)
    requires Chain(s, head) && s != []
    ensures s[0].next == (if |s| > 1 then s[1] else head) && Chain(s[1..], head)
  {
    assert s[0].next == Succ(s, 0, head);
    forall i | 0 <= i < |s[1..]| ensures s[1..][i].next == Succ(s[1..], i, head) {
      assert s[1..][i] == s[i + 1] && s[i + 1].next == Succ(s, i + 1, head);
    }
  }
}
