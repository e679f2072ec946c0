/**
 Threads, mutexes and condition variables (src/threads.c, src/mutex.c, src/condition.c) as a transition
 system.  A step is one interrupts-off region of the single processor, run by the current thread; between
 two steps the timer interrupt may call `schedule`.
 */
module Threads {
  import opened Collections

  type Tid = nat
  type Mid = nat
  type Cid = nat

  datatype ThreadState = Idle | Active | Blocked | Finishing | Finished

  /** Where a thread stands in its kernel call. */
  datatype Pc =
    | Unborn                             // created, not yet activated
    | Run                                // in no call
    | LockSched(m: Mid)                  // mutex_lock: queued, about to call schedule
    | LockRet(m: Mid)                    // mutex_lock: in schedule, or back from it
    | WaitSched(c: Cid, m: Mid)          // condition_wait: queued and mutex released
    | WaitRet(c: Cid, m: Mid)            // condition_wait: in schedule, or back from it
    | WaitLock(m: Mid)                   // condition_wait: about to lock the mutex again
    | Broadcasting                       // condition_broadcast: in the loop over its own list
    | Exiting                            // thread_exit: in its loop
    | IdleEnter                          // idle: registered, state not yet set
    | IdleLoop                           // idle: in its loop

  /** The queues: the run queue, the wait queues, and the list a broadcasting thread has on its stack. */
  datatype Queue = RunQ | MutexQ(m: Mid) | CondQ(c: Cid) | FlightQ(sender: Tid)

  type Queues = map<Queue, seq<Tid>>

  /** Below `locked`, fields that the kernel does not store: who was given a mutex, who has returned
      from locking it and not unlocked it, who arrived and who was served in which order, and which
      waiters a broadcast has taken off their condition. */
  datatype State = State(
    st: map<Tid, ThreadState>,
    current: Tid,
    idle: Option<Tid>,
    qs: Queues,
    preempt: nat,
    locked: set<Mid>,
    pc: map<Tid, Pc>,
    owner: map<Mid, Tid>,
    holds: set<(Tid, Mid)>,
    arrivals: map<Mid, seq<Tid>>,
    grants: map<Mid, seq<Tid>>,
    flight: map<Tid, Tid>)

  function Q(qs: Queues, q: Queue): seq<Tid> { if q in qs then qs[q] else [] }

  function Log(l: map<Mid, seq<Tid>>, m: Mid): seq<Tid> { if m in l then l[m] else [] }

  function Push(qs: Queues, q: Queue, t: Tid): Queues { qs[q := Q(qs, q) + [t]] }

  function Pop(qs: Queues, q: Queue): Queues
    requires Q(qs, q) != []
  {
    qs[q := Q(qs, q)[1..]]
  }

  // ---- the steps -----------------------------------------------------------------------------

  /** `thread_activate` (src/threads.c:136-143). */
  function Woken(s: State, t: Tid): State {
    s.(st := s.st[t := Active], qs := Push(s.qs, RunQ, t))
  }

  /** `place_thread` on behalf of `next` (src/threads.c:68-82). */
  function Placed(s: State, next: Tid): State
    requires s.current in s.st
  {
    var prev := s.current;
    var st' := if s.st[prev] == Finishing then s.st[prev := Finished] else s.st;
    var qs' := if st'[prev] == Active then Push(s.qs, RunQ, prev) else s.qs;
    s.(st := st', qs := qs', current := next)
  }

  /** `__schedule` (src/threads.c:170-193). */
  function Scheduled(s: State, force: bool, expired: bool): State
    requires s.current in s.st
  {
    if !force && s.st[s.current] == Active && !expired then s
    else
      var queued := Q(s.qs, RunQ) != [];
      var next := if queued then Some(Q(s.qs, RunQ)[0]) else s.idle;
      var s1 := if queued then s.(qs := Pop(s.qs, RunQ)) else s;
      if next == Some(s.current) then s1
      else if next.Some? && (next != s.idle || s.st[s.current] != Active) then Placed(s1, next.value)
      else s1
  }

  /** `schedule` (src/threads.c:195-206). */
  function Ticked(s: State, expired: bool): State
    requires s.current in s.st
  {
    if s.preempt != 0 then s else Scheduled(s, false, expired)
  }

  /** `mutex_lock` up to the call of `schedule` (src/mutex.c:18-36). */
  function Locked(s: State, m: Mid): State {
    var t := s.current;
    var s1 := s.(arrivals := s.arrivals[m := Log(s.arrivals, m) + [t]]);
    if m in s.locked
    then s1.(st := s1.st[t := Blocked], qs := Push(s1.qs, MutexQ(m), t), pc := s1.pc[t := LockSched(m)])
    else s1.(locked := s1.locked + {m}, pc := s1.pc[t := Run], owner := s1.owner[m := t], holds := s1.holds + {(t, m)},
             grants := s1.grants[m := Log(s1.grants, m) + [t]])
  }

  /** `mutex_unlock` (src/mutex.c:38-53). */
  function Unlocked(s: State, m: Mid): State {
    var s1 := s.(holds := s.holds - {(s.current, m)});
    if Q(s.qs, MutexQ(m)) == [] then s1.(locked := s.locked - {m}, owner := s.owner - {m})
    else
      var next := Q(s.qs, MutexQ(m))[0];
      Woken(s1.(qs := Pop(s.qs, MutexQ(m)), owner := s.owner[m := next],
                grants := s.grants[m := Log(s.grants, m) + [next]]),
            next)
  }

  /** `condition_wait` up to the call of `schedule` (src/condition.c:17-29). */
  function Waiting(s: State, c: Cid, m: Mid): State {
    var t := s.current;
    Unlocked(s.(st := s.st[t := Blocked], qs := Push(s.qs, CondQ(c), t), pc := s.pc[t := WaitSched(c, m)]), m)
  }

  /** `condition_signal` (src/condition.c:35-46). */
  function Signalled(s: State, c: Cid): State {
    if Q(s.qs, CondQ(c)) == [] then s
    else Woken(s.(qs := Pop(s.qs, CondQ(c))), Q(s.qs, CondQ(c))[0])
  }

  /** The first part of `condition_broadcast`: all waiters move to the list of the caller (src/condition.c:48-55). */
  function Spliced(s: State, c: Cid): State {
    var t := s.current;
    s.(qs := s.qs[FlightQ(t) := Q(s.qs, CondQ(c))][CondQ(c) := []], pc := s.pc[t := Broadcasting],
       flight := s.flight + map w | w in Q(s.qs, CondQ(c)) :: t)
  }

  /** One round of its loop (src/condition.c:60-65), or its end. */
  function Delivered(s: State): State {
    var t := s.current;
    if Q(s.qs, FlightQ(t)) == [] then s.(pc := s.pc[t := Run])
    else
      var w := Q(s.qs, FlightQ(t))[0];
      Woken(s.(qs := Pop(s.qs, FlightQ(t)), flight := s.flight - {w}), w)
  }

  /** The caller of `schedule` is now in it. */
  function Called(pc: Pc): Pc {
    if pc.LockSched? then LockRet(pc.m) else if pc.WaitSched? then WaitRet(pc.c, pc.m) else pc
  }

  /** Back from `schedule`: `mutex_lock` returns, and `condition_wait` goes on to lock the mutex. */
  function Resumed(s: State): State
    requires s.current in s.pc && (s.pc[s.current].LockRet? || s.pc[s.current].WaitRet?)
  {
    var t, pc := s.current, s.pc[s.current];
    if pc.LockRet? then s.(pc := s.pc[t := Run], holds := s.holds + {(t, pc.m)})
    else s.(pc := s.pc[t := WaitLock(pc.m)])
  }

  datatype Op =
    | Tick(expired: bool)                // timer interrupt
    | Block(expired: bool)               // the call of schedule in mutex_lock and condition_wait
    | Resume                             // the way back from it
    | Force                              // force_schedule: from join, exit, idle or by itself
    | Lock(m: Mid) | Unlock(m: Mid)
    | Wait(c: Cid, m: Mid) | Signal(c: Cid) | Broadcast(c: Cid) | Deliver
    | Create(t: Tid) | Activate(t: Tid) | Exit
    | Register | MarkIdle                // the two assignments of idle
    | DisablePreempt | EnablePreempt

  /** What the current thread may do next: the order of its own code, and what the code demands of its
      callers (unlock by the owner, a fresh thread is activated once, no BUG). */
  predicate Enabled(s: State, op: Op) {
    && s.current in s.st && s.current in s.pc
    && var pc := s.pc[s.current];
       match op {
         case Tick(_) => true
         case Block(_) => pc.LockSched? || pc.WaitSched?
         case Resume => pc.LockRet? || pc.WaitRet?
         case Force => (pc.Run? || pc.Exiting? || pc.IdleLoop?) && s.preempt == 0
         case Lock(m) => pc.Run? || pc == WaitLock(m)
         case Unlock(m) => pc.Run? && (s.current, m) in s.holds
         case Wait(c, m) => pc.Run? && (s.current, m) in s.holds
         case Signal(_) => pc.Run?
         case Broadcast(_) => pc.Run?
         case Deliver => pc.Broadcasting?
         case Create(t) => pc.Run? && t !in s.st
         case Activate(t) => pc.Run? && t in s.pc && s.pc[t] == Unborn
         case Exit => pc.Run?
         case Register => pc.Run? && s.idle.None?
         case MarkIdle => pc.IdleEnter?
         case DisablePreempt => pc.Run?
         case EnablePreempt => pc.Run? && s.preempt > 0
       }
  }

  function Step(s: State, op: Op): State
    requires Enabled(s, op)
  {
    var t := s.current;
    match op
    case Tick(expired) => Ticked(s, expired)
    case Block(expired) =>
      var pc := s.pc[t];
      Ticked(s.(pc := s.pc[t := Called(pc)]), expired)
    case Resume =>
      Resumed(s)
    case Force => Scheduled(s, true, false)
    case Lock(m) => Locked(s, m)
    case Unlock(m) => Unlocked(s, m)
    case Wait(c, m) => Waiting(s, c, m)
    case Signal(c) => Signalled(s, c)
    case Broadcast(c) => Spliced(s, c)
    case Deliver => Delivered(s)
    case Create(u) => s.(st := s.st[u := Blocked], pc := s.pc[u := Unborn])
    case Activate(u) => Woken(s.(pc := s.pc[u := Run]), u)
    case Exit => s.(st := s.st[t := Finishing], pc := s.pc[t := Exiting])
    case Register => s.(idle := Some(t), pc := s.pc[t := IdleEnter])
    case MarkIdle => s.(st := s.st[t := ThreadState.Idle], pc := s.pc[t := IdleLoop])
    case DisablePreempt => s.(preempt := s.preempt + 1)
    case EnablePreempt => s.(preempt := s.preempt - 1)
  }

  /** Between `s` and `s'` only the run queue and who runs have changed, and a finishing thread may have
      finished. */
  ghost predicate OnlyRuns(s: State, s': State) {
    && s' == s.(st := s'.st, qs := s'.qs, current := s'.current) && s'.st.Keys == s.st.Keys
    && (forall t :: t in s.st && (t != s.current || s.st[t] != Finishing) ==> s'.st[t] == s.st[t])
    && (forall q :: q != RunQ ==> Q(s'.qs, q) == Q(s.qs, q))
  }

  lemma PlacedFrame(s: State, next: Tid)
    requires s.current in s.st
    ensures OnlyRuns(s, Placed(s, next))
  {
  }

  lemma ScheduledFrame(s: State, force: bool, expired: bool)
    requires s.current in s.st
    ensures OnlyRuns(s, Scheduled(s, force, expired))
  {
    hide Placed;
    if Q(s.qs, RunQ) != [] {
      PlacedFrame(s.(qs := Pop(s.qs, RunQ)), Q(s.qs, RunQ)[0]);
    }
    if s.idle.Some? { PlacedFrame(s, s.idle.value); }
  }

  lemma TickedFrame(s: State, expired: bool)
    requires s.current in s.st
    ensures OnlyRuns(s, Ticked(s, expired))
  {
    hide Scheduled;
    ScheduledFrame(s, false, expired);
  }

  // ---- the invariant -------------------------------------------------------------------------

  /** The one queue a thread belongs to, if any. */
  function Home(s: State, t: Tid): Option<Queue>
    requires t in s.st && t in s.pc
  {
    match s.st[t]
    case Active => if t == s.current then None else Some(RunQ)
    case Blocked =>
      (match s.pc[t]
       case LockSched(m) => Some(MutexQ(m))
       case LockRet(m) => Some(MutexQ(m))
       case WaitSched(c, _) => Some(if t in s.flight then FlightQ(s.flight[t]) else CondQ(c))
       case WaitRet(c, _) => Some(if t in s.flight then FlightQ(s.flight[t]) else CondQ(c))
       case _ => None)
    case _ => None
  }

  /** A thread is on the queue it belongs to and on no other.  Only the idle thread may have missed the
      run queue, when it was passed over before it set its state. */
  ghost predicate FiledAt(s: State, t: Tid)
    requires t in s.st && t in s.pc
  {
    && (forall q :: t in Q(s.qs, q) ==> Home(s, t) == Some(q))
    && (Home(s, t).Some? && !s.pc[t].IdleEnter? ==> t in Q(s.qs, Home(s, t).value))
  }

  predicate InLock(pc: Pc, m: Mid) {
    pc == LockSched(m) || pc == LockRet(m)
  }

  /** The state of a thread fits what it is doing. */
  predicate Fits(s: State, t: Tid)
    requires t in s.st && t in s.pc
  {
    var st := s.st[t];
    && (s.idle == Some(t) <==> s.pc[t].IdleEnter? || s.pc[t].IdleLoop?)
    && match s.pc[t] {
         case Unborn => st == Blocked && t != s.current
         case Run => st == Active
         case LockSched(m) => st == Blocked || st == Active
         case LockRet(m) => st == Active || (st == Blocked && t != s.current)
         case WaitSched(_, _) => st == Blocked || st == Active
         case WaitRet(_, _) => st == Active || (st == Blocked && t != s.current)
         case WaitLock(_) => st == Active
         case Broadcasting => st == Active
         case Exiting => if t == s.current then st == Finishing else st == Finished
         case IdleEnter => st == Active
         case IdleLoop => st == ThreadState.Idle
       }
  }

  /** A waiter that a broadcast has taken is blocked, and the broadcast is still under way. */
  ghost predicate InFlight(s: State, t: Tid)
    requires t in s.flight
  {
    && t in s.st && t in s.pc && s.st[t] == Blocked && (s.pc[t].WaitSched? || s.pc[t].WaitRet?)
    && s.flight[t] in s.pc && s.pc[s.flight[t]].Broadcasting?
  }

  /** A mutex: locked while somebody has been given it, which is whoever came off the queue last; and the
      threads are served in the order in which they came. */
  ghost predicate MutexOk(s: State, m: Mid) {
    && (m in s.locked <==> m in s.owner)
    && (Q(s.qs, MutexQ(m)) != [] ==> m in s.owner)
    && Log(s.arrivals, m) == Log(s.grants, m) + Q(s.qs, MutexQ(m))
    && (m in s.owner ==> Log(s.grants, m) != [] && s.owner[m] == Log(s.grants, m)[|Log(s.grants, m)| - 1])
  }

  /** A thread that has come back from locking a mutex, or is free to, is its owner. */
  ghost predicate Owns(s: State, t: Tid, m: Mid)
    requires t in s.st && t in s.pc
  {
    && ((t, m) in s.holds ==> m in s.owner && s.owner[m] == t)
    && (InLock(s.pc[t], m) && s.st[t] == Active ==> m in s.owner && s.owner[m] == t && (t, m) !in s.holds)
  }

  ghost predicate MutexesOk(s: State) {
    forall m :: MutexOk(s, m)
  }

  ghost predicate OwnersOk(s: State)
    requires s.pc.Keys == s.st.Keys
  {
    && (forall t, m :: t in s.st ==> Owns(s, t, m))
    && (forall t, m :: (t, m) in s.holds ==> t in s.st)
  }

  ghost predicate Wf(s: State) {
    s.pc.Keys == s.st.Keys && s.current in s.st && (s.idle.Some? ==> s.idle.value in s.st) && s.flight.Keys <= s.st.Keys
  }

  /** A thread is filed and does what fits its state. */
  ghost predicate ThreadOk(s: State, t: Tid)
    requires t in s.st && t in s.pc
  {
    FiledAt(s, t) && Fits(s, t) && (t in s.flight ==> InFlight(s, t))
  }

  ghost predicate ThreadsOk(s: State)
    requires Wf(s)
  {
    forall t :: t in s.st ==> ThreadOk(s, t)
  }

  ghost predicate QueuesOk(s: State) {
    && (forall q, t :: t in Q(s.qs, q) ==> t in s.st)
    && (forall q :: NoDup(Q(s.qs, q)))
  }

  ghost predicate Inv(s: State) {
    Wf(s) && QueuesOk(s) && ThreadsOk(s) && MutexesOk(s) && OwnersOk(s)
  }

  /** A thread that gives up the processor to wait finds another one to run. */
  predicate CanBlock(s: State)
    requires s.current in s.st
  {
    s.st[s.current] == Blocked ==> s.preempt == 0 && (Q(s.qs, RunQ) != [] || s.idle.Some?)
  }

  // ---- every step keeps it -------------------------------------------------------------------

  lemma PushQ(qs: Queues, q: Queue, t: Tid, q': Queue)
    ensures Q(Push(qs, q, t), q') == if q' == q then Q(qs, q) + [t] else Q(qs, q')
    ensures NoDup(Q(qs, q')) && (q' == q ==> t !in Q(qs, q)) ==> NoDup(Q(Push(qs, q, t), q'))
  {
  }

  lemma PopQ(qs: Queues, q: Queue, q': Queue, u: Tid)
    requires Q(qs, q) != [] && NoDup(Q(qs, q)) && NoDup(Q(qs, q'))
    ensures NoDup(Q(Pop(qs, q), q'))
    ensures u in Q(Pop(qs, q), q') <==> u in Q(qs, q') && (q' == q ==> u != Q(qs, q)[0])
  {
    var l := Q(qs, q);
    assert l == [l[0]] + l[1..];
  }

  /** Other threads than those in `X` stay where they are. */
  ghost predicate Stay(qs: Queues, qs': Queues, X: set<Tid>) {
    && (forall q :: NoDup(Q(qs', q)))
    && (forall q, u :: u !in X ==> (u in Q(qs', q) <==> u in Q(qs, q)))
  }

  lemma StayMore(qs: Queues, qs': Queues, X: set<Tid>, Y: set<Tid>)
    requires Stay(qs, qs', X) && X <= Y
    ensures Stay(qs, qs', Y)
  {
  }

  lemma StayAt(qs: Queues, qs': Queues, X: set<Tid>, q: Queue, u: Tid)
    requires Stay(qs, qs', X) && u !in X
    ensures u in Q(qs', q) <==> u in Q(qs, q)
  {
  }

  lemma StaySame(qs: Queues)
    requires forall q :: NoDup(Q(qs, q))
    ensures Stay(qs, qs, {})
  {
  }

  lemma StayPushed(qs: Queues, qs1: Queues, q: Queue, t: Tid, X: set<Tid>)
    requires Stay(qs, qs1, X) && t in X && t !in Q(qs1, q)
    ensures Stay(qs, Push(qs1, q, t), X)
    ensures forall q' :: t in Q(Push(qs1, q, t), q') <==> q' == q || t in Q(qs1, q')
    ensures forall q', u :: u != t ==> (u in Q(Push(qs1, q, t), q') <==> u in Q(qs1, q'))
  {
    forall q' ensures NoDup(Q(Push(qs1, q, t), q'))
      ensures forall u :: u in Q(Push(qs1, q, t), q') <==> u in Q(qs1, q') || (q' == q && u == t)
    {
      PushQ(qs1, q, t, q');
    }
  }

  lemma StayPopped(qs: Queues, q: Queue)
    requires (forall q' :: NoDup(Q(qs, q'))) && Q(qs, q) != []
    ensures Stay(qs, Pop(qs, q), {Q(qs, q)[0]})
    ensures forall q' :: Q(qs, q)[0] in Q(Pop(qs, q), q') <==> q' != q && Q(qs, q)[0] in Q(qs, q')
  {
    forall q' ensures NoDup(Q(Pop(qs, q), q'))
      ensures forall u :: u in Q(Pop(qs, q), q') <==> u in Q(qs, q') && (q' == q ==> u != Q(qs, q)[0])
    {
      forall u: Tid ensures u in Q(Pop(qs, q), q') <==> u in Q(qs, q') && (q' == q ==> u != Q(qs, q)[0]) {
        PopQ(qs, q, q', u);
      }
      PopQ(qs, q, q', 0);
    }
  }

  /** Nothing that concerns thread `u` has changed. */
  ghost predicate Same(s: State, s': State, u: Tid)
    requires Wf(s) && Wf(s')
  {
    && u in s.st && u in s'.st && s'.st[u] == s.st[u] && s'.pc[u] == s.pc[u]
    && (s'.current == u <==> s.current == u) && (s'.idle == Some(u) <==> s.idle == Some(u))
    && (u in s'.flight <==> u in s.flight) && (u in s.flight ==> s'.flight[u] == s.flight[u])
  }

  lemma SameOk(s: State, s': State, u: Tid)
    requires Wf(s) && Wf(s') && Same(s, s', u) && ThreadOk(s, u)
    requires forall q :: u in Q(s'.qs, q) <==> u in Q(s.qs, q)
    requires u in s.flight && u in Q(s.qs, FlightQ(s.flight[u])) ==>
      s.flight[u] in s'.pc && s'.pc[s.flight[u]].Broadcasting?
    ensures ThreadOk(s', u)
  {
    assert Home(s', u) == Home(s, u);
  }

  /** A broadcasting thread of `X` stops only when its list is empty. */
  ghost predicate SendersStay(s: State, s': State, X: set<Tid>) {
    forall u :: u in X && u in s.pc && s.pc[u].Broadcasting? && Q(s.qs, FlightQ(u)) != [] ==>
      u in s'.pc && s'.pc[u].Broadcasting?
  }

  /** Only the threads in `X` are concerned. */
  lemma Kept(s: State, s': State, X: set<Tid>)
    requires Inv(s) && Wf(s') && Stay(s.qs, s'.qs, X) && SendersStay(s, s', X) && X <= s'.st.Keys
    requires forall u :: u in s.st && u !in X ==> u in s'.st
    requires forall u :: u in s'.st && u !in X ==> Same(s, s', u)
    requires forall u :: u in X ==> ThreadOk(s', u)
    ensures QueuesOk(s') && ThreadsOk(s')
  {
    hide MutexesOk, OwnersOk, NoDup, Fits, FiledAt;
    forall u | u in s'.st ensures ThreadOk(s', u) {
      if u !in X {
        assert Same(s, s', u) && ThreadOk(s, u);
        if u in s.flight && u in Q(s.qs, FlightQ(s.flight[u])) {
          var b := s.flight[u];
          assert InFlight(s, u);
          assert b !in X ==> Same(s, s', b);
        }
        SameOk(s, s', u);
      }
    }
  }

  lemma MutexSame(s: State, s': State, m: Mid)
    requires MutexOk(s, m)
    requires s'.locked == s.locked && s'.owner == s.owner && s'.arrivals == s.arrivals && s'.grants == s.grants
    requires Q(s'.qs, MutexQ(m)) == Q(s.qs, MutexQ(m))
    ensures MutexOk(s', m)
  {
  }

  /** Where locks are not touched. */
  lemma LocksSame(s: State, s': State)
    requires s.pc.Keys == s.st.Keys && s'.pc.Keys == s'.st.Keys && MutexesOk(s) && OwnersOk(s)
    requires s'.locked == s.locked && s'.owner == s.owner && s'.holds == s.holds
    requires s'.arrivals == s.arrivals && s'.grants == s.grants && s.st.Keys <= s'.st.Keys
    requires forall m :: Q(s'.qs, MutexQ(m)) == Q(s.qs, MutexQ(m))
    requires forall t, m :: t in s'.st && InLock(s'.pc[t], m) && s'.st[t] == Active ==>
      t in s.st && InLock(s.pc[t], m) && s.st[t] == Active
    ensures MutexesOk(s') && OwnersOk(s')
  {
    forall m ensures MutexOk(s', m) {
      assert MutexOk(s, m);
    }
    forall t, m | t in s'.st ensures Owns(s', t, m) {
      if t in s.st { assert Owns(s, t, m); }
    }
  }

  /** The current thread, running and not queued, changes its own state. */
  lemma SelfKeeps(s: State, s': State)
    requires Inv(s) && Wf(s') && s'.current == s.current && s'.st.Keys == s.st.Keys && s'.qs == s.qs &&
      s'.flight == s.flight
    requires Home(s, s.current) == None && Home(s', s.current) == None && Fits(s', s.current) &&
      s.st[s.current] == Active
    requires Q(s.qs, FlightQ(s.current)) == [] || !s.pc[s.current].Broadcasting?
    requires forall u :: u in s.st && u != s.current ==> s'.st[u] == s.st[u] && s'.pc[u] == s.pc[u]
    requires forall u :: u in s.st && u != s.current ==> (s'.idle == Some(u) <==> s.idle == Some(u))
    ensures QueuesOk(s') && ThreadsOk(s')
  {
    hide MutexesOk, OwnersOk, NoDup, Fits;
    assert ThreadOk(s', s.current) by { assert ThreadOk(s, s.current); }
    hide ThreadOk, ThreadsOk;
    StaySame(s.qs);
    Kept(s, s', {s.current});
  }

  lemma ExitKeeps(s: State)
    requires Inv(s) && Enabled(s, Exit)
    ensures Inv(Step(s, Exit))
  {
    hide MutexesOk, OwnersOk, NoDup, QueuesOk, FiledAt;
    var t := s.current;
    var s' := s.(st := s.st[t := Finishing], pc := s.pc[t := Exiting]);
    assert ThreadOk(s, t);
    SelfKeeps(s, s');
    LocksSame(s, s');
  }

  lemma RegisterKeeps(s: State, s': State)
    requires Inv(s) && Enabled(s, Register) && s' == s.(idle := Some(s.current), pc := s.pc[s.current := IdleEnter])
    ensures Inv(s')
  {
    hide MutexesOk, OwnersOk, NoDup, QueuesOk, FiledAt;
    assert ThreadOk(s, s.current);
    SelfKeeps(s, s');
    LocksSame(s, s');
  }

  lemma MarkIdleKeeps(s: State, s': State)
    requires Inv(s) && Enabled(s, MarkIdle)
    requires s' == s.(st := s.st[s.current := ThreadState.Idle], pc := s.pc[s.current := IdleLoop])
    ensures Inv(s')
  {
    hide MutexesOk, OwnersOk, NoDup, QueuesOk, FiledAt;
    assert ThreadOk(s, s.current);
    SelfKeeps(s, s');
    LocksSame(s, s');
  }

  lemma ResumeKeeps(s: State)
    requires Inv(s) && (s.pc[s.current].LockRet? || s.pc[s.current].WaitRet?)
    ensures Inv(Resumed(s))
  {
    var t, pc := s.current, s.pc[s.current];
    assert pc.LockRet? ==> Owns(s, t, pc.m);
    hide MutexesOk, OwnersOk, NoDup, QueuesOk, FiledAt;
    var s' := s.(pc := s.pc[t := if pc.LockRet? then Run else WaitLock(pc.m)]);
    assert ThreadOk(s, t);
    SelfKeeps(s, s');
    LocksSame(s, s');
    if pc.LockRet? { HoldGained(s', pc.m); }
  }

  lemma HoldGained(s: State, m: Mid)
    requires Inv(s) && s.pc[s.current] == Run && m in s.owner && s.owner[m] == s.current
    ensures Inv(s.(holds := s.holds + {(s.current, m)}))
  {
    hide ThreadOk, NoDup, MutexOk;
    var s' := s.(holds := s.holds + {(s.current, m)});
    forall t, m' | t in s'.st ensures Owns(s', t, m') { assert Owns(s, t, m'); }
    StaySame(s.qs);
    Kept(s, s', {});
    forall m' ensures MutexOk(s', m') { MutexSame(s, s', m'); }
  }

  /** Who is on a wait queue is blocked and belongs there. */
  lemma Queued(s: State, q: Queue, t: Tid)
    requires Inv(s) && t in Q(s.qs, q)
    ensures t in s.st && Home(s, t) == Some(q) && ThreadOk(s, t)
    ensures q != RunQ ==> s.st[t] == Blocked
  {
    hide MutexesOk, OwnersOk, NoDup;
  }

  lemma NotQueued(s: State, q: Queue)
    requires Inv(s) && s.st[s.current] == Active
    ensures s.current !in Q(s.qs, q)
  {
    hide MutexesOk, OwnersOk, NoDup;
    assert ThreadOk(s, s.current);
  }

  lemma WokenOk(s: State, s': State, t: Tid, q: Queue)
    requires Wf(s) && Wf(s') && t in s.st && ThreadOk(s, t) && Home(s, t) == Some(q) && q != RunQ && t != s.current
    requires t in s'.st && s'.st[t] == Active && s'.pc[t] == s.pc[t] && s'.current == s.current && s'.idle == s.idle
    requires t !in s'.flight && forall q' :: t in Q(s'.qs, q') <==> q' == RunQ
    ensures ThreadOk(s', t)
  {
  }

  /** A blocked thread leaves the head of its queue for the run queue. */
  lemma WokenKeeps(s: State, q: Queue, t: Tid, s': State)
    requires Inv(s) && q != RunQ && Q(s.qs, q) != [] && t == Q(s.qs, q)[0] && t != s.current
    requires s'.st == s.st[t := Active] && s'.pc == s.pc && s'.current == s.current && s'.idle == s.idle
    requires s'.qs == Push(Pop(s.qs, q), RunQ, t) && s'.flight == s.flight - {t}
    ensures t in s.st && Home(s, t) == Some(q)
    ensures Wf(s') && QueuesOk(s') && ThreadsOk(s')
  {
    hide MutexesOk, OwnersOk, NoDup, ThreadOk;
    assert t in Q(s.qs, q);
    Queued(s, q, t);
    forall q' ensures t in Q(s.qs, q') ==> q' == q {
      if t in Q(s.qs, q') { Queued(s, q', t); }
    }
    StayPopped(s.qs, q);
    StayPushed(s.qs, Pop(s.qs, q), RunQ, t, {t});
    WokenOk(s, s', t, q);
    Kept(s, s', {t});
  }

  /** The current thread blocks on queue `q`. */
  lemma QueuedKeeps(s: State, q: Queue, pc: Pc, s': State)
    requires Inv(s) && s.st[s.current] == Active && (s.pc[s.current].Run? || s.pc[s.current].WaitLock?)
    requires s' == s.(st := s.st[s.current := Blocked], qs := Push(s.qs, q, s.current), pc := s.pc[s.current := pc],
                      arrivals := s'.arrivals)
    requires (pc.LockSched? && q == MutexQ(pc.m)) || (pc.WaitSched? && q == CondQ(pc.c))
    ensures QueuesOk(s') && ThreadsOk(s')
  {
    hide MutexesOk, OwnersOk, NoDup;
    var t := s.current;
    assert ThreadOk(s, t);
    StaySame(s.qs);
    StayPushed(s.qs, s.qs, q, t, {t});
    assert ThreadOk(s', t);
    hide ThreadOk, ThreadsOk;
    Kept(s, s', {t});
  }

  lemma ActivateKeeps(s: State, t: Tid)
    requires Inv(s) && t in s.pc && s.pc[t] == Unborn
    ensures Inv(Woken(s.(pc := s.pc[t := Run]), t))
  {
    hide MutexesOk, OwnersOk, NoDup, ThreadOk, FiledAt;
    var s' := Woken(s.(pc := s.pc[t := Run]), t);
    StaySame(s.qs);
    forall q ensures t !in Q(s.qs, q) { UnbornNotQueued(s, t, q); }
    StayPushed(s.qs, s.qs, RunQ, t, {t});
    ActivatedOk(s, s', t);
    Kept(s, s', {t});
    LocksSame(s, s');
  }

  lemma UnbornNotQueued(s: State, t: Tid, q: Queue)
    requires Inv(s) && t in s.pc && s.pc[t] == Unborn
    ensures t !in Q(s.qs, q)
  {
    hide MutexesOk, OwnersOk, NoDup;
    assert ThreadOk(s, t);
  }

  lemma ActivatedOk(s: State, s': State, t: Tid)
    requires Wf(s) && Wf(s') && t in s.st && ThreadOk(s, t) && s.pc[t] == Unborn
    requires t in s'.st && s'.st[t] == Active && s'.pc[t] == Run && s'.current == s.current && s'.idle == s.idle
    requires s'.flight == s.flight && forall q :: t in Q(s'.qs, q) <==> q == RunQ
    ensures ThreadOk(s', t)
  {
  }

  lemma CreatedOk(s: State, s': State, t: Tid)
    requires Wf(s) && t !in s.st && (forall q :: t !in Q(s.qs, q)) &&
      s' == s.(st := s.st[t := Blocked], pc := s.pc[t := Unborn])
    ensures ThreadOk(s', t)
  {
  }

  lemma CreateKeeps(s: State, t: Tid)
    requires Inv(s) && t !in s.st
    ensures Inv(s.(st := s.st[t := Blocked], pc := s.pc[t := Unborn]))
  {
    hide MutexesOk, OwnersOk, NoDup, ThreadOk, ThreadsOk;
    var s' := s.(st := s.st[t := Blocked], pc := s.pc[t := Unborn]);
    CreatedOk(s, s', t);
    StaySame(s.qs);
    Kept(s, s', {t});
    LocksSame(s, s');
  }

  lemma PreemptKeeps(s: State, n: nat)
    requires Inv(s)
    ensures Inv(s.(preempt := n))
  {
    hide MutexesOk, OwnersOk, NoDup, ThreadOk, ThreadsOk;
    var s' := s.(preempt := n);
    StaySame(s.qs);
    Kept(s, s', {});
    LocksSame(s, s');
  }

  lemma RunnerActive(s: State)
    requires Inv(s) && (s.pc[s.current].Run? || s.pc[s.current].WaitLock? || s.pc[s.current].Broadcasting?)
    ensures s.st[s.current] == Active && Home(s, s.current) == None && s.idle != Some(s.current)
    ensures s.current !in s.flight
  {
    hide MutexesOk, OwnersOk, NoDup, FiledAt;
    assert ThreadOk(s, s.current);
  }

  lemma SignalKeeps(s: State, c: Cid)
    requires Inv(s) && Enabled(s, Signal(c))
    ensures Inv(Step(s, Signal(c)))
  {
    hide MutexesOk, OwnersOk, NoDup, ThreadOk, ThreadsOk, QueuesOk;
    if Q(s.qs, CondQ(c)) != [] {
      var t := Q(s.qs, CondQ(c))[0];
      var s' := Signalled(s, c);
      RunnerActive(s);
      NotQueued(s, CondQ(c));
      WaiterNotFlying(s, c, t);
      assert s.flight - {t} == s.flight;
      WokenKeeps(s, CondQ(c), t, s');
      LocksSame(s, s');
    }
  }

  lemma WaiterNotFlying(s: State, c: Cid, t: Tid)
    requires Inv(s) && t in Q(s.qs, CondQ(c))
    ensures t !in s.flight && t in s.st && (s.pc[t].WaitSched? || s.pc[t].WaitRet?)
  {
    hide NoDup;
    assert ThreadOk(s, t);
  }

  lemma DeliverKeeps(s: State)
    requires Inv(s) && s.pc[s.current].Broadcasting?
    ensures Inv(Delivered(s))
  {
    hide MutexesOk, OwnersOk, NoDup, ThreadOk, ThreadsOk, QueuesOk;
    var q := FlightQ(s.current);
    var s' := Delivered(s);
    RunnerActive(s);
    if Q(s.qs, q) != [] {
      NotQueued(s, q);
      WokenKeeps(s, q, Q(s.qs, q)[0], s');
      LocksSame(s, s');
    } else {
      EndKeeps(s);
    }
  }

  lemma EndKeeps(s: State)
    requires Inv(s) && s.pc[s.current].Broadcasting? && Q(s.qs, FlightQ(s.current)) == []
    ensures Inv(s.(pc := s.pc[s.current := Run]))
  {
    hide MutexesOk, OwnersOk, NoDup, ThreadOk, FiledAt;
    RunnerActive(s);
    var s' := s.(pc := s.pc[s.current := Run]);
    SelfKeeps(s, s');
    LocksSame(s, s');
  }

  lemma SpliceStays(qs: Queues, q1: Queue, q2: Queue, X: set<Tid>)
    requires (forall q :: NoDup(Q(qs, q))) && q1 != q2 && Q(qs, q2) == [] && forall w :: w in Q(qs, q1) ==> w in X
    ensures Stay(qs, qs[q2 := Q(qs, q1)][q1 := []], X)
  {
    var qs' := qs[q2 := Q(qs, q1)][q1 := []];
    forall q ensures Q(qs', q) == if q == q1 then [] else if q == q2 then Q(qs, q1) else Q(qs, q) {
    }
    forall q, u | u !in X ensures u in Q(qs', q) <==> u in Q(qs, q) {
    }
  }

  lemma SplicedOk(s: State, s': State, c: Cid, w: Tid)
    requires Wf(s) && Wf(s') && w in s.st && ThreadOk(s, w) && Home(s, w) == Some(CondQ(c)) && w !in s.flight
    requires s'.st == s.st && w != s.current && s'.pc[w] == s.pc[w] && s'.current == s.current && s'.idle == s.idle
    requires s'.pc[s.current].Broadcasting? && w in s'.flight && s'.flight[w] == s.current
    requires s'.qs == s.qs[FlightQ(s.current) := Q(s.qs, CondQ(c))][CondQ(c) := []]
    requires w in Q(s.qs, CondQ(c))
    ensures ThreadOk(s', w)
  {
  }

  lemma BroadcastKeeps(s: State, c: Cid)
    requires Inv(s) && s.pc[s.current].Run?
    ensures Inv(Spliced(s, c))
  {
    hide Inv;
    StartKeeps(s);
    var s1 := s.(pc := s.pc[s.current := Broadcasting]);
    assert s1.pc[s.current := Broadcasting] == s1.pc;
    assert Spliced(s1, c) == Spliced(s, c);
    SpliceKeeps(s1, c);
  }

  lemma StartKeeps(s: State)
    requires Inv(s) && s.pc[s.current].Run?
    ensures Inv(s.(pc := s.pc[s.current := Broadcasting])) && Q(s.qs, FlightQ(s.current)) == []
    ensures s.st[s.current] == Active
  {
    hide MutexesOk, OwnersOk, NoDup, ThreadOk, FiledAt;
    RunnerActive(s);
    FlightEmpty(s, s.current);
    var s1 := s.(pc := s.pc[s.current := Broadcasting]);
    SelfKeeps(s, s1);
    LocksSame(s, s1);
  }

  lemma SpliceKeeps(s: State, c: Cid)
    requires Inv(s) && s.pc[s.current].Broadcasting? && Q(s.qs, FlightQ(s.current)) == [] && s.st[s.current] == Active
    ensures Inv(Spliced(s, c))
  {
    hide MutexesOk, OwnersOk, NoDup, ThreadOk, Fits, FiledAt, QueuesOk, ThreadsOk;
    SpliceFiled(s, c);
    LocksSame(s, Spliced(s, c));
  }

  lemma SpliceFiled(s: State, c: Cid)
    requires Inv(s) && s.pc[s.current].Broadcasting? && Q(s.qs, FlightQ(s.current)) == [] && s.st[s.current] == Active
    ensures Wf(Spliced(s, c)) && QueuesOk(Spliced(s, c)) && ThreadsOk(Spliced(s, c))
  {
    hide MutexesOk, OwnersOk, NoDup, ThreadOk, Fits, FiledAt;
    var s', t := Spliced(s, c), s.current;
    var X := set w | w in Q(s.qs, CondQ(c));
    NotQueued(s, CondQ(c));
    SpliceStays(s.qs, CondQ(c), FlightQ(t), X);
    assert s'.pc == s.pc;
    forall w | w in X ensures w in s.st && ThreadOk(s', w) {
      WaiterNotFlying(s, c, w);
      Queued(s, CondQ(c), w);
      SplicedOk(s, s', c, w);
    }
    Kept(s, s', X);
  }

  lemma FlightSender(s: State, t: Tid, w: Tid)
    requires Inv(s) && w in Q(s.qs, FlightQ(t))
    ensures t in s.pc && s.pc[t].Broadcasting?
  {
    hide NoDup, FiledAt;
    Queued(s, FlightQ(t), w);
  }

  lemma FlightEmpty(s: State, t: Tid)
    requires Inv(s) && t in s.st && !s.pc[t].Broadcasting?
    ensures Q(s.qs, FlightQ(t)) == []
  {
    hide *;
    if Q(s.qs, FlightQ(t)) != [] { FlightSender(s, t, Q(s.qs, FlightQ(t))[0]); }
  }

  lemma LockKeeps(s: State, m: Mid)
    requires Inv(s) && (s.pc[s.current].Run? || s.pc[s.current].WaitLock?)
    ensures Inv(Locked(s, m))
  {
    var t, s' := s.current, Locked(s, m);
    RunnerActive(s);
    hide NoDup, FiledAt, ThreadOk, ThreadsOk, QueuesOk, MutexOk, Owns;
    if m in s.locked {
      LockWaits(s, m);
      hide MutexesOk, OwnersOk;
      QueuedKeeps(s, MutexQ(m), LockSched(m), s');
    } else {
      LockTaken(s, m);
      RunKeeps(s);
      hide MutexesOk, OwnersOk;
      ThreadsUntouched(s.(pc := s.pc[t := Run]), s');
    }
  }

  lemma RunKeeps(s: State)
    requires Inv(s) && (s.pc[s.current].Run? || s.pc[s.current].WaitLock?)
    ensures var s' := s.(pc := s.pc[s.current := Run]); Wf(s') && QueuesOk(s') && ThreadsOk(s')
  {
    hide MutexesOk, OwnersOk, NoDup, ThreadOk, FiledAt, QueuesOk;
    RunnerActive(s);
    SelfKeeps(s, s.(pc := s.pc[s.current := Run]));
  }

  lemma LockWaits(s: State, m: Mid)
    requires Inv(s) && s.st[s.current] == Active && m in s.locked
    ensures Wf(Locked(s, m)) && MutexesOk(Locked(s, m)) && OwnersOk(Locked(s, m))
  {
    hide NoDup, QueuesOk, ThreadsOk;
    var t, s' := s.current, Locked(s, m);
    forall m' ensures MutexOk(s', m') {
      assert MutexOk(s, m');
      PushQ(s.qs, MutexQ(m), t, MutexQ(m'));
    }
    forall u, m' | u in s.st ensures Owns(s', u, m') { assert Owns(s, u, m'); }
  }

  lemma LockTaken(s: State, m: Mid)
    requires Inv(s) && s.st[s.current] == Active && m !in s.locked
    requires s.pc[s.current].Run? || s.pc[s.current].WaitLock?
    ensures Wf(Locked(s, m)) && MutexesOk(Locked(s, m)) && OwnersOk(Locked(s, m))
  {
    hide NoDup, QueuesOk, ThreadsOk;
    var t, s' := s.current, Locked(s, m);
    forall m' ensures MutexOk(s', m') { assert MutexOk(s, m'); }
    assert MutexOk(s, m);
    forall u, m' | u in s.st ensures Owns(s', u, m') { assert Owns(s, u, m'); }
  }

  /** A step that changes mutexes only leaves every thread as it was. */
  lemma ThreadsUntouched(s: State, s': State)
    requires Wf(s) && Wf(s') && QueuesOk(s) && ThreadsOk(s)
    requires s'.st == s.st && s'.pc == s.pc && s'.qs == s.qs && s'.current == s.current && s'.idle == s.idle &&
      s'.flight == s.flight
    ensures QueuesOk(s') && ThreadsOk(s')
  {
    hide NoDup, ThreadOk;
    forall u | u in s'.st ensures ThreadOk(s', u) {
      assert ThreadOk(s, u);
      ThreadUntouched(s, s', u);
    }
  }

  lemma ThreadUntouched(s: State, s': State, u: Tid)
    requires Wf(s) && Wf(s') && u in s.st && ThreadOk(s, u)
    requires s'.st == s.st && s'.pc == s.pc && s'.qs == s.qs && s'.current == s.current && s'.idle == s.idle &&
      s'.flight == s.flight
    ensures ThreadOk(s', u)
  {
    assert Home(s', u) == Home(s, u);
  }

  lemma UnlockKeeps(s: State, m: Mid)
    requires Inv(s) && (s.current, m) in s.holds && !InLock(s.pc[s.current], m)
    ensures Inv(Unlocked(s, m))
  {
    hide NoDup, FiledAt, ThreadOk;
    var s', q := Unlocked(s, m), MutexQ(m);
    if Q(s.qs, q) != [] {
      var n := Q(s.qs, q)[0];
      assert n in Q(s.qs, q);
      Queued(s, q, n);
      NotFlying(s, n);
      assert s.flight - {n} == s.flight;
      HandedOver(s, m, n);
      hide MutexesOk, OwnersOk;
      WokenKeeps(s, q, n, s');
    } else {
      Released(s, m);
      hide MutexesOk, OwnersOk;
      ThreadsUntouched(s, s');
    }
  }

  lemma NotFlying(s: State, t: Tid)
    requires Inv(s) && t in s.st && (s.pc[t].LockSched? || s.pc[t].LockRet?)
    ensures t !in s.flight
  {
    hide NoDup, FiledAt;
    assert ThreadOk(s, t);
  }

  lemma HandedOver(s: State, m: Mid, n: Tid)
    requires Inv(s) && (s.current, m) in s.holds && !InLock(s.pc[s.current], m)
    requires Q(s.qs, MutexQ(m)) != [] && n == Q(s.qs, MutexQ(m))[0] && n in s.st && Home(s, n) == Some(MutexQ(m)) &&
      s.st[n] == Blocked
    ensures n != s.current && MutexesOk(Unlocked(s, m)) && OwnersOk(Unlocked(s, m))
  {
    hide NoDup, QueuesOk, ThreadsOk;
    var t, s' := s.current, Unlocked(s, m);
    assert Owns(s, t, m) && MutexOk(s, m);
    forall m' ensures MutexOk(s', m') { assert MutexOk(s, m'); }
    forall u, m' | u in s.st ensures Owns(s', u, m') {
      assert Owns(s, u, m');
      assert InLock(s.pc[n], m') ==> m' == m;
    }
  }

  lemma Released(s: State, m: Mid)
    requires Inv(s) && (s.current, m) in s.holds && !InLock(s.pc[s.current], m) && Q(s.qs, MutexQ(m)) == []
    ensures MutexesOk(Unlocked(s, m)) && OwnersOk(Unlocked(s, m))
  {
    hide NoDup, QueuesOk, ThreadsOk;
    var t, s' := s.current, Unlocked(s, m);
    assert Owns(s, t, m) && MutexOk(s, m);
    forall m' ensures MutexOk(s', m') { assert MutexOk(s, m'); }
    forall u, m' | u in s.st ensures Owns(s', u, m') { assert Owns(s, u, m'); }
  }

  /** The state in the middle of `condition_wait`, where the caller is queued and still holds the mutex. */
  lemma WaitQueuedKeeps(s: State, c: Cid, m: Mid)
    requires Inv(s) && Enabled(s, Wait(c, m))
    ensures
      var t := s.current;
      Inv(s.(st := s.st[t := Blocked], qs := Push(s.qs, CondQ(c), t), pc := s.pc[t := WaitSched(c, m)]))
  {
    hide MutexesOk, OwnersOk, NoDup, QueuesOk, ThreadOk;
    var t := s.current;
    RunnerActive(s);
    var s1 := s.(st := s.st[t := Blocked], qs := Push(s.qs, CondQ(c), t), pc := s.pc[t := WaitSched(c, m)]);
    QueuedKeeps(s, CondQ(c), WaitSched(c, m), s1);
    LocksSame(s, s1);
  }

  lemma WaitKeeps(s: State, c: Cid, m: Mid)
    requires Inv(s) && Enabled(s, Wait(c, m))
    ensures Inv(Step(s, Wait(c, m)))
  {
    hide Inv, Unlocked;
    WaitQueuedKeeps(s, c, m);
    UnlockKeeps(s.(st := s.st[s.current := Blocked], qs := Push(s.qs, CondQ(c), s.current),
                   pc := s.pc[s.current := WaitSched(c, m)]), m);
  }

  /** The thread that gives up the processor. */
  lemma PrevOk(s: State, s': State)
    requires Wf(s) && Wf(s') && ThreadOk(s, s.current) && s'.current != s.current
    requires s'.pc == s.pc && s'.flight == s.flight && s'.idle == s.idle && s.current in s'.st
    requires s'.st[s.current] == if s.st[s.current] == Finishing then Finished else s.st[s.current]
    requires s.st[s.current] == Active ==> forall q :: s.current in Q(s'.qs, q) <==> q == RunQ
    requires s.st[s.current] != Active ==> forall q :: s.current in Q(s'.qs, q) <==> s.current in Q(s.qs, q)
    ensures ThreadOk(s', s.current)
  {
  }

  /** The thread that gets it: from the head of the run queue, or the idle thread. */
  lemma NextOk(s: State, s': State, next: Tid)
    requires Wf(s) && Wf(s') && next in s.st && ThreadOk(s, next) && s.current != next == s'.current
    requires s'.pc == s.pc && s'.flight == s.flight && s'.idle == s.idle && next in s'.st && s'.st[next] == s.st[next]
    requires s.st[next] == Active || s.idle == Some(next)
    requires forall q :: next !in Q(s'.qs, q)
    ensures ThreadOk(s', next)
  {
  }

  lemma IdleNotQueued(s: State, t: Tid, q: Queue)
    requires Inv(s) && s.idle == Some(t) && q != RunQ
    ensures t !in Q(s.qs, q)
  {
    hide NoDup;
    assert ThreadOk(s, t);
  }

  /** The next thread is off every queue. */
  lemma NextTaken(s: State, next: Tid, s1: State, q: Queue)
    requires Inv(s) && next != s.current && next in s.st && Picked(s, next, s1)
    ensures Stay(s.qs, s1.qs, {next}) && next !in Q(s1.qs, q)
    ensures s.st[next] == Active || s.idle == Some(next)
  {
    hide NoDup, ThreadOk;
    if Q(s.qs, RunQ) != [] {
      assert next in Q(s.qs, RunQ);
      Queued(s, RunQ, next);
      if next in Q(s.qs, q) { Queued(s, q, next); }
      StayPopped(s.qs, RunQ);
    } else {
      StaySame(s.qs);
      if q != RunQ { IdleNotQueued(s, next, q); }
    }
  }

  /** What `__schedule` takes to run next. */
  predicate Picked(s: State, next: Tid, s1: State) {
    if Q(s.qs, RunQ) != [] then next == Q(s.qs, RunQ)[0] && s1 == s.(qs := Pop(s.qs, RunQ))
    else s.idle == Some(next) && s1 == s
  }

  lemma PlacedKeeps(s: State, next: Tid, s1: State)
    requires Inv(s) && next != s.current && next in s.st && Picked(s, next, s1)
    ensures Inv(Placed(s1, next))
  {
    hide MutexesOk, OwnersOk, NoDup, ThreadOk, FiledAt, Picked;
    PickedSame(s, next, s1);
    var prev, s' := s.current, Placed(s1, next);
    var X := {prev, next};
    forall q ensures next !in Q(s1.qs, q) { NextTaken(s, next, s1, q); }
    NextTaken(s, next, s1, RunQ);
    StayMore(s.qs, s1.qs, {next}, X);
    forall q ensures prev in Q(s1.qs, q) <==> prev in Q(s.qs, q) { StayAt(s.qs, s1.qs, {next}, q, prev); }
    if s.st[prev] == Active {
      forall q ensures prev !in Q(s.qs, q) { NotQueued(s, q); }
      StayPushed(s.qs, s1.qs, RunQ, prev, X);
    }
    PrevOk(s, s');
    NextOk(s, s', next);
    Kept(s, s', X);
    LocksSame(s, s');
  }

  /** Nothing but the run queue differs. */
  ghost predicate OnlyRunQ(s: State, s1: State) {
    s1 == s.(qs := s1.qs) && forall q :: q != RunQ ==> Q(s1.qs, q) == Q(s.qs, q)
  }

  lemma PickedSame(s: State, next: Tid, s1: State)
    requires Picked(s, next, s1)
    ensures OnlyRunQ(s, s1)
  {
  }

  lemma PassedOver(s: State)
    requires Inv(s) && Q(s.qs, RunQ) != [] && s.idle == Some(Q(s.qs, RunQ)[0])
    ensures Inv(s.(qs := Pop(s.qs, RunQ)))
  {
    hide MutexesOk, OwnersOk, NoDup, ThreadOk;
    var t, s' := Q(s.qs, RunQ)[0], s.(qs := Pop(s.qs, RunQ));
    assert t in Q(s.qs, RunQ);
    Queued(s, RunQ, t);
    StayPopped(s.qs, RunQ);
    PassedOk(s, s', t);
    Kept(s, s', {t});
    LocksSame(s, s');
  }

  lemma PassedOk(s: State, s': State, t: Tid)
    requires Wf(s) && s.idle == Some(t) && ThreadOk(s, t) && Home(s, t) == Some(RunQ) && s' == s.(qs := s'.qs)
    requires forall q :: t in Q(s'.qs, q) ==> t in Q(s.qs, q)
    ensures ThreadOk(s', t)
  {
  }

  lemma ScheduledKeeps(s: State, force: bool, expired: bool)
    requires Inv(s)
    ensures Inv(Scheduled(s, force, expired))
    ensures s.st[s.current] == Blocked && (Q(s.qs, RunQ) != [] || (s.idle.Some? && s.idle.value != s.current)) ==>
      Scheduled(s, force, expired).current != s.current || s.current in Q(s.qs, RunQ)
  {
    hide MutexesOk, OwnersOk, NoDup, ThreadOk, ThreadsOk;
    var rq := Q(s.qs, RunQ);
    if rq != [] {
      assert rq[0] in rq;
      CurrentNotReady(s);
      if Some(rq[0]) != s.idle || s.st[s.current] != Active {
        PlacedKeeps(s, rq[0], s.(qs := Pop(s.qs, RunQ)));
      } else {
        PassedOver(s);
      }
    } else if s.idle.Some? && s.idle.value != s.current {
      PlacedKeeps(s, s.idle.value, s);
    }
  }

  lemma CurrentNotReady(s: State)
    requires Inv(s)
    ensures s.current !in Q(s.qs, RunQ)
  {
    hide NoDup;
    assert ThreadOk(s, s.current);
  }

  /** A thread that waits or was woken has called `schedule`. */
  lemma CalledKeeps(s: State, t: Tid)
    requires Inv(s) && t in s.st && (t != s.current || s.st[t] == Active)
    ensures Inv(s.(pc := s.pc[t := Called(s.pc[t])]))
  {
    hide MutexesOk, OwnersOk, NoDup, ThreadOk, QueuesOk;
    var s' := s.(pc := s.pc[t := Called(s.pc[t])]);
    CalledOk(s, s', t);
    assert Stay(s.qs, s'.qs, {t}) by { hide ThreadsOk; StayHere(s, {t}); }
    Kept(s, s', {t});
    LocksSame(s, s');
  }

  lemma StayHere(s: State, X: set<Tid>)
    requires QueuesOk(s)
    ensures Stay(s.qs, s.qs, X)
  {
  }

  lemma CalledOk(s: State, s': State, t: Tid)
    requires Wf(s) && t in s.st && ThreadOk(s, t) && (t != s.current || s.st[t] == Active)
    requires s' == s.(pc := s.pc[t := Called(s.pc[t])])
    ensures ThreadOk(s', t)
  {
    assert Home(s', t) == Home(s, t);
  }

  /** A thread that calls `schedule` to wait may do so as if it had called it already, provided that it
      does not stay on the processor. */
  lemma BlockKeeps(s: State, expired: bool)
    requires Inv(s) && Enabled(s, Block(expired)) && CanBlock(s)
    ensures Inv(Step(s, Block(expired)))
  {
    hide Inv, ThreadOk;
    var t := s.current;
    assert Wf(s) && s.idle != Some(t) && (s.st[t] == Blocked || s.st[t] == Active) by { Blocking(s); }
    var s1 := Ticked(s, expired);
    if s.preempt == 0 {
      ScheduledKeeps(s, false, expired);
      CurrentNotReady(s);
    }
    TickedBlind(s, expired, s.pc[t := Called(s.pc[t])]);
    CalledKeeps(s1, t);
  }

  lemma Blocking(s: State)
    requires Inv(s) && (s.pc[s.current].LockSched? || s.pc[s.current].WaitSched?)
    ensures Wf(s) && s.idle != Some(s.current) && (s.st[s.current] == Blocked || s.st[s.current] == Active)
  {
    hide NoDup, FiledAt;
    assert ThreadOk(s, s.current);
  }

  lemma PlacedBlind(s: State, next: Tid, pc': map<Tid, Pc>)
    requires s.current in s.st
    ensures Placed(s.(pc := pc'), next) == Placed(s, next).(pc := pc')
    ensures Placed(s, next).st.Keys == s.st.Keys && Placed(s, next).pc == s.pc
    ensures s.st[s.current] != Finishing ==> Placed(s, next).st == s.st
  {
  }

  /** Scheduling does not look at what threads are doing. */
  lemma TickedBlind(s: State, expired: bool, pc': map<Tid, Pc>)
    requires s.current in s.st
    ensures Ticked(s.(pc := pc'), expired) == Ticked(s, expired).(pc := pc')
    ensures Ticked(s, expired).st.Keys == s.st.Keys && Ticked(s, expired).pc == s.pc
    ensures s.st[s.current] != Finishing ==> Ticked(s, expired).st == s.st
  {
    hide Scheduled;
    TickedFrame(s, expired);
    ScheduledBlind(s, expired, pc');
  }

  lemma ScheduledBlind(s: State, expired: bool, pc': map<Tid, Pc>)
    requires s.current in s.st
    ensures Scheduled(s.(pc := pc'), false, expired) == Scheduled(s, false, expired).(pc := pc')
  {
    hide Placed, Pop;
    if Q(s.qs, RunQ) != [] {
      var s1 := s.(qs := Pop(s.qs, RunQ));
      PlacedBlind(s1, Q(s.qs, RunQ)[0], pc');
      assert s.(pc := pc').(qs := Pop(s.qs, RunQ)) == s1.(pc := pc');
    } else if s.idle.Some? {
      PlacedBlind(s, s.idle.value, pc');
    }
  }

  lemma StepKeeps(s: State, op: Op)
    requires Inv(s) && Enabled(s, op) && (op.Block? ==> CanBlock(s))
    ensures Inv(Step(s, op))
  {
    hide Fits, Home, Inv, Scheduled, Locked, Unlocked, Signalled, Spliced, Delivered, Resumed, Woken, Push, CanBlock;
    match op
    case Tick(e) => if s.preempt == 0 { ScheduledKeeps(s, false, e); }
    case Block(e) => BlockKeeps(s, e);
    case Resume => ResumeKeeps(s);
    case Force => ScheduledKeeps(s, true, false);
    case Lock(m) => LockKeeps(s, m);
    case Unlock(m) => UnlockKeeps(s, m);
    case Wait(c, m) => WaitKeeps(s, c, m);
    case Signal(c) => SignalKeeps(s, c);
    case Broadcast(c) => BroadcastKeeps(s, c);
    case Deliver => DeliverKeeps(s);
    case Create(t) => CreateKeeps(s, t);
    case Activate(t) => ActivateKeeps(s, t);
    case Exit => ExitKeeps(s);
    case Register => RegisterKeeps(s, Step(s, op));
    case MarkIdle => MarkIdleKeeps(s, Step(s, op));
    case DisablePreempt => PreemptKeeps(s, s.preempt + 1);
    case EnablePreempt => PreemptKeeps(s, s.preempt - 1);
  }
}
