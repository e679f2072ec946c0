/**
 Whose turn it is: what the scheduler does with the run queue (src/threads.c:68-82 and 170-218), and that every
 thread on it gets its turn.
 */
module Turns {
  import opened Collections
  import opened Threads
  import opened ThreadRuns

  /** What is behind the thread whose turn it is: a thread that was running when it was interrupted comes last. */
  function Behind(s: State, q: seq<Tid>): seq<Tid>
    requires s.current in s.st && q != []
  {
    q[1..] + if s.st[s.current] == Active then [s.current] else []
  }

  /** The head of the run queue is the idle thread, on its way into its loop, and somebody else is running. */
  predicate PassesOver(s: State) {
    && Q(s.qs, RunQ) != [] && s.idle == Some(Q(s.qs, RunQ)[0])
    && s.current in s.st && s.st[s.current] == Active
  }

  lemma ScheduledTurn(s: State, force: bool, expired: bool)
    requires s.current in s.st && s.current !in Q(s.qs, RunQ)
    ensures
      var q, s' := Q(s.qs, RunQ), Scheduled(s, force, expired);
      var q' := Q(s'.qs, RunQ);
      if !force && !expired && s.st[s.current] == Active then s' == s
      else if q == [] then q' == [] && (s'.current == s.current || s.idle == Some(s'.current))
      else if PassesOver(s) then s'.current == s.current && q' == q[1..]
      else s'.current == q[0] && q' == Behind(s, q)
  {
    hide Placed, Push;
    var q := Q(s.qs, RunQ);
    if q != [] {
      PlacedTurn(s.(qs := Pop(s.qs, RunQ)), q[0]);
    } else if s.idle.Some? {
      PlacedTurn(s, s.idle.value);
    }
  }

  lemma PlacedTurn(s: State, next: Tid)
    requires s.current in s.st
    ensures Placed(s, next).current == next
    ensures Q(Placed(s, next).qs, RunQ) == Q(s.qs, RunQ) + if s.st[s.current] == Active then [s.current] else []
  {
  }

  lemma NotWaiting(s: State)
    requires Inv(s)
    ensures s.current in s.st && s.current !in Q(s.qs, RunQ)
  {
    hide NoDup, ThreadOk, MutexesOk, OwnersOk;
    CurrentNotReady(s);
  }

  /** The end of a time slice: whoever is first in the run queue runs, and the thread that ran comes last; but when
      the first is the idle thread, which was interrupted before it had set its state, it is dropped. */
  lemma SliceEnds(s: State)
    requires Inv(s) && s.preempt == 0 && s.st[s.current] == Active && Q(s.qs, RunQ) != []
    ensures
      var q, s' := Q(s.qs, RunQ), Step(s, Tick(true));
      && (s'.current == q[0] && Q(s'.qs, RunQ) == q[1..] + [s.current] <==> s.idle != Some(q[0]))
      && (s.idle == Some(q[0]) ==> s'.current == s.current && Q(s'.qs, RunQ) == q[1..])
      && s'.st == s.st && forall r :: r != RunQ ==> Q(s'.qs, r) == Q(s.qs, r)
  {
    hide Inv, Scheduled;
    NotWaiting(s);
    ScheduledTurn(s, false, true);
    ScheduledFrame(s, false, true);
  }

  /** Within its time slice, while preemption is off, or when nobody else is ready, a running thread goes on. */
  lemma SliceGoesOn(s: State, expired: bool)
    requires Inv(s) && s.st[s.current] == Active && (!expired || s.preempt != 0 || Q(s.qs, RunQ) == [])
    ensures Step(s, Tick(expired)).current == s.current
    ensures !expired || s.preempt != 0 ==> Step(s, Tick(expired)) == s
  {
  }

  /** A thread that gives up the processor, because it waits, has finished or is idle, gives it to the first in the
      run queue, or to the idle thread if nobody is in it. */
  lemma GivesWay(s: State, force: bool, expired: bool)
    requires Inv(s) && s.st[s.current] != Active
    ensures
      var q, s' := Q(s.qs, RunQ), Scheduled(s, force, expired);
      && (q != [] ==> s'.current == q[0] && Q(s'.qs, RunQ) == q[1..])
      && (q == [] ==> s'.current == (if s.idle.Some? then s.idle.value else s.current) && Q(s'.qs, RunQ) == [])
  {
    hide Inv, Scheduled;
    NotWaiting(s);
    ScheduledTurn(s, force, expired);
    if Q(s.qs, RunQ) == [] { NobodyReady(s, force, expired); }
  }

  lemma NobodyReady(s: State, force: bool, expired: bool)
    requires s.current in s.st && s.st[s.current] != Active && Q(s.qs, RunQ) == []
    ensures Scheduled(s, force, expired).current == if s.idle.Some? then s.idle.value else s.current
  {
  }

  /** How often the run turns preemption off, less how often it turns it on. */
  function Nesting(ops: seq<Op>): int {
    if ops == [] then 0
    else (if ops[0].DisablePreempt? then 1 else if ops[0].EnablePreempt? then -1 else 0) + Nesting(ops[1..])
  }

  /** Turning preemption off nests: it is on again when it has been turned on as often. */
  lemma {:induction false} PreemptNests(s: State, ops: seq<Op>)
    requires Inv(s) && Runs(s, ops)
    ensures After(s, ops).preempt == s.preempt + Nesting(ops)
    decreases |ops|
  {
    hide Step, Enabled, Inv;
    if ops != [] {
      PreemptStep(s, ops[0]);
      StepKeeps(s, ops[0]);
      PreemptNests(Step(s, ops[0]), ops[1..]);
    }
  }

  lemma PreemptStep(s: State, op: Op)
    requires Enabled(s, op)
    ensures Step(s, op).preempt == s.preempt + Nesting([op])
  {
    hide Push, Pop, Log;
    assert [op][1..] == [];
    if op.Tick? || op.Block? || op.Force? { SwitchIdle(s, op); }
  }

  // ---- every thread gets its turn ------------------------------------------------------------

  /** The step takes somebody off the run queue, if anybody is in it. */
  predicate TakesNext(s: State, op: Op) {
    op == Force || (op == Tick(true) && s.preempt == 0)
  }

  lemma UnlockedReady(s: State, m: Mid)
    ensures Extends(Q(s.qs, RunQ), Q(Unlocked(s, m).qs, RunQ))
  {
    hide Log, Woken;
    if Q(s.qs, MutexQ(m)) != [] {
      var next := Q(s.qs, MutexQ(m))[0];
      WokenReady(s.(holds := s.holds - {(s.current, m)}, qs := Pop(s.qs, MutexQ(m)), owner := s.owner[m := next],
                    grants := s.grants[m := Log(s.grants, m) + [next]]), next);
    }
  }

  lemma WokenReady(s: State, t: Tid)
    ensures Q(Woken(s, t).qs, RunQ) == Q(s.qs, RunQ) + [t]
  {
  }

  /** Other steps only add to the end of the run queue. */
  lemma ReadyStep(s: State, op: Op)
    requires Enabled(s, op) && !(op.Tick? || op.Block? || op.Force?)
    ensures Extends(Q(s.qs, RunQ), Q(Step(s, op).qs, RunQ))
  {
    if op.Unlock? || op.Wait? {
      ReadyAfterUnlock(s, op);
    } else {
      ReadyAfterOther(s, op);
    }
  }

  lemma ReadyAfterUnlock(s: State, op: Op)
    requires Enabled(s, op) && (op.Unlock? || op.Wait?)
    ensures Extends(Q(s.qs, RunQ), Q(Step(s, op).qs, RunQ))
  {
    hide Unlocked;
    match op
    case Unlock(m) => UnlockedReady(s, m);
    case Wait(c, m) => UnlockedReady(AboutToWait(s, c, m), m);
  }

  lemma ReadyAfterOther(s: State, op: Op)
    requires Enabled(s, op) && !(op.Tick? || op.Block? || op.Force? || op.Unlock? || op.Wait?)
    ensures Extends(Q(s.qs, RunQ), Q(Step(s, op).qs, RunQ))
  {
    hide Log;
  }

  /** The thread at place `k` of the run queue stays there, moves up, or runs. */
  predicate MovesUp(s': State, t: Tid, k: nat, taken: bool) {
    var q := Q(s'.qs, RunQ);
    || s'.current == t
    || (k > 0 && k - 1 < |q| && q[k - 1] == t)
    || (k < |q| && q[k] == t && !taken)
  }

  lemma ScheduledMovesUp(s: State, force: bool, expired: bool, k: nat)
    requires s.current in s.st && s.current !in Q(s.qs, RunQ)
    requires k < |Q(s.qs, RunQ)| && s.idle != Some(Q(s.qs, RunQ)[k])
    ensures MovesUp(Scheduled(s, force, expired), Q(s.qs, RunQ)[k], k, force || expired)
  {
    hide Scheduled;
    ScheduledTurn(s, force, expired);
  }

  lemma TurnStep(s: State, op: Op, k: nat)
    requires Inv(s) && Enabled(s, op) && k < |Q(s.qs, RunQ)| && s.idle != Some(Q(s.qs, RunQ)[k])
    ensures MovesUp(Step(s, op), Q(s.qs, RunQ)[k], k, TakesNext(s, op))
  {
    hide Inv, Scheduled, MovesUp;
    NotWaiting(s);
    if op.Tick? || op.Block? || op.Force? {
      SwitchMovesUp(s, op, k);
    } else {
      hide Step;
      ReadyStep(s, op);
      StaysInPlace(Q(s.qs, RunQ), Step(s, op), k);
    }
  }

  lemma StaysInPlace(q: seq<Tid>, s': State, k: nat)
    requires k < |q| && Extends(q, Q(s'.qs, RunQ))
    ensures MovesUp(s', q[k], k, false)
  {
    assert Q(s'.qs, RunQ)[k] == Q(s'.qs, RunQ)[..|q|][k];
  }

  lemma SwitchMovesUp(s: State, op: Op, k: nat)
    requires Enabled(s, op) && (op.Tick? || op.Block? || op.Force?) && s.current !in Q(s.qs, RunQ)
    requires k < |Q(s.qs, RunQ)| && s.idle != Some(Q(s.qs, RunQ)[k])
    ensures MovesUp(Step(s, op), Q(s.qs, RunQ)[k], k, TakesNext(s, op))
  {
    hide Scheduled;
    match op
    case Tick(e) => ScheduledMovesUp(s, false, e, k);
    case Block(e) => ScheduledMovesUp(s.(pc := s.pc[s.current := Called(s.pc[s.current])]), false, e, k);
    case Force => ScheduledMovesUp(s, true, false, k);
  }

  /** Only the thread that runs can become the idle thread. */
  lemma IdleStep(s: State, op: Op, t: Tid)
    requires Enabled(s, op) && s.idle != Some(t) && s.current != t
    ensures Step(s, op).idle != Some(t)
  {
    hide Push, Pop, Log;
    if op.Tick? || op.Block? || op.Force? { SwitchIdle(s, op); }
  }

  lemma SwitchIdle(s: State, op: Op)
    requires Enabled(s, op) && (op.Tick? || op.Block? || op.Force?)
    ensures Step(s, op).idle == s.idle && Step(s, op).preempt == s.preempt
  {
    hide Scheduled, Ticked;
    match op
    case Tick(e) => TickedFrame(s, e);
    case Block(e) => TickedFrame(s.(pc := s.pc[s.current := Called(s.pc[s.current])]), e);
    case Force => ScheduledFrame(s, true, false);
  }

  /** Thread `t` runs at some time in the run. */
  predicate RunsIn(s: State, ops: seq<Op>, t: Tid)
    requires Runs(s, ops)
    decreases |ops|
  {
    s.current == t || (ops != [] && RunsIn(Step(s, ops[0]), ops[1..], t))
  }

  /** How often somebody is taken off the run queue because a time slice is over or a thread gives way. */
  function Turns(s: State, ops: seq<Op>): nat
    requires Runs(s, ops)
    decreases |ops|
  {
    if ops == [] then 0 else (if TakesNext(s, ops[0]) then 1 else 0) + Turns(Step(s, ops[0]), ops[1..])
  }

  /** No thread starves: in every run the thread at place `k` of the run queue has run once more than `k` time
      slices have ended.  The idle thread alone may be passed over. */
  lemma {:induction false} TurnComes(s: State, ops: seq<Op>, k: nat)
    requires Inv(s) && Runs(s, ops) && k < |Q(s.qs, RunQ)| && Turns(s, ops) > k
    requires s.idle != Some(Q(s.qs, RunQ)[k])
    ensures RunsIn(s, ops, Q(s.qs, RunQ)[k])
    decreases |ops|
  {
    hide Inv, Step, Enabled, CanBlock;
    var t, op, s1 := Q(s.qs, RunQ)[k], ops[0], Step(s, ops[0]);
    if s.current != t && s1.current != t {
      StepKeeps(s, op);
      TurnStep(s, op, k);
      IdleStep(s, op, t);
      var q := Q(s1.qs, RunQ);
      TurnComes(s1, ops[1..], if k > 0 && k - 1 < |q| && q[k - 1] == t then k - 1 else k);
    }
  }

  /** Thread 0 has registered as the idle thread and been interrupted; thread 1 runs. */
  const IDLE_QUEUED: State := BOOT.(st := map[0 := Active, 1 := Active], current := 1, idle := Some(0),
    qs := map[RunQ := [0]], pc := map[0 := IdleEnter, 1 := Run])

  lemma ToIdleQueued()
    ensures
      var ops := [Create(1), Activate(1), Register, Tick(true)];
      Runs(BOOT, ops) && After(BOOT, ops) == IDLE_QUEUED
  {
    hide After, Runs, Step, BOOT, IDLE_QUEUED;
    var s1, s2, s3 := IdleInterrupted();
    var a, b, c := [Tick(true)], [Register, Tick(true)], [Activate(1), Register, Tick(true)];
    assert [Tick(true)] + [] == a && [Register] + a == b && [Activate(1)] + b == c;
    assert [Create(1)] + c == [Create(1), Activate(1), Register, Tick(true)];
    RunsNil(IDLE_QUEUED);
    RunsCons(s3, Tick(true), []);
    RunsCons(s2, Register, a);
    RunsCons(s1, Activate(1), b);
    RunsCons(BOOT, Create(1), c);
  }

  lemma IdleInterrupted() returns (s1: State, s2: State, s3: State)
    ensures Enabled(BOOT, Create(1)) && s1 == Step(BOOT, Create(1))
    ensures Enabled(s1, Activate(1)) && s2 == Step(s1, Activate(1))
    ensures Enabled(s2, Register) && s3 == Step(s2, Register)
    ensures Enabled(s3, Tick(true)) && IDLE_QUEUED == Step(s3, Tick(true))
  {
    Singles([]);
    s1 := Step(BOOT, Create(1));
    s2 := Step(s1, Activate(1));
    assert s2.qs == map[RunQ := [1]];
    s3 := Step(s2, Register);
    assert Step(s3, Tick(true)).qs == map[RunQ := [0]];
  }

  /** A run in which the idle thread is passed over: 0 is interrupted between its two assignments, and in its turn
      it is dropped, although 1 has used up its time slice. */
  lemma IdlePassedOver() returns (ops: seq<Op>)
    ensures Runs(BOOT, ops)
    ensures
      var s := After(BOOT, ops);
      && Enabled(s, Tick(true)) && s.preempt == 0 && s.current == 1 && s.st[1] == Active && Q(s.qs, RunQ) == [0]
      && Step(s, Tick(true)).current == 1 && Q(Step(s, Tick(true)).qs, RunQ) == []
  {
    hide Runs, After, Scheduled;
    ToIdleQueued();
    ops := [Create(1), Activate(1), Register, Tick(true)];
    ScheduledTurn(IDLE_QUEUED, false, true);
  }

  lemma RunsNil(s: State)
    ensures Runs(s, []) && After(s, []) == s
  {
  }
}
