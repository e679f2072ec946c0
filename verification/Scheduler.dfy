/**
 The scheduler, mutex and condition-variable code as it stands (src/threads.c, src/mutex.c,
 src/condition.c): each interrupts-off region works on the intrusive lists of `Rings`, and does its step of
 the transition system.
 */
module Scheduler {
  import opened Collections
  import opened Threads
  import ThreadRuns
  import Turns
  import Rings

  const SLICE: nat := 10
  const WORD: nat := 0x1_0000_0000_0000_0000

  class Cpu {
    const rings: Rings.Store
    var current: Tid
    var idleThread: Option<Tid>
    var state: map<Tid, ThreadState>
    var time: map<Tid, nat>
    var preempt: nat
    var locked: set<Mid>
    /** What the kernel does not store; the other parts of it do not matter. */
    ghost var log: State

    ghost function View(): State
      reads this, rings
    {
      log.(st := state, current := current, idle := idleThread, qs := rings.qs, preempt := preempt, locked := locked)
    }

    /** The lists in memory are in order, and every thread has its nodes. */
    ghost predicate Linked()
      reads this, rings, rings.heads.Values, rings.links.Values, rings.waits.Values
    {
      rings.Valid() && state.Keys <= rings.links.Keys && current in state
    }

    ghost predicate Good()
      reads this, rings, rings.heads.Values, rings.links.Values, rings.waits.Values
    {
      Linked() && Inv(View())
    }

    /** There is one thread, which runs (src/threads.c:54-66). */
    constructor (rings: Rings.Store)
      requires rings.Valid() && rings.qs == map[] && 0 in rings.links
      ensures Good() && View() == ThreadRuns.BOOT && this.rings == rings
    {
      this.rings := rings;
      current, idleThread, state, time, preempt, locked := 0, None, map[0 := Active], map[], 0, {};
      log := ThreadRuns.BOOT;
      new;
      ThreadRuns.BootInv();
    }

    /** The time slice of the current thread is used up at time `now`; the difference is unsigned. */
    predicate Expired(now: nat)
      reads this`current, this`time
    {
      (now + WORD - (if current in time then time[current] else 0) % WORD) % WORD >= SLICE
    }

    /** When `d` units have gone by since the current thread was switched to, even if the clock has wrapped around
        in the meantime, its time slice is used up if and only if it was not longer than that. */
    lemma ExpiredExact(d: nat)
      requires d < WORD
      ensures
        var start := if current in time then time[current] else 0;
        Expired((start + d) % WORD) <==> d >= SLICE
    {
    }

    /** The time slice is over and another thread is ready. */
    ghost predicate MustSwitch(now: nat)
      reads this, rings
    {
      && Expired(now) && preempt == 0 && current in state && state[current] == Active
      && Q(rings.qs, RunQ) != [] && idleThread != Some(Q(rings.qs, RunQ)[0])
    }

    /** A thread that has been switched to at `now` has its whole time slice before it; a thread that goes on keeps
        what it had. */
    ghost predicate SliceBegins(was: Tid, times: map<Tid, nat>, now: nat)
      reads this`current, this`time
    {
      && (current == was ==> time == times)
      && (current != was ==> time == times[current := now] && forall n :: now <= n < now + SLICE ==> !Expired(n))
    }

    lemma WholeSlice(was: Tid, times: map<Tid, nat>, now: nat)
      requires time == if current == was then times else times[current := now]
      ensures SliceBegins(was, times, now)
    {
    }

    /** `place_thread` (src/threads.c:68-82). */
    method PlaceThread(next: Tid, now: nat)
      requires Linked() && current !in Q(rings.qs, RunQ) && next in state
      modifies this`current, this`state, this`time, rings`qs, rings.heads.Values, rings.links.Values, rings.waits.Values
      ensures Linked() && View() == Placed(old(View()), next)
      ensures current == next && time == old(time)[next := now]
    {
      hide NoDup, Push, Rings.Store.Valid, Rings.NotBeside;
      RunQueue(rings);
      var prev := current;
      if state[prev] == Finishing {
        state := state[prev := Finished];
      }
      if state[prev] == Active {
        RunApart(rings, prev);
        rings.PushTail(RunQ, prev);
      }
      current := next;
      time := time[next := now];
    }

    /** `__schedule` (src/threads.c:170-193). */
    method DoSchedule(force: bool, now: nat)
      requires Linked() && current !in Q(rings.qs, RunQ) && (idleThread.Some? ==> idleThread.value in state)
      requires forall t :: t in Q(rings.qs, RunQ) ==> t in state
      modifies this`current, this`state, this`time, rings`qs, rings.heads.Values, rings.links.Values, rings.waits.Values
      ensures Linked() && View() == Scheduled(old(View()), force, old(Expired(now)))
      ensures time == if current == old(current) then old(time) else old(time)[current := now]
    {
      hide NoDup, Push, Placed, Rings.Store.Valid;
      var prev := current;
      var next := idleThread;
      if !force && state[prev] == Active && !Expired(now) {
        return;
      }
      RunQueue(rings);
      var empty := rings.IsEmpty(RunQ);
      if !empty {
        var first := rings.PopHead(RunQ);
        next := Some(first);
      }
      if next == Some(prev) {
        return;
      }
      if next.Some? && (next != idleThread || state[prev] != Active) {
        PlaceThread(next.value, now);
      }
    }

    /** What the invariant says about the threads that scheduling deals with. */
    lemma Runnable()
      requires Good()
      ensures current !in Q(rings.qs, RunQ) && (idleThread.Some? ==> idleThread.value in state)
      ensures forall t :: t in Q(rings.qs, RunQ) ==> t in state
    {
      hide NoDup, ThreadOk, MutexesOk, OwnersOk, Rings.Store.Valid;
      CurrentNotReady(View());
    }

    /** `schedule` (src/threads.c:195-206). */
    method CallSchedule(now: nat)
      requires Linked() && current !in Q(rings.qs, RunQ) && (idleThread.Some? ==> idleThread.value in state)
      requires forall t :: t in Q(rings.qs, RunQ) ==> t in state
      modifies this`current, this`state, this`time, rings`qs, rings.heads.Values, rings.links.Values, rings.waits.Values
      ensures Linked() && View() == Ticked(old(View()), old(Expired(now)))
      ensures time == if current == old(current) then old(time) else old(time)[current := now]
    {
      hide Scheduled, Rings.Store.Valid;
      if preempt != 0 {
        return;
      }
      DoSchedule(false, now);
    }

    /** The timer interrupt. */
    method Schedule(now: nat)
      requires Good()
      modifies this`current, this`state, this`time, this`log, rings`qs, rings.heads.Values, rings.links.Values,
        rings.waits.Values
      ensures View() == Step(old(View()), Tick(old(Expired(now)))) && Good()
      ensures SliceBegins(old(current), old(time), now)
      ensures old(MustSwitch(now)) ==>
        && current == old(Q(rings.qs, RunQ)[0])
        && Q(rings.qs, RunQ) == old(Q(rings.qs, RunQ))[1..] + [old(current)]
    {
      hide Inv, Ticked, Rings.Store.Valid, SliceBegins;
      StepKeepsTick(View(), Expired(now));
      if MustSwitch(now) { Turns.SliceEnds(View()); }
      Runnable();
      CallSchedule(now);
      WholeSlice(old(current), old(time), now);
    }

    /** `schedule` as the last thing a blocking call does: right if and only if another thread can run. */
    method ScheduleToBlock(now: nat)
      requires Good() && Enabled(View(), Block(Expired(now)))
      modifies this`current, this`state, this`time, this`log, rings`qs, rings.heads.Values, rings.links.Values,
        rings.waits.Values
      ensures View() == Step(old(View()), Block(old(Expired(now)))) && Linked()
      ensures Inv(View()) <==> old(CanBlock(View()))
      ensures SliceBegins(old(current), old(time), now)
    {
      hide Inv, Ticked, CanBlock, Rings.Store.Valid, Step, Enabled, Called, Expired, SliceBegins;
      BlockIs(View(), Expired(now));
      ThreadRuns.BlockIff(View(), Expired(now));
      Runnable();
      log := log.(pc := log.pc[current := Called(log.pc[current])]);
      CallSchedule(now);
      WholeSlice(old(current), old(time), now);
    }

    /** `force_schedule` (src/threads.c:208-218). */
    method ForceSchedule(now: nat)
      requires Good() && Enabled(View(), Force)
      modifies this`current, this`state, this`time, this`log, rings`qs, rings.heads.Values, rings.links.Values,
        rings.waits.Values
      ensures View() == Step(old(View()), Force) && Good()
      ensures SliceBegins(old(current), old(time), now)
    {
      hide Inv, Placed, Rings.Store.Valid, SliceBegins;
      StepKeeps(View(), Force);
      Runnable();
      assert Scheduled(View(), true, Expired(now)) == Scheduled(View(), true, false);
      DoSchedule(true, now);
      WholeSlice(old(current), old(time), now);
    }

    /** `thread_activate` (src/threads.c:136-143). */
    method ThreadActivate(t: Tid)
      requires Linked() && t in state && t !in Q(rings.qs, RunQ)
      modifies this`state, rings`qs, rings.heads.Values, rings.links.Values, rings.waits.Values
      ensures Linked() && View() == Woken(old(View()), t)
    {
      hide NoDup, Push, Rings.Store.Valid, Rings.NotBeside;
      RunQueue(rings);
      RunApart(rings, t);
      state := state[t := Active];
      rings.PushTail(RunQ, t);
    }

    /** The current thread, which is active, is on no queue. */
    lemma Unqueued(q: Queue)
      requires Good() && state[current] == Active
      ensures current !in Q(rings.qs, q) && Rings.NotBeside(rings.qs, q, current)
    {
      hide Inv, Rings.Store.Valid;
      NotQueued(View(), q);
      forall r ensures current !in Q(rings.qs, r) { NotQueued(View(), r); }
    }

    /** `mutex_lock` (src/mutex.c:18-36) on a mutex that has been set up: true if it was free, false if the
        caller has to call `schedule` now. */
    method MutexLock(m: Mid) returns (free: bool)
      requires Good() && Enabled(View(), Lock(m)) && MutexQ(m) in rings.heads
      modifies this`state, this`locked, this`log, rings`qs, rings.heads.Values, rings.links.Values, rings.waits.Values
      ensures View() == Step(old(View()), Lock(m)) && Good()
      ensures free <==> old(m !in locked)
    {
      hide Inv, Locked, Rings.Store.Valid, Rings.NotBeside;
      StepKeeps(View(), Lock(m));
      RunnerActive(View());
      Unqueued(MutexQ(m));
      free := m !in locked;
      if free {
        TakeMutex(m);
      } else {
        JoinQueue(m);
      }
    }

    /** The case that it is not: the caller queues (src/mutex.c:26-28). */
    method JoinQueue(m: Mid)
      requires Linked() && m in locked && MutexQ(m) in rings.heads
      requires current !in Q(rings.qs, MutexQ(m)) && Rings.NotBeside(rings.qs, MutexQ(m), current)
      modifies this`state, this`log, rings`qs, rings.heads.Values, rings.links.Values, rings.waits.Values
      ensures Linked() && View() == Locked(old(View()), m)
    {
      hide Log, Push, Rings.Store.Valid, Rings.NotBeside;
      log := Locked(View(), m);
      state := state[current := Blocked];
      rings.PushTail(MutexQ(m), current);
    }

    /** The case that the mutex is free (src/mutex.c:34). */
    method TakeMutex(m: Mid)
      requires m !in locked
      modifies this`locked, this`log
      ensures View() == Locked(old(View()), m)
    {
      log := Locked(View(), m);
      locked := locked + {m};
    }

    /** Who stands at the head of a wait queue is known and not on the run queue. */
    lemma HeadWaits(q: Queue)
      requires Good() && q != RunQ && Q(rings.qs, q) != []
      ensures Q(rings.qs, q)[0] in state && Q(rings.qs, q)[0] !in Q(rings.qs, RunQ)
    {
      hide Inv, NoDup, ThreadOk, Rings.Store.Valid;
      var t := Q(rings.qs, q)[0];
      Queued(View(), q, t);
      if t in Q(rings.qs, RunQ) { Queued(View(), RunQ, t); }
    }

    /** The mutex is handed to the first waiter (src/mutex.c:48-51). */
    method HandOver(m: Mid)
      requires Linked() && Q(rings.qs, MutexQ(m)) != []
      requires Q(rings.qs, MutexQ(m))[0] in state && Q(rings.qs, MutexQ(m))[0] !in Q(rings.qs, RunQ)
      modifies this`state, this`log, rings`qs, rings.heads.Values, rings.links.Values, rings.waits.Values
      ensures Linked() && View() == Unlocked(old(View()), m)
    {
      hide Log, Rings.Store.Valid, Push, Pop;
      log := Unlocked(View(), m);
      var next := rings.PopHead(MutexQ(m));
      OtherQueue(old(rings.qs), MutexQ(m), RunQ);
      ThreadActivate(next);
    }

    /** `mutex_unlock` (src/mutex.c:38-53). */
    method MutexUnlock(m: Mid)
      requires Good() && MutexQ(m) in rings.heads && (current, m) in log.holds && current in log.pc &&
        !InLock(log.pc[current], m)
      modifies this`state, this`locked, this`log, rings`qs, rings.heads.Values, rings.links.Values, rings.waits.Values
      ensures View() == Unlocked(old(View()), m) && Good()
    {
      hide Inv, InLock, Log, Rings.Store.Valid, Woken;
      UnlockKeeps(View(), m);
      var empty := rings.IsEmpty(MutexQ(m));
      if empty {
        log := Unlocked(View(), m);
        locked := locked - {m};
      } else {
        HeadWaits(MutexQ(m));
        HandOver(m);
      }
    }

    /** `condition_wait` up to its call of `schedule` (src/condition.c:17-29). */
    method ConditionWait(c: Cid, m: Mid)
      requires Good() && Enabled(View(), Wait(c, m)) && CondQ(c) in rings.heads && MutexQ(m) in rings.heads
      modifies this`state, this`locked, this`log, rings`qs, rings.heads.Values, rings.links.Values, rings.waits.Values
      ensures View() == Step(old(View()), Wait(c, m)) && Good()
    {
      hide Inv, Push, Unlocked, Rings.Store.Valid, Rings.NotBeside;
      WaitQueuedKeeps(View(), c, m);
      RunnerActive(View());
      Unqueued(CondQ(c));
      log := log.(pc := log.pc[current := WaitSched(c, m)]);
      state := state[current := Blocked];
      rings.PushTail(CondQ(c), current);
      MutexUnlock(m);
    }

    /** `condition_signal` (src/condition.c:35-46). */
    method ConditionSignal(c: Cid)
      requires Good() && Enabled(View(), Signal(c)) && CondQ(c) in rings.heads
      modifies this`state, this`log, rings`qs, rings.heads.Values, rings.links.Values, rings.waits.Values
      ensures View() == Step(old(View()), Signal(c)) && Good()
    {
      hide Inv, Rings.Store.Valid, Push, Pop;
      StepKeeps(View(), Signal(c));
      var empty := rings.IsEmpty(CondQ(c));
      if !empty {
        HeadWaits(CondQ(c));
        var t := rings.PopHead(CondQ(c));
        OtherQueue(old(rings.qs), CondQ(c), RunQ);
        ThreadActivate(t);
      }
    }

    /** All waiters move to the list of the caller (src/condition.c:51-58). */
    method TakeWaiters(c: Cid)
      requires Linked() && CondQ(c) in rings.heads && Q(rings.qs, FlightQ(current)) == []
      modifies this`log, rings, rings.heads.Values, rings.links.Values, rings.waits.Values
      ensures Linked() && View() == Spliced(old(View()), c) && FlightQ(current) in rings.heads
    {
      hide Rings.Store.Valid;
      log := Spliced(View(), c);
      rings.SpliceOff(c, current);
    }

    /** `condition_broadcast` up to its loop (src/condition.c:48-58). */
    method ConditionBroadcast(c: Cid)
      requires Good() && Enabled(View(), Broadcast(c)) && CondQ(c) in rings.heads
      modifies this`log, rings, rings.heads.Values, rings.links.Values, rings.waits.Values
      ensures View() == Step(old(View()), Broadcast(c)) && Good()
      ensures FlightQ(current) in rings.heads
    {
      hide Inv, Rings.Store.Valid, Spliced;
      StepKeeps(View(), Broadcast(c));
      FlightEmpty(View(), current);
      TakeWaiters(c);
    }

    /** The next waiter of the list is woken (src/condition.c:61-64). */
    method WakeNext()
      requires Linked() && Q(rings.qs, FlightQ(current)) != []
      requires Q(rings.qs, FlightQ(current))[0] in state && Q(rings.qs, FlightQ(current))[0] !in Q(rings.qs, RunQ)
      modifies this`state, this`log, rings`qs, rings`cursors, rings.heads.Values, rings.links.Values, rings.waits.Values
      ensures Linked() && View() == Delivered(old(View()))
    {
      hide Rings.Store.Valid, Push, Pop;
      log := Delivered(View());
      var t := rings.Advance(current);
      OtherQueue(old(rings.qs), FlightQ(current), RunQ);
      ThreadActivate(t);
    }

    /** One round of the loop (src/condition.c:60-65), with what its last test does when nobody is left. */
    method BroadcastRound() returns (more: bool)
      requires Good() && Enabled(View(), Deliver) && FlightQ(current) in rings.heads
      modifies this`state, this`log, rings`qs, rings`cursors, rings.heads.Values, rings.links.Values, rings.waits.Values
      ensures View() == Step(old(View()), Deliver) && Good()
      ensures more <==> old(Q(rings.qs, FlightQ(current))) != []
    {
      hide Inv, Rings.Store.Valid, Woken;
      StepKeeps(View(), Deliver);
      var end := rings.AtEnd(current);
      if end {
        log := log.(pc := log.pc[current := Run]);
      } else {
        HeadWaits(FlightQ(current));
        WakeNext();
      }
      more := !end;
    }

    /** `thread_exit` up to its loop (src/threads.c:145-149). */
    method ThreadExit()
      requires Good() && Enabled(View(), Exit)
      modifies this`state, this`log
      ensures View() == Step(old(View()), Exit) && Good()
    {
      hide Inv, Rings.Store.Valid;
      StepKeeps(View(), Exit);
      state := state[current := Finishing];
      log := log.(pc := log.pc[current := Exiting]);
    }

    /** `idle` up to its loop (src/threads.c:220-226); between the two an interrupt may come. */
    method RegisterIdle()
      requires Good() && Enabled(View(), Register)
      modifies this`idleThread, this`log
      ensures View() == Step(old(View()), Register) && Good()
    {
      hide Inv, Rings.Store.Valid;
      StepKeeps(View(), Register);
      idleThread := Some(current);
      log := log.(pc := log.pc[current := IdleEnter]);
    }

    method BecomeIdle()
      requires Good() && Enabled(View(), MarkIdle)
      modifies this`state, this`log
      ensures View() == Step(old(View()), MarkIdle) && Good()
    {
      hide Inv, Rings.Store.Valid;
      StepKeeps(View(), MarkIdle);
      state := state[current := ThreadState.Idle];
      log := log.(pc := log.pc[current := IdleLoop]);
    }
  }

  /** A thread that is not on the run queue may join it whatever it waits for: the node is its own. */
  lemma RunApart(rings: Rings.Store, t: Tid)
    ensures Rings.NotBeside(rings.qs, RunQ, t)
  {
  }

  lemma RunQueue(rings: Rings.Store)
    requires rings.Valid()
    ensures RunQ in rings.heads
  {
  }

  lemma StepKeepsTick(s: State, expired: bool)
    requires Inv(s)
    ensures Enabled(s, Tick(expired)) && Inv(Step(s, Tick(expired)))
  {
    hide NoDup, ThreadOk, MutexesOk, OwnersOk, QueuesOk, ThreadsOk;
    StepKeeps(s, Tick(expired));
  }

  lemma OtherQueue(qs: Queues, q: Queue, r: Queue)
    requires Q(qs, q) != [] && q != r
    ensures Q(Pop(qs, q), r) == Q(qs, r)
  {
  }

  lemma BlockIs(s: State, expired: bool)
    requires Enabled(s, Block(expired))
    ensures s.current in s.pc && s.current in s.st
    ensures Step(s, Block(expired)) == Ticked(s.(pc := s.pc[s.current := Called(s.pc[s.current])]), expired)
  {
    hide Ticked, Called;
  }
}
