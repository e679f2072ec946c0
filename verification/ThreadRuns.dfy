/**
 What holds in every run of the threads: one place for each thread, mutual exclusion with strict
 first-come-first-served hand-off, no lost signal, and no life after the end.
 */
module ThreadRuns {
  import opened Collections
  import opened Threads

  // ---- runs ----------------------------------------------------------------------------------

  /** `ops` can be done one after the other, and whoever blocks finds another thread to run. */
  predicate Runs(s: State, ops: seq<Op>)
    decreases |ops|
  {
    ops == [] || (Enabled(s, ops[0]) && (ops[0].Block? ==> CanBlock(s)) && Runs(Step(s, ops[0]), ops[1..]))
  }

  function After(s: State, ops: seq<Op>): State
    requires Runs(s, ops)
    decreases |ops|
  {
    if ops == [] then s else After(Step(s, ops[0]), ops[1..])
  }

  /** `threads_setup` (src/threads.c:54-66): one thread, which is running. */
  const BOOT: State := State(map[0 := Active], 0, None, map[], 0, {}, map[0 := Run], map[], {}, map[], map[], map[])

  lemma BootInv()
    ensures Inv(BOOT)
  {
    assert forall q :: Q(BOOT.qs, q) == [];
  }

  lemma {:induction false} RunKeeps(s: State, ops: seq<Op>)
    requires Inv(s) && Runs(s, ops)
    ensures Inv(After(s, ops))
    decreases |ops|
  {
    hide Inv, Step;
    if ops != [] {
      StepKeeps(s, ops[0]);
      RunKeeps(Step(s, ops[0]), ops[1..]);
    }
  }

  /** The invariant holds after every run from the start. */
  lemma EveryRun(ops: seq<Op>)
    requires Runs(BOOT, ops)
    ensures Inv(After(BOOT, ops))
  {
    BootInv();
    RunKeeps(BOOT, ops);
  }

  /** The condition on blocking is exact: without it the invariant is lost at once. */
  lemma BlockIff(s: State, expired: bool)
    requires Inv(s) && Enabled(s, Block(expired))
    ensures Inv(Step(s, Block(expired))) <==> CanBlock(s)
  {
    if CanBlock(s) {
      BlockKeeps(s, expired);
    } else {
      var t, s' := s.current, Step(s, Block(expired));
      assert s'.current == t && s'.st[t] == Blocked && (s'.pc[t].LockRet? || s'.pc[t].WaitRet?) by {
        hide Inv;
      }
      assert !Fits(s', t);
      hide Inv, ThreadOk;
      if Inv(s') { Fitting(s', t); }
    }
  }

  /** A caller of `mutex_lock` that has to wait comes straight back from `schedule`, still in the queue, if and
      only if it cannot block; and then it returns as if it had the mutex. */
  lemma BackTooSoon(s: State, m: Mid, expired: bool)
    requires Inv(s) && Enabled(s, Block(expired)) && s.pc[s.current] == LockSched(m)
    ensures
      var t, s' := s.current, Step(s, Block(expired));
      && (s'.current == t && t in Q(s'.qs, MutexQ(m)) <==> !CanBlock(s))
      && (!CanBlock(s) ==>
        Enabled(s', Resume) && (t, m) in Step(s', Resume).holds && t in Q(Step(s', Resume).qs, MutexQ(m)))
  {
    hide Inv, Step, CanBlock;
    StillLocking(s, m, expired);
    if CanBlock(s) {
      var t, s' := s.current, Step(s, Block(expired));
      BlockKeeps(s, expired);
      if s'.current == t && t in Q(s'.qs, MutexQ(m)) {
        Queued(s', MutexQ(m), t);
        Fitting(s', t);
      }
    } else {
      BackAtOnce(s, m, expired);
    }
  }

  lemma StillLocking(s: State, m: Mid, expired: bool)
    requires Enabled(s, Block(expired)) && s.pc[s.current] == LockSched(m)
    ensures var s' := Step(s, Block(expired)); s.current in s'.pc && s'.pc[s.current] == LockRet(m)
  {
    hide Ticked;
    TickedFrame(s.(pc := s.pc[s.current := Called(s.pc[s.current])]), expired);
  }

  lemma BackAtOnce(s: State, m: Mid, expired: bool)
    requires Inv(s) && Enabled(s, Block(expired)) && s.pc[s.current] == LockSched(m) && !CanBlock(s)
    ensures
      var t, s' := s.current, Step(s, Block(expired));
      && s'.current == t && t in Q(s'.qs, MutexQ(m)) && Enabled(s', Resume)
      && (t, m) in Step(s', Resume).holds && t in Q(Step(s', Resume).qs, MutexQ(m))
  {
    hide NoDup, MutexesOk, OwnersOk;
    var t := s.current;
    assert ThreadOk(s, t);
    assert Step(s, Block(expired)) == s.(pc := s.pc[t := LockRet(m)]);
  }

  lemma Fitting(s: State, t: Tid)
    requires Inv(s) && t in s.st
    ensures Fits(s, t)
  {
    hide NoDup, FiledAt;
    assert ThreadOk(s, t);
  }

  // ---- one place -----------------------------------------------------------------------------

  datatype Place = OnCpu | On(q: Queue) | Parked | NotYet | Done

  /** Being at a place.  A thread that has queued itself to wait counts as waiting, even while it is still
      on its way into `schedule`. */
  predicate At(s: State, t: Tid, p: Place)
    requires t in s.st && t in s.pc
  {
    match p
    case OnCpu => t == s.current && s.st[t] != Blocked
    case On(q) => t in Q(s.qs, q)
    case Parked => t != s.current && s.idle == Some(t) && t !in Q(s.qs, RunQ)
    case NotYet => s.pc[t] == Unborn
    case Done => s.st[t] == Finished
  }

  /** Every thread is in exactly one place. */
  lemma OnePlace(s: State, t: Tid) returns (p: Place)
    requires Inv(s) && t in s.st
    ensures forall p' :: At(s, t, p') <==> p' == p
  {
    hide NoDup;
    assert ThreadOk(s, t);
    p := if s.st[t] == Finished then Done
    else if s.pc[t] == Unborn then NotYet
    else if t == s.current && s.st[t] != Blocked then OnCpu
    else if s.idle == Some(t) && t !in Q(s.qs, RunQ) then Parked
    else On(Home(s, t).value);
  }

  // ---- mutexes -------------------------------------------------------------------------------

  /** At most one thread has come back from locking a mutex and not unlocked it. */
  lemma MutualExclusion(s: State, t: Tid, u: Tid, m: Mid)
    requires Inv(s) && (t, m) in s.holds && (u, m) in s.holds
    ensures t == u && m in s.locked
  {
    assert Owns(s, t, m) && Owns(s, u, m) && MutexOk(s, m);
  }

  /** The k-th thread served is the k-th that came. */
  lemma FirstComeFirstServed(s: State, m: Mid, k: nat)
    requires Inv(s) && k < |Log(s.grants, m)|
    ensures k < |Log(s.arrivals, m)| && Log(s.grants, m)[k] == Log(s.arrivals, m)[k]
  {
    assert MutexOk(s, m);
  }

  /** A mutex that is given up goes to the thread that has waited longest, and is never seen unlocked. */
  lemma HandOff(s: State, m: Mid)
    requires Inv(s) && Enabled(s, Unlock(m)) && Q(s.qs, MutexQ(m)) != []
    ensures
      var s', next := Step(s, Unlock(m)), Q(s.qs, MutexQ(m))[0];
      && m in s'.locked && m in s'.owner && s'.owner[m] == next && next in Q(s'.qs, RunQ)
      && (s.current, m) !in s'.holds
      && |Log(s.grants, m)| < |Log(s.arrivals, m)| && Log(s.arrivals, m)[|Log(s.grants, m)|] == next
  {
    assert MutexOk(s, m);
  }

  predicate Extends(l: seq<Tid>, l': seq<Tid>) {
    |l| <= |l'| && l'[..|l|] == l
  }

  lemma StepLogs(s: State, op: Op, m: Mid)
    requires Enabled(s, op)
    ensures Extends(Log(s.arrivals, m), Log(Step(s, op).arrivals, m))
    ensures Extends(Log(s.grants, m), Log(Step(s, op).grants, m))
  {
    hide Step, Enabled;
    if op.Tick? || op.Block? || op.Force? {
      SchedulingFrame(s, op);
    } else if op.Lock? || op.Unlock? || op.Wait? {
      LockingLogs(s, op, m);
    } else {
      QuietLogs(s, op);
    }
  }

  lemma SchedulingFrame(s: State, op: Op)
    requires Enabled(s, op) && (op.Tick? || op.Block? || op.Force?)
    ensures
      var s' := Step(s, op);
      && s'.arrivals == s.arrivals && s'.grants == s.grants && s'.flight == s.flight
      && forall q :: q != RunQ ==> Q(s'.qs, q) == Q(s.qs, q)
  {
    hide Ticked, Scheduled;
    match op
    case Tick(e) => TickedFrame(s, e);
    case Block(e) => TickedFrame(s.(pc := s.pc[s.current := Called(s.pc[s.current])]), e);
    case Force => ScheduledFrame(s, true, false);
  }

  lemma LockingLogs(s: State, op: Op, m: Mid)
    requires Enabled(s, op) && (op.Lock? || op.Unlock? || op.Wait?)
    ensures Extends(Log(s.arrivals, m), Log(Step(s, op).arrivals, m))
    ensures Extends(Log(s.grants, m), Log(Step(s, op).grants, m))
  {
    hide Unlocked, Push, Pop, Q;
    match op
    case Lock(n) =>
    case Unlock(n) => UnlockedLogs(s, n, m);
    case Wait(c, n) => UnlockedLogs(AboutToWait(s, c, n), n, m);
  }

  lemma QuietLogs(s: State, op: Op)
    requires Enabled(s, op) && !(op.Tick? || op.Block? || op.Force? || op.Lock? || op.Unlock? || op.Wait?)
    ensures Step(s, op).arrivals == s.arrivals && Step(s, op).grants == s.grants
  {
    hide Woken, Signalled, Delivered, Push, Pop, Q;
    match op
    case Signal(c) => SignalledFrame(s, c);
    case Deliver => DeliveredFrame(s);
    case Activate(t) => WokenFrame(s.(pc := s.pc[t := Run]), t);
    case _ =>
  }

  /** In `condition_wait`, before the mutex is given up. */
  function AboutToWait(s: State, c: Cid, m: Mid): State {
    s.(st := s.st[s.current := Blocked], qs := Push(s.qs, CondQ(c), s.current),
      pc := s.pc[s.current := WaitSched(c, m)])
  }

  lemma UnlockedLogs(s: State, n: Mid, m: Mid)
    ensures Unlocked(s, n).arrivals == s.arrivals
    ensures Extends(Log(s.grants, m), Log(Unlocked(s, n).grants, m))
  {
    hide Push, Pop, Q, Woken;
    if Q(s.qs, MutexQ(n)) != [] {
      var next := Q(s.qs, MutexQ(n))[0];
      WokenFrame(s.(holds := s.holds - {(s.current, n)}, qs := Pop(s.qs, MutexQ(n)), owner := s.owner[n := next],
                    grants := s.grants[n := Log(s.grants, n) + [next]]), next);
    }
  }

  lemma SignalledFrame(s: State, c: Cid)
    ensures Signalled(s, c) == s.(st := Signalled(s, c).st, qs := Signalled(s, c).qs)
  {
  }

  lemma DeliveredFrame(s: State)
    ensures Delivered(s).arrivals == s.arrivals && Delivered(s).grants == s.grants
  {
  }

  lemma WokenFrame(s: State, t: Tid)
    ensures Woken(s, t) == s.(st := Woken(s, t).st, qs := Woken(s, t).qs)
  {
  }

  /** Whoever came before is served before, in every run: what has been served is never taken back and the
      order of arrival never changes. */
  lemma {:induction false} RunLogs(s: State, ops: seq<Op>, m: Mid)
    requires Runs(s, ops)
    ensures Extends(Log(s.arrivals, m), Log(After(s, ops).arrivals, m))
    ensures Extends(Log(s.grants, m), Log(After(s, ops).grants, m))
    decreases |ops|
  {
    hide Step;
    if ops != [] {
      StepLogs(s, ops[0], m);
      var s1 := Step(s, ops[0]);
      RunLogs(s1, ops[1..], m);
      ExtendsTrans(Log(s.arrivals, m), Log(s1.arrivals, m), Log(After(s, ops).arrivals, m));
      ExtendsTrans(Log(s.grants, m), Log(s1.grants, m), Log(After(s, ops).grants, m));
    }
  }

  lemma ExtendsTrans(a: seq<Tid>, b: seq<Tid>, c: seq<Tid>)
    requires Extends(a, b) && Extends(b, c)
    ensures Extends(a, c)
  {
    assert c[..|a|] == c[..|b|][..|a|];
  }

  /** No barging: whoever waits in a queue is served before anyone who comes later. */
  lemma NoBarging(s: State, ops: seq<Op>, m: Mid, i: nat, k: nat)
    requires Inv(s) && Runs(s, ops) && i < |Log(s.arrivals, m)| <= k < |Log(After(s, ops).grants, m)|
    ensures Log(After(s, ops).grants, m)[i] == Log(s.arrivals, m)[i]
  {
    RunKeeps(s, ops);
    RunLogs(s, ops, m);
    FirstComeFirstServed(After(s, ops), m, i);
  }

  /** The step gives up mutex `m`. */
  predicate GivesUp(op: Op, m: Mid) {
    op == Unlock(m) || (op.Wait? && op.m == m)
  }

  /** How often mutex `m` is given up in the run. */
  function GivenUp(ops: seq<Op>, m: Mid): nat {
    if ops == [] then 0 else (if GivesUp(ops[0], m) then 1 else 0) + GivenUp(ops[1..], m)
  }

  /** A mutex that is given up while somebody waits for it is granted. */
  lemma GivingGrants(s: State, op: Op, m: Mid)
    requires Enabled(s, op) && GivesUp(op, m) && Q(s.qs, MutexQ(m)) != []
    ensures |Log(Step(s, op).grants, m)| == |Log(s.grants, m)| + 1
  {
    hide Push, Pop, Woken, Unlocked;
    match op
    case Unlock(n) => UnlockedGrants(s, m);
    case Wait(c, n) =>
      PushQ(s.qs, CondQ(c), s.current, MutexQ(m));
      UnlockedGrants(AboutToWait(s, c, m), m);
  }

  lemma UnlockedGrants(s: State, m: Mid)
    requires Q(s.qs, MutexQ(m)) != []
    ensures |Log(Unlocked(s, m).grants, m)| == |Log(s.grants, m)| + 1
  {
    hide Push, Pop, Woken;
    var next := Q(s.qs, MutexQ(m))[0];
    WokenFrame(s.(holds := s.holds - {(s.current, m)}, qs := Pop(s.qs, MutexQ(m)), owner := s.owner[m := next],
                  grants := s.grants[m := Log(s.grants, m) + [next]]), next);
  }

  /** In every run there are as many new grants as the mutex is given up, or all that came are served. */
  lemma {:induction false} GrantsCount(s: State, ops: seq<Op>, m: Mid)
    requires Inv(s) && Runs(s, ops)
    ensures
      var g := |Log(After(s, ops).grants, m)|;
      g >= |Log(s.grants, m)| + GivenUp(ops, m) || g >= |Log(s.arrivals, m)|
    decreases |ops|
  {
    hide Inv, Step, Enabled, CanBlock, GivesUp;
    if ops != [] {
      var op, s1 := ops[0], Step(s, ops[0]);
      StepKeeps(s, op);
      StepLogs(s, op, m);
      GrantsCount(s1, ops[1..], m);
      RunLogs(s1, ops[1..], m);
      QueueIsRest(s, m);
      if GivesUp(op, m) && Q(s.qs, MutexQ(m)) != [] { GivingGrants(s, op, m); }
    }
  }

  lemma QueueIsRest(s: State, m: Mid)
    requires Inv(s)
    ensures Log(s.arrivals, m) == Log(s.grants, m) + Q(s.qs, MutexQ(m))
  {
    assert MutexOk(s, m);
  }

  /** No waiter is forgotten: once the mutex has been given up more than `k` times, whoever stood at place `k` of
      its queue has been granted it. */
  lemma EnoughUnlocks(s: State, ops: seq<Op>, m: Mid, k: nat)
    requires Inv(s) && Runs(s, ops) && k < |Q(s.qs, MutexQ(m))| && GivenUp(ops, m) > k
    ensures
      var i, g := |Log(s.grants, m)| + k, Log(After(s, ops).grants, m);
      i < |g| && g[i] == Q(s.qs, MutexQ(m))[k]
  {
    hide Inv, Step, Enabled, CanBlock;
    GrantsCount(s, ops, m);
    QueueIsRest(s, m);
    RunKeeps(s, ops);
    RunLogs(s, ops, m);
    FirstComeFirstServed(After(s, ops), m, |Log(s.grants, m)| + k);
  }

  // ---- condition variables -------------------------------------------------------------------

  predicate WaitsFor(s: State, t: Tid, c: Cid)
    requires t in s.pc && t in s.st
  {
    s.st[t] == Blocked && ((s.pc[t].WaitSched? && s.pc[t].c == c) || (s.pc[t].WaitRet? && s.pc[t].c == c))
  }

  /** `condition_wait` queues the thread and gives up the mutex in one step. */
  lemma WaitIsAtomic(s: State, c: Cid, m: Mid)
    requires Inv(s) && Enabled(s, Wait(c, m))
    ensures
      var s' := Step(s, Wait(c, m));
      (s.current, m) !in s'.holds && s.current in Q(s'.qs, CondQ(c)) && WaitsFor(s', s.current, c)
  {
    hide Inv, NoDup;
    RunnerActive(s);
    NotQueued(s, MutexQ(m));
  }

  /** A thread that waits is where a signal finds it: on the condition, or on the list of a broadcast. */
  lemma WaiterIsListed(s: State, t: Tid, c: Cid)
    requires Inv(s) && t in s.st && WaitsFor(s, t, c)
    ensures t in Q(s.qs, CondQ(c)) || (t in s.flight && t in Q(s.qs, FlightQ(s.flight[t])))
    ensures forall u :: t in Q(s.qs, FlightQ(u)) ==> u in s.pc && s.pc[u].Broadcasting?
  {
    hide NoDup;
    assert ThreadOk(s, t);
  }

  lemma SplicedQueues(s: State, c: Cid, u: Tid)
    ensures Q(Spliced(s, c).qs, FlightQ(u)) == if u == s.current then Q(s.qs, CondQ(c)) else Q(s.qs, FlightQ(u))
  {
  }

  /** A broadcast takes every thread that waits on the condition. */
  lemma BroadcastTakesAll(s: State, c: Cid, t: Tid)
    requires Inv(s) && Enabled(s, Broadcast(c)) && t in s.st && WaitsFor(s, t, c)
    ensures
      var s' := Step(s, Broadcast(c));
      exists u :: t in Q(s'.qs, FlightQ(u)) && u in s'.pc && s'.pc[u].Broadcasting?
  {
    hide Inv, NoDup, ThreadOk, WaitsFor;
    WaiterIsListed(s, t, c);
    FlightEmpty(s, s.current);
    var s' := Spliced(s, c);
    var u := if t in Q(s.qs, CondQ(c)) then s.current else s.flight[t];
    SplicedQueues(s, c, u);
    assert t in Q(s'.qs, FlightQ(u));
  }

  predicate Belongs(s: State, q: Queue)
    requires Q(s.qs, q) != []
  {
    var t := Q(s.qs, q)[0];
    t in s.st && t in s.pc && s.st[t] == Blocked && Home(s, t) == Some(q)
  }

  /** Whoever stands at the head of a wait queue belongs there. */
  lemma HeadBelongs(s: State, q: Queue)
    requires Inv(s) && q != RunQ
    ensures Q(s.qs, q) != [] ==> Belongs(s, q)
  {
    hide NoDup, ThreadOk, MutexesOk, OwnersOk, QueuesOk, ThreadsOk;
    if Q(s.qs, q) != [] { Queued(s, q, Q(s.qs, q)[0]); }
  }

  /** Thread `t`, which is blocked or finished, is in the same state after the step. */
  predicate Undisturbed(s: State, s': State, t: Tid)
    requires t in s.st && t in s.pc
  {
    t in s'.st && t in s'.pc && s'.st[t] == s.st[t] && (s'.pc[t] == s.pc[t] || s'.pc[t] == Called(s.pc[t]))
  }

  lemma SchedulingUndisturbed(s: State, op: Op, t: Tid)
    requires Inv(s) && Enabled(s, op) && t in s.st && (s.st[t] == Blocked || s.st[t] == Finished)
    requires op.Tick? || op.Block? || op.Force?
    ensures Undisturbed(s, Step(s, op), t)
  {
    hide NoDup, ThreadOk, MutexesOk, OwnersOk, QueuesOk, ThreadsOk, Scheduled;
    match op
    case Tick(e) => ScheduledFrame(s, false, e);
    case Block(e) => ScheduledFrame(s.(pc := s.pc[s.current := Called(s.pc[s.current])]), false, e);
    case Force => ScheduledFrame(s, true, false);
  }

  lemma OthersUndisturbed(s: State, op: Op, t: Tid)
    requires Inv(s) && Enabled(s, op) && t in s.st && (s.st[t] == Blocked || s.st[t] == Finished)
    requires !(op.Tick? || op.Block? || op.Force? || op.Unlock? || op.Wait? || op.Signal? || op.Deliver?)
    ensures op == Activate(t) || Undisturbed(s, Step(s, op), t)
  {
    Fitting(s, s.current);
    hide Inv, NoDup, ThreadOk, Push, Home;
    if op.Broadcast? || op.Lock? || op.Resume? {
      hide Step;
      CurrentOnly(s, op);
      assert s.current != t;
    }
  }

  /** These steps change the current thread only. */
  lemma CurrentOnly(s: State, op: Op)
    requires Enabled(s, op) && (op.Broadcast? || op.Lock? || op.Resume?)
    ensures forall t :: t in s.st && t != s.current ==> t in Step(s, op).st && Step(s, op).st[t] == s.st[t]
    ensures forall t :: t in s.pc && t != s.current ==> t in Step(s, op).pc && Step(s, op).pc[t] == s.pc[t]
  {
    match op
    case Broadcast(c) => assert Step(s, op) == Spliced(s, c);
    case Lock(m) => assert Step(s, op) == Locked(s, m);
    case Resume => assert Step(s, op) == Resumed(s);
  }

  lemma WakingUndisturbed(s: State, op: Op, t: Tid, q: Queue)
    requires Inv(s) && Enabled(s, op) && t in s.st && (s.st[t] == Blocked || s.st[t] == Finished)
    requires match op {
      case Unlock(m) => q == MutexQ(m)
      case Wait(_, m) => q == MutexQ(m)
      case Signal(c) => q == CondQ(c)
      case Deliver => q == FlightQ(s.current)
      case _ => false
    }
    ensures (Q(s.qs, q) != [] && t == Q(s.qs, q)[0] && Belongs(s, q)) || Undisturbed(s, Step(s, op), t)
  {
    hide Inv, Belongs, Undisturbed, Step;
    HeadBelongs(s, q);
    InPlace(s, t);
    if Q(s.qs, q) == [] || t != Q(s.qs, q)[0] {
      match op
      case Unlock(m) => UnlockUndisturbed(s, m, t);
      case Wait(c, m) => WaitUndisturbed(s, c, m, t);
      case Signal(c) => SignalUndisturbed(s, c, t);
      case Deliver => DeliverUndisturbed(s, t);
    }
  }

  lemma InPlace(s: State, t: Tid)
    requires Inv(s) && t in s.st && (s.st[t] == Blocked || s.st[t] == Finished)
    ensures t in s.pc
    ensures s.current in s.pc && (s.pc[s.current].Run? || s.pc[s.current].Broadcasting?) ==> t != s.current
  {
    hide NoDup, FiledAt;
    assert ThreadOk(s, t);
  }

  lemma UnlockUndisturbed(s: State, m: Mid, t: Tid)
    requires Enabled(s, Unlock(m)) && t in s.st && t in s.pc &&
      !(Q(s.qs, MutexQ(m)) != [] && t == Q(s.qs, MutexQ(m))[0])
    ensures Undisturbed(s, Step(s, Unlock(m)), t)
  {
    hide Unlocked;
    UnlockedStates(s, m);
  }

  lemma WaitUndisturbed(s: State, c: Cid, m: Mid, t: Tid)
    requires Enabled(s, Wait(c, m)) && t in s.st && t in s.pc &&
      !(Q(s.qs, MutexQ(m)) != [] && t == Q(s.qs, MutexQ(m))[0])
    requires t != s.current
    ensures Undisturbed(s, Step(s, Wait(c, m)), t)
  {
    hide Unlocked;
    var s1 := AboutToWait(s, c, m);
    assert Q(s1.qs, MutexQ(m)) == Q(s.qs, MutexQ(m));
    UnlockedStates(s1, m);
  }

  lemma SignalUndisturbed(s: State, c: Cid, t: Tid)
    requires Enabled(s, Signal(c)) && t in s.st && t in s.pc && !(Q(s.qs, CondQ(c)) != [] && t == Q(s.qs, CondQ(c))[0])
    ensures Undisturbed(s, Step(s, Signal(c)), t)
  {
    hide Push, Pop, Woken;
    if Q(s.qs, CondQ(c)) != [] { WokenState(s.(qs := Pop(s.qs, CondQ(c))), Q(s.qs, CondQ(c))[0]); }
  }

  lemma DeliverUndisturbed(s: State, t: Tid)
    requires Enabled(s, Deliver) && t in s.st && t in s.pc && t != s.current
    requires !(Q(s.qs, FlightQ(s.current)) != [] && t == Q(s.qs, FlightQ(s.current))[0])
    ensures Undisturbed(s, Step(s, Deliver), t)
  {
    hide Push, Pop, Woken;
    var q := FlightQ(s.current);
    if Q(s.qs, q) != [] {
      WokenState(s.(qs := Pop(s.qs, q), flight := s.flight - {Q(s.qs, q)[0]}), Q(s.qs, q)[0]);
    }
  }


  /** Unlocking changes the state of the thread that gets the mutex, and no other. */
  lemma UnlockedStates(s: State, m: Mid)
    ensures Unlocked(s, m).pc == s.pc
    ensures forall t :: t in s.st && !(Q(s.qs, MutexQ(m)) != [] && t == Q(s.qs, MutexQ(m))[0]) ==>
      t in Unlocked(s, m).st && Unlocked(s, m).st[t] == s.st[t]
  {
    hide Push, Pop, Log, Woken;
    if Q(s.qs, MutexQ(m)) != [] {
      var next := Q(s.qs, MutexQ(m))[0];
      WokenState(s.(holds := s.holds - {(s.current, m)}, qs := Pop(s.qs, MutexQ(m)), owner := s.owner[m := next],
                    grants := s.grants[m := Log(s.grants, m) + [next]]), next);
    }
  }

  lemma WokenState(s: State, t: Tid)
    ensures Woken(s, t).st == s.st[t := Active] && Woken(s, t).pc == s.pc
    ensures forall q :: q != RunQ ==> Q(Woken(s, t).qs, q) == Q(s.qs, q)
  {
  }

  /** The step wakes thread `t`: a signal to its condition finds it at the head, or a broadcast that has
      taken it comes to it. */
  predicate Wakes(s: State, op: Op, t: Tid, c: Cid) {
    || (op == Signal(c) && Q(s.qs, CondQ(c)) != [] && t == Q(s.qs, CondQ(c))[0])
    || (op == Deliver && Q(s.qs, FlightQ(s.current)) != [] && t == Q(s.qs, FlightQ(s.current))[0])
  }

  /** A woken thread is ready, behind all that were. */
  lemma WokenIsReady(s: State, op: Op, t: Tid, c: Cid)
    requires Inv(s) && Enabled(s, op) && Wakes(s, op, t, c)
    ensures
      var s' := Step(s, op);
      t in s'.st && s'.st[t] == Active && Q(s'.qs, RunQ) == Q(s.qs, RunQ) + [t]
  {
    hide Inv;
  }

  /** Nothing but a signal to its condition, or a broadcast that took it, wakes a waiting thread. */
  lemma WokenOnlyBySignal(s: State, op: Op, t: Tid, c: Cid)
    requires Inv(s) && Enabled(s, op) && t in s.st && WaitsFor(s, t, c) && !Wakes(s, op, t, c)
    ensures t in Step(s, op).st && t in Step(s, op).pc && WaitsFor(Step(s, op), t, c)
  {
    hide Step, Inv, NoDup, ThreadOk;
    match op
    case Unlock(m) => WakingUndisturbed(s, op, t, MutexQ(m));
    case Wait(_, m) => WakingUndisturbed(s, op, t, MutexQ(m));
    case Signal(d) => WakingUndisturbed(s, op, t, CondQ(d));
    case Deliver => WakingUndisturbed(s, op, t, FlightQ(s.current));
    case Tick(_) => SchedulingUndisturbed(s, op, t);
    case Block(_) => SchedulingUndisturbed(s, op, t);
    case Force => SchedulingUndisturbed(s, op, t);
    case _ => OthersUndisturbed(s, op, t);
  }

  // ---- no signal is lost ---------------------------------------------------------------------

  /** Some step of the run wakes thread `t`. */
  predicate WokenIn(s: State, ops: seq<Op>, t: Tid, c: Cid)
    requires Runs(s, ops)
    decreases |ops|
  {
    ops != [] && (Wakes(s, ops[0], t, c) || WokenIn(Step(s, ops[0]), ops[1..], t, c))
  }

  /** Thread `t` waits on condition `c`, whether or not a broadcast has taken it. */
  ghost predicate StillWaits(s: State, t: Tid, c: Cid) {
    t in s.st && t in s.pc && WaitsFor(s, t, c)
  }

  /** In every run a thread that waits goes on waiting until a signal or a broadcast wakes it. */
  lemma {:induction false} WaitsUntilWoken(s: State, ops: seq<Op>, t: Tid, c: Cid)
    requires Inv(s) && Runs(s, ops) && StillWaits(s, t, c)
    ensures StillWaits(After(s, ops), t, c) || WokenIn(s, ops, t, c)
    decreases |ops|
  {
    hide Inv, Step, WaitsFor, Enabled, CanBlock;
    if ops != [] && !Wakes(s, ops[0], t, c) {
      WokenOnlyBySignal(s, ops[0], t, c);
      StepKeeps(s, ops[0]);
      WaitsUntilWoken(Step(s, ops[0]), ops[1..], t, c);
    }
  }

  /** A step other than a signal or broadcast on `c` only adds to the end of its queue. */
  lemma CondQueueStep(s: State, op: Op, c: Cid)
    requires Enabled(s, op) && op != Signal(c) && op != Broadcast(c)
    ensures Extends(Q(s.qs, CondQ(c)), Q(Step(s, op).qs, CondQ(c)))
  {
    hide Step, Extends;
    if op.Tick? || op.Block? || op.Force? {
      SchedulingFrame(s, op);
      Same(Q(s.qs, CondQ(c)));
    } else if op.Unlock? || op.Wait? {
      UnlockingQueue(s, op, c);
    } else {
      OtherQueue(s, op, c);
    }
  }

  lemma Same(l: seq<Tid>)
    ensures Extends(l, l)
  {
  }

  lemma UnlockingQueue(s: State, op: Op, c: Cid)
    requires Enabled(s, op) && (op.Unlock? || op.Wait?)
    ensures Extends(Q(s.qs, CondQ(c)), Q(Step(s, op).qs, CondQ(c)))
  {
    hide Unlocked;
    match op
    case Unlock(m) => UnlockedQueue(s, m, c);
    case Wait(d, m) => UnlockedQueue(AboutToWait(s, d, m), m, c);
  }

  lemma UnlockedQueue(s: State, m: Mid, c: Cid)
    ensures Q(Unlocked(s, m).qs, CondQ(c)) == Q(s.qs, CondQ(c))
  {
    hide Log, Woken;
    if Q(s.qs, MutexQ(m)) != [] {
      var next := Q(s.qs, MutexQ(m))[0];
      WokenState(s.(holds := s.holds - {(s.current, m)}, qs := Pop(s.qs, MutexQ(m)), owner := s.owner[m := next],
                    grants := s.grants[m := Log(s.grants, m) + [next]]), next);
    }
  }

  lemma OtherQueue(s: State, op: Op, c: Cid)
    requires Enabled(s, op) && op != Signal(c) && op != Broadcast(c)
    requires !(op.Tick? || op.Block? || op.Force? || op.Unlock? || op.Wait?)
    ensures Extends(Q(s.qs, CondQ(c)), Q(Step(s, op).qs, CondQ(c)))
  {
    hide Log;
  }

  /** A thread that a broadcast has taken stays on its list until the broadcast wakes it. */
  lemma FlightStep(s: State, op: Op, t: Tid, c: Cid)
    requires Inv(s) && Enabled(s, op) && StillWaits(s, t, c) && t in s.flight && !Wakes(s, op, t, c)
    ensures t in Step(s, op).flight && Step(s, op).flight[t] == s.flight[t]
  {
    hide Inv, NoDup, ThreadOk, Home, Fits, Push, Pop, Log;
    NotOnCondition(s, t);
    if op.Tick? || op.Block? || op.Force? {
      SchedulingFrame(s, op);
    }
  }

  lemma NotOnCondition(s: State, t: Tid)
    requires Inv(s) && t in s.flight
    ensures forall d :: t !in Q(s.qs, CondQ(d))
  {
    hide NoDup;
    forall d ensures t !in Q(s.qs, CondQ(d)) {
      if t in Q(s.qs, CondQ(d)) { WaiterNotFlying(s, d, t); }
    }
  }

  /** In every run a thread that a broadcast has taken is woken by it or still on its list. */
  lemma {:induction false} StaysInFlight(s: State, ops: seq<Op>, t: Tid, c: Cid)
    requires Inv(s) && Runs(s, ops) && StillWaits(s, t, c) && t in s.flight
    ensures
      || WokenIn(s, ops, t, c)
      || (StillWaits(After(s, ops), t, c) && t in After(s, ops).flight && After(s, ops).flight[t] == s.flight[t])
    decreases |ops|
  {
    hide Inv, Step, WaitsFor, Enabled, CanBlock;
    if ops != [] && !Wakes(s, ops[0], t, c) {
      WokenOnlyBySignal(s, ops[0], t, c);
      FlightStep(s, ops[0], t, c);
      StepKeeps(s, ops[0]);
      StaysInFlight(Step(s, ops[0]), ops[1..], t, c);
    }
  }

  /** A broadcast returns only when every thread it has taken has been woken. */
  lemma BroadcastReturns(s: State, ops: seq<Op>, t: Tid, c: Cid)
    requires Inv(s) && Runs(s, ops) && StillWaits(s, t, c) && t in s.flight
    requires s.flight[t] in After(s, ops).pc && !After(s, ops).pc[s.flight[t]].Broadcasting?
    ensures WokenIn(s, ops, t, c)
  {
    hide Step, WaitsFor, Enabled, CanBlock, NoDup, FiledAt, Fits;
    RunKeeps(s, ops);
    StaysInFlight(s, ops, t, c);
  }

  /** How many signals the run sends to condition `c`. */
  function Signals(ops: seq<Op>, c: Cid): nat {
    if ops == [] then 0 else (if ops[0] == Signal(c) then 1 else 0) + Signals(ops[1..], c)
  }

  /** No signal is lost, and waiters are served in order: in every run the thread at place `k` of a queue is
      woken, or taken by a broadcast, or has moved up by as many places as there were signals, which are
      then at most `k`. */
  lemma {:induction false} SignalsServeInOrder(s: State, ops: seq<Op>, c: Cid, k: nat)
    requires Inv(s) && Runs(s, ops) && k < |Q(s.qs, CondQ(c))|
    ensures
      var t, s', n := Q(s.qs, CondQ(c))[k], After(s, ops), Signals(ops, c);
      || WokenIn(s, ops, t, c)
      || (StillWaits(s', t, c) && t in s'.flight)
      || (n <= k && k - n < |Q(s'.qs, CondQ(c))| && Q(s'.qs, CondQ(c))[k - n] == t)
    decreases |ops|
  {
    hide Inv, Step, WaitsFor, Enabled, CanBlock;
    if ops != [] {
      var t, op, s1 := Q(s.qs, CondQ(c))[k], ops[0], Step(s, ops[0]);
      QueuedWaits(s, c, t);
      if !Wakes(s, op, t, c) {
        StepKeeps(s, op);
        WokenOnlyBySignal(s, op, t, c);
        if op == Signal(c) {
          SignalMovesUp(s, c, k);
          SignalsServeInOrder(s1, ops[1..], c, k - 1);
        } else if op == Broadcast(c) {
          BroadcastTakes(s, c, t);
          StaysInFlight(s1, ops[1..], t, c);
        } else {
          CondQueueStep(s, op, c);
          assert Q(s1.qs, CondQ(c))[k] == Q(s1.qs, CondQ(c))[..|Q(s.qs, CondQ(c))|][k];
          SignalsServeInOrder(s1, ops[1..], c, k);
        }
      }
    }
  }

  lemma QueuedWaits(s: State, c: Cid, t: Tid)
    requires Inv(s) && t in Q(s.qs, CondQ(c))
    ensures StillWaits(s, t, c)
  {
    hide NoDup, ThreadOk, MutexesOk, OwnersOk;
    Queued(s, CondQ(c), t);
  }

  lemma SignalMovesUp(s: State, c: Cid, k: nat)
    requires Enabled(s, Signal(c)) && 0 < k < |Q(s.qs, CondQ(c))|
    ensures Q(Step(s, Signal(c)).qs, CondQ(c)) == Q(s.qs, CondQ(c))[1..]
  {
  }

  lemma BroadcastTakes(s: State, c: Cid, t: Tid)
    requires Enabled(s, Broadcast(c)) && t in Q(s.qs, CondQ(c))
    ensures t in Step(s, Broadcast(c)).flight
  {
  }

  /** With one signal more than there are threads in front of it, and no broadcast in the way, a waiting
      thread has been woken. */
  lemma EnoughSignals(s: State, ops: seq<Op>, c: Cid, k: nat)
    requires Inv(s) && Runs(s, ops) && k < |Q(s.qs, CondQ(c))| && Signals(ops, c) > k
    ensures
      var t := Q(s.qs, CondQ(c))[k];
      WokenIn(s, ops, t, c) || (StillWaits(After(s, ops), t, c) && t in After(s, ops).flight)
  {
    SignalsServeInOrder(s, ops, c, k);
  }

  // ---- the end -------------------------------------------------------------------------------

  lemma FinishedStep(s: State, op: Op, t: Tid)
    requires Inv(s) && Enabled(s, op) && t in s.st && s.st[t] == Finished
    ensures t in Step(s, op).st && Step(s, op).st[t] == Finished
  {
    hide Step, Inv, NoDup, ThreadOk;
    Fitting(s, t);
    match op
    case Unlock(m) => WakingUndisturbed(s, op, t, MutexQ(m));
    case Wait(_, m) => WakingUndisturbed(s, op, t, MutexQ(m));
    case Signal(d) => WakingUndisturbed(s, op, t, CondQ(d));
    case Deliver => WakingUndisturbed(s, op, t, FlightQ(s.current));
    case Tick(_) => SchedulingUndisturbed(s, op, t);
    case Block(_) => SchedulingUndisturbed(s, op, t);
    case Force => SchedulingUndisturbed(s, op, t);
    case _ => OthersUndisturbed(s, op, t);
  }

  /** A finished thread never runs again, so that whoever has joined it may free its stack. */
  lemma {:induction false} FinishedForever(s: State, ops: seq<Op>, t: Tid)
    requires Inv(s) && Runs(s, ops) && t in s.st && s.st[t] == Finished
    ensures t in After(s, ops).st && After(s, ops).st[t] == Finished && After(s, ops).current != t
    decreases |ops|
  {
    if ops == [] {
      Fitting(s, t);
    } else {
      hide Inv, Step;
      StepKeeps(s, ops[0]);
      FinishedStep(s, ops[0], t);
      FinishedForever(Step(s, ops[0]), ops[1..], t);
    }
  }

  // ---- what goes wrong when nobody else can run ---------------------------------------------

  lemma RunsCons(s: State, op: Op, rest: seq<Op>)
    requires Enabled(s, op) && (op.Block? ==> CanBlock(s)) && Runs(Step(s, op), rest)
    ensures Runs(s, [op] + rest) && After(s, [op] + rest) == After(Step(s, op), rest)
  {
    assert ([op] + rest)[1..] == rest;
  }

  /** Thread 0 holds mutex 0, and thread 1 is ready. */
  const ONE_HOLDS: State := State(map[0 := Active, 1 := Active], 0, None, map[RunQ := [1]], 0, {0},
    map[0 := Run, 1 := Run], map[0 := 0], {(0, 0)}, map[0 := [0]], map[0 := [0]], map[])

  /** Thread 1 holds mutex 1 as well, and thread 0 runs again. */
  const BOTH_HOLD: State := State(map[0 := Active, 1 := Active], 0, None, map[RunQ := [1]], 0, {0, 1},
    map[0 := Run, 1 := Run], map[0 := 0, 1 := 1], {(0, 0), (1, 1)}, map[0 := [0], 1 := [1]],
    map[0 := [0], 1 := [1]], map[])

  /** Thread 0 waits for mutex 1; thread 1 has queued itself for mutex 0, and nobody else can run. */
  const BOTH_WANT: State := State(map[0 := Blocked, 1 := Blocked], 1, None,
    map[RunQ := [], MutexQ(1) := [0], MutexQ(0) := [1]],
    0, {0, 1}, map[0 := LockRet(1), 1 := LockSched(0)], map[0 := 0, 1 := 1], {(0, 0), (1, 1)},
    map[0 := [0, 1], 1 := [1, 0]], map[0 := [0], 1 := [1]], map[])

  lemma Singles(e: seq<Tid>)
    requires e == []
    ensures e + [0] == [0] && e + [1] == [1] && [0] + [1] == [0, 1] && [1] + [0] == [1, 0]
    ensures [0][1..] == e && [1][1..] == e
  {
  }

  lemma ToOneHolds()
    ensures Runs(BOOT, [Create(1), Activate(1), Lock(0)]) && After(BOOT, [Create(1), Activate(1), Lock(0)]) == ONE_HOLDS
  {
    Singles([]);
    var s1 := Step(BOOT, Create(1));
    var s2 := Step(s1, Activate(1));
    assert s2.qs == map[RunQ := [1]];
    assert Step(s2, Lock(0)) == ONE_HOLDS;
    RunsCons(s2, Lock(0), []);
    RunsCons(s1, Activate(1), [Lock(0)]);
    RunsCons(BOOT, Create(1), [Activate(1), Lock(0)]);
  }

  lemma ToBothHold()
    ensures Runs(ONE_HOLDS, [Force, Lock(1), Force]) && After(ONE_HOLDS, [Force, Lock(1), Force]) == BOTH_HOLD
  {
    Singles([]);
    var s1 := Step(ONE_HOLDS, Force);
    assert s1.qs == map[RunQ := [0]];
    var s2 := Step(s1, Lock(1));
    var s3 := Step(s2, Force);
    assert s3.qs == map[RunQ := [1]];
    assert s3 == BOTH_HOLD;
    RunsCons(s2, Force, []);
    RunsCons(s1, Lock(1), [Force]);
    RunsCons(ONE_HOLDS, Force, [Lock(1), Force]);
  }

  /** Thread 0 waits for mutex 1, and thread 1 runs. */
  const ONE_WAITS: State := BOTH_HOLD.(st := map[0 := Blocked, 1 := Active], current := 1,
    qs := map[RunQ := [], MutexQ(1) := [0]], pc := map[0 := LockRet(1), 1 := Run],
    arrivals := map[0 := [0], 1 := [1, 0]])

  lemma ToOneWaits()
    ensures Runs(BOTH_HOLD, [Lock(1), Block(false)]) && After(BOTH_HOLD, [Lock(1), Block(false)]) == ONE_WAITS
  {
    Singles([]);
    var s1 := Step(BOTH_HOLD, Lock(1));
    assert s1.qs == map[RunQ := [1], MutexQ(1) := [0]];
    var s2 := Step(s1, Block(false));
    assert s2 == ONE_WAITS;
    RunsCons(s1, Block(false), []);
    RunsCons(BOTH_HOLD, Lock(1), [Block(false)]);
  }

  lemma ToBothWant()
    ensures Runs(ONE_WAITS, [Lock(0)]) && After(ONE_WAITS, [Lock(0)]) == BOTH_WANT
  {
    Singles([]);
    var s1 := Step(ONE_WAITS, Lock(0));
    assert s1.qs == BOTH_WANT.qs && s1.arrivals == BOTH_WANT.arrivals;
    assert s1 == BOTH_WANT;
    RunsCons(ONE_WAITS, Lock(0), []);
  }

  lemma {:induction false} RunsJoin(s: State, a: seq<Op>, b: seq<Op>)
    requires Runs(s, a) && Runs(After(s, a), b)
    ensures Runs(s, a + b) && After(s, a + b) == After(After(s, a), b)
    decreases |a|
  {
    hide Step;
    if a == [] {
      assert a + b == b;
    } else {
      RunsJoin(Step(s, a[0]), a[1..], b);
      assert (a + b)[1..] == a[1..] + b;
    }
  }

  lemma SecondOwner()
    ensures Enabled(BOTH_WANT, Block(false)) && !CanBlock(BOTH_WANT)
    ensures
      var s := Step(BOTH_WANT, Block(false));
      Enabled(s, Resume) && (0, 0) in Step(s, Resume).holds && (1, 0) in Step(s, Resume).holds
  {
    var s := Step(BOTH_WANT, Block(false));
    assert s == BOTH_WANT.(pc := BOTH_WANT.pc[1 := LockRet(0)]);
  }

  /** Without an idle thread, two threads that each want the mutex of the other do not deadlock: the second
      comes back from `mutex_lock` while the first still holds the mutex. */
  lemma TwoOwners() returns (ops: seq<Op>)
    ensures Runs(BOOT, ops)
    ensures
      var s := After(BOOT, ops);
      && Enabled(s, Block(false)) && !CanBlock(s)
      && Enabled(Step(s, Block(false)), Resume)
      && (0, 0) in Step(Step(s, Block(false)), Resume).holds && (1, 0) in Step(Step(s, Block(false)), Resume).holds
  {
    hide Step, Runs, After, ONE_HOLDS, BOTH_HOLD, ONE_WAITS, BOTH_WANT, BOOT, Enabled, CanBlock;
    ToOneHolds();
    ToBothHold();
    ToOneWaits();
    ToBothWant();
    SecondOwner();
    var a, b, c := [Create(1), Activate(1), Lock(0)], [Force, Lock(1), Force], [Lock(1), Block(false)];
    RunsJoin(BOOT, a, b);
    RunsJoin(BOOT, a + b, c);
    RunsJoin(BOOT, a + b + c, [Lock(0)]);
    ops := a + b + c + [Lock(0)];
  }
}
