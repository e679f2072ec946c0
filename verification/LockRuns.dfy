/**
 What a caller of `mutex_lock` and `condition_wait` gets (src/mutex.c:18-53, src/condition.c:17-33): both return with
 the mutex, and a mutex is locked only while somebody has it or is about to get it.
 */
module LockRuns {
  import opened Collections
  import opened Threads
  import opened ThreadRuns

  // ---- a locked mutex has a holder -----------------------------------------------------------

  /** Thread `t` has mutex `m`, or has been granted it and can run. */
  ghost predicate Has(s: State, t: Tid, m: Mid) {
    && t in s.st && t in s.pc
    && ((t, m) in s.holds || (InLock(s.pc[t], m) && s.st[t] == Active))
  }

  ghost predicate AllHad(s: State) {
    forall m :: m in s.owner ==> Has(s, s.owner[m], m)
  }

  /** Threads keep their mutexes in every step that changes no mutex. */
  lemma SameOwners(s: State, s': State)
    requires AllHad(s) && s'.owner == s.owner && s.holds <= s'.holds
    requires forall t :: t in s.st && t in s.pc ==> t in s'.st && t in s'.pc
    requires forall t: Tid, m: Mid :: t in s.st && t in s.pc && InLock(s.pc[t], m) && s.st[t] == Active ==>
      (InLock(s'.pc[t], m) && s'.st[t] == Active) || (t, m) in s'.holds
    ensures AllHad(s')
  {
    forall m | m in s'.owner ensures Has(s', s'.owner[m], m) {
      assert Has(s, s.owner[m], m);
    }
  }

  lemma SwitchHad(s: State, op: Op)
    requires Inv(s) && AllHad(s) && Enabled(s, op) && (op.Tick? || op.Block? || op.Force?)
    ensures AllHad(Step(s, op))
  {
    hide NoDup, ThreadOk, MutexesOk, OwnersOk, QueuesOk, ThreadsOk, Scheduled, Ticked, AllHad;
    match op
    case Tick(e) => TickedFrame(s, e); SameOwners(s, Ticked(s, e));
    case Block(e) =>
      var s1 := s.(pc := s.pc[s.current := Called(s.pc[s.current])]);
      TickedFrame(s1, e);
      SameOwners(s, Ticked(s1, e));
    case Force => ScheduledFrame(s, true, false); SameOwners(s, Scheduled(s, true, false));
  }

  lemma LockHad(s: State, m: Mid)
    requires Inv(s) && AllHad(s) && Enabled(s, Lock(m))
    ensures AllHad(Locked(s, m))
  {
    hide Inv, Push, Log;
    var s' := Locked(s, m);
    RunnerOutside(s);
    forall n | n in s'.owner ensures Has(s', s'.owner[n], n) {
      if n in s.owner { assert Has(s, s.owner[n], n); }
    }
    LockedOwned(s, m);
  }

  lemma LockedOwned(s: State, m: Mid)
    requires Inv(s)
    ensures m in s.locked <==> m in s.owner
  {
    assert MutexOk(s, m);
  }

  /** The current thread is in its own code and runs. */
  lemma RunnerOutside(s: State)
    requires Inv(s) && s.current in s.pc
    requires s.pc[s.current].Run? || s.pc[s.current].WaitLock? || s.pc[s.current].Broadcasting?
    ensures s.current in s.st && s.st[s.current] == Active && forall m :: !InLock(s.pc[s.current], m)
  {
    hide NoDup, ThreadOk, MutexesOk, OwnersOk, QueuesOk, ThreadsOk;
    RunnerActive(s);
  }

  lemma UnlockHad(s: State, m: Mid)
    requires Inv(s) && AllHad(s) && (s.current, m) in s.holds && s.current in s.pc && !InLock(s.pc[s.current], m)
    ensures AllHad(Unlocked(s, m))
  {
    hide NoDup, ThreadOk, MutexesOk, QueuesOk, ThreadsOk, Push, Pop, Log;
    var s', q := Unlocked(s, m), Q(s.qs, MutexQ(m));
    assert Owns(s, s.current, m);
    if q != [] { NextInLock(s, m); }
    forall n | n in s'.owner ensures Has(s', s'.owner[n], n) {
      if n != m {
        assert Has(s, s.owner[n], n);
      }
    }
  }

  lemma NextInLock(s: State, m: Mid)
    requires Inv(s) && Q(s.qs, MutexQ(m)) != []
    ensures var t := Q(s.qs, MutexQ(m))[0]; t in s.st && t in s.pc && InLock(s.pc[t], m) && s.st[t] == Blocked
  {
    hide NoDup, ThreadOk, MutexesOk, OwnersOk, QueuesOk;
    Queued(s, MutexQ(m), Q(s.qs, MutexQ(m))[0]);
  }

  lemma WaitHad(s: State, c: Cid, m: Mid)
    requires Inv(s) && AllHad(s) && Enabled(s, Wait(c, m))
    ensures AllHad(Waiting(s, c, m))
  {
    hide Inv, Unlocked, AllHad;
    RunnerOutside(s);
    WaitQueuedKeeps(s, c, m);
    SameOwners(s, AboutToWait(s, c, m));
    UnlockHad(AboutToWait(s, c, m), m);
  }

  lemma OtherHad(s: State, op: Op)
    requires Inv(s) && AllHad(s) && Enabled(s, op)
    requires !(op.Tick? || op.Block? || op.Force? || op.Lock? || op.Unlock? || op.Wait?)
    ensures AllHad(Step(s, op))
  {
    hide Inv, AllHad, Push, Pop, Log;
    if op.Register? || op.MarkIdle? || op.Exit? || op.Broadcast? || op.Deliver? { NotInLock(s); }
    SameOwners(s, Step(s, op));
  }

  lemma NotInLock(s: State)
    requires s.current in s.pc
    ensures s.pc[s.current].Run? || s.pc[s.current].IdleEnter? || s.pc[s.current].Broadcasting? ==>
      forall m :: !InLock(s.pc[s.current], m)
  {
  }

  lemma StepHad(s: State, op: Op)
    requires Inv(s) && AllHad(s) && Enabled(s, op)
    ensures AllHad(Step(s, op))
  {
    hide Inv, AllHad, Locked, Unlocked, Waiting;
    match op
    case Tick(_) => SwitchHad(s, op);
    case Block(_) => SwitchHad(s, op);
    case Force => SwitchHad(s, op);
    case Lock(m) => LockHad(s, m);
    case Unlock(m) => UnlockHad(s, m);
    case Wait(c, m) => WaitHad(s, c, m);
    case _ => OtherHad(s, op);
  }

  lemma {:induction false} RunHad(s: State, ops: seq<Op>)
    requires Inv(s) && AllHad(s) && Runs(s, ops)
    ensures AllHad(After(s, ops))
    decreases |ops|
  {
    hide Inv, Step, AllHad;
    if ops != [] {
      StepKeeps(s, ops[0]);
      StepHad(s, ops[0]);
      RunHad(Step(s, ops[0]), ops[1..]);
    }
  }

  /** After every run from the start: a mutex is locked exactly while one thread has it, or has been granted it and
      can run to return from `mutex_lock`. */
  lemma LockedIffHad(ops: seq<Op>, m: Mid)
    requires Runs(BOOT, ops)
    ensures var s := After(BOOT, ops); m in s.locked <==> exists t :: Has(s, t, m)
    ensures var s := After(BOOT, ops); forall t, u :: Has(s, t, m) && Has(s, u, m) ==> t == u
  {
    hide Runs, After;
    BootInv();
    RunHad(BOOT, ops);
    EveryRun(ops);
    HadOnce(After(BOOT, ops), m);
  }

  lemma HadOnce(s: State, m: Mid)
    requires Inv(s) && AllHad(s)
    ensures m in s.locked <==> exists t :: Has(s, t, m)
    ensures forall t, u :: Has(s, t, m) && Has(s, u, m) ==> t == u
  {
    hide NoDup, ThreadOk, QueuesOk, ThreadsOk;
    assert MutexOk(s, m);
    forall t | Has(s, t, m) ensures m in s.owner && s.owner[m] == t { assert Owns(s, t, m); }
    if m in s.owner { assert Has(s, s.owner[m], m); }
  }

  // ---- the calls return with the mutex -------------------------------------------------------

  /** Thread `t` is in `mutex_lock` for mutex `m`, or in `condition_wait` with it. */
  predicate Underway(s: State, t: Tid, m: Mid) {
    t in s.pc && match s.pc[t] {
      case LockSched(n) => n == m
      case LockRet(n) => n == m
      case WaitSched(_, n) => n == m
      case WaitRet(_, n) => n == m
      case WaitLock(n) => n == m
      case _ => false
    }
  }

  predicate Returned(s: State, t: Tid, m: Mid) { t in s.pc && s.pc[t] == Run && (t, m) in s.holds }

  lemma UnderwayStep(s: State, op: Op, t: Tid, m: Mid)
    requires Enabled(s, op) && Underway(s, t, m) && t in s.st
    ensures Underway(Step(s, op), t, m) || Returned(Step(s, op), t, m)
  {
    hide Step, Underway, Returned;
    if op.Tick? || op.Block? || op.Force? {
      SwitchUnderway(s, op, t, m);
    } else if op.Unlock? || op.Wait? {
      UnlockUnderway(s, op, t, m);
    } else if op.Lock? || op.Resume? {
      LockUnderway(s, op, t, m);
    } else {
      OtherUnderway(s, op, t, m);
    }
  }

  lemma LockUnderway(s: State, op: Op, t: Tid, m: Mid)
    requires Enabled(s, op) && (op.Lock? || op.Resume?) && Underway(s, t, m)
    ensures Underway(Step(s, op), t, m) || Returned(Step(s, op), t, m)
  {
    hide Push, Log;
  }

  lemma OtherUnderway(s: State, op: Op, t: Tid, m: Mid)
    requires Enabled(s, op) && Underway(s, t, m) && t in s.st
    requires !(op.Tick? || op.Block? || op.Force? || op.Unlock? || op.Wait? || op.Lock? || op.Resume?)
    ensures Underway(Step(s, op), t, m)
  {
    hide Push, Pop;
  }

  lemma SwitchUnderway(s: State, op: Op, t: Tid, m: Mid)
    requires Enabled(s, op) && (op.Tick? || op.Block? || op.Force?) && Underway(s, t, m)
    ensures Underway(Step(s, op), t, m)
  {
    hide Ticked, Scheduled;
    match op
    case Tick(e) => TickedFrame(s, e);
    case Block(e) => TickedFrame(s.(pc := s.pc[s.current := Called(s.pc[s.current])]), e);
    case Force => ScheduledFrame(s, true, false);
  }

  lemma UnlockUnderway(s: State, op: Op, t: Tid, m: Mid)
    requires Enabled(s, op) && (op.Unlock? || op.Wait?) && Underway(s, t, m)
    ensures Underway(Step(s, op), t, m)
  {
    hide Unlocked;
    match op
    case Unlock(n) => UnlockedStates(s, n);
    case Wait(c, n) => UnlockedStates(AboutToWait(s, c, n), n);
  }

  /** In the run thread `t` comes out of the call, and then it has the mutex. */
  predicate ReturnsIn(s: State, ops: seq<Op>, t: Tid, m: Mid)
    requires Runs(s, ops)
    decreases |ops|
  {
    ops != [] && (Returned(Step(s, ops[0]), t, m)
                  || (Underway(Step(s, ops[0]), t, m) && ReturnsIn(Step(s, ops[0]), ops[1..], t, m)))
  }

  /** In every run, whoever is in `mutex_lock` or `condition_wait` stays in it until it returns with the mutex. */
  lemma {:induction false} ReturnsWithMutex(s: State, ops: seq<Op>, t: Tid, m: Mid)
    requires Inv(s) && Runs(s, ops) && Underway(s, t, m)
    ensures Underway(After(s, ops), t, m) || ReturnsIn(s, ops, t, m)
    decreases |ops|
  {
    hide Step, Enabled, CanBlock, Underway, Returned, NoDup, ThreadOk, MutexesOk, OwnersOk, QueuesOk, ThreadsOk;
    if ops != [] {
      StepKeeps(s, ops[0]);
      InCall(s, t, m);
      UnderwayStep(s, ops[0], t, m);
      if !Returned(Step(s, ops[0]), t, m) { ReturnsWithMutex(Step(s, ops[0]), ops[1..], t, m); }
    }
  }

  lemma InCall(s: State, t: Tid, m: Mid)
    requires s.pc.Keys == s.st.Keys && Underway(s, t, m)
    ensures t in s.st
  {
  }

  /** And `condition_wait` is such a call from the step on in which it gives the mutex up, as is `mutex_lock` when the
      mutex is locked; otherwise it returns at once. */
  lemma CallsBegin(s: State, c: Cid, m: Mid)
    requires Inv(s) && Enabled(s, Lock(m)) && s.pc[s.current] == Run
    ensures
      var t, s' := s.current, Step(s, Lock(m));
      if m in s.locked then Underway(s', t, m) && t in Q(s'.qs, MutexQ(m)) else Returned(s', t, m)
    ensures Enabled(s, Wait(c, m)) ==> Underway(Step(s, Wait(c, m)), s.current, m)
  {
    hide NoDup, ThreadOk, MutexesOk, OwnersOk, QueuesOk, ThreadsOk, Unlocked;
    UnlockedStates(AboutToWait(s, c, m), m);
  }
}
