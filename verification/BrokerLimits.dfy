/**
 Where the broker's guarantees stop. Each lemma builds a run of the protocol
 that steps outside the conditions the theorems ask for.
 */
module BrokerLimits {
  import opened Wrappers
  import opened Lru
  import opened BrokerModel
  import opened BrokerRuns

  /** A set of states the broker cannot leave short of a shutdown. */
  ghost predicate Closed(reach: Sys -> bool) {
    forall s, a :: reach(s) && Enabled(s, a) && !a.Shutdown? ==> reach(Apply(s, a))
  }

  /** And not by a shutdown either. */
  ghost predicate ClosedThroughout(reach: Sys -> bool) {
    forall s, a :: reach(s) && Enabled(s, a) ==> reach(Apply(s, a))
  }

  ghost predicate Reachable(cap: Positive, s: Sys) {
    exists actions :: ValidRun(Initial(cap), actions) && Run(Initial(cap), actions) == s
  }

  lemma ReachableIsClosed(cap: Positive, s: Sys, a: Action)
    requires Reachable(cap, s) && Enabled(s, a)
    ensures Reachable(cap, Apply(s, a))
  {
    var actions :| ValidRun(Initial(cap), actions) && Run(Initial(cap), actions) == s;
    OneMoreStep(Initial(cap), actions, a);
  }

  /** Nothing was opened, evicted, disturbed or wiped. */
  ghost predicate Quietly(s: Sys, after: Sys) {
    && after.next == s.next && after.opens == s.opens && after.evictions == s.evictions
    && after.disturbed == s.disturbed && after.wiped == s.wiped
  }

  lemma BeginAbsent(reach: Sys -> bool, s: Sys, t: TaskId, r: Root) returns (after: Sys)
    requires Closed(reach) && reach(s) && At(s.tasks, t).Idle? && Get(s.inner.registry, r).None?
    ensures reach(after) && Quietly(s, after) && after.inner == s.inner
    ensures after.tasks == s.tasks[t := WantLock(r)]
  {
    after := Apply(s, Begin(t, r));
  }

  lemma Lock(reach: Sys -> bool, s: Sys, t: TaskId, r: Root) returns (after: Sys)
    requires Closed(reach) && reach(s) && At(s.tasks, t) == WantLock(r)
    ensures reach(after) && Quietly(s, after) && after.inner == OpeningLock(s.inner, r).0
    ensures after.tasks == s.tasks[t := Waiting(r, OpeningLock(s.inner, r).1)]
  {
    after := Apply(s, TakeLock(t));
  }

  lemma TakeFree(reach: Sys -> bool, s: Sys, t: TaskId, r: Root, l: LockId) returns (after: Sys)
    requires Closed(reach) && reach(s) && At(s.tasks, t) == Waiting(r, l) && LockFree(s.tasks, l)
    ensures reach(after) && Quietly(s, after) && after.inner == s.inner
    ensures after.tasks == s.tasks[t := Locked(r, l)]
  {
    after := Apply(s, Acquire(t));
  }

  lemma LookAbsent(reach: Sys -> bool, s: Sys, t: TaskId, r: Root, l: LockId) returns (after: Sys)
    requires Closed(reach) && reach(s) && At(s.tasks, t) == Locked(r, l) && Get(s.inner.registry, r).None?
    ensures reach(after) && Quietly(s, after) && after.inner == s.inner
    ensures after.tasks == s.tasks[t := Opening(r, l)]
  {
    after := Apply(s, LookAgain(t));
  }

  /** Past a free lock to an absent root. */
  lemma Enter(reach: Sys -> bool, s: Sys, t: TaskId, r: Root, l: LockId) returns (after: Sys)
    requires Closed(reach) && reach(s) && At(s.tasks, t) == Waiting(r, l) && LockFree(s.tasks, l) && Get(s.inner.registry, r).None?
    ensures reach(after) && Quietly(s, after) && after.inner == s.inner
    ensures after.tasks == s.tasks[t := Opening(r, l)]
  {
    after := TakeFree(reach, s, t, r, l);
    after := LookAbsent(reach, after, t, r, l);
    assert after.tasks == s.tasks[t := Opening(r, l)];
  }

  lemma OpenOne(reach: Sys -> bool, s: Sys, t: TaskId, r: Root, l: LockId) returns (after: Sys)
    requires Closed(reach) && reach(s) && At(s.tasks, t) == Opening(r, l)
    ensures reach(after) && after.inner == s.inner
    ensures after.tasks == s.tasks[t := Opened(r, l, s.next)]
    ensures after.evictions == s.evictions && after.disturbed == s.disturbed && after.wiped == s.wiped
    ensures after.next == s.next + 1 && Opens(after.opens, r) == Opens(s.opens, r) + 1
  {
    after := Apply(s, Open(t));
  }

  /** Shutdown of an empty broker: nothing is evicted, but every lock entry goes. */
  lemma ShutEmpty(reach: Sys -> bool, s: Sys, t: TaskId) returns (after: Sys)
    requires ClosedThroughout(reach) && reach(s) && At(s.tasks, t).Idle? && s.inner.registry == []
    ensures reach(after) && Quietly(s.(wiped := s.wiped + s.inner.locks.Keys), after)
    ensures after.tasks == s.tasks[t := Sweeping({})]
    ensures after.inner.registry == [] && after.inner.locks == map[] && after.inner.nextLock == s.inner.nextLock
  {
    after := Apply(s, Shutdown(t, {}));
    assert Out(s.inner, Idle, Shutdown(t, {})) == {};
  }

  lemma FailOne(reach: Sys -> bool, s: Sys, t: TaskId, r: Root, l: LockId) returns (after: Sys)
    requires Closed(reach) && reach(s) && At(s.tasks, t) == Opening(r, l)
    ensures reach(after) && Quietly(s.(disturbed := s.disturbed + {r}), after) && after.inner == s.inner
    ensures after.tasks == s.tasks[t := OpenFailed(r, l)]
  {
    after := Apply(s, FailOpen(t));
  }

  lemma Forget(reach: Sys -> bool, s: Sys, t: TaskId, r: Root, l: LockId) returns (after: Sys)
    requires Closed(reach) && reach(s) && At(s.tasks, t) == OpenFailed(r, l)
    ensures reach(after) && Quietly(s, after) && after.inner == ForgetLock(s.inner, r)
    ensures after.tasks == s.tasks[t := Done(r, None)]
  {
    after := Apply(s, ForgetFailed(t));
  }

  /** A newcomer gets as far as the opening lock of an absent root. */
  lemma Arrive(reach: Sys -> bool, s: Sys, t: TaskId, r: Root) returns (after: Sys)
    requires Closed(reach) && reach(s) && At(s.tasks, t).Idle? && s.inner.registry == []
    ensures reach(after) && Quietly(s, after) && after.inner == OpeningLock(s.inner, r).0
    ensures after.tasks == s.tasks[t := Waiting(r, OpeningLock(s.inner, r).1)]
  {
    after := BeginAbsent(reach, s, t, r);
    after := Lock(reach, after, t, r);
    assert after.tasks == s.tasks[t := Waiting(r, OpeningLock(s.inner, r).1)];
  }

  /** Two tasks past two different locks of one root both open. */
  lemma BothOpen(reach: Sys -> bool, s: Sys, t: TaskId, u: TaskId, r: Root, l: LockId, m: LockId) returns (after: Sys)
    requires Closed(reach) && reach(s) && t != u && At(s.tasks, t) == Opening(r, l) && At(s.tasks, u) == Opening(r, m)
    ensures reach(after) && Opens(after.opens, r) == Opens(s.opens, r) + 2
    ensures after.evictions == s.evictions && after.disturbed == s.disturbed && after.wiped == s.wiped
  {
    after := OpenOne(reach, s, t, r, l);
    after := OpenOne(reach, after, u, r, m);
  }

  lemma ShutdownTrail(reach: Sys -> bool, s0: Sys, r: Root) returns (s: Sys)
    requires ClosedThroughout(reach) && reach(s0) && s0.tasks == map[] && s0.inner.registry == [] && s0.inner.locks == map[]
    ensures reach(s) && s.disturbed == s0.disturbed && s.evictions == s0.evictions && Opens(s.opens, r) == Opens(s0.opens, r) + 2
  {
    var l := s0.inner.nextLock;
    s := Arrive(reach, s0, 1, r);
    s := Enter(reach, s, 1, r, l);
    s := ShutEmpty(reach, s, 9);
    s := Arrive(reach, s, 2, r);
    s := Enter(reach, s, 2, r, l + 1);
    s := BothOpen(reach, s, 1, 2, r, l, l + 1);
  }

  /** One task fails while another waits on its lock: the waiter gets in, and the lock entry is gone. */
  lemma FailureFreesWaiter(reach: Sys -> bool, s0: Sys, r: Root, l: LockId) returns (s: Sys)
    requires Closed(reach) && reach(s0) && s0.tasks == map[] && s0.inner.registry == []
    requires s0.inner.locks == map[] && s0.inner.nextLock == l
    ensures reach(s) && s.wiped == s0.wiped && s.evictions == s0.evictions && s.opens == s0.opens
    ensures s.tasks == map[1 := Done(r, None), 2 := Opening(r, l)]
    ensures s.inner.registry == [] && s.inner.locks == map[] && s.inner.nextLock == l + 1
  {
    s := Arrive(reach, s0, 1, r);
    s := Arrive(reach, s, 2, r);
    s := Enter(reach, s, 1, r, l);
    s := FailOne(reach, s, 1, r, l);
    s := Forget(reach, s, 1, r, l);
    s := Enter(reach, s, 2, r, l);
  }

  lemma FailureTrail(reach: Sys -> bool, s0: Sys, r: Root, l: LockId) returns (s: Sys)
    requires Closed(reach) && reach(s0) && s0.tasks == map[] && s0.inner.registry == []
    requires s0.inner.locks == map[] && s0.inner.nextLock == l
    ensures reach(s) && s.wiped == s0.wiped && s.evictions == s0.evictions && Opens(s.opens, r) == Opens(s0.opens, r) + 2
  {
    s := FailureFreesWaiter(reach, s0, r, l);
    s := Arrive(reach, s, 3, r);
    s := Enter(reach, s, 3, r, l + 1);
    s := BothOpen(reach, s, 2, 3, r, l, l + 1);
  }

  /** Every state a closed set must contain is the state of some run. */
  lemma FromStart(cap: Positive) returns (reach: Sys -> bool)
    ensures ClosedThroughout(reach) && reach(Initial(cap)) && forall s :: reach(s) ==> Reachable(cap, s)
  {
    reach := s => Reachable(cap, s);
    forall s, a | reach(s) && Enabled(s, a) ensures reach(Apply(s, a)) {
      ReachableIsClosed(cap, s, a);
    }
    assert ValidRun(Initial(cap), []) && Run(Initial(cap), []) == Initial(cap);
  }

  /**
   `shutdown_all` clears the opening locks, so two acquires can open one root
   although no open failed, nothing was stale and nothing was evicted there.
   */
  lemma ShutdownLetsTwoOpen(cap: Positive, r: Root) returns (s: Sys)
    ensures Reachable(cap, s) && s.disturbed == {} && s.evictions == {} && Opens(s.opens, r) == 2
  {
    var reach := FromStart(cap);
    s := ShutdownTrail(reach, Initial(cap), r);
  }

  /**
   A failed open removes the root's lock entry while others still wait on that
   lock, so a waiter and a newcomer can both open.
   */
  lemma FailureLetsTwoOpen(cap: Positive, r: Root) returns (s: Sys)
    ensures Reachable(cap, s) && s.wiped == {} && s.evictions == {} && Opens(s.opens, r) == 2
  {
    var reach := FromStart(cap);
    s := FailureTrail(reach, Initial(cap), r, 0);
  }

  // --- the stale path ----------------------------------------------------------

  lemma BeginPresent(reach: Sys -> bool, s: Sys, t: TaskId, r: Root, p: ProjectId) returns (after: Sys)
    requires Closed(reach) && reach(s) && At(s.tasks, t).Idle? && s.inner.registry == [Entry(r, p)]
    ensures reach(after) && after.inner == s.inner && after.next == s.next && after.tasks == s.tasks[t := Looked(r, p)]
  {
    after := Apply(s, Begin(t, r));
    assert Find(s.inner.registry, r) == 0;
  }

  lemma JudgeStale(reach: Sys -> bool, s: Sys, t: TaskId, r: Root, p: ProjectId) returns (after: Sys)
    requires Closed(reach) && reach(s) && At(s.tasks, t) == Looked(r, p)
    ensures reach(after) && after.inner == s.inner && after.next == s.next && after.tasks == s.tasks[t := Outdated(r, None)]
  {
    after := Apply(s, Judge(t, Stale));
  }

  lemma Evict(reach: Sys -> bool, s: Sys, t: TaskId, r: Root, p: ProjectId, busy: set<ProjectId>) returns (after: Sys)
    requires Closed(reach) && reach(s) && At(s.tasks, t) == Outdated(r, None) && s.inner.registry == [Entry(r, p)]
    ensures reach(after) && after.inner.registry == [] && after.inner.cap == s.inner.cap && after.next == s.next
    ensures after.tasks == s.tasks[t := ShuttingStale(r, None, p)]
    ensures Eviction(ByStalePath, p, p in busy) in after.evictions
  {
    after := Apply(s, EvictStale(t, busy));
    assert Find(s.inner.registry, r) == 0;
  }

  lemma Shut(reach: Sys -> bool, s: Sys, t: TaskId, r: Root, p: ProjectId) returns (after: Sys)
    requires Closed(reach) && reach(s) && At(s.tasks, t) == ShuttingStale(r, None, p)
    ensures reach(after) && after.inner == s.inner && after.next == s.next && after.tasks == s.tasks[t := WantLock(r)]
  {
    after := Apply(s, ShutStale(t));
  }

  lemma StoreFirst(reach: Sys -> bool, s: Sys, t: TaskId, r: Root, l: LockId, p: ProjectId) returns (after: Sys)
    requires Closed(reach) && reach(s) && At(s.tasks, t) == Opened(r, l, p) && s.inner.registry == []
    ensures reach(after) && after.inner.registry == [Entry(r, p)] && after.next == s.next
    ensures after.tasks == s.tasks[t := Done(r, Some(p))]
  {
    after := Apply(s, Store(t, {}, 0));
  }

  ghost predicate NoLockHeld(tasks: map<TaskId, Pc>) {
    forall t :: HeldLock(At(tasks, t)).None?
  }

  /** From the lock to a stored project, nothing being resident. */
  lemma OpenAndStore(reach: Sys -> bool, s: Sys, t: TaskId, r: Root) returns (after: Sys)
    requires Closed(reach) && reach(s) && At(s.tasks, t) == WantLock(r) && s.inner.registry == []
    requires NoLockHeld(s.tasks)
    ensures reach(after) && after.inner.registry == [Entry(r, s.next)] && after.next == s.next + 1
    ensures after.tasks == s.tasks[t := Done(r, Some(s.next))]
  {
    var l := OpeningLock(s.inner, r).1;
    after := Lock(reach, s, t, r);
    forall u ensures HeldLock(At(after.tasks, u)) != Some(l) { assert u != t ==> At(after.tasks, u) == At(s.tasks, u); }
    after := Enter(reach, after, t, r, l);
    after := OpenOne(reach, after, t, r, l);
    after := StoreFirst(reach, after, t, r, l, s.next);
    assert after.tasks == s.tasks[t := Done(r, Some(s.next))];
  }

  /** One project is stored, and two tasks find it stale. */
  lemma TwoFindItStale(reach: Sys -> bool, s0: Sys, r: Root, p: ProjectId) returns (s: Sys)
    requires Closed(reach) && reach(s0) && s0.tasks == map[] && s0.inner.registry == [] && p == s0.next
    ensures reach(s) && s.inner.registry == [Entry(r, p)] && s.next == p + 1
    ensures s.tasks == map[0 := Done(r, Some(p)), 1 := Outdated(r, None), 2 := Outdated(r, None)]
  {
    s := BeginAbsent(reach, s0, 0, r);
    s := OpenAndStore(reach, s, 0, r);
    s := BeginPresent(reach, s, 1, r, p);
    s := BeginPresent(reach, s, 2, r, p);
    s := JudgeStale(reach, s, 1, r, p);
    s := JudgeStale(reach, s, 2, r, p);
  }

  /** One of them replaces it before the other evicts. */
  lemma StaleTrail(reach: Sys -> bool, s0: Sys, r: Root, p: ProjectId, q: ProjectId) returns (s: Sys)
    requires Closed(reach) && reach(s0) && s0.tasks == map[] && s0.inner.registry == [] && p == s0.next && q == p + 1
    ensures reach(s) && Eviction(ByStalePath, q, true) in s.evictions && At(s.tasks, 1) == ShuttingStale(r, None, q)
  {
    s := TwoFindItStale(reach, s0, r, p);
    s := Evict(reach, s, 2, r, p, {});
    s := Shut(reach, s, 2, r, p);
    s := OpenAndStore(reach, s, 2, r);
    s := Evict(reach, s, 1, r, q, {q});
  }

  /**
   The stale path pops whatever is resident at the root now. So a task that
   judged project 0 stale can take the busy project 1, opened since, out of the
   registry to shut it down: eviction of idle projects only is a promise of the
   other two paths.
   */
  lemma StalePathTakesBusy(cap: Positive, r: Root) returns (s: Sys)
    ensures Reachable(cap, s) && Eviction(ByStalePath, 1, true) in s.evictions
    ensures At(s.tasks, 1) == ShuttingStale(r, None, 1)
  {
    var reach := FromStart(cap);
    s := StaleTrail(reach, Initial(cap), r, 0, 1);
  }
}
