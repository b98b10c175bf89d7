/**
 What a shutdown of the broker costs while a root is being opened: exactly when
 the root can then be opened a second time although nothing else went wrong there.
 */
module BrokerShutdown {
  import opened Wrappers
  import opened Lru
  import opened BrokerModel
  import opened BrokerRuns
  import opened BrokerSingleFlight
  import opened BrokerLimits

  /** The opening lock a task waits for or holds. */
  function LockOf(pc: Pc): Option<LockId> {
    if pc.Waiting? then Some(pc.lock) else HeldLock(pc)
  }

  // --- lock names ----------------------------------------------------------------

  /** Lock names are handed out once, and each belongs to one root. */
  ghost predicate NamesOk(locks: map<Root, LockId>, next: LockId, tasks: map<TaskId, Pc>) {
    && (forall r :: r in locks ==> locks[r] < next)
    && (forall q, r :: q in locks && r in locks && locks[q] == locks[r] ==> q == r)
    && (forall t :: LockOf(At(tasks, t)).Some? ==> LockOf(At(tasks, t)).value < next)
    && (forall t, r :: r in locks && LockOf(At(tasks, t)) == Some(locks[r]) ==> RootOf(At(tasks, t)) == Some(r))
    && (forall t, u :: LockOf(At(tasks, t)).Some? && LockOf(At(tasks, t)) == LockOf(At(tasks, u)) ==>
          RootOf(At(tasks, t)) == RootOf(At(tasks, u)))
  }

  ghost predicate LocksNamed(s: Sys) {
    NamesOk(s.inner.locks, s.inner.nextLock, s.tasks)
  }

  lemma SectionLocks(i: Inner, pc: Pc, a: Action)
    requires Fits(pc, a)
    ensures var after := Section(i, pc, a);
            if a.TakeLock? then after == OpeningLock(i, pc.root).0
            else after.nextLock == i.nextLock && forall r :: r in after.locks ==> r in i.locks && after.locks[r] == i.locks[r]
  {
  }

  lemma MoveLocks(i: Inner, next: ProjectId, pc: Pc, a: Action)
    requires Fits(pc, a)
    ensures if a.TakeLock? then Moves(i, next, pc, a) == Waiting(pc.root, OpeningLock(i, pc.root).1)
            else LockOf(Moves(i, next, pc, a)).None?
                 || (LockOf(Moves(i, next, pc, a)) == LockOf(pc) && RootOf(Moves(i, next, pc, a)) == RootOf(pc))
  {
  }

  /** A task that keeps its lock or lets go, while locks are forgotten. */
  lemma LettingGoKeepsNames(locks: map<Root, LockId>, after: map<Root, LockId>, next: LockId, tasks: map<TaskId, Pc>,
                            t: TaskId, pc: Pc)
    requires NamesOk(locks, next, tasks)
    requires forall r :: r in after ==> r in locks && after[r] == locks[r]
    requires LockOf(pc).None? || (LockOf(pc) == LockOf(At(tasks, t)) && RootOf(pc) == RootOf(At(tasks, t)))
    ensures NamesOk(after, next, tasks[t := pc])
  {
    var moved := tasks[t := pc];
    assert forall u :: LockOf(At(moved, u)).Some? ==>
      LockOf(At(moved, u)) == LockOf(At(tasks, u)) && RootOf(At(moved, u)) == RootOf(At(tasks, u));
  }

  lemma TakingKeepsNames(i: Inner, tasks: map<TaskId, Pc>, t: TaskId, r: Root)
    requires NamesOk(i.locks, i.nextLock, tasks)
    ensures var (after, l) := OpeningLock(i, r); NamesOk(after.locks, after.nextLock, tasks[t := Waiting(r, l)])
  {
    var (after, l) := OpeningLock(i, r);
    var moved := tasks[t := Waiting(r, l)];
    forall u | u != t ensures At(moved, u) == At(tasks, u) {
    }
    assert after.locks[r] == l;
  }

  lemma StepKeepsNames(s: Sys, a: Action)
    requires LocksNamed(s) && Enabled(s, a)
    ensures LocksNamed(Apply(s, a))
  {
    var pc := At(s.tasks, a.task);
    SectionLocks(s.inner, pc, a);
    MoveLocks(s.inner, s.next, pc, a);
    if a.TakeLock? {
      TakingKeepsNames(s.inner, s.tasks, a.task, pc.root);
    } else {
      LettingGoKeepsNames(s.inner.locks, Section(s.inner, pc, a).locks, s.inner.nextLock, s.tasks, a.task,
                          Moves(s.inner, s.next, pc, a));
    }
  }

  lemma {:induction false} EveryRunNames(cap: Positive, actions: seq<Action>)
    requires ValidRun(Initial(cap), actions)
    ensures LocksNamed(Run(Initial(cap), actions))
    decreases |actions|
  {
    if actions != [] {
      EveryRunNames(cap, actions[..|actions| - 1]);
      StepKeepsNames(Run(Initial(cap), actions[..|actions| - 1]), actions[|actions| - 1]);
    }
  }

  // --- who is being opened for ------------------------------------------------------

  /** A task for the root between asking for its opening lock and storing what it opened. */
  predicate OnItsWay(pc: Pc, r: Root) {
    (pc.Waiting? || pc.Locked? || pc.Opening? || pc.Opened?) && pc.root == r
  }

  ghost predicate SomeOnTheWay(tasks: map<TaskId, Pc>, r: Root) {
    exists t :: OnItsWay(At(tasks, t), r)
  }

  /** As long as nothing is resident at the root, its lock is on record only for a task on its way. */
  ghost predicate LockIsFor(s: Sys, r: Root) {
    r in s.inner.locks && Get(s.inner.registry, r).None? ==> SomeOnTheWay(s.tasks, r)
  }

  lemma StaysOnTheWay(tasks: map<TaskId, Pc>, t: TaskId, pc: Pc, r: Root)
    requires SomeOnTheWay(tasks, r) && (OnItsWay(At(tasks, t), r) ==> OnItsWay(pc, r))
    ensures SomeOnTheWay(tasks[t := pc], r)
  {
    var u :| OnItsWay(At(tasks, u), r);
    assert OnItsWay(At(tasks[t := pc], u), r);
  }

  /** Short of trouble a task on its way stays on it until it stores. */
  lemma WayGoesOn(i: Inner, next: ProjectId, pc: Pc, a: Action, r: Root)
    requires Fits(pc, a) && OnItsWay(pc, r) && Get(i.registry, r).None? && r !in Trouble(i, pc, a) && !a.Store?
    ensures OnItsWay(Moves(i, next, pc, a), r)
  {
  }

  lemma StepKeepsLockFor(s: Sys, a: Action, r: Root)
    requires PoolInv(s) && Enabled(s, a) && LockIsFor(s, r) && Undisturbed(Apply(s, a), r)
    ensures LockIsFor(Apply(s, a), r)
  {
    var (pc, after) := (At(s.tasks, a.task), Apply(s, a));
    var moved := Moves(s.inner, s.next, pc, a);
    PhaseStep(s, a, r);
    LockStep(s.inner, pc, a, r);
    if r in after.inner.locks && Get(after.inner.registry, r).None? {
      if a.TakeLock? && pc.root == r {
        assert OnItsWay(At(after.tasks, a.task), r);
      } else {
        assert LockAt(after.inner.locks, r).Some?;
        if OnItsWay(pc, r) { WayGoesOn(s.inner, s.next, pc, a, r); }
        StaysOnTheWay(s.tasks, a.task, moved, r);
      }
    }
  }

  lemma {:induction false} EveryRunLocksFor(cap: Positive, actions: seq<Action>, r: Root)
    requires ValidRun(Initial(cap), actions) && Undisturbed(Run(Initial(cap), actions), r)
    ensures LockIsFor(Run(Initial(cap), actions), r)
    decreases |actions|
  {
    if actions != [] {
      var (before, a) := (Run(Initial(cap), actions[..|actions| - 1]), actions[|actions| - 1]);
      DisturbanceLasts(before, a, r);
      EveryRunLocksFor(cap, actions[..|actions| - 1], r);
      EveryRunKeepsThePool(cap, actions[..|actions| - 1]);
      StepKeepsLockFor(before, a, r);
    }
  }

  // --- after a shutdown ---------------------------------------------------------------

  lemma {:induction false} Above(ids: set<TaskId>) returns (u: TaskId)
    ensures forall t :: t in ids ==> t < u
    decreases |ids|
  {
    if t :| t in ids {
      var v := Above(ids - {t});
      u := if t < v then v else t + 1;
      assert forall k :: k in ids ==> k == t || k in ids - {t};
    } else {
      u := 0;
    }
  }

  /** Every lock named so far is older than the next. */
  ghost predicate AllOlder(tasks: map<TaskId, Pc>, next: LockId) {
    forall t :: LockOf(At(tasks, t)).Some? ==> LockOf(At(tasks, t)).value < next
  }

  /** In an emptied broker a newcomer gets past a lock of its own. */
  lemma NewcomerEnters(reach: Sys -> bool, s: Sys, n: TaskId, r: Root) returns (after: Sys)
    requires Closed(reach) && reach(s) && At(s.tasks, n).Idle?
    requires s.inner.registry == [] && s.inner.locks == map[] && AllOlder(s.tasks, s.inner.nextLock)
    ensures reach(after) && Quietly(s, after) && after.inner.registry == []
    ensures after.tasks == s.tasks[n := Opening(r, s.inner.nextLock)]
  {
    var m := s.inner.nextLock;
    after := Arrive(reach, s, n, r);
    forall u ensures HeldLock(At(after.tasks, u)) != Some(m) {
      assert u != n ==> At(after.tasks, u) == At(s.tasks, u);
      assert HeldLock(At(s.tasks, u)).Some? ==> HeldLock(At(s.tasks, u)) == LockOf(At(s.tasks, u));
    }
    after := Enter(reach, after, n, r, m);
    assert after.tasks == s.tasks[n := Opening(r, m)];
  }

  /** No other task holds the lock that `t` waits for. */
  ghost predicate MayEnter(tasks: map<TaskId, Pc>, t: TaskId, r: Root) {
    OnItsWay(At(tasks, t), r) && (At(tasks, t).Waiting? ==> LockFree(tasks, At(tasks, t).lock))
  }

  /** Of the tasks on their way to an undisturbed root, one can go on at once. */
  lemma OneMayEnter(s: Sys, r: Root, t: TaskId) returns (u: TaskId)
    requires SingleFlight(s, r) && Get(s.inner.registry, r).None? && LocksNamed(s) && OnItsWay(At(s.tasks, t), r)
    ensures MayEnter(s.tasks, u, r)
  {
    u := t;
    if At(s.tasks, t).Waiting? && !LockFree(s.tasks, At(s.tasks, t).lock) {
      u :| HeldLock(At(s.tasks, u)) == Some(At(s.tasks, t).lock);
      assert LockOf(At(s.tasks, u)) == LockOf(At(s.tasks, t));
      assert RootOf(At(s.tasks, u)) == Some(r);
      assert MayBe(At(s.tasks, u), PhaseAt(s.inner.registry, s.opens, r), LockAt(s.inner.locks, r));
    }
  }

  /** It gets as far as opening, if it has not opened yet. */
  lemma GoesToOpen(reach: Sys -> bool, s: Sys, t: TaskId, r: Root) returns (after: Sys)
    requires Closed(reach) && reach(s) && MayEnter(s.tasks, t, r) && !At(s.tasks, t).Opened? && s.inner.registry == []
    ensures reach(after) && Quietly(s, after)
    ensures after.tasks == s.tasks[t := Opening(r, At(s.tasks, t).lock)]
  {
    var l := At(s.tasks, t).lock;
    if At(s.tasks, t).Waiting? {
      after := Enter(reach, s, t, r, l);
    } else if At(s.tasks, t).Locked? {
      after := LookAbsent(reach, s, t, r, l);
    } else {
      after := s;
    }
    assert after.tasks == s.tasks[t := Opening(r, l)];
  }

  lemma StillFree(tasks: map<TaskId, Pc>, n: TaskId, pc: Pc, t: TaskId, r: Root, m: LockId)
    requires MayEnter(tasks, t, r) && n != t && HeldLock(pc) == Some(m) && LockOf(At(tasks, t)) != Some(m)
    ensures MayEnter(tasks[n := pc], t, r)
  {
    var moved := tasks[n := pc];
    assert At(moved, t) == At(tasks, t);
    if At(tasks, t).Waiting? {
      forall u ensures HeldLock(At(moved, u)) != Some(At(tasks, t).lock) {
        assert u != n ==> At(moved, u) == At(tasks, u);
      }
    }
  }

  /** A task that may go on and a newcomer with a lock of its own: the root is opened once more than it should be. */
  lemma TwoOpen(reach: Sys -> bool, s: Sys, n: TaskId, t: TaskId, r: Root) returns (after: Sys)
    requires Closed(reach) && reach(s) && At(s.tasks, n).Idle? && MayEnter(s.tasks, t, r)
    requires s.inner.registry == [] && s.inner.locks == map[] && AllOlder(s.tasks, s.inner.nextLock)
    requires At(s.tasks, t).Opened? ==> Opens(s.opens, r) >= 1
    requires Opens(s.opens, r) >= 0
    ensures reach(after) && after.disturbed == s.disturbed && Opens(after.opens, r) >= 2
  {
    var m := s.inner.nextLock;
    after := NewcomerEnters(reach, s, n, r);
    var pc := At(s.tasks, t);
    assert LockOf(pc) == Some(pc.lock) && pc.lock < m;
    if pc.Opened? {
      after := OpenOne(reach, after, n, r, m);
    } else {
      StillFree(s.tasks, n, Opening(r, m), t, r, m);
      after := GoesToOpen(reach, after, t, r);
      after := BothOpen(reach, after, t, n, r, pc.lock, m);
    }
  }

  /** What a shutdown does to a root where nothing is resident. */
  lemma ShutdownClears(s: Sys, w: TaskId, busy: set<ProjectId>, r: Root)
    requires PoolInv(s) && At(s.tasks, w).Idle? && Get(s.inner.registry, r).None?
    ensures Enabled(s, Shutdown(w, busy))
    ensures var after := Apply(s, Shutdown(w, busy));
            && after.inner.registry == [] && after.inner.locks == map[] && after.inner.nextLock == s.inner.nextLock
            && after.opens == s.opens && (r in after.disturbed <==> r in s.disturbed)
            && (r in after.wiped <==> r in s.wiped || r in s.inner.locks)
            && after.tasks == s.tasks[w := Sweeping(Residents(s.inner.registry))]
  {
    forall e | e in s.inner.registry ensures e.key != r {
      GetIsMembership(s.inner.registry, e.key, e.value);
    }
  }

  lemma SweeperAside(tasks: map<TaskId, Pc>, w: TaskId, vs: set<ProjectId>, t: TaskId, r: Root, next: LockId)
    requires At(tasks, w).Idle? && MayEnter(tasks, t, r) && AllOlder(tasks, next)
    ensures MayEnter(tasks[w := Sweeping(vs)], t, r) && AllOlder(tasks[w := Sweeping(vs)], next)
    ensures At(tasks[w := Sweeping(vs)], t) == At(tasks, t)
  {
    var moved := tasks[w := Sweeping(vs)];
    assert t != w;
    forall u ensures LockOf(At(moved, u)) == LockOf(At(tasks, u)) && HeldLock(At(moved, u)) == HeldLock(At(tasks, u)) {
      assert u != w ==> At(moved, u) == At(tasks, u);
    }
  }

  /** So a root that some task is on its way to can be opened twice once a shutdown has come between. */
  lemma ShutdownLetsSecondOpen(reach: Sys -> bool, s: Sys, w: TaskId, busy: set<ProjectId>, r: Root, t: TaskId)
    returns (after: Sys)
    requires PoolInv(s) && SingleFlight(s, r) && LocksNamed(s)
    requires Get(s.inner.registry, r).None? && At(s.tasks, w).Idle? && OnItsWay(At(s.tasks, t), r)
    requires Closed(reach) && Enabled(s, Shutdown(w, busy)) && reach(Apply(s, Shutdown(w, busy)))
    ensures reach(after) && (r in after.disturbed <==> r in s.disturbed) && Opens(after.opens, r) >= 2
  {
    var u := OneMayEnter(s, r, t);
    ShutdownClears(s, w, busy, r);
    var shut := Apply(s, Shutdown(w, busy));
    SweeperAside(s.tasks, w, Residents(s.inner.registry), u, r, s.inner.nextLock);
    assert MayBe(At(s.tasks, u), PhaseAt(s.inner.registry, s.opens, r), LockAt(s.inner.locks, r));
    var n := Above(shut.tasks.Keys);
    after := TwoOpen(reach, shut, n, u, r);
  }

  // --- exactly when ---------------------------------------------------------------------

  ghost predicate NoShutdown(actions: seq<Action>) {
    forall k :: 0 <= k < |actions| ==> !actions[k].Shutdown?
  }

  /** The run `before` can go on through `more`, without another shutdown, to state `s`. */
  ghost predicate GoesOn(cap: Positive, before: seq<Action>, more: seq<Action>, s: Sys) {
    NoShutdown(more) && ValidRun(Initial(cap), before + more) && Run(Initial(cap), before + more) == s
  }

  ghost predicate CanReach(cap: Positive, before: seq<Action>, s: Sys) {
    exists more :: GoesOn(cap, before, more, s)
  }

  /** It can go on to a second open of the root with nothing else ever wrong there. */
  ghost predicate CanOpenAgain(cap: Positive, before: seq<Action>, r: Root) {
    exists s :: CanReach(cap, before, s) && r !in s.disturbed && Opens(s.opens, r) >= 2
  }

  lemma StepTo(s0: Sys, actions: seq<Action>, a: Action, s: Sys, after: Sys, longer: seq<Action>)
    requires ValidRun(s0, actions) && Run(s0, actions) == s && Enabled(s, a) && after == Apply(s, a)
    requires longer == actions + [a]
    ensures ValidRun(s0, longer) && Run(s0, longer) == after
  {
    OneMoreStep(s0, actions, a);
  }

  lemma NoShutdownSnoc(more: seq<Action>, a: Action)
    requires NoShutdown(more) && !a.Shutdown?
    ensures NoShutdown(more + [a])
  {
  }

  lemma GoesOnSnoc(cap: Positive, before: seq<Action>, more: seq<Action>, s: Sys, a: Action, after: Sys)
    requires GoesOn(cap, before, more, s) && Enabled(s, a) && !a.Shutdown? && after == Apply(s, a)
    ensures GoesOn(cap, before, more + [a], after)
  {
    NoShutdownSnoc(more, a);
    assert before + (more + [a]) == before + more + [a];
    StepTo(Initial(cap), before + more, a, s, after, before + (more + [a]));
  }

  lemma GoesOnOneMore(cap: Positive, before: seq<Action>, s: Sys, a: Action, after: Sys)
    requires CanReach(cap, before, s) && Enabled(s, a) && !a.Shutdown? && after == Apply(s, a)
    ensures CanReach(cap, before, after)
  {
    var more :| GoesOn(cap, before, more, s);
    GoesOnSnoc(cap, before, more, s, a, after);
  }

  lemma {:induction false} NothingMoreWiped(cap: Positive, before: seq<Action>, more: seq<Action>)
    requires ValidRun(Initial(cap), before) && ValidRun(Initial(cap), before + more) && NoShutdown(more)
    ensures Run(Initial(cap), before + more).wiped == Run(Initial(cap), before).wiped
    decreases |more|
  {
    if more == [] {
      assert before + more == before;
    } else {
      var init := more[..|more| - 1];
      assert (before + more)[..|before + more| - 1] == before + init;
      NothingMoreWiped(cap, before, init);
    }
  }

  /**
   A shutdown at any reachable moment when nothing has gone wrong at a root and
   nothing is resident there: the root can then be opened a second time, with no
   other shutdown and nothing else going wrong at it, exactly when some task was
   between asking for its opening lock and storing what it opened.
   */
  lemma SecondOpenAfterShutdownExactly(cap: Positive, actions: seq<Action>, w: TaskId, busy: set<ProjectId>, r: Root)
    requires ValidRun(Initial(cap), actions) && Undisturbed(Run(Initial(cap), actions), r)
    requires At(Run(Initial(cap), actions).tasks, w).Idle? && Get(Run(Initial(cap), actions).inner.registry, r).None?
    ensures ValidRun(Initial(cap), actions + [Shutdown(w, busy)])
    ensures CanOpenAgain(cap, actions + [Shutdown(w, busy)], r) <==> SomeOnTheWay(Run(Initial(cap), actions).tasks, r)
  {
    var s, before := Run(Initial(cap), actions), actions + [Shutdown(w, busy)];
    EveryRunKeepsThePool(cap, actions);
    ShutdownClears(s, w, busy, r);
    OneMoreStep(Initial(cap), actions, Shutdown(w, busy));
    if SomeOnTheWay(s.tasks, r) {
      OpensAgain(cap, actions, w, busy, r);
    } else {
      EveryRunLocksFor(cap, actions, r);
      NeverOpensAgain(cap, before, r);
    }
  }

  lemma OpensAgain(cap: Positive, actions: seq<Action>, w: TaskId, busy: set<ProjectId>, r: Root)
    requires ValidRun(Initial(cap), actions) && Undisturbed(Run(Initial(cap), actions), r)
    requires At(Run(Initial(cap), actions).tasks, w).Idle? && Get(Run(Initial(cap), actions).inner.registry, r).None?
    requires ValidRun(Initial(cap), actions + [Shutdown(w, busy)])
    requires SomeOnTheWay(Run(Initial(cap), actions).tasks, r)
    ensures CanOpenAgain(cap, actions + [Shutdown(w, busy)], r)
  {
    var s, before := Run(Initial(cap), actions), actions + [Shutdown(w, busy)];
    EveryRunKeepsThePool(cap, actions);
    EveryRunFlies(cap, actions, r);
    EveryRunNames(cap, actions);
    ShutdownClears(s, w, busy, r);
    OneMoreStep(Initial(cap), actions, Shutdown(w, busy));
    var t :| OnItsWay(At(s.tasks, t), r);
    var reach := x => CanReach(cap, before, x);
    forall x, a | reach(x) && Enabled(x, a) && !a.Shutdown? ensures reach(Apply(x, a)) {
      GoesOnOneMore(cap, before, x, a, Apply(x, a));
    }
    assert before + [] == before;
    assert GoesOn(cap, before, [], Run(Initial(cap), before));
    var after := ShutdownLetsSecondOpen(reach, s, w, busy, r, t);
  }

  lemma NeverOpensAgain(cap: Positive, before: seq<Action>, r: Root)
    requires ValidRun(Initial(cap), before) && Undisturbed(Run(Initial(cap), before), r)
    ensures !CanOpenAgain(cap, before, r)
  {
    forall s | CanReach(cap, before, s) && r !in s.disturbed ensures Opens(s.opens, r) <= 1 {
      var more :| GoesOn(cap, before, more, s);
      NothingMoreWiped(cap, before, more);
      OneOpenPerRoot(cap, before + more, r);
    }
  }
}
