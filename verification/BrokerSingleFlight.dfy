/**
 Single flight: as long as nothing goes wrong at a root, `LeanProject::open`
 runs at most once for it, whatever the interleaving, and every caller gets the
 one project. What can go wrong is what `disturbed` and `wiped` record: a stale
 or unreadable verdict, a failed open, a pool with no room, an eviction at the
 root, or a shutdown of the broker that forgets the root's opening lock.
 */
module BrokerSingleFlight {
  import opened Wrappers
  import opened Lru
  import opened BrokerModel
  import opened BrokerRuns

  function RootOf(pc: Pc): Option<Root> {
    if pc.Idle? || pc.Sweeping? then None else Some(pc.root)
  }

  /** How far one root has come: not opened, opened by a task that has yet to store it, resident. */
  datatype Phase = Unopened | InHand | Settled(project: ProjectId)

  function PhaseAt(registry: Recency<Root, ProjectId>, opens: map<Root, int>, r: Root): Phase {
    var found := Get(registry, r);
    if found.Some? then Settled(found.value)
    else if Opens(opens, r) == 0 then Unopened
    else InHand
  }

  function LockAt(locks: map<Root, LockId>, r: Root): Option<LockId> {
    if r in locks then Some(locks[r]) else None
  }

  /** Where a task for a root may be in each phase. Only a settled root may lose its lock entry. */
  predicate MayBe(pc: Pc, phase: Phase, lock: Option<LockId>) {
    match phase
    case Unopened =>
      pc.WantLock? || ((pc.Waiting? || pc.Locked? || pc.Opening?) && lock == Some(pc.lock))
    case InHand =>
      pc.WantLock? || ((pc.Waiting? || pc.Opened?) && lock == Some(pc.lock))
    case Settled(p) =>
      || pc.WantLock? || pc.Waiting? || pc.Locked?
      || ((pc.Looked? || pc.Confirmed? || pc.Relooked? || pc.Reusable? || pc.Reused?) && pc.project == p)
      || ((pc.Closing? || pc.Done?) && pc.result == Some(p))
  }

  ghost predicate InFlight(tasks: map<TaskId, Pc>, lock: Option<LockId>, r: Root, phase: Phase) {
    forall t :: RootOf(At(tasks, t)) == Some(r) ==> MayBe(At(tasks, t), phase, lock)
  }

  /** No lock has two holders. */
  ghost predicate Exclusive(tasks: map<TaskId, Pc>) {
    forall t, u :: HeldLock(At(tasks, t)).Some? && HeldLock(At(tasks, t)) == HeldLock(At(tasks, u)) ==> t == u
  }

  ghost predicate HasOpener(tasks: map<TaskId, Pc>, r: Root) {
    exists t :: At(tasks, t).Opened? && At(tasks, t).root == r
  }

  ghost predicate Flight(tasks: map<TaskId, Pc>, lock: Option<LockId>, opens: int, r: Root, phase: Phase) {
    && InFlight(tasks, lock, r, phase)
    && (phase.InHand? ==> HasOpener(tasks, r))
    && opens == if phase.Unopened? then 0 else 1
  }

  ghost predicate SingleFlight(s: Sys, r: Root) {
    Flight(s.tasks, LockAt(s.inner.locks, r), Opens(s.opens, r), r, PhaseAt(s.inner.registry, s.opens, r))
  }

  predicate Undisturbed(s: Sys, r: Root) {
    r !in s.disturbed && r !in s.wiped
  }

  // --- mutual exclusion --------------------------------------------------------

  lemma MoveKeepsLock(i: Inner, next: ProjectId, pc: Pc, a: Action)
    requires Fits(pc, a)
    ensures HeldLock(Moves(i, next, pc, a)).None? || HeldLock(Moves(i, next, pc, a)) == HeldLock(pc)
            || (a.Acquire? && HeldLock(Moves(i, next, pc, a)) == Some(pc.lock))
  {
  }

  lemma StepKeepsExclusive(s: Sys, a: Action)
    requires Enabled(s, a) && Exclusive(s.tasks)
    ensures Exclusive(Apply(s, a).tasks)
  {
    var before := At(s.tasks, a.task);
    var pc := Moves(s.inner, s.next, before, a);
    MoveKeepsLock(s.inner, s.next, before, a);
    var after := s.tasks[a.task := pc];
    forall u, v | HeldLock(At(after, u)).Some? && HeldLock(At(after, u)) == HeldLock(At(after, v)) ensures u == v {
      assert u != a.task ==> At(after, u) == At(s.tasks, u);
      assert v != a.task ==> At(after, v) == At(s.tasks, v);
    }
  }

  // --- one step ----------------------------------------------------------------

  lemma TradesGet(before: Recency<Root, ProjectId>, after: Recency<Root, ProjectId>, out: set<ProjectId>,
                  stored: Option<Entry<Root, ProjectId>>, r: Root)
    requires Distinct(before) && Distinct(after) && Trades(before, after, out, stored) && r !in RootsOf(before, out)
    ensures Get(after, r) == if stored.Some? && stored.value.key == r then Some(stored.value.value) else Get(before, r)
  {
    if stored.Some? && stored.value.key == r {
      GetIsMembership(after, r, stored.value.value);
    } else {
      forall p: ProjectId ensures Get(after, r) == Some(p) <==> Get(before, r) == Some(p) {
        GetIsMembership(after, r, p);
        GetIsMembership(before, r, p);
        assert Entry(r, p) in before && p in out ==> r in RootsOf(before, out);
      }
    }
  }

  /** What a step does to the root's entry when it does not evict it. */
  lemma PhaseStep(s: Sys, a: Action, r: Root)
    requires PoolInv(s) && Enabled(s, a) && r !in RootsOf(s.inner.registry, Out(s.inner, At(s.tasks, a.task), a))
    ensures var stored := StoredBy(s.inner, At(s.tasks, a.task), a);
            Get(Section(s.inner, At(s.tasks, a.task), a).registry, r)
            == if stored.Some? && stored.value.key == r then Some(stored.value.value) else Get(s.inner.registry, r)
  {
    var pc := At(s.tasks, a.task);
    SectionKeepsPool(s.inner, pc, a);
    PlacedIsOneRootEach(s.inner.registry, s.place);
    SectionTrades(s.inner, pc, a);
    TradesGet(s.inner.registry, Section(s.inner, pc, a).registry, Out(s.inner, pc, a), StoredBy(s.inner, pc, a), r);
  }

  lemma RootStays(i: Inner, next: ProjectId, pc: Pc, a: Action)
    requires Fits(pc, a)
    ensures RootOf(Moves(i, next, pc, a)) == if a.Begin? then Some(a.root) else RootOf(pc)
  {
  }

  /** Only steps at the root touch its lock entry, short of a shutdown that forgets it. */
  lemma LockStep(i: Inner, pc: Pc, a: Action, r: Root)
    requires Fits(pc, a) && r !in Wiped(i, a)
    ensures LockAt(Section(i, pc, a).locks, r) ==
            if RootOf(pc) != Some(r) then LockAt(i.locks, r)
            else if a.TakeLock? then Some(OpeningLock(i, r).1)
            else if a.ForgetReused? || a.ForgetFailed? || a.Store? then None
            else LockAt(i.locks, r)
  {
  }

  /** A task moves while the root stays in its phase. */
  lemma Advance(tasks: map<TaskId, Pc>, t: TaskId, pc: Pc, r: Root, phase: Phase,
                lock: Option<LockId>, after: Option<LockId>, opens: int)
    requires Flight(tasks, lock, opens, r, phase)
    requires after == lock || lock == None || phase.Settled?
    requires RootOf(pc) == Some(r) ==> MayBe(pc, phase, after)
    requires phase.InHand? && RootOf(At(tasks, t)) == Some(r) ==> !At(tasks, t).Opened?
    ensures Flight(tasks[t := pc], after, opens, r, phase)
  {
    var moved := tasks[t := pc];
    if phase.InHand? {
      var u :| At(tasks, u).Opened? && At(tasks, u).root == r;
      assert At(moved, u).Opened? && At(moved, u).root == r;
    }
    forall u | RootOf(At(moved, u)) == Some(r) ensures MayBe(At(moved, u), phase, after) {
      assert u != t ==> At(moved, u) == At(tasks, u);
    }
  }

  lemma ElsewhereKeepsFlight(s: Sys, a: Action, r: Root)
    requires PoolInv(s) && Enabled(s, a) && SingleFlight(s, r) && Undisturbed(Apply(s, a), r)
    requires RootOf(Moves(s.inner, s.next, At(s.tasks, a.task), a)) != Some(r)
    ensures SingleFlight(Apply(s, a), r)
  {
    var pc := At(s.tasks, a.task);
    RootStays(s.inner, s.next, pc, a);
    PhaseStep(s, a, r);
    LockStep(s.inner, pc, a, r);
    Advance(s.tasks, a.task, Moves(s.inner, s.next, pc, a), r, PhaseAt(s.inner.registry, s.opens, r),
            LockAt(s.inner.locks, r), LockAt(Section(s.inner, pc, a).locks, r), Opens(s.opens, r));
  }

  /** The task that opens is the only one past the lock; from here on it has the project in hand. */
  lemma OpenStartsHand(tasks: map<TaskId, Pc>, t: TaskId, r: Root, l: LockId, q: ProjectId)
    requires Exclusive(tasks) && At(tasks, t) == Opening(r, l)
    requires Flight(tasks, Some(l), 0, r, Unopened)
    ensures Flight(tasks[t := Opened(r, l, q)], Some(l), 1, r, InHand)
  {
    var moved := tasks[t := Opened(r, l, q)];
    assert At(moved, t).Opened?;
    forall u | RootOf(At(moved, u)) == Some(r) ensures MayBe(At(moved, u), InHand, Some(l)) {
      if u != t {
        assert At(moved, u) == At(tasks, u) && MayBe(At(tasks, u), Unopened, Some(l));
        assert HeldLock(At(tasks, t)) == Some(l);
      }
    }
  }

  /** Storing it settles the root: everyone else is still before the lock. */
  lemma StoreSettles(tasks: map<TaskId, Pc>, t: TaskId, pc: Pc, r: Root, q: ProjectId, lock: Option<LockId>)
    requires Exclusive(tasks) && At(tasks, t).Opened? && At(tasks, t).root == r
    requires Flight(tasks, lock, 1, r, InHand)
    requires MayBe(pc, Settled(q), None)
    ensures Flight(tasks[t := pc], None, 1, r, Settled(q))
  {
    var moved := tasks[t := pc];
    forall u | RootOf(At(moved, u)) == Some(r) ensures MayBe(At(moved, u), Settled(q), None) {
      if u != t {
        assert At(moved, u) == At(tasks, u) && MayBe(At(tasks, u), InHand, lock);
        assert MayBe(At(tasks, t), InHand, lock);
      }
    }
  }

  /** With nothing resident at the root and room to be had, the opened project is stored. */
  lemma StoreStores(i: Inner, pc: Pc, a: Action)
    requires a.Store? && Fits(pc, a) && Get(i.registry, pc.root).None? && pc.root !in Trouble(i, pc, a)
    ensures StoreResult(i, pc, a).1.Stored?
  {
  }

  lemma StoreKeepsFlight(s: Sys, a: Action, r: Root)
    requires PoolInv(s) && Exclusive(s.tasks) && Enabled(s, a) && SingleFlight(s, r) && Undisturbed(Apply(s, a), r)
    requires a.Store? && At(s.tasks, a.task).root == r
    ensures SingleFlight(Apply(s, a), r)
  {
    var pc := At(s.tasks, a.task);
    var lock := LockAt(s.inner.locks, r);
    assert MayBe(pc, PhaseAt(s.inner.registry, s.opens, r), lock);
    StoreStores(s.inner, pc, a);
    PhaseStep(s, a, r);
    LockStep(s.inner, pc, a, r);
    StoreSettles(s.tasks, a.task, AfterStore(pc, StoreResult(s.inner, pc, a).1), r, pc.project, lock);
  }

  lemma OpenKeepsFlight(s: Sys, a: Action, r: Root)
    requires PoolInv(s) && Exclusive(s.tasks) && Enabled(s, a) && SingleFlight(s, r) && Undisturbed(Apply(s, a), r)
    requires a.Open? && At(s.tasks, a.task).root == r
    ensures SingleFlight(Apply(s, a), r)
  {
    var pc := At(s.tasks, a.task);
    PhaseStep(s, a, r);
    LockStep(s.inner, pc, a, r);
    assert MayBe(pc, PhaseAt(s.inner.registry, s.opens, r), LockAt(s.inner.locks, r));
    OpenStartsHand(s.tasks, a.task, r, pc.lock, s.next);
  }

  /** While a task has the project in hand, no other task for the root can take the lock. */
  lemma HandBlocksLock(tasks: map<TaskId, Pc>, t: TaskId, r: Root, lock: Option<LockId>)
    requires Flight(tasks, lock, 1, r, InHand) && At(tasks, t).Waiting? && At(tasks, t).root == r
    ensures !LockFree(tasks, At(tasks, t).lock)
  {
    var u :| At(tasks, u).Opened? && At(tasks, u).root == r;
    assert MayBe(At(tasks, u), InHand, lock) && MayBe(At(tasks, t), InHand, lock);
  }

  /** Short of trouble, a step other than opening and storing takes its task where the phase allows. */
  lemma HereMayBe(i: Inner, next: ProjectId, pc: Pc, a: Action, r: Root, phase: Phase)
    requires Fits(pc, a) && !a.Store? && !a.Open?
    requires RootOf(Moves(i, next, pc, a)) == Some(r) && r !in Trouble(i, pc, a)
    requires phase.Settled? <==> Get(i.registry, r).Some?
    requires phase.Settled? ==> Get(i.registry, r) == Some(phase.project)
    requires a.Begin? || MayBe(pc, phase, LockAt(i.locks, r))
    requires a.Acquire? ==> !phase.InHand?
    ensures MayBe(Moves(i, next, pc, a), phase, LockAt(Section(i, pc, a).locks, r))
  {
  }

  lemma HereKeepsFlight(s: Sys, a: Action, r: Root)
    requires PoolInv(s) && Enabled(s, a) && SingleFlight(s, r) && Undisturbed(Apply(s, a), r)
    requires RootOf(Moves(s.inner, s.next, At(s.tasks, a.task), a)) == Some(r) && !a.Store? && !a.Open?
    ensures SingleFlight(Apply(s, a), r)
  {
    var pc := At(s.tasks, a.task);
    var phase, lock := PhaseAt(s.inner.registry, s.opens, r), LockAt(s.inner.locks, r);
    RootStays(s.inner, s.next, pc, a);
    PhaseStep(s, a, r);
    assert !a.Begin? ==> MayBe(pc, phase, lock);
    if a.Acquire? && phase.InHand? {
      HandBlocksLock(s.tasks, a.task, r, lock);
    } else {
      HereMayBe(s.inner, s.next, pc, a, r, phase);
      LockStep(s.inner, pc, a, r);
      Advance(s.tasks, a.task, Moves(s.inner, s.next, pc, a), r, phase, lock,
              LockAt(Section(s.inner, pc, a).locks, r), Opens(s.opens, r));
    }
  }

  lemma StepKeepsFlight(s: Sys, a: Action, r: Root)
    requires PoolInv(s) && Exclusive(s.tasks) && Enabled(s, a) && SingleFlight(s, r) && Undisturbed(Apply(s, a), r)
    ensures SingleFlight(Apply(s, a), r)
  {
    var pc := At(s.tasks, a.task);
    RootStays(s.inner, s.next, pc, a);
    if RootOf(Moves(s.inner, s.next, pc, a)) != Some(r) {
      ElsewhereKeepsFlight(s, a, r);
    } else if a.Store? {
      StoreKeepsFlight(s, a, r);
    } else if a.Open? {
      OpenKeepsFlight(s, a, r);
    } else {
      HereKeepsFlight(s, a, r);
    }
  }

  // --- whole runs --------------------------------------------------------------

  lemma DisturbanceLasts(s: Sys, a: Action, r: Root)
    requires Enabled(s, a) && Undisturbed(Apply(s, a), r)
    ensures Undisturbed(s, r)
  {
  }

  lemma {:induction false} EveryRunExcludes(cap: Positive, actions: seq<Action>)
    requires ValidRun(Initial(cap), actions)
    ensures Exclusive(Run(Initial(cap), actions).tasks)
    decreases |actions|
  {
    if actions != [] {
      EveryRunExcludes(cap, actions[..|actions| - 1]);
      StepKeepsExclusive(Run(Initial(cap), actions[..|actions| - 1]), actions[|actions| - 1]);
    }
  }

  lemma {:induction false} EveryRunFlies(cap: Positive, actions: seq<Action>, r: Root)
    requires ValidRun(Initial(cap), actions) && Undisturbed(Run(Initial(cap), actions), r)
    ensures SingleFlight(Run(Initial(cap), actions), r)
    decreases |actions|
  {
    if actions != [] {
      var (before, a) := (Run(Initial(cap), actions[..|actions| - 1]), actions[|actions| - 1]);
      DisturbanceLasts(before, a, r);
      EveryRunFlies(cap, actions[..|actions| - 1], r);
      EveryRunKeepsThePool(cap, actions[..|actions| - 1]);
      EveryRunExcludes(cap, actions[..|actions| - 1]);
      StepKeepsFlight(before, a, r);
    }
  }

  /**
   Whatever the interleaving, an undisturbed root is opened at most once, its
   one project stays resident once stored, and every `acquire` for it that has
   returned was given that project.
   */
  lemma OneOpenPerRoot(cap: Positive, actions: seq<Action>, r: Root)
    requires ValidRun(Initial(cap), actions) && Undisturbed(Run(Initial(cap), actions), r)
    ensures var s := Run(Initial(cap), actions);
            && Opens(s.opens, r) <= 1
            && (forall t :: At(s.tasks, t).Done? && At(s.tasks, t).root == r ==>
                  At(s.tasks, t).result.Some? && At(s.tasks, t).result == Get(s.inner.registry, r))
  {
    EveryRunFlies(cap, actions, r);
    var s := Run(Initial(cap), actions);
    var (phase, lock) := (PhaseAt(s.inner.registry, s.opens, r), LockAt(s.inner.locks, r));
    forall t | At(s.tasks, t).Done? && At(s.tasks, t).root == r
      ensures At(s.tasks, t).result.Some? && At(s.tasks, t).result == Get(s.inner.registry, r)
    {
      assert MayBe(At(s.tasks, t), phase, lock);
    }
  }

  /** What a step can do wrong at a root: a bad verdict, a failed open, no room, an eviction there, or its lock forgotten. */
  ghost predicate Disturbs(s: Sys, a: Action, r: Root)
    requires Enabled(s, a)
  {
    var pc := At(s.tasks, a.task);
    r in Trouble(s.inner, pc, a) || r in RootsOf(s.inner.registry, Out(s.inner, pc, a)) || r in Wiped(s.inner, a)
  }

  lemma DisturbsWhenRecorded(s: Sys, a: Action, r: Root)
    requires Enabled(s, a) && Undisturbed(s, r) && !Undisturbed(Apply(s, a), r)
    ensures Disturbs(s, a, r)
  {
  }

  /** Whatever is on record against a root was put there by some step of the run. */
  lemma {:induction false} RecordHasCause(cap: Positive, actions: seq<Action>, r: Root) returns (k: nat)
    requires ValidRun(Initial(cap), actions) && !Undisturbed(Run(Initial(cap), actions), r)
    ensures k < |actions| && ValidRun(Initial(cap), actions[..k])
    ensures Enabled(Run(Initial(cap), actions[..k]), actions[k])
    ensures Disturbs(Run(Initial(cap), actions[..k]), actions[k], r)
    decreases |actions|
  {
    assert actions != [];
    var init := actions[..|actions| - 1];
    if Undisturbed(Run(Initial(cap), init), r) {
      k := |actions| - 1;
      DisturbsWhenRecorded(Run(Initial(cap), init), actions[k], r);
    } else {
      k := RecordHasCause(cap, init, r);
      assert init[..k] == actions[..k];
    }
  }

  /** So a root that was opened twice was disturbed by a step of the run, and by one of these five kinds. */
  lemma SecondOpenHasCause(cap: Positive, actions: seq<Action>, r: Root) returns (k: nat)
    requires ValidRun(Initial(cap), actions) && Opens(Run(Initial(cap), actions).opens, r) >= 2
    ensures k < |actions| && ValidRun(Initial(cap), actions[..k])
    ensures Enabled(Run(Initial(cap), actions[..k]), actions[k])
    ensures Disturbs(Run(Initial(cap), actions[..k]), actions[k], r)
  {
    if Undisturbed(Run(Initial(cap), actions), r) { OneOpenPerRoot(cap, actions, r); }
    k := RecordHasCause(cap, actions, r);
  }
}
