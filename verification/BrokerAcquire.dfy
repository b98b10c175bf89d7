/**
 `acquire` as the one method it is, over the broker's state in place, when no
 other task comes between its critical sections: what it answers and what it
 leaves, and the one run of the protocol it is.
 */
module BrokerAcquire {
  import opened Wrappers
  import opened Lru
  import opened BrokerModel
  import opened BrokerRuns
  import opened ProjectBroker

  /** What one call finds: its verdicts on a resident project, whether an open succeeds, who is busy, the time. */
  datatype Findings = Findings(first: Verdict, second: Verdict, opens: bool, busy: set<ProjectId>, now: Instant)

  function Given(what: Inserted, q: ProjectId): Option<ProjectId> {
    match what
    case UseExisting(p) => Some(p)
    case PoolBusy => None
    case Stored(_) => Some(q)
  }

  /** Open project `q` for the root, and store it. */
  function OpenAndStore(i: Inner, q: ProjectId, r: Root, f: Findings): (Inner, Option<ProjectId>) {
    if !f.opens then (ForgetLock(i, r), None)
    else
      var (after, what) := InsertOpened(i, r, q, f.busy, f.now);
      (after, Given(what, q))
  }

  /** The opening lock, the second look behind it, and what follows. */
  function BehindLock(i: Inner, q: ProjectId, r: Root, f: Findings): (Inner, Option<ProjectId>) {
    var (looked, found) := Lookup(OpeningLock(i, r).0, r);
    if found.None? then OpenAndStore(looked, q, r, f)
    else
      match f.second
      case Unreadable => (looked, None)
      case Current => (MarkUsed(ForgetLock(looked, r), r, f.now), found)
      case Stale => OpenAndStore(PopResident(looked, r).0, q, r, f)
  }

  /** The whole call; `q` names the next project to be opened. */
  function Acquired(i: Inner, q: ProjectId, r: Root, f: Findings): (Inner, Option<ProjectId>) {
    var (looked, found) := Lookup(i, r);
    if found.None? then BehindLock(looked, q, r, f)
    else
      match f.first
      case Unreadable => (looked, None)
      case Current => (MarkUsed(looked, r, f.now), found)
      case Stale => BehindLock(PopResident(looked, r).0, q, r, f)
  }

  /** The slow path in place. */
  method OpenProject(inner: BrokerInner, r: Root, f: Findings, q: ProjectId) returns (result: Option<ProjectId>)
    requires PoolOk(inner.State())
    modifies inner
    ensures (inner.State(), result) == OpenAndStore(old(inner.State()), q, r, f)
  {
    if !f.opens {
      inner.DropLock(r);
      return None;
    }
    var what := inner.StoreOpened(r, q, f.busy, f.now);
    result := match what
      case UseExisting(p) => Some(p)
      case PoolBusy => None
      case Stored(_) => Some(q);
  }

  /** From the opening lock on, in place. */
  method AcquireBehindLock(inner: BrokerInner, r: Root, f: Findings, q: ProjectId) returns (result: Option<ProjectId>)
    requires PoolOk(inner.State())
    modifies inner
    ensures (inner.State(), result) == BehindLock(old(inner.State()), q, r, f)
  {
    var l := inner.LockFor(r);
    LookupKeepsPool(inner.State(), r);
    var found := inner.LookUp(r);
    if found.Some? {
      if f.second.Unreadable? {
        return None;
      }
      if f.second.Current? {
        inner.DropLock(r);
        inner.Use(r, f.now);
        return found;
      }
      PopKeepsPool(inner.State(), r);
      var stale := inner.EvictStale(r);
    }
    result := OpenProject(inner, r, f, q);
  }

  /** The call in place, one critical section after the other. */
  method AcquireProject(inner: BrokerInner, r: Root, f: Findings, q: ProjectId) returns (result: Option<ProjectId>)
    requires PoolOk(inner.State())
    modifies inner
    ensures (inner.State(), result) == Acquired(old(inner.State()), q, r, f)
    ensures Answers(old(inner.State()), q, r, f, inner.State(), result)
  {
    AcquireAnswers(inner.State(), q, r, f);
    LookupKeepsPool(inner.State(), r);
    var cached := inner.LookUp(r);
    if cached.Some? {
      if f.first.Unreadable? {
        return None;
      }
      if f.first.Current? {
        inner.Use(r, f.now);
        return cached;
      }
      PopKeepsPool(inner.State(), r);
      var stale := inner.EvictStale(r);
    }
    result := AcquireBehindLock(inner, r, f, q);
  }

  // --- what a caller gets --------------------------------------------------------

  /** The pool has no room and every project in it is busy. */
  ghost predicate FullAndBusy(i: Inner, busy: set<ProjectId>) {
    |i.registry| == i.cap && Residents(i.registry) <= busy
  }

  /** The project the caller is owed. */
  ghost function Owed(i: Inner, q: ProjectId, r: Root, f: Findings): Option<ProjectId> {
    var resident := Get(i.registry, r);
    if resident.Some? && f.first.Current? then resident
    else if resident.Some? && f.first.Unreadable? then None
    else if !f.opens || (resident.None? && FullAndBusy(i, f.busy)) then None
    else Some(q)
  }

  /** Nothing is evicted elsewhere. */
  ghost predicate OthersKept(i: Inner, after: Inner, r: Root) {
    forall e: Entry<Root, ProjectId> :: e.key != r ==> (e in after.registry <==> e in i.registry)
  }

  /** One idle project elsewhere, the oldest, made room for the new one. */
  ghost predicate MadeRoom(i: Inner, after: Inner, r: Root, q: ProjectId, busy: set<ProjectId>) {
    exists k: nat, v :: OldestIdle(i.registry, busy, k, v) && Replaces(i.registry, after.registry, i.registry[k].key, r, q)
  }

  /** What a call answers and leaves. */
  ghost predicate Answers(i: Inner, q: ProjectId, r: Root, f: Findings, after: Inner, result: Option<ProjectId>) {
    && result == Owed(i, q, r, f)
    && PoolOk(after) && after.cap == i.cap
    && (result.Some? ==> Get(after.registry, r) == result && r in after.lastUsed && after.lastUsed[r] == f.now)
    && (if Get(i.registry, r).None? && result.Some? && |i.registry| == i.cap then MadeRoom(i, after, r, q, f.busy)
        else OthersKept(i, after, r))
    && after.locks == if Get(i.registry, r).Some? && !f.first.Stale? then i.locks else i.locks - {r}
  }

  /** What follows once nothing is resident at the root. */
  ghost predicate Reopened(i: Inner, q: ProjectId, r: Root, f: Findings, after: Inner, result: Option<ProjectId>) {
    && result == (if !f.opens || FullAndBusy(i, f.busy) then None else Some(q))
    && PoolOk(after) && after.cap == i.cap && after.locks == i.locks - {r}
    && (result.Some? ==> Get(after.registry, r) == result && r in after.lastUsed && after.lastUsed[r] == f.now)
    && (if result.Some? && |i.registry| == i.cap then MadeRoom(i, after, r, q, f.busy) else OthersKept(i, after, r))
  }

  lemma OpenAndStoreOpens(i: Inner, q: ProjectId, r: Root, f: Findings)
    requires PoolOk(i) && !Has(i.registry, r)
    ensures Reopened(i, q, r, f, OpenAndStore(i, q, r, f).0, OpenAndStore(i, q, r, f).1)
  {
    if f.opens {
      var (after, what) := InsertOpened(i, r, q, f.busy, f.now);
      InsertIsProper(i, r, q, f.busy, f.now);
      if what.Stored? {
        assert Entry(r, q) in after.registry;
        GetIsMembership(after.registry, r, q);
      }
    }
  }

  /** Behind the lock of a root where nothing is resident. */
  lemma BehindLockOpens(i: Inner, q: ProjectId, r: Root, f: Findings)
    requires PoolOk(i) && !Has(i.registry, r)
    ensures BehindLock(i, q, r, f) == OpenAndStore(OpeningLock(i, r).0, q, r, f)
    ensures Reopened(i, q, r, f, BehindLock(i, q, r, f).0, BehindLock(i, q, r, f).1)
  {
    var locked := OpeningLock(i, r).0;
    assert Lookup(locked, r) == (locked, None);
    OpenAndStoreOpens(locked, q, r, f);
    assert locked.locks - {r} == i.locks - {r};
  }

  lemma AcquireAnswers(i: Inner, q: ProjectId, r: Root, f: Findings)
    requires PoolOk(i)
    ensures Answers(i, q, r, f, Acquired(i, q, r, f).0, Acquired(i, q, r, f).1)
  {
    LookupKeepsPool(i, r);
    var looked := Lookup(i, r).0;
    if Get(i.registry, r).None? {
      BehindLockOpens(i, q, r, f);
    } else if f.first.Stale? {
      StaleIsReopened(i, q, r, f);
    } else {
      GetIsMembership(looked.registry, r, Get(i.registry, r).value);
    }
  }

  lemma StaleIsReopened(i: Inner, q: ProjectId, r: Root, f: Findings)
    requires PoolOk(i) && Get(i.registry, r).Some? && f.first.Stale?
    ensures Answers(i, q, r, f, Acquired(i, q, r, f).0, Acquired(i, q, r, f).1)
  {
    LookupKeepsPool(i, r);
    var looked := Lookup(i, r).0;
    var popped := PopResident(looked, r).0;
    PopKeepsPool(looked, r);
    HasIsMembership(popped.registry, r);
    BehindLockOpens(popped, q, r, f);
  }

  // --- the run it is ---------------------------------------------------------------

  /** A step of task `t` in a call for `r`, deciding as the findings say. */
  predicate Heeds(a: Action, t: TaskId, r: Root, f: Findings) {
    && a.task == t
    && match a
       case Begin(_, root) => root == r
       case Judge(_, verdict) => verdict == f.first
       case Rejudge(_, verdict) => verdict == f.second
       case ConfirmFast(_, now) => now == f.now
       case ConfirmReused(_, now) => now == f.now
       case EvictStale(_, busy) => busy == f.busy
       case Store(_, busy, now) => busy == f.busy && now == f.now
       case Open(_) => f.opens
       case FailOpen(_) => !f.opens
       case Reap(_, _, _, _) => false
       case Shutdown(_, _) => false
       case ShutSwept(_, _) => false
       case _ => true
  }

  ghost predicate AllHeed(actions: seq<Action>, t: TaskId, r: Root, f: Findings) {
    forall k :: 0 <= k < |actions| ==> Heeds(actions[k], t, r, f)
  }

  ghost predicate OthersHoldNothing(tasks: map<TaskId, Pc>, t: TaskId) {
    forall u :: u != t ==> HeldLock(At(tasks, u)).None?
  }

  /** State `s` of the protocol: the broker's own state `i`, the task at `pc`, the next project, and no lock held by others. */
  ghost predicate Stands(s: Sys, i: Inner, next: ProjectId, t: TaskId, pc: Pc) {
    s.inner == i && s.next == next && At(s.tasks, t) == pc && OthersHoldNothing(s.tasks, t)
  }

  /** A run in which the task alone moves, heeding the findings, and where it has come. */
  ghost predicate Trail(s0: Sys, actions: seq<Action>, t: TaskId, r: Root, f: Findings, i: Inner, next: ProjectId, pc: Pc) {
    && ValidRun(s0, actions) && AllHeed(actions, t, r, f)
    && Stands(Run(s0, actions), i, next, t, pc)
  }

  lemma OthersStay(tasks: map<TaskId, Pc>, t: TaskId, after: map<TaskId, Pc>, pc: Pc)
    requires OthersHoldNothing(tasks, t) && after == tasks[t := pc]
    ensures At(after, t) == pc && OthersHoldNothing(after, t)
  {
    forall u | u != t ensures HeldLock(At(after, u)).None? {
      assert At(after, u) == At(tasks, u);
    }
  }

  lemma StepStands(s: Sys, i: Inner, next: ProjectId, t: TaskId, pc: Pc, a: Action)
    requires Stands(s, i, next, t, pc) && a.task == t && Fits(pc, a)
    ensures Enabled(s, a)
    ensures Stands(Apply(s, a), Section(i, pc, a), if a.Open? then next + 1 else next, t, Moves(i, next, pc, a))
  {
    if a.Acquire? { assert HeldLock(At(s.tasks, t)).None?; }
    OthersStay(s.tasks, t, Apply(s, a).tasks, Moves(i, next, pc, a));
  }

  lemma HeedOneMore(actions: seq<Action>, a: Action, t: TaskId, r: Root, f: Findings)
    requires AllHeed(actions, t, r, f) && Heeds(a, t, r, f)
    ensures AllHeed(actions + [a], t, r, f)
  {
  }

  /** One more step of the trail. */
  lemma Go(s0: Sys, actions: seq<Action>, t: TaskId, r: Root, f: Findings, i: Inner, next: ProjectId, pc: Pc, a: Action)
    returns (more: seq<Action>)
    requires Trail(s0, actions, t, r, f, i, next, pc) && Heeds(a, t, r, f) && Fits(pc, a)
    ensures Trail(s0, more, t, r, f, Section(i, pc, a), if a.Open? then next + 1 else next, Moves(i, next, pc, a))
  {
    more := actions + [a];
    StepStands(Run(s0, actions), i, next, t, pc, a);
    OneMoreStep(s0, actions, a);
    HeedOneMore(actions, a, t, r, f);
  }

  lemma EvictTrail(s0: Sys, before: seq<Action>, t: TaskId, r: Root, f: Findings, i: Inner, next: ProjectId,
                   held: Option<LockId>)
    returns (actions: seq<Action>)
    requires Trail(s0, before, t, r, f, i, next, Outdated(r, held))
    ensures Trail(s0, actions, t, r, f, PopResident(i, r).0, next, AfterStale(r, held))
  {
    actions := Go(s0, before, t, r, f, i, next, Outdated(r, held), EvictStale(t, f.busy));
    var popped := PopResident(i, r);
    if popped.1.Some? {
      actions := Go(s0, actions, t, r, f, popped.0, next, ShuttingStale(r, held, popped.1.value), ShutStale(t));
    }
  }

  lemma StoreStep(i: Inner, next: ProjectId, r: Root, l: LockId, q: ProjectId, t: TaskId, busy: set<ProjectId>, now: Instant)
    ensures var (pc, a, did) := (Opened(r, l, q), Store(t, busy, now), InsertOpened(i, r, q, busy, now));
            Section(i, pc, a) == did.0 && Moves(i, next, pc, a) == AfterStore(pc, did.1)
  {
  }

  lemma LeftOver(i: Inner, next: ProjectId, r: Root, l: LockId, q: ProjectId, what: Inserted, t: TaskId)
    ensures var pc := AfterStore(Opened(r, l, q), what);
            if what == Stored(None) then pc == Done(r, Given(what, q))
            else Fits(pc, ShutVictim(t)) && Section(i, pc, ShutVictim(t)) == i
                 && Moves(i, next, pc, ShutVictim(t)) == Done(r, Given(what, q))
  {
  }

  /** The last critical section, and shutting down whatever it left over. */
  lemma StoreTrail(s0: Sys, before: seq<Action>, t: TaskId, r: Root, f: Findings, i: Inner, next: ProjectId, l: LockId,
                   q: ProjectId)
    returns (actions: seq<Action>)
    requires Trail(s0, before, t, r, f, i, next, Opened(r, l, q))
    ensures var (after, what) := InsertOpened(i, r, q, f.busy, f.now);
            Trail(s0, actions, t, r, f, after, next, Done(r, Given(what, q)))
  {
    var did := InsertOpened(i, r, q, f.busy, f.now);
    actions := Go(s0, before, t, r, f, i, next, Opened(r, l, q), Store(t, f.busy, f.now));
    StoreStep(i, next, r, l, q, t, f.busy, f.now);
    LeftOver(did.0, next, r, l, q, did.1, t);
    if did.1 != Stored(None) {
      actions := Go(s0, actions, t, r, f, did.0, next, AfterStore(Opened(r, l, q), did.1), ShutVictim(t));
    }
  }

  lemma FailTrail(s0: Sys, before: seq<Action>, t: TaskId, r: Root, f: Findings, i: Inner, next: ProjectId, l: LockId)
    returns (actions: seq<Action>)
    requires Trail(s0, before, t, r, f, i, next, Opening(r, l)) && !f.opens
    ensures Trail(s0, actions, t, r, f, ForgetLock(i, r), next, Done(r, None))
  {
    actions := Go(s0, before, t, r, f, i, next, Opening(r, l), FailOpen(t));
    actions := Go(s0, actions, t, r, f, i, next, OpenFailed(r, l), ForgetFailed(t));
  }

  lemma OpenTrail(s0: Sys, before: seq<Action>, t: TaskId, r: Root, f: Findings, i: Inner, next: ProjectId, l: LockId)
    returns (actions: seq<Action>, last: ProjectId)
    requires Trail(s0, before, t, r, f, i, next, Opening(r, l))
    ensures Trail(s0, actions, t, r, f, OpenAndStore(i, next, r, f).0, last, Done(r, OpenAndStore(i, next, r, f).1))
  {
    if f.opens {
      last := next + 1;
      actions := Go(s0, before, t, r, f, i, next, Opening(r, l), Open(t));
      actions := StoreTrail(s0, actions, t, r, f, i, last, l, next);
    } else {
      last := next;
      actions := FailTrail(s0, before, t, r, f, i, next, l);
    }
  }

  /** The second look and what follows. */
  lemma LookTrail(s0: Sys, before: seq<Action>, t: TaskId, r: Root, f: Findings, i: Inner, next: ProjectId, l: LockId)
    returns (actions: seq<Action>, last: ProjectId)
    requires Trail(s0, before, t, r, f, OpeningLock(i, r).0, next, Locked(r, l))
    ensures Trail(s0, actions, t, r, f, BehindLock(i, next, r, f).0, last, Done(r, BehindLock(i, next, r, f).1))
  {
    var (looked, found) := Lookup(OpeningLock(i, r).0, r);
    actions := Go(s0, before, t, r, f, OpeningLock(i, r).0, next, Locked(r, l), LookAgain(t));
    last := next;
    if found.Some? {
      actions := Go(s0, actions, t, r, f, looked, next, Relooked(r, l, found.value), Rejudge(t, f.second));
      if f.second.Current? {
        actions := Go(s0, actions, t, r, f, looked, next, Reusable(r, l, found.value), ForgetReused(t));
        actions := Go(s0, actions, t, r, f, ForgetLock(looked, r), next, Reused(r, l, found.value), ConfirmReused(t, f.now));
      } else if f.second.Stale? {
        actions := EvictTrail(s0, actions, t, r, f, looked, next, Some(l));
        actions, last := OpenTrail(s0, actions, t, r, f, PopResident(looked, r).0, next, l);
      }
    } else {
      actions, last := OpenTrail(s0, actions, t, r, f, looked, next, l);
    }
  }

  lemma LockTrail(s0: Sys, before: seq<Action>, t: TaskId, r: Root, f: Findings, i: Inner, next: ProjectId)
    returns (actions: seq<Action>, last: ProjectId)
    requires Trail(s0, before, t, r, f, i, next, WantLock(r))
    ensures Trail(s0, actions, t, r, f, BehindLock(i, next, r, f).0, last, Done(r, BehindLock(i, next, r, f).1))
  {
    var (locked, l) := OpeningLock(i, r);
    actions := Go(s0, before, t, r, f, i, next, WantLock(r), TakeLock(t));
    actions := Go(s0, actions, t, r, f, locked, next, Waiting(r, l), Acquire(t));
    actions, last := LookTrail(s0, actions, t, r, f, i, next, l);
  }

  /**
   From any state of the protocol in which the task has not begun and no other
   holds an opening lock, the call is a run in which this task alone moves and
   every decision is the one found.
   */
  lemma CallIsRun(s0: Sys, t: TaskId, r: Root, f: Findings) returns (actions: seq<Action>)
    requires At(s0.tasks, t).Idle? && OthersHoldNothing(s0.tasks, t)
    ensures ValidRun(s0, actions) && AllHeed(actions, t, r, f)
    ensures var s := Run(s0, actions);
            (s.inner, At(s.tasks, t)) == (Acquired(s0.inner, s0.next, r, f).0, Done(r, Acquired(s0.inner, s0.next, r, f).1))
  {
    var (i, next) := (s0.inner, s0.next);
    var (looked, found) := Lookup(i, r);
    var last := next;
    actions := Go(s0, [], t, r, f, i, next, Idle, Begin(t, r));
    if found.Some? {
      actions := Go(s0, actions, t, r, f, looked, next, Looked(r, found.value), Judge(t, f.first));
      if f.first.Current? {
        actions := Go(s0, actions, t, r, f, looked, next, Confirmed(r, found.value), ConfirmFast(t, f.now));
      } else if f.first.Stale? {
        actions := EvictTrail(s0, actions, t, r, f, looked, next, None);
        actions, last := LockTrail(s0, actions, t, r, f, PopResident(looked, r).0, next);
      }
    } else {
      actions, last := LockTrail(s0, actions, t, r, f, looked, next);
    }
  }

  /** What was found leaves the task one way to go from wherever it is. */
  lemma OneWay(pc: Pc, a: Action, b: Action, t: TaskId, r: Root, f: Findings)
    requires Fits(pc, a) && Fits(pc, b) && Heeds(a, t, r, f) && Heeds(b, t, r, f)
    ensures a == b
  {
  }

  /** So that run is the only one: two runs of the task alone, heeding the same findings, go the same way. */
  lemma {:induction false} OnlyOneRun(s0: Sys, xs: seq<Action>, ys: seq<Action>, t: TaskId, r: Root, f: Findings)
    requires ValidRun(s0, xs) && ValidRun(s0, ys) && AllHeed(xs, t, r, f) && AllHeed(ys, t, r, f)
    requires |xs| == |ys|
    ensures xs == ys
    decreases |xs|
  {
    if xs != [] {
      var (x, y) := (xs[..|xs| - 1], ys[..|ys| - 1]);
      OnlyOneRun(s0, x, y, t, r, f);
      OneWay(At(Run(s0, x).tasks, t), xs[|xs| - 1], ys[|ys| - 1], t, r, f);
      assert xs == x + [xs[|xs| - 1]] && ys == y + [ys[|ys| - 1]];
    }
  }
}
