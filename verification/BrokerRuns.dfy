/**
 `acquire`, the reaper and shutdown over one broker, as an interleaving of
 atomic steps: a step is one critical section, one wait, or one piece of work
 done outside the mutex. Any number of tasks run at once.
 */
module BrokerRuns {
  import opened Wrappers
  import opened Lru
  import opened BrokerModel

  type TaskId = int

  /** Where a task is. `lock` is the per-root opening lock it waits for or holds. */
  datatype Pc =
    | Idle
    | Looked(root: Root, project: ProjectId)
    | Confirmed(root: Root, project: ProjectId)
    | Outdated(root: Root, held: Option<LockId>)
    | ShuttingStale(root: Root, held: Option<LockId>, victim: ProjectId)
    | WantLock(root: Root)
    | Waiting(root: Root, lock: LockId)
    | Locked(root: Root, lock: LockId)
    | Relooked(root: Root, lock: LockId, project: ProjectId)
    | Reusable(root: Root, lock: LockId, project: ProjectId)
    | Reused(root: Root, lock: LockId, project: ProjectId)
    | Opening(root: Root, lock: LockId)
    | OpenFailed(root: Root, lock: LockId)
    | Opened(root: Root, lock: LockId, project: ProjectId)
    | Closing(root: Root, lock: LockId, victim: ProjectId, result: Option<ProjectId>)
    | Done(root: Root, result: Option<ProjectId>)
    | Sweeping(victims: set<ProjectId>)

  /** The projects a task has taken charge of: about to be stored, or about to be shut down. */
  function Owned(pc: Pc): set<ProjectId> {
    match pc
    case ShuttingStale(_, _, v) => {v}
    case Opened(_, _, q) => {q}
    case Closing(_, _, v, _) => {v}
    case Sweeping(vs) => vs
    case _ => {}
  }

  /** The opening lock a task holds, from acquiring it until `acquire` returns. */
  function HeldLock(pc: Pc): Option<LockId> {
    match pc
    case Outdated(_, held) => held
    case ShuttingStale(_, held, _) => held
    case Locked(_, l) => Some(l)
    case Relooked(_, l, _) => Some(l)
    case Reusable(_, l, _) => Some(l)
    case Reused(_, l, _) => Some(l)
    case Opening(_, l) => Some(l)
    case OpenFailed(_, l) => Some(l)
    case Opened(_, l, _) => Some(l)
    case Closing(_, l, _, _) => Some(l)
    case _ => None
  }

  datatype Verdict = Current | Stale | Unreadable

  datatype Action =
    | Begin(task: TaskId, root: Root)
    | Judge(task: TaskId, verdict: Verdict)
    | ConfirmFast(task: TaskId, now: Instant)
    | EvictStale(task: TaskId, busy: set<ProjectId>)
    | ShutStale(task: TaskId)
    | TakeLock(task: TaskId)
    | Acquire(task: TaskId)
    | LookAgain(task: TaskId)
    | Rejudge(task: TaskId, verdict: Verdict)
    | ForgetReused(task: TaskId)
    | ConfirmReused(task: TaskId, now: Instant)
    | Open(task: TaskId)
    | FailOpen(task: TaskId)
    | ForgetFailed(task: TaskId)
    | Store(task: TaskId, busy: set<ProjectId>, now: Instant)
    | ShutVictim(task: TaskId)
    | Reap(task: TaskId, now: Instant, timeout: nat, busy: set<ProjectId>)
    | Shutdown(task: TaskId, busy: set<ProjectId>)
    | ShutSwept(task: TaskId, project: ProjectId)

  /** The steps a task can take from where it is. */
  predicate Fits(pc: Pc, a: Action) {
    match a
    case Begin(_, _) => pc.Idle?
    case Judge(_, _) => pc.Looked?
    case ConfirmFast(_, _) => pc.Confirmed?
    case EvictStale(_, _) => pc.Outdated?
    case ShutStale(_) => pc.ShuttingStale?
    case TakeLock(_) => pc.WantLock?
    case Acquire(_) => pc.Waiting?
    case LookAgain(_) => pc.Locked?
    case Rejudge(_, _) => pc.Relooked?
    case ForgetReused(_) => pc.Reusable?
    case ConfirmReused(_, _) => pc.Reused?
    case Open(_) => pc.Opening?
    case FailOpen(_) => pc.Opening?
    case ForgetFailed(_) => pc.OpenFailed?
    case Store(_, _, _) => pc.Opened?
    case ShutVictim(_) => pc.Closing?
    case Reap(_, _, _, _) => pc.Idle?
    case Shutdown(_, _) => pc.Idle?
    case ShutSwept(_, p) => pc.Sweeping? && p in pc.victims
  }

  function StoreResult(i: Inner, pc: Pc, a: Action): (Inner, Inserted)
    requires a.Store? && Fits(pc, a)
  {
    InsertOpened(i, pc.root, pc.project, a.busy, a.now)
  }

  /** Where a task goes once its stale entry is out of the way. */
  function AfterStale(r: Root, held: Option<LockId>): Pc {
    match held case None => WantLock(r) case Some(l) => Opening(r, l)
  }

  function AfterStore(pc: Pc, what: Inserted): Pc
    requires pc.Opened?
  {
    match what
    case UseExisting(p) => Closing(pc.root, pc.lock, pc.project, Some(p))
    case PoolBusy => Closing(pc.root, pc.lock, pc.project, None)
    case Stored(None) => Done(pc.root, Some(pc.project))
    case Stored(Some(v)) => Closing(pc.root, pc.lock, v, Some(pc.project))
  }

  /** Control flow: where a step takes its task. */
  function Moves(i: Inner, next: ProjectId, pc: Pc, a: Action): Pc
    requires Fits(pc, a)
  {
    match a
    case Begin(_, r) =>
      var found := Get(i.registry, r);
      if found.Some? then Looked(r, found.value) else WantLock(r)
    case Judge(_, verdict) =>
      if verdict.Current? then Confirmed(pc.root, pc.project)
      else if verdict.Stale? then Outdated(pc.root, None)
      else Done(pc.root, None)
    case ConfirmFast(_, _) => Done(pc.root, Some(pc.project))
    case EvictStale(_, _) =>
      var popped := Get(i.registry, pc.root);
      if popped.Some? then ShuttingStale(pc.root, pc.held, popped.value) else AfterStale(pc.root, pc.held)
    case ShutStale(_) => AfterStale(pc.root, pc.held)
    case TakeLock(_) => Waiting(pc.root, OpeningLock(i, pc.root).1)
    case Acquire(_) => Locked(pc.root, pc.lock)
    case LookAgain(_) =>
      var found := Get(i.registry, pc.root);
      if found.Some? then Relooked(pc.root, pc.lock, found.value) else Opening(pc.root, pc.lock)
    case Rejudge(_, verdict) =>
      if verdict.Current? then Reusable(pc.root, pc.lock, pc.project)
      else if verdict.Stale? then Outdated(pc.root, Some(pc.lock))
      // This early return leaves the opening lock's entry behind.
      else Done(pc.root, None)
    case ForgetReused(_) => Reused(pc.root, pc.lock, pc.project)
    case ConfirmReused(_, _) => Done(pc.root, Some(pc.project))
    case Open(_) => Opened(pc.root, pc.lock, next)
    case FailOpen(_) => OpenFailed(pc.root, pc.lock)
    case ForgetFailed(_) => Done(pc.root, None)
    case Store(_, _, _) => AfterStore(pc, StoreResult(i, pc, a).1)
    case ShutVictim(_) => Done(pc.root, pc.result)
    case Reap(_, now, timeout, busy) => Sweeping(ReapIdle(i, now, timeout, busy).1)
    case Shutdown(_, _) => Sweeping(ShutdownAll(i).1)
    case ShutSwept(_, p) => Sweeping(pc.victims - {p})
  }

  /** What a step does to the shared state while it holds the mutex. */
  function Section(i: Inner, pc: Pc, a: Action): Inner
    requires Fits(pc, a)
  {
    match a
    case Begin(_, r) => Lookup(i, r).0
    case ConfirmFast(_, now) => MarkUsed(i, pc.root, now)
    case EvictStale(_, _) => PopResident(i, pc.root).0
    case TakeLock(_) => OpeningLock(i, pc.root).0
    case LookAgain(_) => Lookup(i, pc.root).0
    case ForgetReused(_) => ForgetLock(i, pc.root)
    case ConfirmReused(_, now) => MarkUsed(i, pc.root, now)
    case ForgetFailed(_) => ForgetLock(i, pc.root)
    case Store(_, _, _) => StoreResult(i, pc, a).0
    case Reap(_, now, timeout, busy) => ReapIdle(i, now, timeout, busy).0
    case Shutdown(_, _) => ShutdownAll(i).0
    case _ => i
  }

  function Only(p: Option<ProjectId>): set<ProjectId> {
    if p.Some? then {p.value} else {}
  }

  function VictimOf(what: Inserted): set<ProjectId> {
    if what.Stored? then Only(what.victim) else {}
  }

  /** The projects a step takes out of the registry. */
  function Out(i: Inner, pc: Pc, a: Action): set<ProjectId>
    requires Fits(pc, a)
  {
    match a
    case EvictStale(_, _) => Only(Get(i.registry, pc.root))
    case Store(_, _, _) => VictimOf(StoreResult(i, pc, a).1)
    case Reap(_, now, timeout, busy) => ReapIdle(i, now, timeout, busy).1
    case Shutdown(_, _) => ShutdownAll(i).1
    case _ => {}
  }

  /** The project a step shuts down. */
  function Ends(pc: Pc, a: Action): set<ProjectId>
    requires Fits(pc, a)
  {
    match a
    case ShutStale(_) => {pc.victim}
    case ShutVictim(_) => {pc.victim}
    case ShutSwept(_, p) => {p}
    case _ => {}
  }

  /** The project a step opens. */
  function Made(next: ProjectId, a: Action): set<ProjectId> {
    if a.Open? then {next} else {}
  }

  /** The roots at which a step shows that something went wrong. */
  function Trouble(i: Inner, pc: Pc, a: Action): set<Root>
    requires Fits(pc, a)
  {
    match a
    case Judge(_, verdict) => if verdict.Current? then {} else {pc.root}
    case Rejudge(_, verdict) => if verdict.Current? then {} else {pc.root}
    case FailOpen(_) => {pc.root}
    case Store(_, _, _) => if StoreResult(i, pc, a).1.PoolBusy? then {pc.root} else {}
    case _ => {}
  }

  /** The roots whose opening lock a step forgets without regard to who holds it. */
  function Wiped(i: Inner, a: Action): set<Root> {
    if a.Shutdown? then i.locks.Keys else {}
  }

  datatype Place = Unborn | Resident(root: Root) | HeldBy(task: TaskId) | ShutDown

  /** Where every project is. */
  type Homes = ProjectId -> Place

  datatype EvictionKind = ByLru | ByReaper | ByStalePath | ByShutdown

  datatype Eviction = Eviction(kind: EvictionKind, project: ProjectId, wasBusy: bool)

  function EvictionsOf(i: Inner, pc: Pc, a: Action): set<Eviction>
    requires Fits(pc, a)
  {
    match a
    case EvictStale(_, busy) => set p | p in Out(i, pc, a) :: Eviction(ByStalePath, p, p in busy)
    case Store(_, busy, _) => set p | p in Out(i, pc, a) :: Eviction(ByLru, p, p in busy)
    case Reap(_, _, _, busy) => set p | p in Out(i, pc, a) :: Eviction(ByReaper, p, p in busy)
    case Shutdown(_, busy) => set p | p in Out(i, pc, a) :: Eviction(ByShutdown, p, p in busy)
    case _ => {}
  }

  function RootsOf(registry: Recency<Root, ProjectId>, ps: set<ProjectId>): set<Root> {
    set e | e in registry && e.value in ps :: e.key
  }

  /** `place`, `opens`, `evictions`, `disturbed` and `wiped` are histories the broker itself does not keep. */
  datatype Sys = Sys(
    inner: Inner,
    tasks: map<TaskId, Pc>,
    next: ProjectId,
    place: Homes,
    opens: map<Root, int>,
    evictions: set<Eviction>,
    disturbed: set<Root>,
    wiped: set<Root>)

  function Initial(cap: Positive): Sys {
    Sys(Inner(cap, [], map[], map[], 0), map[], 0, q => Unborn, map[], {}, {}, {})
  }

  function At(tasks: map<TaskId, Pc>, t: TaskId): Pc {
    if t in tasks then tasks[t] else Idle
  }

  ghost predicate LockFree(tasks: map<TaskId, Pc>, l: LockId) {
    forall t :: HeldLock(At(tasks, t)) != Some(l)
  }

  ghost predicate Enabled(s: Sys, a: Action) {
    && Fits(At(s.tasks, a.task), a)
    && (a.Acquire? ==> LockFree(s.tasks, At(s.tasks, a.task).lock))
  }

  /** The entry a step puts into the registry. */
  function StoredBy(i: Inner, pc: Pc, a: Action): Option<Entry<Root, ProjectId>>
    requires Fits(pc, a)
  {
    if a.Store? then StoredFor(pc, StoreResult(i, pc, a).1) else None
  }

  function StoredFor(pc: Pc, what: Inserted): Option<Entry<Root, ProjectId>>
    requires pc.Opened?
  {
    if what.Stored? then Some(Entry(pc.root, pc.project)) else None
  }

  /** Where the projects are after a step by `t` that takes charge of `taken`, stores `stored` and shuts down `ends`. */
  function Rehomed(place: Homes, t: TaskId, taken: set<ProjectId>, stored: Option<Entry<Root, ProjectId>>,
                   ends: set<ProjectId>): Homes {
    q => if q in ends then ShutDown
         else if q in taken then HeldBy(t)
         else if stored.Some? && q == stored.value.value then Resident(stored.value.key)
         else place(q)
  }

  function Opens(opens: map<Root, int>, r: Root): int {
    if r in opens then opens[r] else 0
  }

  ghost function Apply(s: Sys, a: Action): Sys
    requires Enabled(s, a)
  {
    var pc := At(s.tasks, a.task);
    Sys(Section(s.inner, pc, a),
        s.tasks[a.task := Moves(s.inner, s.next, pc, a)],
        if a.Open? then s.next + 1 else s.next,
        Rehomed(s.place, a.task, Out(s.inner, pc, a) + Made(s.next, a), StoredBy(s.inner, pc, a), Ends(pc, a)),
        if a.Open? then s.opens[pc.root := Opens(s.opens, pc.root) + 1] else s.opens,
        s.evictions + EvictionsOf(s.inner, pc, a),
        s.disturbed + Trouble(s.inner, pc, a) + RootsOf(s.inner.registry, Out(s.inner, pc, a)),
        s.wiped + Wiped(s.inner, a))
  }

  ghost predicate ValidRun(s: Sys, actions: seq<Action>)
    decreases |actions|, 0
  {
    actions == [] ||
    (&& ValidRun(s, actions[..|actions| - 1])
     && Enabled(Run(s, actions[..|actions| - 1]), actions[|actions| - 1]))
  }

  ghost function Run(s: Sys, actions: seq<Action>): Sys
    requires ValidRun(s, actions)
    decreases |actions|, 1
  {
    if actions == [] then s else Apply(Run(s, actions[..|actions| - 1]), actions[|actions| - 1])
  }

  lemma OneMoreStep(s: Sys, actions: seq<Action>, a: Action)
    requires ValidRun(s, actions) && Enabled(Run(s, actions), a)
    ensures ValidRun(s, actions + [a]) && Run(s, actions + [a]) == Apply(Run(s, actions), a)
  {
    assert (actions + [a])[..|actions|] == actions;
  }

  // --- the pool invariants -----------------------------------------------------

  /** Each project ever opened has one place, and the place is the truth about the registry and the tasks. */
  ghost predicate PlacesKnown(place: Homes, next: ProjectId) {
    forall q: ProjectId :: place(q).Unborn? <==> !(0 <= q < next)
  }

  ghost predicate ResidentsPlaced(registry: Recency<Root, ProjectId>, place: Homes) {
    forall r: Root, q: ProjectId :: Entry(r, q) in registry <==> place(q) == Resident(r)
  }

  ghost predicate OwnersPlaced(tasks: map<TaskId, Pc>, place: Homes) {
    forall t: TaskId, q: ProjectId :: q in Owned(At(tasks, t)) <==> place(q) == HeldBy(t)
  }

  ghost predicate Placed(registry: Recency<Root, ProjectId>, tasks: map<TaskId, Pc>, place: Homes,
                         next: ProjectId) {
    && 0 <= next && PlacesKnown(place, next)
    && ResidentsPlaced(registry, place)
    && OwnersPlaced(tasks, place)
  }

  /** Only idle projects are evicted for room or for age. */
  ghost predicate IdleEvictions(evictions: set<Eviction>) {
    forall e :: e in evictions && (e.kind.ByLru? || e.kind.ByReaper?) ==> !e.wasBusy
  }

  ghost predicate PoolInv(s: Sys) {
    && PoolOk(s.inner)
    && Placed(s.inner.registry, s.tasks, s.place, s.next)
    && IdleEvictions(s.evictions)
  }

  // --- one step ----------------------------------------------------------------

  lemma SectionKeepsPool(i: Inner, pc: Pc, a: Action)
    requires PoolOk(i) && Fits(pc, a)
    ensures PoolOk(Section(i, pc, a))
  {
    match a
    case Begin(_, r) => LookupKeepsPool(i, r);
    case LookAgain(_) => LookupKeepsPool(i, pc.root);
    case EvictStale(_, _) => PopKeepsPool(i, pc.root);
    case Store(_, busy, now) => InsertIsProper(i, pc.root, pc.project, busy, now);
    case Reap(_, now, timeout, busy) => ReapKeepsPool(i, now, timeout, busy);
    case Shutdown(_, _) => ShutdownKeepsPool(i);
    case _ =>
  }

  /** No project is resident at two roots. */
  ghost predicate OneRootEach(registry: Recency<Root, ProjectId>) {
    forall d, e :: d in registry && e in registry && d.value == e.value ==> d == e
  }

  /** The registry loses exactly `out` and gains exactly the project stored. */
  ghost predicate Trades(registry: Recency<Root, ProjectId>, after: Recency<Root, ProjectId>, out: set<ProjectId>,
                         stored: Option<Entry<Root, ProjectId>>) {
    && out <= Residents(registry)
    && forall e :: e in after <==> (e in registry && e.value !in out) || stored == Some(e)
  }

  lemma ProperTrades(i: Inner, pc: Pc, busy: set<ProjectId>, after: Inner, what: Inserted)
    requires pc.Opened? && OneRootEach(i.registry) && Distinct(i.registry)
    requires InsertedProperly(i, pc.root, pc.project, busy, after, what)
    ensures Trades(i.registry, after.registry, VictimOf(what), StoredFor(pc, what))
  {
    if what.Stored? && what.victim.Some? {
      var k: nat :| OldestIdle(i.registry, busy, k, what.victim.value)
                    && Replaces(i.registry, after.registry, i.registry[k].key, pc.root, pc.project);
      var w := i.registry[k];
      assert w in i.registry;
      forall e | e in i.registry ensures e.key == w.key <==> e.value == w.value {
        GetIsMembership(i.registry, e.key, e.value);
        GetIsMembership(i.registry, w.key, w.value);
      }
    }
  }

  lemma StoreTrades(i: Inner, pc: Pc, a: Action)
    requires PoolOk(i) && a.Store? && Fits(pc, a) && OneRootEach(i.registry)
    ensures Trades(i.registry, Section(i, pc, a).registry, Out(i, pc, a), StoredBy(i, pc, a))
  {
    InsertIsProper(i, pc.root, pc.project, a.busy, a.now);
    ProperTrades(i, pc, a.busy, StoreResult(i, pc, a).0, StoreResult(i, pc, a).1);
  }

  lemma ReapTrades(i: Inner, pc: Pc, a: Action)
    requires PoolOk(i) && a.Reap? && Fits(pc, a) && OneRootEach(i.registry)
    ensures Trades(i.registry, Section(i, pc, a).registry, Out(i, pc, a), None)
  {
    ReapKeepsPool(i, a.now, a.timeout, a.busy);
    var (after, out) := ReapIdle(i, a.now, a.timeout, a.busy);
    forall e | e in i.registry ensures e in after.registry <==> e.value !in out {
      if e.value in out {
        var d :| d in i.registry && d !in after.registry && d.value == e.value;
        assert d == e;
      }
    }
  }

  lemma StaleTrades(i: Inner, pc: Pc, a: Action)
    requires PoolOk(i) && a.EvictStale? && Fits(pc, a) && OneRootEach(i.registry)
    ensures Trades(i.registry, Section(i, pc, a).registry, Out(i, pc, a), None)
  {
    PopKeepsPool(i, pc.root);
    forall e | e in i.registry ensures e.key == pc.root <==> e.value in Out(i, pc, a) {
      assert e == Entry(e.key, e.value);
    }
  }

  lemma SectionTrades(i: Inner, pc: Pc, a: Action)
    requires PoolOk(i) && Fits(pc, a) && OneRootEach(i.registry)
    ensures Trades(i.registry, Section(i, pc, a).registry, Out(i, pc, a), StoredBy(i, pc, a))
  {
    match a
    case Begin(_, r) => LookupKeepsPool(i, r);
    case LookAgain(_) => LookupKeepsPool(i, pc.root);
    case EvictStale(_, _) => StaleTrades(i, pc, a);
    case Store(_, busy, now) => StoreTrades(i, pc, a);
    case Reap(_, _, _, _) => ReapTrades(i, pc, a);
    case _ =>
  }

  /** A task keeps what it owns except what it stores or ends, and takes charge of what it evicts or opens. */
  ghost predicate OwnsOn(pc: Pc, after: Pc, taken: set<ProjectId>, stored: Option<Entry<Root, ProjectId>>,
                         ends: set<ProjectId>) {
    var given := if stored.Some? then {stored.value.value} else {};
    && Owned(after) == (Owned(pc) - given - ends) + taken
    && given <= Owned(pc) && ends <= Owned(pc) && given !! ends
  }

  lemma StoreOwns(pc: Pc, what: Inserted)
    requires pc.Opened?
    ensures OwnsOn(pc, AfterStore(pc, what), VictimOf(what), StoredFor(pc, what), {})
  {
  }

  lemma MovesOwns(i: Inner, next: ProjectId, pc: Pc, a: Action)
    requires Fits(pc, a) && !a.Store?
    ensures OwnsOn(pc, Moves(i, next, pc, a), Out(i, pc, a) + Made(next, a), StoredBy(i, pc, a), Ends(pc, a))
  {
  }

  lemma KeepsOwners(tasks: map<TaskId, Pc>, place: Homes, t: TaskId, pc: Pc, taken: set<ProjectId>,
                    stored: Option<Entry<Root, ProjectId>>, ends: set<ProjectId>)
    requires OwnersPlaced(tasks, place)
    requires OwnsOn(At(tasks, t), pc, taken, stored, ends)
    requires forall q :: q in taken ==> !place(q).HeldBy?
    ensures OwnersPlaced(tasks[t := pc], Rehomed(place, t, taken, stored, ends))
  {
    var moved, homes := tasks[t := pc], Rehomed(place, t, taken, stored, ends);
    forall u: TaskId, q: ProjectId ensures q in Owned(At(moved, u)) <==> homes(q) == HeldBy(u) {
      assert q in Owned(At(tasks, u)) <==> place(q) == HeldBy(u);
      assert q in Owned(At(tasks, t)) <==> place(q) == HeldBy(t);
      assert u != t ==> At(moved, u) == At(tasks, u);
    }
  }

  lemma KeepsResidents(registry: Recency<Root, ProjectId>, after: Recency<Root, ProjectId>, place: Homes,
                       t: TaskId, out: set<ProjectId>, made: set<ProjectId>,
                       stored: Option<Entry<Root, ProjectId>>, ends: set<ProjectId>)
    requires ResidentsPlaced(registry, place) && Trades(registry, after, out, stored)
    requires forall q :: q in made ==> place(q).Unborn?
    requires stored.Some? ==> stored.value.value !in out + made + ends && place(stored.value.value) == HeldBy(t)
    requires forall q :: q in ends ==> place(q) == HeldBy(t)
    ensures ResidentsPlaced(after, Rehomed(place, t, out + made, stored, ends))
  {
    var homes := Rehomed(place, t, out + made, stored, ends);
    forall r: Root, q: ProjectId ensures Entry(r, q) in after <==> homes(q) == Resident(r) {
      assert Entry(r, q) in registry <==> place(q) == Resident(r);
    }
  }

  lemma KeepsPlaces(registry: Recency<Root, ProjectId>, after: Recency<Root, ProjectId>, tasks: map<TaskId, Pc>,
                    place: Homes, next: ProjectId, t: TaskId, pc: Pc, out: set<ProjectId>,
                    made: set<ProjectId>, stored: Option<Entry<Root, ProjectId>>, ends: set<ProjectId>)
    requires Placed(registry, tasks, place, next)
    requires Trades(registry, after, out, stored)
    requires made <= {next}
    requires OwnsOn(At(tasks, t), pc, out + made, stored, ends)
    ensures Placed(after, tasks[t := pc], Rehomed(place, t, out + made, stored, ends), if made == {} then next else next + 1)
  {
    forall p | p in out ensures place(p).Resident? {
      var e :| e in registry && e.value == p;
      assert e == Entry(e.key, p);
    }
    assert forall q :: q in Owned(At(tasks, t)) ==> place(q) == HeldBy(t);
    KeepsOwners(tasks, place, t, pc, out + made, stored, ends);
    KeepsResidents(registry, after, place, t, out, made, stored, ends);
  }

  lemma PlacedIsOneRootEach(registry: Recency<Root, ProjectId>, place: Homes)
    requires ResidentsPlaced(registry, place)
    ensures OneRootEach(registry)
  {
    forall d, e | d in registry && e in registry && d.value == e.value ensures d == e {
      assert d == Entry(d.key, d.value) && e == Entry(e.key, e.value);
    }
  }

  lemma StepIsIdle(i: Inner, pc: Pc, a: Action)
    requires PoolOk(i) && Fits(pc, a)
    ensures IdleEvictions(EvictionsOf(i, pc, a))
  {
    match a
    case Store(_, busy, now) => InsertIsProper(i, pc.root, pc.project, busy, now);
    case Reap(_, now, timeout, busy) => ReapKeepsPool(i, now, timeout, busy);
    case _ =>
  }

  lemma StepKeepsPool(s: Sys, a: Action)
    requires PoolInv(s) && Enabled(s, a)
    ensures PoolInv(Apply(s, a))
  {
    var pc := At(s.tasks, a.task);
    SectionKeepsPool(s.inner, pc, a);
    StepIsIdle(s.inner, pc, a);
    PlacedIsOneRootEach(s.inner.registry, s.place);
    SectionTrades(s.inner, pc, a);
    if a.Store? { StoreOwns(pc, StoreResult(s.inner, pc, a).1); } else { MovesOwns(s.inner, s.next, pc, a); }
    KeepsPlaces(s.inner.registry, Section(s.inner, pc, a).registry, s.tasks, s.place, s.next, a.task,
                Moves(s.inner, s.next, pc, a), Out(s.inner, pc, a), Made(s.next, a), StoredBy(s.inner, pc, a), Ends(pc, a));
  }

  /**
   Under every interleaving: the registry stays within its cap without
   duplicates, every resident has a `last_used` entry, only idle projects are
   evicted for room or for age, and each project ever opened is exactly one of
   resident at one root, held by one task, or shut down.
   */
  lemma {:induction false} EveryRunKeepsThePool(cap: Positive, actions: seq<Action>)
    requires ValidRun(Initial(cap), actions)
    ensures PoolInv(Run(Initial(cap), actions))
    decreases |actions|
  {
    if actions != [] {
      EveryRunKeepsThePool(cap, actions[..|actions| - 1]);
      StepKeepsPool(Run(Initial(cap), actions[..|actions| - 1]), actions[|actions| - 1]);
    }
  }
}
