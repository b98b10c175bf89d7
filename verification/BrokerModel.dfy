/**
 The broker's shared state and its critical sections: what each stretch of code
 that holds the registry mutex does, as a function of the state it found.
 */
module BrokerModel {
  import opened Wrappers
  import opened Lru

  type Root = string
  type ProjectId = int
  type LockId = int
  type Instant = int

  datatype Inner = Inner(
    cap: Positive,
    registry: Recency<Root, ProjectId>,
    lastUsed: map<Root, Instant>,
    locks: map<Root, LockId>,
    nextLock: LockId)

  /** A registry hit refreshes the entry. */
  function Lookup(i: Inner, r: Root): (Inner, Option<ProjectId>) {
    (i.(registry := Touch(i.registry, r)), Get(i.registry, r))
  }

  function MarkUsed(i: Inner, r: Root, now: Instant): Inner {
    i.(lastUsed := i.lastUsed[r := now])
  }

  /** Pop whatever is resident at the root now. */
  function PopResident(i: Inner, r: Root): (Inner, Option<ProjectId>) {
    (i.(registry := Without(i.registry, r), lastUsed := i.lastUsed - {r}), Get(i.registry, r))
  }

  function OpeningLock(i: Inner, r: Root): (Inner, LockId) {
    if r in i.locks then (i, i.locks[r])
    else (i.(locks := i.locks[r := i.nextLock], nextLock := i.nextLock + 1), i.nextLock)
  }

  function ForgetLock(i: Inner, r: Root): Inner {
    i.(locks := i.locks - {r})
  }

  /** Position of the least recently used idle project, or the length when all are busy. */
  function IdleLru(registry: Recency<Root, ProjectId>, busy: set<ProjectId>): (k: nat)
    ensures k <= |registry|
    ensures k < |registry| ==> registry[k].value !in busy
    ensures forall j :: 0 <= j < k ==> registry[j].value in busy
  {
    if registry == [] || registry[0].value !in busy then 0 else 1 + IdleLru(registry[1..], busy)
  }

  datatype Inserted =
    | UseExisting(project: ProjectId)
    | PoolBusy
    | Stored(victim: Option<ProjectId>)

  /** Store a project just opened, use the one that won the race, or reject when every entry is busy. */
  function InsertOpened(i: Inner, r: Root, q: ProjectId, busy: set<ProjectId>, now: Instant): (Inner, Inserted) {
    if Has(i.registry, r) then
      (i.(registry := Touch(i.registry, r), lastUsed := i.lastUsed[r := now], locks := i.locks - {r}),
       UseExisting(Get(i.registry, r).value))
    else if |i.registry| < i.cap then
      (i.(registry := Put(i.registry, i.cap, r, q), lastUsed := i.lastUsed[r := now], locks := i.locks - {r}),
       Stored(None))
    else
      var k := IdleLru(i.registry, busy);
      if k == |i.registry| then (i.(locks := i.locks - {r}), PoolBusy)
      else
        var victim := i.registry[k];
        (i.(registry := Put(Without(i.registry, victim.key), i.cap, r, q),
            lastUsed := (i.lastUsed - {victim.key})[r := now],
            locks := i.locks - {r}),
         Stored(Some(victim.value)))
  }

  /** `saturating_duration_since`. */
  function Elapsed(now: Instant, last: Instant): nat {
    if now >= last then now - last else 0
  }

  function Expired(i: Inner, now: Instant, timeout: nat): set<Root> {
    set r | r in i.lastUsed && Elapsed(now, i.lastUsed[r]) >= timeout
  }

  predicate IsReaped(e: Entry<Root, ProjectId>, roots: set<Root>, busy: set<ProjectId>) {
    e.key in roots && e.value !in busy
  }

  function Spared(registry: Recency<Root, ProjectId>, roots: set<Root>, busy: set<ProjectId>): Recency<Root,
                  ProjectId> {
    if registry == [] then []
    else (if IsReaped(registry[0], roots, busy) then [] else [registry[0]]) + Spared(registry[1..], roots, busy)
  }

  function Reaped(registry: Recency<Root, ProjectId>, roots: set<Root>, busy: set<ProjectId>): set<ProjectId> {
    set e | e in registry && IsReaped(e, roots, busy) :: e.value
  }

  predicate HeldBusy(registry: Recency<Root, ProjectId>, r: Root, busy: set<ProjectId>) {
    Has(registry, r) && Get(registry, r).value in busy
  }

  /** Evict the idle projects at `roots` and forget those roots, sparing the busy ones. */
  function ReapRoots(i: Inner, roots: set<Root>, busy: set<ProjectId>): Inner {
    i.(registry := Spared(i.registry, roots, busy),
       lastUsed := i.lastUsed - (set r | r in roots && !HeldBusy(i.registry, r, busy)))
  }

  function ReapIdle(i: Inner, now: Instant, timeout: nat, busy: set<ProjectId>): (Inner, set<ProjectId>) {
    if timeout == 0 then (i, {})
    else
      var roots := Expired(i, now, timeout);
      (ReapRoots(i, roots, busy), Reaped(i.registry, roots, busy))
  }

  function Residents(registry: Recency<Root, ProjectId>): set<ProjectId> {
    set e | e in registry :: e.value
  }

  function Roots(registry: Recency<Root, ProjectId>): set<Root> {
    set e | e in registry :: e.key
  }

  function ShutdownAll(i: Inner): (Inner, set<ProjectId>) {
    (i.(registry := [], lastUsed := i.lastUsed - Roots(i.registry), locks := map[]), Residents(i.registry))
  }

  /** Within capacity, without duplicates, and every resident visible to the reaper. */
  ghost predicate PoolOk(i: Inner) {
    && Distinct(i.registry)
    && |i.registry| <= i.cap
    && (forall e :: e in i.registry ==> e.key in i.lastUsed)
  }

  lemma {:induction false} SparedMembers(registry: Recency<Root, ProjectId>, roots: set<Root>, busy: set<ProjectId>)
    ensures forall e :: e in Spared(registry, roots, busy) <==> e in registry && !IsReaped(e, roots, busy)
    ensures |Spared(registry, roots, busy)| <= |registry|
    ensures Distinct(registry) ==> Distinct(Spared(registry, roots, busy))
  {
    if registry != [] {
      SparedMembers(registry[1..], roots, busy);
      var rest := Spared(registry[1..], roots, busy);
      assert registry == [registry[0]] + registry[1..];
      if Distinct(registry) {
        assert forall j :: 0 <= j < |rest| ==> rest[j] in registry[1..];
        forall e | e in registry[1..] ensures e.key != registry[0].key {
          var j :| 0 <= j < |registry[1..]| && registry[1..][j] == e;
          assert registry[j + 1] == e;
        }
      }
    }
  }

  lemma WithoutMembers(registry: Recency<Root, ProjectId>, r: Root)
    requires Distinct(registry)
    ensures Distinct(Without(registry, r)) && |Without(registry, r)| <= |registry|
    ensures forall e :: e in Without(registry, r) <==> e in registry && e.key != r
    ensures Has(registry, r) ==> |Without(registry, r)| == |registry| - 1
  {
    if Has(registry, r) {
      RestFacts(registry, |registry|, r);
    } else {
      HasIsMembership(registry, r);
    }
  }

  /** Storing into a pool with room evicts nothing. */
  lemma PutWithRoom(registry: Recency<Root, ProjectId>, cap: nat, r: Root, q: ProjectId)
    requires cap >= 1 && Distinct(registry) && |registry| < cap && !Has(registry, r)
    ensures Put(registry, cap, r, q) == registry + [Entry(r, q)]
    ensures Distinct(Put(registry, cap, r, q))
  {
    PutFacts(registry, cap, r, q);
  }

  ghost predicate SameMembers(a: Recency<Root, ProjectId>, b: Recency<Root, ProjectId>) {
    forall e :: e in a <==> e in b
  }

  /** What is in `b` is what is in `a` without the root `w`, and `r` holding `q`. */
  ghost predicate Replaces(a: Recency<Root, ProjectId>, b: Recency<Root, ProjectId>, w: Root, r: Root, q: ProjectId) {
    forall e :: e in b <==> (e in a && e.key != w) || e == Entry(r, q)
  }

  lemma InsertExisting(i: Inner, r: Root, q: ProjectId, busy: set<ProjectId>, now: Instant)
    requires PoolOk(i) && Has(i.registry, r)
    ensures var (after, what) := InsertOpened(i, r, q, busy, now);
            && PoolOk(after) && SameMembers(after.registry, i.registry)
            && what.UseExisting? && Entry(r, what.project) in i.registry
  {
    TouchFacts(i.registry, i.cap, r);
    GetIsMembership(i.registry, r, Get(i.registry, r).value);
  }

  /** Storing with room evicts nothing. */
  lemma InsertWithRoom(i: Inner, r: Root, q: ProjectId, busy: set<ProjectId>, now: Instant)
    requires PoolOk(i) && !Has(i.registry, r) && |i.registry| < i.cap
    ensures var (after, what) := InsertOpened(i, r, q, busy, now);
            && PoolOk(after) && after.registry == i.registry + [Entry(r, q)] && what == Stored(None)
  {
    PutWithRoom(i.registry, i.cap, r, q);
  }

  /** A full pool of busy projects is left alone. */
  lemma InsertRejected(i: Inner, r: Root, q: ProjectId, busy: set<ProjectId>, now: Instant)
    requires InsertOpened(i, r, q, busy, now).1.PoolBusy?
    ensures var after := InsertOpened(i, r, q, busy, now).0;
            after.registry == i.registry && after.lastUsed == i.lastUsed && Residents(i.registry) <= busy
  {
    forall e | e in i.registry ensures e.value in busy {
      var j :| 0 <= j < |i.registry| && i.registry[j] == e;
    }
  }

  /**
   A full pool makes room by evicting its least recently used idle project and
   nothing else: everything older is busy, everything else stays.
   */
  lemma InsertForVictim(i: Inner, r: Root, q: ProjectId, busy: set<ProjectId>, now: Instant) returns (k: nat)
    requires PoolOk(i) && InsertOpened(i, r, q, busy, now).1.Stored? && InsertOpened(i, r, q, busy, now).1.victim.Some?
    ensures k < |i.registry| && i.registry[k] in i.registry
    ensures i.registry[k].value == InsertOpened(i, r, q, busy, now).1.victim.value
    ensures i.registry[k].value !in busy && i.registry[k].key != r
    ensures forall j :: 0 <= j < k ==> i.registry[j].value in busy
    ensures var after := InsertOpened(i, r, q, busy, now).0;
            && Replaces(i.registry, after.registry, i.registry[k].key, r, q)
            && Distinct(after.registry) && |after.registry| <= i.cap
  {
    k := IdleLru(i.registry, busy);
    var w := i.registry[k].key;
    assert i.registry[k] in i.registry;
    HasIsMembership(i.registry, r);
    HasIsMembership(i.registry, w);
    WithoutMembers(i.registry, w);
    HasIsMembership(Without(i.registry, w), r);
    PutWithRoom(Without(i.registry, w), i.cap, r, q);
  }

  lemma InsertForVictimKeepsPool(i: Inner, r: Root, q: ProjectId, busy: set<ProjectId>, now: Instant)
    requires PoolOk(i) && InsertOpened(i, r, q, busy, now).1.Stored? && InsertOpened(i, r, q, busy, now).1.victim.Some?
    ensures PoolOk(InsertOpened(i, r, q, busy, now).0)
  {
    var k := InsertForVictim(i, r, q, busy, now);
    var after := InsertOpened(i, r, q, busy, now).0;
    forall e | e in after.registry ensures e.key in after.lastUsed { }
  }

  /**
   What storing an opened project may do. The lock entry goes in every case; a
   resident at the root wins; a full pool of busy projects is left alone; room
   is made by evicting one idle project whose elders are all busy.
   */
  ghost predicate InsertedProperly(i: Inner, r: Root, q: ProjectId, busy: set<ProjectId>, after: Inner,
                                   what: Inserted) {
    && PoolOk(after) && after.locks == i.locks - {r} && after.nextLock == i.nextLock && after.cap == i.cap
    && match what
       case UseExisting(p) => SameMembers(after.registry, i.registry) && Entry(r, p) in i.registry
       case PoolBusy =>
         after.registry == i.registry && |i.registry| == i.cap && Residents(i.registry) <= busy && !Has(i.registry, r)
       case Stored(None) => after.registry == i.registry + [Entry(r, q)] && !Has(i.registry, r)
       case Stored(Some(v)) =>
         && !Has(i.registry, r) && |i.registry| == i.cap
         && exists k: nat ::
              OldestIdle(i.registry, busy, k, v) && Replaces(i.registry, after.registry, i.registry[k].key, r, q)
  }

  ghost predicate OldestIdle(registry: Recency<Root, ProjectId>, busy: set<ProjectId>, k: nat, v: ProjectId) {
    && k < |registry| && registry[k].value == v && v !in busy
    && forall j :: 0 <= j < k ==> registry[j].value in busy
  }

  lemma InsertIsProper(i: Inner, r: Root, q: ProjectId, busy: set<ProjectId>, now: Instant)
    requires PoolOk(i)
    ensures var (after, what) := InsertOpened(i, r, q, busy, now); InsertedProperly(i, r, q, busy, after, what)
  {
    var (after, what) := InsertOpened(i, r, q, busy, now);
    match what
    case UseExisting(_) => InsertExisting(i, r, q, busy, now);
    case PoolBusy => InsertRejected(i, r, q, busy, now);
    case Stored(None) => InsertWithRoom(i, r, q, busy, now);
    case Stored(Some(v)) =>
      InsertForVictimKeepsPool(i, r, q, busy, now);
      var k := InsertForVictim(i, r, q, busy, now);
      assert OldestIdle(i.registry, busy, k, v);
  }

  lemma LookupKeepsPool(i: Inner, r: Root)
    requires PoolOk(i)
    ensures var (after, found) := Lookup(i, r);
            && PoolOk(after) && SameMembers(after.registry, i.registry)
            && (forall p: ProjectId :: found == Some(p) <==> Entry(r, p) in i.registry)
  {
    TouchFacts(i.registry, i.cap, r);
    forall p: ProjectId ensures Get(i.registry, r) == Some(p) <==> Entry(r, p) in i.registry {
      GetIsMembership(i.registry, r, p);
    }
  }

  lemma PopKeepsPool(i: Inner, r: Root)
    requires PoolOk(i)
    ensures var (after, popped) := PopResident(i, r);
            && PoolOk(after)
            && (forall e :: e in after.registry <==> e in i.registry && e.key != r)
            && (forall p: ProjectId :: popped == Some(p) <==> Entry(r, p) in i.registry)
  {
    WithoutMembers(i.registry, r);
    forall p: ProjectId ensures Get(i.registry, r) == Some(p) <==> Entry(r, p) in i.registry {
      GetIsMembership(i.registry, r, p);
    }
  }

  /** The reaper takes exactly the idle residents whose time has run out, and the pool stays in order. */
  lemma ReapKeepsPool(i: Inner, now: Instant, timeout: nat, busy: set<ProjectId>)
    requires PoolOk(i)
    ensures var (after, out) := ReapIdle(i, now, timeout, busy);
            && PoolOk(after)
            && (forall e :: e in i.registry && e !in after.registry <==>
                  e in i.registry && timeout > 0 && e.value !in busy && Elapsed(now, i.lastUsed[e.key]) >= timeout)
            && (forall e :: e in after.registry ==> e in i.registry)
            && out == (set e | e in i.registry && e !in after.registry :: e.value)
            && out !! busy
            && after.locks == i.locks && after.cap == i.cap && after.nextLock == i.nextLock
  {
    if timeout > 0 {
      var roots := Expired(i, now, timeout);
      SparedMembers(i.registry, roots, busy);
      forall e | e in Spared(i.registry, roots, busy) ensures e.key in ReapRoots(i, roots, busy).lastUsed {
        GetIsMembership(i.registry, e.key, e.value);
      }
    }
  }

  lemma ShutdownKeepsPool(i: Inner)
    ensures PoolOk(ShutdownAll(i).0)
  {
  }
}
