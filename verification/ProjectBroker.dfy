/**
 The broker's mutex-guarded state, updated in place. Each method is one stretch
 of code that holds the mutex, and does what `BrokerModel` says of it.
 */
module ProjectBroker {
  import opened Wrappers
  import opened Lru
  import B = BrokerModel
  import opened BrokerModel

  class BrokerInner {
    const cap: Positive
    var registry: Recency<Root, ProjectId>
    var lastUsed: map<Root, Instant>
    var openingLocks: map<Root, LockId>
    var nextLock: LockId

    function State(): Inner
      reads this
    {
      Inner(cap, registry, lastUsed, openingLocks, nextLock)
    }

    constructor (cap: Positive)
      ensures State() == Inner(cap, [], map[], map[], 0)
      ensures PoolOk(State())
    {
      this.cap := cap;
      registry, lastUsed, openingLocks, nextLock := [], map[], map[], 0;
    }

    method LookUp(r: Root) returns (found: Option<ProjectId>)
      modifies this`registry
      ensures (State(), found) == Lookup(old(State()), r)
    {
      found := Get(registry, r);
      registry := Touch(registry, r);
    }

    method Use(r: Root, now: Instant)
      modifies this`lastUsed
      ensures State() == MarkUsed(old(State()), r, now)
    {
      lastUsed := lastUsed[r := now];
    }

    method EvictStale(r: Root) returns (stale: Option<ProjectId>)
      modifies this`lastUsed, this`registry
      ensures (State(), stale) == PopResident(old(State()), r)
    {
      lastUsed := lastUsed - {r};
      stale := Get(registry, r);
      registry := Without(registry, r);
    }

    method LockFor(r: Root) returns (l: LockId)
      modifies this`openingLocks, this`nextLock
      ensures (State(), l) == OpeningLock(old(State()), r)
    {
      if r !in openingLocks {
        openingLocks := openingLocks[r := nextLock];
        nextLock := nextLock + 1;
      }
      l := openingLocks[r];
    }

    method DropLock(r: Root)
      modifies this`openingLocks
      ensures State() == ForgetLock(old(State()), r)
    {
      openingLocks := openingLocks - {r};
    }

    /** Walk from the least recently used end to the first idle project, and pop it. */
    method PopIdleLru(busy: set<ProjectId>) returns (victim: Option<Entry<Root, ProjectId>>)
      requires Distinct(registry)
      modifies this`registry
      ensures var k := IdleLru(old(registry), busy);
              if k == |old(registry)| then victim == None && registry == old(registry)
              else victim == Some(old(registry)[k]) && registry == Without(old(registry), old(registry)[k].key)
    {
      var k := 0;
      while k < |registry| && registry[k].value in busy
        invariant k <= |registry|
        invariant forall j :: 0 <= j < k ==> registry[j].value in busy
      {
        k := k + 1;
      }
      IdleLruIsFirst(registry, busy, k);
      if k == |registry| {
        victim := None;
      } else {
        victim := Some(registry[k]);
        registry := Without(registry, registry[k].key);
      }
    }

    /** The end of the slow path: resolve the race, make room, store. */
    method StoreOpened(r: Root, opened_: ProjectId, busy: set<ProjectId>, now: Instant) returns (what: Inserted)
      requires PoolOk(State())
      modifies this`registry, this`lastUsed, this`openingLocks
      ensures (State(), what) == InsertOpened(old(State()), r, opened_, busy, now)
      ensures InsertedProperly(old(State()), r, opened_, busy, State(), what)
    {
      InsertIsProper(State(), r, opened_, busy, now);
      var existing := Get(registry, r);
      if existing.Some? {
        registry := Touch(registry, r);
        lastUsed := lastUsed[r := now];
        what := UseExisting(existing.value);
      } else {
        var victim := None;
        if |registry| >= cap {
          victim := PopIdleLru(busy);
        }
        if victim.None? && |registry| >= cap {
          openingLocks := openingLocks - {r};
          what := PoolBusy;
          return;
        }
        if victim.Some? {
          lastUsed := lastUsed - {victim.value.key};
        }
        registry := Put(registry, cap, r, opened_);
        lastUsed := lastUsed[r := now];
        what := Stored(if victim.Some? then Some(victim.value.value) else None);
      }
      openingLocks := openingLocks - {r};
    }

    /** Evict what has been idle for `timeout`, whatever order the expired roots come in. */
    method ReapIdle(now: Instant, timeout: nat, busy: set<ProjectId>) returns (evicted: set<ProjectId>)
      requires PoolOk(State())
      modifies this`registry, this`lastUsed
      ensures (State(), evicted) == B.ReapIdle(old(State()), now, timeout, busy)
      ensures PoolOk(State()) && evicted !! busy
    {
      ReapKeepsPool(State(), now, timeout, busy);
      evicted := {};
      if timeout == 0 {
        return;
      }
      var left := Expired(State(), now, timeout);
      ghost var (was, done) := (State(), {});
      SparedNothing(was.registry, busy);
      while left != {}
        invariant done + left == Expired(was, now, timeout) && done !! left
        invariant Reaping(was, State(), evicted, done, busy)
        decreases left
      {
        var r :| r in left;
        ReapOneMore(was, State(), evicted, done, r, busy);
        var resident := Get(registry, r);
        if resident.None? || resident.value !in busy {
          if resident.Some? {
            registry := Without(registry, r);
            evicted := evicted + {resident.value};
          }
          lastUsed := lastUsed - {r};
        }
        left, done := left - {r}, done + {r};
      }
      assert done == Expired(was, now, timeout);
    }

    /** Pop every resident and forget every opening lock. */
    method ShutdownAll() returns (projects: set<ProjectId>)
      requires PoolOk(State())
      modifies this`registry, this`lastUsed, this`openingLocks
      ensures (State(), projects) == B.ShutdownAll(old(State()))
    {
      projects := {};
      ghost var was := registry;
      while registry != []
        invariant |registry| <= |was| && registry == was[|was| - |registry|..]
        invariant Distinct(was)
        invariant projects == Residents(was[..|was| - |registry|])
        invariant lastUsed == old(lastUsed) - Roots(was[..|was| - |registry|])
        decreases |registry|
      {
        var e := registry[0];
        var k := |was| - |registry|;
        assert was[..k + 1] == was[..k] + [e];
        projects := projects + {e.value};
        registry := registry[1..];
        lastUsed := lastUsed - {e.key};
      }
      assert was[..|was|] == was;
      openingLocks := map[];
    }
  }

  lemma {:induction false} IdleLruIsFirst(registry: Recency<Root, ProjectId>, busy: set<ProjectId>, k: nat)
    requires k <= |registry| && (forall j :: 0 <= j < k ==> registry[j].value in busy)
    requires k < |registry| ==> registry[k].value !in busy
    ensures IdleLru(registry, busy) == k
  {
    if k > 0 {
      IdleLruIsFirst(registry[1..], busy, k - 1);
    }
  }

  lemma {:induction false} SparedNothing(registry: Recency<Root, ProjectId>, busy: set<ProjectId>)
    ensures Spared(registry, {}, busy) == registry
  {
    if registry != [] {
      SparedNothing(registry[1..], busy);
    }
  }

  lemma ConsOther(e: Entry<Root, ProjectId>, tail: Recency<Root, ProjectId>, r: Root)
    requires e.key != r
    ensures Get([e] + tail, r) == Get(tail, r)
    ensures Without([e] + tail, r) == [e] + Without(tail, r)
  {
    assert ([e] + tail)[1..] == tail;
    var i := Find(tail, r);
    assert Find([e] + tail, r) == i + 1;
    if i < |tail| {
      assert ([e] + tail)[..i + 1] == [e] + tail[..i] && ([e] + tail)[i + 2..] == tail[i + 1..];
    }
  }

  lemma ConsHit(e: Entry<Root, ProjectId>, tail: Recency<Root, ProjectId>)
    ensures Get([e] + tail, e.key) == Some(e.value) && Without([e] + tail, e.key) == tail
  {
    assert Find([e] + tail, e.key) == 0;
    assert ([e] + tail)[..0] + ([e] + tail)[1..] == tail;
  }

  lemma {:induction false} SparedWithout(registry: Recency<Root, ProjectId>, done: set<Root>, r: Root,
                                         busy: set<ProjectId>)
    requires forall e :: e in registry ==> e.key != r
    ensures Spared(registry, done + {r}, busy) == Spared(registry, done, busy)
  {
    if registry != [] {
      assert registry[0] in registry && forall e :: e in registry[1..] ==> e in registry;
      SparedWithout(registry[1..], done, r, busy);
    }
  }

  lemma SparedCons(e: Entry<Root, ProjectId>, rest: Recency<Root, ProjectId>, done: set<Root>, busy: set<ProjectId>)
    ensures Spared([e] + rest, done, busy) == (if IsReaped(e, done, busy) then [] else [e]) + Spared(rest, done, busy)
  {
    assert ([e] + rest)[1..] == rest;
  }

  function PopIdle(registry: Recency<Root, ProjectId>, r: Root, busy: set<ProjectId>): Recency<Root, ProjectId> {
    if HeldBusy(registry, r, busy) then registry else Without(registry, r)
  }

  /** Reaping one more root is popping it, unless its project is busy. */
  ghost predicate OneMore(registry: Recency<Root, ProjectId>, done: set<Root>, r: Root, busy: set<ProjectId>) {
    && Get(Spared(registry, done, busy), r) == Get(registry, r)
    && Spared(registry, done + {r}, busy) == PopIdle(Spared(registry, done, busy), r, busy)
  }

  lemma SparedStepHere(e: Entry<Root, ProjectId>, rest: Recency<Root, ProjectId>, done: set<Root>, busy: set<ProjectId>)
    requires e.key !in done && forall d :: d in rest ==> d.key != e.key
    ensures OneMore([e] + rest, done, e.key, busy)
  {
    SparedCons(e, rest, done, busy);
    SparedCons(e, rest, done + {e.key}, busy);
    SparedWithout(rest, done, e.key, busy);
    ConsHit(e, Spared(rest, done, busy));
    ConsHit(e, rest);
  }

  lemma PopIdleCons(e: Entry<Root, ProjectId>, tail: Recency<Root, ProjectId>, r: Root, busy: set<ProjectId>)
    requires e.key != r
    ensures PopIdle([e] + tail, r, busy) == [e] + PopIdle(tail, r, busy)
    ensures Get([e] + tail, r) == Get(tail, r)
  {
    ConsOther(e, tail, r);
  }

  lemma SparedStepThere(e: Entry<Root, ProjectId>, rest: Recency<Root, ProjectId>, done: set<Root>, r: Root,
                        busy: set<ProjectId>)
    requires e.key != r && OneMore(rest, done, r, busy)
    ensures OneMore([e] + rest, done, r, busy)
  {
    var (before, after) := (Spared(rest, done, busy), Spared(rest, done + {r}, busy));
    SparedCons(e, rest, done, busy);
    SparedCons(e, rest, done + {r}, busy);
    PopIdleCons(e, rest, r, busy);
    PopIdleCons(e, before, r, busy);
    if IsReaped(e, done, busy) {
      assert Spared([e] + rest, done, busy) == before && Spared([e] + rest, done + {r}, busy) == after;
    } else {
      assert Spared([e] + rest, done, busy) == [e] + before && Spared([e] + rest, done + {r}, busy) == [e] + after;
    }
  }

  lemma {:induction false} SparedStep(registry: Recency<Root, ProjectId>, done: set<Root>, r: Root,
                                      busy: set<ProjectId>)
    requires Distinct(registry) && r !in done
    ensures OneMore(registry, done, r, busy)
  {
    if registry != [] {
      var (e, rest) := (registry[0], registry[1..]);
      assert registry == [e] + rest;
      if e.key == r {
        forall d | d in rest ensures d.key != r {
          var j :| 0 <= j < |rest| && rest[j] == d;
          assert registry[j + 1] == d;
        }
        SparedStepHere(e, rest, done, busy);
      } else {
        SparedStep(rest, done, r, busy);
        SparedStepThere(e, rest, done, r, busy);
      }
    }
  }

  /** How far a sweep has come once the roots in `done` are dealt with. */
  ghost predicate Reaping(was: Inner, i: Inner, evicted: set<ProjectId>, done: set<Root>, busy: set<ProjectId>) {
    i == ReapRoots(was, done, busy) && evicted == Reaped(was.registry, done, busy)
  }

  lemma ForgottenStep(registry: Recency<Root, ProjectId>, used: map<Root, Instant>, done: set<Root>, r: Root,
                      busy: set<ProjectId>)
    ensures used - (set q | q in done + {r} && !HeldBusy(registry, q, busy))
         == if HeldBusy(registry, r, busy) then used - (set q | q in done && !HeldBusy(registry, q, busy))
            else used - (set q | q in done && !HeldBusy(registry, q, busy)) - {r}
  {
    var forgotten := set q | q in done && !HeldBusy(registry, q, busy);
    assert (set q | q in done + {r} && !HeldBusy(registry, q, busy))
        == if HeldBusy(registry, r, busy) then forgotten else forgotten + {r};
  }

  lemma ReapOneMore(was: Inner, i: Inner, evicted: set<ProjectId>, done: set<Root>, r: Root, busy: set<ProjectId>)
    requires Distinct(was.registry) && r !in done && Reaping(was, i, evicted, done, busy)
    ensures var found := Get(i.registry, r);
            if found.Some? && found.value in busy then Reaping(was, i, evicted, done + {r}, busy)
            else Reaping(was, i.(registry := Without(i.registry, r), lastUsed := i.lastUsed - {r}),
                         if found.Some? then evicted + {found.value} else evicted, done + {r}, busy)
  {
    SparedStep(was.registry, done, r, busy);
    ReapedStep(was.registry, done, r, busy);
    ForgottenStep(was.registry, was.lastUsed, done, r, busy);
  }

  lemma ReapedStep(registry: Recency<Root, ProjectId>, done: set<Root>, r: Root, busy: set<ProjectId>)
    requires Distinct(registry)
    ensures var found := Get(registry, r);
            Reaped(registry, done + {r}, busy)
            == Reaped(registry, done, busy) + if found.Some? && found.value !in busy then {found.value} else {}
  {
    var found := Get(registry, r);
    forall e | e in registry && e.key == r ensures found == Some(e.value) {
      GetIsMembership(registry, r, e.value);
    }
    if found.Some? {
      GetIsMembership(registry, r, found.value);
    }
  }
}
