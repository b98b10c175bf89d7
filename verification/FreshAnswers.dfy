/**
 No call is answered from an environment older than the artifacts that were on
 disk when the call began, over every run of the actor.
 */
module FreshAnswers {
  import opened Wrappers
  import opened Lru
  import opened Artifacts
  import opened WorkerChild
  import opened ActorModel

  /** The recorded stamp is never newer than the environment it stands for. */
  ghost predicate Agrees(env: Env, noted: Noted) {
    noted.stamp == env.stamp
    || (noted.stamp.Some? && env.stamp.Some? && noted.stamp.value <= env.stamp.value)
  }

  /** `env` is what an import of `p` gave at some instant no later than `disk`. */
  ghost predicate Known(env: Env, disk: Disk, p: Profile) {
    || env == Import(disk, p)
    || (&& env.stamp.Some? && Stamp(disk, p).Some?
        && env.stamp.value <= Stamp(disk, p).value
        && (env.content != Content(disk, p) ==> env.stamp.value < Stamp(disk, p).value))
  }

  /** An answer's environment is the one on disk when the call began or when its session opened. */
  ghost predicate Fresh(env: Env, p: Profile, asked: Disk, served: Disk) {
    env == Import(asked, p) || env == Import(served, p)
  }

  ghost predicate KnownPool(pool: Recency<Profile, Env>, disk: Disk, used: iset<Profile>) {
    forall e :: e in pool ==> e.key in used && Known(e.value, disk, e.key)
  }

  /** The child's pool is a suffix of `imports_seen` in recency order, with no stamp overstated. */
  ghost predicate Shadow(cfg: Config, a: Actor, disk: Disk, used: iset<Profile>) {
    && Distinct(a.seen) && |a.seen| <= cfg.cap
    && Mirrors(a.child.pool, a.seen, Agrees)
    && KnownPool(a.child.pool, disk, used)
  }

  /** `p` was the last profile noted. */
  ghost predicate Serving(cfg: Config, a: Actor, p: Profile) {
    && Distinct(a.seen) && 1 <= |a.seen| <= cfg.cap
    && a.seen[|a.seen| - 1].key == p
  }

  /** `p` has been noted but its session is not open yet: opening it, or losing the child, restores the shadow. */
  ghost predicate Pending(cfg: Config, a: Actor, asked: Disk, disk: Disk, used: iset<Profile>, p: Profile) {
    && Serving(cfg, a, p) && p in used
    && a.seen[|a.seen| - 1].value.stamp == Stamp(asked, p)
    && Ticks(asked, disk, p)
    && Distinct(a.child.pool) && |a.child.pool| <= cfg.cap
    && Mirrors(Rest(a.child.pool, cfg.cap, p), a.seen[..|a.seen| - 1], Agrees)
    && KnownPool(a.child.pool, disk, used)
    && (Has(a.child.pool, p) ==> Get(a.child.pool, p) == Some(Import(asked, p)))
  }

  lemma KnownPoolAdvances(pool: Recency<Profile, Env>, d0: Disk, d1: Disk, used: iset<Profile>)
    requires KnownPool(pool, d0, used) && Advances(d0, d1, used)
    ensures KnownPool(pool, d1, used)
  {
    forall e | e in pool ensures e.key in used && Known(e.value, d1, e.key) {
      assert Ticks(d0, d1, e.key);
    }
  }

  lemma ShadowAdvances(cfg: Config, a: Actor, d0: Disk, d1: Disk, used: iset<Profile>)
    requires Shadow(cfg, a, d0, used) && Advances(d0, d1, used)
    ensures Shadow(cfg, a, d1, used)
  {
    KnownPoolAdvances(a.child.pool, d0, d1, used);
  }

  lemma EmptyPoolPending(cfg: Config, a: Actor, asked: Disk, disk: Disk, used: iset<Profile>, p: Profile)
    requires Serving(cfg, a, p) && p in used && a.child.pool == []
    requires a.seen[|a.seen| - 1].value.stamp == Stamp(asked, p) && Ticks(asked, disk, p)
    ensures Pending(cfg, a, asked, disk, used, p)
  {
  }

  /** A held environment that was not cycled away is the one an import would give now. */
  lemma HeldIsCurrent(cfg: Config, a: Actor, disk: Disk, used: iset<Profile>, p: Profile)
    requires Shadow(cfg, a, disk, used) && Has(a.child.pool, p)
    requires !StampAdvanced(NoteImportProfile(cfg, a, p, Stamp(disk, p)).1, Stamp(disk, p))
    ensures Get(a.child.pool, p) == Some(Import(disk, p))
  {
    var env := Get(a.child.pool, p).value;
    MirrorGet(a.child.pool, a.seen, Agrees, p);
    var e := a.child.pool[Find(a.child.pool, p)];
    assert e in a.child.pool && e.value == env && Known(env, disk, p);
  }

  lemma NotePending(cfg: Config, a: Actor, disk: Disk, used: iset<Profile>, p: Profile)
    requires Shadow(cfg, a, disk, used) && p in used
    requires !StampAdvanced(NoteImportProfile(cfg, a, p, Stamp(disk, p)).1, Stamp(disk, p))
    ensures Pending(cfg, NoteImportProfile(cfg, a, p, Stamp(disk, p)).0, disk, disk, used, p)
  {
    var b := NoteImportProfile(cfg, a, p, Stamp(disk, p)).0;
    var noted := Noted(Stamp(disk, p), cfg.clock(a.readings));
    PutFacts(a.seen, cfg.cap, p, noted);
    MirrorDistinct(a.child.pool, a.seen, Agrees);
    RestKeepsMirror(a.child.pool, a.seen, Agrees, cfg.cap, p);
    assert b.seen[..|b.seen| - 1] == Rest(a.seen, cfg.cap, p);
    if Has(a.child.pool, p) { HeldIsCurrent(cfg, a, disk, used, p); }
  }

  /** After the rebuild check the profile is pending, with the child cycled or not. */
  lemma CyclePending(cfg: Config, a: Actor, disk: Disk, used: iset<Profile>, p: Profile)
    requires Shadow(cfg, a, disk, used) && p in used
    ensures var c := CycleIfImportsRebuilt(cfg, a, disk, p, true);
            c.result.Ok? && c.actor.healthy == a.healthy && Pending(cfg, c.actor, disk, disk, used, p)
  {
    var (b, previous) := NoteImportProfile(cfg, a, p, Stamp(disk, p));
    if StampAdvanced(previous, Stamp(disk, p)) {
      PutFacts(a.seen, cfg.cap, p, Noted(Stamp(disk, p), cfg.clock(a.readings)));
      var c := CycleIfImportsRebuilt(cfg, a, disk, p, true).actor;
      assert c.seen == [b.seen[|b.seen| - 1]];
      EmptyPoolPending(cfg, c, disk, disk, used, p);
    } else {
      NotePending(cfg, a, disk, used, p);
    }
  }

  /** A value comes from an open session, and an attempt that never reached one leaves no child behind. */
  ghost predicate Settles(a: Attempt, retried: bool) {
    && (a.reply.Value? ==> a.opens)
    && (a.opens || a.restartsBefore + a.restartsAfter > 0 || Died(a.reply)
        || (a.reply.SessionMissing? && retried && a.respawn.Some?))
  }

  /** Opening the pending profile restores the shadow and answers from a fresh environment. */
  lemma OpenRestores(cfg: Config, a: Actor, asked: Disk, disk: Disk, used: iset<Profile>, p: Profile, charge: nat)
    requires Pending(cfg, a, asked, disk, used, p)
    ensures Shadow(cfg, a.(child := OpenSession(a.child, cfg.cap, disk, p, charge)), disk, used)
    ensures Fresh(EnvFor(a.child, disk, p), p, asked, disk)
  {
    var env := EnvFor(a.child, disk, p);
    var older, last := a.seen[..|a.seen| - 1], a.seen[|a.seen| - 1];
    assert a.seen == older + [last] && last == Entry(p, last.value);
    PooledEnv(a.child.pool, disk, used, p);
    MirrorPush(Rest(a.child.pool, cfg.cap, p), older, Agrees, p, env, last.value);
    RestFacts(a.child.pool, cfg.cap, p);
    PutFacts(a.child.pool, cfg.cap, p, env);
  }

  lemma PooledEnv(pool: Recency<Profile, Env>, disk: Disk, used: iset<Profile>, p: Profile)
    requires KnownPool(pool, disk, used)
    ensures Has(pool, p) ==> Known(Get(pool, p).value, disk, p)
  {
    if Has(pool, p) { assert pool[Find(pool, p)] in pool; }
  }

  lemma PendingAdvances(cfg: Config, a: Actor, asked: Disk, d0: Disk, d1: Disk, used: iset<Profile>, p: Profile)
    requires Pending(cfg, a, asked, d0, used, p) && Advances(d0, d1, used)
    ensures Pending(cfg, a, asked, d1, used, p)
  {
    KnownPoolAdvances(a.child.pool, d0, d1, used);
    assert Ticks(d0, d1, p);
    TicksCompose(asked, d0, d1, p);
  }

  ghost predicate HoldsOnly(pool: Recency<Profile, Env>, p: Profile) {
    pool == [] || (|pool| == 1 && pool[0].key == p)
  }

  /** What one attempt does to a pending profile. */
  lemma ServeRestores(cfg: Config, a: Actor, asked: Disk, d0: Disk, used: iset<Profile>, p: Profile, at: Attempt)
    requires Pending(cfg, a, asked, d0, used, p) && Advances(d0, at.disk, used)
    ensures var s := a.(child := Serve(a.child, cfg.cap, p, at));
            && s.child.restarts == a.child.restarts + at.restartsBefore + at.restartsAfter
            && (at.opens || at.restartsBefore + at.restartsAfter > 0 || Died(at.reply) ==>
                  Shadow(cfg, s, at.disk, used))
            && (at.restartsBefore + at.restartsAfter > 0 ==> HoldsOnly(s.child.pool, p))
    ensures at.opens ==> Fresh(AnsweredIn(a.child, p, at), p, asked, at.disk)
  {
    PendingAdvances(cfg, a, asked, d0, at.disk, used, p);
    var b := a.(child := Replaced(a.child, at.restartsBefore, at.reason));
    if at.restartsBefore > 0 { EmptyPoolPending(cfg, b, asked, at.disk, used, p); }
    if at.opens {
      OpenRestores(cfg, b, asked, at.disk, used, p, at.charge);
      if at.restartsBefore > 0 {
        assert OpenSession(b.child, cfg.cap, at.disk, p, at.charge).pool == [Entry(p, EnvFor(b.child, at.disk, p))];
      }
    }
  }

  lemma RecordKeeps(cfg: Config, a: Actor, cause: Cause)
    ensures var r := RecordRestartOrStop(cfg, a, cause);
            && r.actor.child == a.child && r.actor.seen == a.seen && r.actor.base == a.base
            && (r.result.Ok? ==> r.actor.healthy == a.healthy)
            && (r.result.Err? ==> !r.actor.healthy)
            && r.actor.cycledWhileIdle == a.cycledWhileIdle
  {
  }

  lemma {:induction false} RecordAllKeep(cfg: Config, a: Actor, cause: Cause, k: nat)
    ensures var r := RecordRestarts(cfg, a, cause, k);
            && r.actor.child == a.child && r.actor.seen == a.seen && r.actor.base == a.base
            && (r.result.Ok? ==> r.actor.healthy == a.healthy)
            && (r.result.Err? ==> !r.actor.healthy)
            && r.actor.cycledWhileIdle == a.cycledWhileIdle
    decreases k
  {
    if k > 0 {
      RecordKeeps(cfg, a, cause);
      RecordAllKeep(cfg, RecordRestartOrStop(cfg, a, cause).actor, cause, k - 1);
    }
  }

  /** Accounting forgets every profile but the served one exactly when the child was replaced. */
  lemma AccountRestores(cfg: Config, a: Actor, baseline: nat, disk: Disk, used: iset<Profile>, p: Profile)
    requires Serving(cfg, a, p) && a.child.restarts >= baseline
    requires a.child.restarts > baseline ==> HoldsOnly(a.child.pool, p)
    ensures var r := AccountLifecycleRestarts(cfg, a, baseline);
            && r.actor.child == a.child && r.actor.base == a.base
            && (r.result.Err? ==> !r.actor.healthy)
            && (r.result.Ok? ==> r.actor.healthy == a.healthy)
            && Serving(cfg, r.actor, p)
            && r.actor.seen[|r.actor.seen| - 1] == a.seen[|a.seen| - 1]
            && (Shadow(cfg, a, disk, used) ==> Shadow(cfg, r.actor, disk, used))
  {
    var restarted := a.child.restarts - baseline;
    if restarted > 0 {
      RecordAllKeep(cfg, a, CauseOf(a.child.lastReason), restarted);
      var r := AccountLifecycleRestarts(cfg, a, baseline);
      if r.result.Ok? && Shadow(cfg, a, disk, used) {
        MirrorDistinct(a.child.pool, a.seen, Agrees);
        MirrorNewest(a.child.pool, a.seen, Agrees, 1);
        assert Newest(a.child.pool, 1) == a.child.pool;
      }
    }
  }

  /** The attempts of one job see the disk advance, starting from `disk`. */
  ghost predicate SoundJob(disk: Disk, job: Job, used: iset<Profile>) {
    && job.profile in used
    && job.cycleOk
    && Advances(disk, job.attempts(0).disk, used)
    && (forall k: nat :: Advances(job.attempts(k).disk, job.attempts(k + 1).disk, used))
    && (forall k: nat :: Settles(job.attempts(k), k < MAX_JOB_RETRIES))
  }

  /** A retried attempt leaves the profile pending on the new handle. */
  lemma RetryPending(cfg: Config, a: Actor, asked: Disk, d0: Disk, used: iset<Profile>, job: Job, k: nat)
    requires Pending(cfg, a, asked, d0, used, job.profile)
    requires Advances(d0, job.attempts(k).disk, used)
    ensures var at := job.attempts(k);
            var acc := AccountLifecycleRestarts(cfg, Served(cfg, a, job, k), a.child.restarts);
            var rb := RebuildAfterDeath(cfg, acc.actor, ReplyCause(at.reply), at.respawn);
            && (acc.result.Ok? && rb.result.Ok? ==> Pending(cfg, rb.actor, asked, at.disk, used, job.profile))
            && (rb.result.Err? ==>
                  && (rb.actor.healthy ==> at.respawn.None?)
                  && (Shadow(cfg, acc.actor, at.disk, used) ==> Shadow(cfg, rb.actor, at.disk, used)))
  {
    var at := job.attempts(k);
    AttemptAccounted(cfg, a, asked, d0, used, job, k);
    var acc := AccountLifecycleRestarts(cfg, Served(cfg, a, job, k), a.child.restarts);
    RecordKeeps(cfg, acc.actor, ReplyCause(at.reply));
    var rb := RebuildAfterDeath(cfg, acc.actor, ReplyCause(at.reply), at.respawn);
    if rb.result.Ok? { EmptyPoolPending(cfg, rb.actor, asked, at.disk, used, job.profile); }
  }

  lemma {:induction false} AttemptsFresh(
      cfg: Config, a: Actor, asked: Disk, d0: Disk, used: iset<Profile>, job: Job, k: nat, callRestart: Option<Cause>, gen: nat)
    requires k <= MAX_JOB_RETRIES
    requires Pending(cfg, a, asked, d0, used, job.profile)
    requires Advances(d0, job.attempts(k).disk, used)
    requires forall i: nat :: Advances(job.attempts(i).disk, job.attempts(i + 1).disk, used)
    requires forall i: nat :: Settles(job.attempts(i), i < MAX_JOB_RETRIES)
    ensures FreshEnd(cfg, RunAttempts(cfg, a, job, k, MAX_JOB_RETRIES, a.child.restarts, callRestart, gen),
                     asked, used, job.profile)
    decreases MAX_JOB_RETRIES - k
  {
    var at := job.attempts(k);
    assert Settles(at, k < MAX_JOB_RETRIES);
    var acc := AccountLifecycleRestarts(cfg, Served(cfg, a, job, k), a.child.restarts);
    AttemptAccounted(cfg, a, asked, d0, used, job, k);
    if acc.result.Ok? && IsRetryable(at.reply) && k < MAX_JOB_RETRIES {
      RetryPending(cfg, a, asked, d0, used, job, k);
      var rb := RebuildAfterDeath(cfg, acc.actor, ReplyCause(at.reply), at.respawn);
      if rb.result.Ok? {
        AttemptsFresh(cfg, rb.actor, asked, at.disk, used, job, k + 1, Some(rb.result.value), gen);
      }
    }
  }

  /** What the retry loop leaves: the shadow while healthy, and a fresh answer if there is one. */
  ghost predicate FreshEnd(cfg: Config, end: LoopEnd, asked: Disk, used: iset<Profile>, p: Profile) {
    && (end.actor.healthy ==> Shadow(cfg, end.actor, end.disk, used))
    && (end.exit.Done? ==> Fresh(end.exit.env, p, asked, end.disk))
  }

  function Served(cfg: Config, a: Actor, job: Job, k: nat): Actor {
    a.(child := Serve(a.child, cfg.cap, job.profile, job.attempts(k)))
  }

  /** An attempt with its restarts accounted: the shadow is back unless the attempt is about to be retried. */
  lemma AttemptAccounted(cfg: Config, a: Actor, asked: Disk, d0: Disk, used: iset<Profile>, job: Job, k: nat)
    requires Pending(cfg, a, asked, d0, used, job.profile)
    requires Advances(d0, job.attempts(k).disk, used)
    ensures var at := job.attempts(k);
            var r := AccountLifecycleRestarts(cfg, Served(cfg, a, job, k), a.child.restarts);
            && (r.result.Err? ==> !r.actor.healthy)
            && Serving(cfg, r.actor, job.profile)
            && r.actor.seen[|r.actor.seen| - 1].value.stamp == Stamp(asked, job.profile)
            && Ticks(asked, at.disk, job.profile)
            && (at.opens || at.restartsBefore + at.restartsAfter > 0 || Died(at.reply) ==>
                  (r.result.Ok? ==> Shadow(cfg, r.actor, at.disk, used)))
            && (at.opens ==> Fresh(AnsweredIn(a.child, job.profile, at), job.profile, asked, at.disk))
  {
    var p, at := job.profile, job.attempts(k);
    ServeRestores(cfg, a, asked, d0, used, p, at);
    AccountRestores(cfg, Served(cfg, a, job, k), a.child.restarts, at.disk, used, p);
    assert Ticks(d0, at.disk, p);
    TicksCompose(asked, d0, at.disk, p);
  }

  lemma JobFresh(cfg: Config, a: Actor, disk: Disk, used: iset<Profile>, job: Job)
    requires Shadow(cfg, a, disk, used) && SoundJob(disk, job, used)
    ensures var run := RunJob(cfg, a, disk, job);
            && (run.actor.healthy ==> Shadow(cfg, run.actor, run.disk, used))
            && (run.exit.Done? ==> Fresh(run.exit.env, job.profile, disk, run.disk))
  {
    CyclePending(cfg, a, disk, used, job.profile);
    var c := CycleIfImportsRebuilt(cfg, a, disk, job.profile, true);
    AttemptsFresh(cfg, c.actor, disk, disk, used, job, 0, c.result.value, Observed(a));
  }

  /** The pre-warm reads its stamp after its open; nothing may be rebuilt for that profile in between. */
  ghost predicate SoundQuiet(a: Actor, disk: Disk, q: Quiet, used: iset<Profile>) {
    && Advances(disk, q.stampDisk, used)
    && (a.seen != [] ==>
          var p := a.seen[|a.seen| - 1].key;
          p in used && Stamp(disk, p) == Stamp(q.stampDisk, p))
  }

  lemma QuietKeepsShadow(cfg: Config, a: Actor, disk: Disk, used: iset<Profile>, quiesced: bool, q: Quiet)
    requires Shadow(cfg, a, disk, used) && SoundQuiet(a, disk, q, used)
    ensures var r := CycleOverSoftBudget(cfg, a, disk, quiesced, q);
            Shadow(cfg, r.actor, r.disk, used) && r.actor.healthy == a.healthy
  {
    var r := CycleOverSoftBudget(cfg, a, disk, quiesced, q);
    if r.prewarmed.Some? {
      var p := r.prewarmed.value;
      assert Ticks(disk, q.stampDisk, p);
      assert r.actor.child.pool == [Entry(p, Import(disk, p))];
      assert |r.actor.seen| == 1 && r.actor.seen[0].key == p && r.actor.seen[0].value.stamp == Stamp(q.stampDisk, p);
    }
  }

  /** The environment premises on one event. */
  ghost predicate Sound(s: Sys, e: Event, used: iset<Profile>) {
    match e
    case DiskMoves(disk) => Advances(s.disk, disk, used)
    case SupervisorRestarts(_, _) => true
    case Message(job) => SoundJob(s.disk, job, used)
    case SemanticMessage(_, _, _) => true
    case QuietPeriod(q) => SoundQuiet(s.actor, s.disk, q, used)
  }

  ghost predicate SoundRun(cfg: Config, s: Sys, events: seq<Event>, used: iset<Profile>)
    decreases |events|
  {
    events == [] ||
    (&& SoundRun(cfg, s, events[..|events| - 1], used)
     && Sound(Run(cfg, s, events[..|events| - 1]), events[|events| - 1], used))
  }

  ghost predicate AllFresh(log: seq<Output>) {
    forall o :: o in log && o.Answered? ==> Fresh(o.env, o.profile, o.asked, o.served)
  }

  ghost predicate Aligned(cfg: Config, s: Sys, used: iset<Profile>) {
    && (s.actor.healthy ==> Shadow(cfg, s.actor, s.disk, used))
    && AllFresh(s.log)
  }

  lemma StepKeepsAligned(cfg: Config, s: Sys, e: Event, used: iset<Profile>)
    requires Aligned(cfg, s, used) && Sound(s, e, used)
    ensures Aligned(cfg, Step(cfg, s, e), used)
  {
    match e
    case DiskMoves(disk) =>
      if s.actor.healthy { ShadowAdvances(cfg, s.actor, s.disk, disk, used); }
    case SupervisorRestarts(k, reason) =>
    case Message(job) =>
      if s.actor.healthy {
        JobFresh(cfg, s.actor.(cycledWhileIdle := false), s.disk, used, job);
      }
    case SemanticMessage(p, opens, ok) =>
    case QuietPeriod(q) =>
      if s.actor.healthy { QuietKeepsShadow(cfg, s.actor, s.disk, used, cfg.hasRuntime, q); }
  }

  /**
   Over every run whose environment is sound, every answer comes from an
   environment that was current at some instant of its own call, and while the
   project is healthy the child's pool is the recent end of `imports_seen`.
   */
  lemma {:induction false} EveryAnswerIsFresh(
      cfg: Config, process: nat, generation: nat, disk: Disk, events: seq<Event>, used: iset<Profile>)
    requires SoundRun(cfg, Initial(process, generation, disk), events, used)
    ensures Aligned(cfg, Run(cfg, Initial(process, generation, disk), events), used)
    decreases |events|
  {
    if events != [] {
      var before := events[..|events| - 1];
      EveryAnswerIsFresh(cfg, process, generation, disk, before, used);
      StepKeepsAligned(cfg, Run(cfg, Initial(process, generation, disk), before), events[|events| - 1], used);
    }
  }

  /** When no artifact of the profile moves during the call, its answer is from the artifacts on disk. */
  lemma UnmovedCallIsCurrent(cfg: Config, s: Sys, job: Job, used: iset<Profile>)
    requires Aligned(cfg, s, used) && s.actor.healthy && Sound(s, Message(job), used)
    requires forall k: nat :: Import(job.attempts(k).disk, job.profile) == Import(s.disk, job.profile)
    ensures var run := RunJob(cfg, s.actor.(cycledWhileIdle := false), s.disk, job);
            run.exit.Done? ==> run.exit.env.content == Content(s.disk, job.profile)
  {
    var a := s.actor.(cycledWhileIdle := false);
    JobFresh(cfg, a, s.disk, used, job);
    RunEndsOnSomeAttempt(cfg, a, s.disk, job);
  }

  lemma {:induction false} LoopEndsOnSomeAttempt(
      cfg: Config, a: Actor, job: Job, k: nat, baseline: nat, callRestart: Option<Cause>, gen: nat) returns (i: nat)
    requires k <= MAX_JOB_RETRIES
    ensures RunAttempts(cfg, a, job, k, MAX_JOB_RETRIES, baseline, callRestart, gen).disk == job.attempts(i).disk
    decreases MAX_JOB_RETRIES - k
  {
    i := k;
    var at := job.attempts(k);
    var acc := AccountLifecycleRestarts(cfg, a.(child := Serve(a.child, cfg.cap, job.profile, at)), baseline);
    if acc.result.Ok? && IsRetryable(at.reply) && k < MAX_JOB_RETRIES {
      var rb := RebuildAfterDeath(cfg, acc.actor, ReplyCause(at.reply), at.respawn);
      if rb.result.Ok? {
        i := LoopEndsOnSomeAttempt(cfg, rb.actor, job, k + 1, rb.actor.child.restarts, Some(rb.result.value), gen);
      }
    }
  }

  lemma RunEndsOnSomeAttempt(cfg: Config, a: Actor, disk: Disk, job: Job)
    ensures var run := RunJob(cfg, a, disk, job);
            run.exit.Done? ==> exists i: nat :: run.disk == job.attempts(i).disk
  {
    var c := CycleIfImportsRebuilt(cfg, a, disk, job.profile, job.cycleOk);
    if c.result.Ok? {
      var i := LoopEndsOnSomeAttempt(cfg, c.actor, job, 0, c.actor.child.restarts, c.result.value, Observed(a));
    }
  }
}
