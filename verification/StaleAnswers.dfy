/**
 Where the freshness guarantee ends: the three premises a run can break, for each
 the exact condition under which a later call is answered from artifacts that
 are gone, and a run that meets it.
 */
module StaleAnswers {
  import opened Wrappers
  import opened Lru
  import opened Artifacts
  import opened WorkerChild
  import opened ActorModel
  import opened FreshAnswers

  /** The log ends with an answer from artifacts that were not on disk at any time during the call. */
  ghost predicate EndsStale(s: Sys) {
    && s.log != []
    && var o := s.log[|s.log| - 1];
       o.Answered? && !Fresh(o.env, o.profile, o.asked, o.served)
  }

  /** A call for `p` that finds `disk` as it is, opens its session in the child as it stands, and is answered. */
  ghost predicate Undisturbed(job: Job, disk: Disk, p: Profile) {
    && job.profile == p && job.cycleOk
    && var at := job.attempts(0);
       at.disk == disk && at.restartsBefore == 0 && at.restartsAfter == 0 && at.opens && at.reply.Value?
  }

  /** A call for `p` that fails before its session opens and leaves the child alone. */
  ghost predicate Unopened(job: Job, disk: Disk, p: Profile) {
    && job.profile == p
    && var at := job.attempts(0);
       at.disk == disk && at.restartsBefore == 0 && at.restartsAfter == 0 && !at.opens
       && !at.reply.Value? && !IsRetryable(at.reply)
  }

  /** The stamp `p` was last noted at. */
  function NotedStamp(a: Actor, p: Profile): Option<nat> {
    match Get(a.seen, p) case Some(held) => held.stamp case None => None
  }

  // --- one call ------------------------------------------------------------

  /** The child holds an environment of `p` that is not what an import gives now, and the noted stamp does not show it. */
  ghost predicate HidesStale(a: Actor, disk: Disk, p: Profile) {
    && Has(a.child.pool, p)
    && Get(a.child.pool, p).value != Import(disk, p)
    && !StampAdvanced(NotedStamp(a, p), Stamp(disk, p))
  }

  /** What an undisturbed call does, from any state at all. */
  lemma CallEnds(cfg: Config, s: Sys, p: Profile, job: Job)
    requires s.actor.healthy && Undisturbed(job, s.disk, p)
    ensures var t := Step(cfg, s, Message(job));
            var c := CycleIfImportsRebuilt(cfg, s.actor.(cycledWhileIdle := false), s.disk, p, true).actor;
            && t.actor.healthy && t.disk == s.disk && !t.actor.cycledWhileIdle
            && t.actor.seen == c.seen
            && t.actor.child == OpenSession(c.child, cfg.cap, s.disk, p, job.attempts(0).charge)
            && t.actor.readings == c.readings
            && (EndsStale(t) <==> HidesStale(s.actor, s.disk, p))
  {
    var a, at := s.actor.(cycledWhileIdle := false), job.attempts(0);
    RecordKeeps(cfg, NoteImportProfile(cfg, a, p, Stamp(s.disk, p)).0, ArtifactsRebuilt);
    var c := CycleIfImportsRebuilt(cfg, a, s.disk, p, true);
    assert c.result.Ok?;
    var served := Served(cfg, c.actor, job, 0);
    assert served.child == OpenSession(c.actor.child, cfg.cap, s.disk, p, at.charge);
    assert AccountLifecycleRestarts(cfg, served, c.actor.child.restarts) == Outcome(served, Ok(None));
    assert AnsweredIn(c.actor.child, p, at) == EnvFor(c.actor.child, s.disk, p);
    var run := RunJob(cfg, a, s.disk, job);
    assert run.exit == Done(EnvFor(c.actor.child, s.disk, p)) && run.disk == s.disk;
    var t := Step(cfg, s, Message(job));
    assert t.log[|t.log| - 1] == Answered(p, EnvFor(c.actor.child, s.disk, p), s.disk, s.disk);
  }

  /** Aligned and healthy, as `EveryAnswerIsFresh` shows of every sound run that has not hit the restart limit. */
  ghost predicate Aligns(cfg: Config, s: Sys, used: iset<Profile>) {
    s.actor.healthy && Shadow(cfg, s.actor, s.disk, used)
  }

  /** The child holds what an import of `p` gives now, and it is the last profile noted, at that stamp. */
  ghost predicate Holds(cfg: Config, a: Actor, disk: Disk, used: iset<Profile>, p: Profile) {
    && Shadow(cfg, a, disk, used)
    && Get(a.child.pool, p) == Some(Import(disk, p))
    && NotedStamp(a, p) == Stamp(disk, p)
    && UsedBefore(a.seen, cfg.cap, p, {})
  }

  lemma LastNoted(cfg: Config, a: Actor, p: Profile)
    requires Serving(cfg, a, p)
    ensures NotedStamp(a, p) == a.seen[|a.seen| - 1].value.stamp
    ensures UsedBefore(a.seen, cfg.cap, p, {})
  {
    FindAt(a.seen, |a.seen| - 1);
    assert a.seen[|a.seen|..] == [];
  }

  lemma OpenedHolds(cfg: Config, a: Actor, disk: Disk, used: iset<Profile>, p: Profile, charge: nat)
    requires Pending(cfg, a, disk, disk, used, p)
    ensures Holds(cfg, a.(child := OpenSession(a.child, cfg.cap, disk, p, charge)), disk, used, p)
  {
    OpenRestores(cfg, a, disk, disk, used, p, charge);
    PutFacts(a.child.pool, cfg.cap, p, EnvFor(a.child, disk, p));
    LastNoted(cfg, a, p);
  }

  lemma HoldsDependsOn(cfg: Config, a: Actor, b: Actor, disk: Disk, used: iset<Profile>, p: Profile)
    requires Holds(cfg, a, disk, used, p) && a.child == b.child && a.seen == b.seen
    ensures Holds(cfg, b, disk, used, p)
  {
  }

  /** After an undisturbed call from an aligned state the child holds what is on disk, noted at its own stamp. */
  lemma CallHolds(cfg: Config, s: Sys, used: iset<Profile>, p: Profile, job: Job)
    requires Aligns(cfg, s, used) && p in used && Undisturbed(job, s.disk, p)
    ensures var t := Step(cfg, s, Message(job));
            t.actor.healthy && t.disk == s.disk && Holds(cfg, t.actor, s.disk, used, p)
  {
    var a, charge := s.actor.(cycledWhileIdle := false), job.attempts(0).charge;
    CallEnds(cfg, s, p, job);
    CyclePending(cfg, a, s.disk, used, p);
    var c := CycleIfImportsRebuilt(cfg, a, s.disk, p, true).actor;
    OpenedHolds(cfg, c, s.disk, used, p, charge);
    HoldsDependsOn(cfg, c.(child := OpenSession(c.child, cfg.cap, s.disk, p, charge)),
                   Step(cfg, s, Message(job)).actor, s.disk, used, p);
  }

  lemma {:induction false} RunAppend(cfg: Config, s: Sys, xs: seq<Event>, ys: seq<Event>)
    ensures Run(cfg, s, xs + ys) == Run(cfg, Run(cfg, s, xs), ys)
    decreases |ys|
  {
    if ys == [] {
      assert xs + ys == xs;
    } else {
      var last := |ys| - 1;
      RunAppend(cfg, s, xs, ys[..last]);
      assert (xs + ys)[..|xs + ys| - 1] == xs + ys[..last];
    }
  }

  lemma RunOne(cfg: Config, s: Sys, e: Event)
    ensures Run(cfg, s, [e]) == Step(cfg, s, e)
  {
    assert [e][..0] == [];
  }

  lemma RunTwo(cfg: Config, s: Sys, e: Event, f: Event)
    ensures Run(cfg, s, [e, f]) == Step(cfg, Step(cfg, s, e), f)
  {
    RunOne(cfg, s, e);
    assert [e, f][..1] == [e];
  }

  lemma RunThree(cfg: Config, s: Sys, e: Event, f: Event, g: Event)
    ensures Run(cfg, s, [e, f, g]) == Step(cfg, Step(cfg, Step(cfg, s, e), f), g)
  {
    RunTwo(cfg, s, e, f);
    assert [e, f, g][..2] == [e, f];
  }

  // --- a build between the pre-warm and its stamp --------------------------

  /**
   After a pre-warm, an undisturbed call for its profile is stale exactly when
   the profile's artifacts moved between the pre-warm's open and its stamp.
   */
  lemma PrewarmHidesExactly(cfg: Config, s: Sys, q: Quiet, p: Profile, next: Job)
    requires s.actor.healthy
    requires CycleOverSoftBudget(cfg, s.actor, s.disk, cfg.hasRuntime, q).prewarmed == Some(p)
    requires Undisturbed(next, q.stampDisk, p)
    ensures EndsStale(Run(cfg, s, [QuietPeriod(q), Message(next)])) <==> Import(s.disk, p) != Import(q.stampDisk, p)
  {
    var t := Step(cfg, s, QuietPeriod(q));
    assert t.actor.child.pool == [Entry(p, Import(s.disk, p))];
    assert t.actor.seen[|t.actor.seen| - 1].key == p && |t.actor.seen| == 1;
    assert NotedStamp(t.actor, p) == Stamp(q.stampDisk, p);
    CallEnds(cfg, t, p, next);
    RunTwo(cfg, s, QuietPeriod(q), Message(next));
  }

  // --- a replacement that fails --------------------------------------------

  lemma {:induction false} AttemptsIgnoreCycle(
      cfg: Config, a: Actor, job: Job, k: nat, baseline: nat, callRestart: Option<Cause>, gen: nat)
    requires k <= MAX_JOB_RETRIES
    ensures RunAttempts(cfg, a, job, k, MAX_JOB_RETRIES, baseline, callRestart, gen)
            == RunAttempts(cfg, a, job.(cycleOk := true), k, MAX_JOB_RETRIES, baseline, callRestart, gen)
    decreases MAX_JOB_RETRIES - k
  {
    var at := job.attempts(k);
    var acc := AccountLifecycleRestarts(cfg, a.(child := Serve(a.child, cfg.cap, job.profile, at)), baseline);
    if acc.result.Ok? && IsRetryable(at.reply) && k < MAX_JOB_RETRIES {
      var rb := RebuildAfterDeath(cfg, acc.actor, ReplyCause(at.reply), at.respawn);
      if rb.result.Ok? {
        AttemptsIgnoreCycle(cfg, rb.actor, job, k + 1, rb.actor.child.restarts, Some(rb.result.value), gen);
      }
    }
  }

  lemma NothingToCycle(cfg: Config, a: Actor, disk: Disk, job: Job)
    requires !StampAdvanced(NotedStamp(a, job.profile), Stamp(disk, job.profile))
    ensures RunJob(cfg, a, disk, job) == RunJob(cfg, a, disk, job.(cycleOk := true))
  {
    var c := CycleIfImportsRebuilt(cfg, a, disk, job.profile, true);
    AttemptsIgnoreCycle(cfg, c.actor, job, 0, c.actor.child.restarts, None, Observed(a));
  }

  /** The failed replacement leaves the child as it was, with the new stamp noted. */
  lemma FailingStep(cfg: Config, s: Sys, p: Profile, failing: Job)
    requires s.actor.healthy && failing.profile == p && !failing.cycleOk
    requires Distinct(s.actor.seen) && |s.actor.seen| <= cfg.cap
    requires StampAdvanced(NotedStamp(s.actor, p), Stamp(s.disk, p))
    ensures var t := Step(cfg, s, Message(failing));
            && t.actor.healthy && t.disk == s.disk && t.actor.child == s.actor.child
            && NotedStamp(t.actor, p) == Stamp(s.disk, p)
  {
    var a := s.actor.(cycledWhileIdle := false);
    var (b, previous) := NoteImportProfile(cfg, a, p, Stamp(s.disk, p));
    RecordKeeps(cfg, b, ArtifactsRebuilt);
    assert !CountsTowardLimit(ArtifactsRebuilt);
    assert CycleIfImportsRebuilt(cfg, a, s.disk, p, false) == Outcome(b, Err(CycleFailed));
    PutFacts(a.seen, cfg.cap, p, Noted(Stamp(s.disk, p), cfg.clock(a.readings)));
  }

  /** `failing` is a call for `p` that would be sound were its replacement of the child not to fail. */
  ghost predicate FailsToCycle(failing: Job, disk: Disk, used: iset<Profile>, p: Profile) {
    failing.profile == p && !failing.cycleOk && SoundJob(disk, failing.(cycleOk := true), used)
  }

  lemma SettledStep(cfg: Config, s: Sys, used: iset<Profile>, p: Profile, failing: Job)
    requires Aligns(cfg, s, used) && FailsToCycle(failing, s.disk, used, p)
    requires !StampAdvanced(NotedStamp(s.actor, p), Stamp(s.disk, p))
    ensures var t := Step(cfg, s, Message(failing));
            t.actor.healthy ==> Aligns(cfg, t, used)
  {
    var a := s.actor.(cycledWhileIdle := false);
    NothingToCycle(cfg, a, s.disk, failing);
    JobFresh(cfg, a, s.disk, used, failing.(cycleOk := true));
  }

  lemma AlignedHidesNothing(cfg: Config, a: Actor, disk: Disk, used: iset<Profile>, p: Profile)
    requires Shadow(cfg, a, disk, used)
    ensures !HidesStale(a, disk, p)
  {
    if Has(a.child.pool, p) && !StampAdvanced(NotedStamp(a, p), Stamp(disk, p)) {
      HeldIsCurrent(cfg, a, disk, used, p);
    }
  }

  /**
   From an aligned state, a call after one whose replacement failed is stale
   exactly when a replacement was due and what it was to replace is still held.
   */
  lemma FailedCycleHidesExactly(cfg: Config, s: Sys, used: iset<Profile>, p: Profile, failing: Job, next: Job)
    requires Aligns(cfg, s, used) && FailsToCycle(failing, s.disk, used, p)
    requires Undisturbed(next, Step(cfg, s, Message(failing)).disk, p)
    ensures EndsStale(Run(cfg, s, [Message(failing), Message(next)])) <==>
            && StampAdvanced(NotedStamp(s.actor, p), Stamp(s.disk, p))
            && Get(s.actor.child.pool, p) !in {None, Some(Import(s.disk, p))}
  {
    var t := Step(cfg, s, Message(failing));
    RunTwo(cfg, s, Message(failing), Message(next));
    if StampAdvanced(NotedStamp(s.actor, p), Stamp(s.disk, p)) {
      FailingStep(cfg, s, p, failing);
      CallEnds(cfg, t, p, next);
    } else {
      SettledStep(cfg, s, used, p, failing);
      if t.actor.healthy {
        AlignedHidesNothing(cfg, t.actor, t.disk, used, p);
        CallEnds(cfg, t, p, next);
      }
    }
  }

  /** Two imports of one profile differ exactly when its stamp rose, wherever the environment premise holds. */
  lemma RoseExactly(before: Disk, after: Disk, p: Profile)
    requires Ticks(before, after, p)
    ensures Import(before, p) != Import(after, p) <==> StampAdvanced(Stamp(before, p), Stamp(after, p))
  {
  }

  /**
   A profile is called, its artifacts are rebuilt or not, and its next call fails
   to replace the child: the call after that is stale exactly when they were rebuilt.
   */
  lemma FailedCycleHidesRebuild(
      cfg: Config, s: Sys, used: iset<Profile>, p: Profile, call: Job, disk: Disk, failing: Job, next: Job)
    requires Aligns(cfg, s, used) && p in used && Undisturbed(call, s.disk, p)
    requires Advances(s.disk, disk, used) && FailsToCycle(failing, disk, used, p)
    requires Undisturbed(next, Run(cfg, s, [Message(call), DiskMoves(disk), Message(failing)]).disk, p)
    ensures EndsStale(Run(cfg, s, [Message(call), DiskMoves(disk)] + [Message(failing), Message(next)])) <==>
            StampAdvanced(Stamp(s.disk, p), Stamp(disk, p))
  {
    var called := Step(cfg, s, Message(call));
    var moved := Step(cfg, called, DiskMoves(disk));
    CallHolds(cfg, s, used, p, call);
    ShadowAdvances(cfg, called.actor, s.disk, disk, used);
    RunTwo(cfg, s, Message(call), DiskMoves(disk));
    RunAppend(cfg, s, [Message(call), DiskMoves(disk)], [Message(failing)]);
    RunOne(cfg, moved, Message(failing));
    assert [Message(call), DiskMoves(disk)] + [Message(failing)] == [Message(call), DiskMoves(disk), Message(failing)];
    RunAppend(cfg, s, [Message(call), DiskMoves(disk)], [Message(failing), Message(next)]);
    FailedCycleHidesExactly(cfg, moved, used, p, failing, next);
    RoseExactly(s.disk, disk, p);
  }

  // --- calls that fail before their session opens --------------------------

  /** The profiles some calls ask for. */
  ghost function Profiles(jobs: seq<Job>): set<Profile> {
    set i | 0 <= i < |jobs| :: jobs[i].profile
  }

  function Messages(jobs: seq<Job>): seq<Event> {
    if jobs == [] then [] else Messages(jobs[..|jobs| - 1]) + [Message(jobs[|jobs| - 1])]
  }

  lemma UnopenedStep(cfg: Config, s: Sys, u: Profile, job: Job)
    requires s.actor.healthy && Unopened(job, s.disk, u)
    requires !StampAdvanced(NotedStamp(s.actor, u), Stamp(s.disk, u))
    ensures var t := Step(cfg, s, Message(job));
            && t.actor.healthy && t.disk == s.disk && t.actor.child == s.actor.child
            && t.actor.seen == Put(s.actor.seen, cfg.cap, u, Noted(Stamp(s.disk, u), cfg.clock(s.actor.readings)))
  {
    var a, at := s.actor.(cycledWhileIdle := false), job.attempts(0);
    var b := NoteImportProfile(cfg, a, u, Stamp(s.disk, u)).0;
    assert CycleIfImportsRebuilt(cfg, a, s.disk, u, job.cycleOk) == Outcome(b, Ok(None));
    var served := Served(cfg, b, job, 0);
    assert served == b;
    assert AccountLifecycleRestarts(cfg, served, b.child.restarts) == Outcome(b, Ok(None));
  }

  lemma HeldStaleExactly(env: Env, disk: Disk, p: Profile)
    requires Known(env, disk, p)
    ensures env != Import(disk, p) <==> StampAdvanced(env.stamp, Stamp(disk, p))
  {
  }

  lemma FirstIsPushedOut(cfg: Config, a: Actor, u: Profile, noted: Noted)
    requires Distinct(a.seen) && |a.seen| == cfg.cap && !Has(a.seen, u)
    ensures !Has(Put(a.seen, cfg.cap, u, noted), a.seen[0].key)
  {
    HasIsMembership(a.seen, u);
    HasIsMembership(Put(a.seen, cfg.cap, u, noted), a.seen[0].key);
    assert a.seen[0] in a.seen;
  }

  /**
   From an aligned state with a full shadow, a call for a new profile that fails
   before its session opens makes the next call for the oldest one stale exactly
   when the child holds that one from before its artifacts were last rebuilt.
   */
  lemma UnopenedJobHidesOldest(cfg: Config, s: Sys, used: iset<Profile>, lost: Job, disk: Disk, next: Job)
    requires Aligns(cfg, s, used) && |s.actor.seen| == cfg.cap
    requires Unopened(lost, s.disk, lost.profile) && !Has(s.actor.seen, lost.profile)
    requires Advances(s.disk, disk, used) && Undisturbed(next, disk, s.actor.seen[0].key)
    ensures var held := Get(s.actor.child.pool, s.actor.seen[0].key);
            EndsStale(Run(cfg, s, [Message(lost), DiskMoves(disk), Message(next)])) <==>
            held.Some? && StampAdvanced(held.value.stamp, Stamp(disk, s.actor.seen[0].key))
  {
    var p, u, t := s.actor.seen[0].key, lost.profile, Step(cfg, s, Message(lost));
    UnopenedStep(cfg, s, u, lost);
    FirstIsPushedOut(cfg, s.actor, u, Noted(Stamp(s.disk, u), cfg.clock(s.actor.readings)));
    CallEnds(cfg, Step(cfg, t, DiskMoves(disk)), p, next);
    RunThree(cfg, s, Message(lost), DiskMoves(disk), Message(next));
    KnownPoolAdvances(s.actor.child.pool, s.disk, disk, used);
    PooledEnv(s.actor.child.pool, disk, used, p);
    if Has(s.actor.child.pool, p) { HeldStaleExactly(Get(s.actor.child.pool, p).value, disk, p); }
  }

  /** The child is as `from` left it, and `imports_seen` has seen `since` after `p`. */
  ghost predicate Displaces(cfg: Config, from: Sys, s: Sys, p: Profile, since: set<Profile>) {
    && s.actor.healthy && s.disk == from.disk && s.actor.child == from.actor.child
    && Distinct(s.actor.seen) && |s.actor.seen| <= cfg.cap
    && UsedBefore(s.actor.seen, cfg.cap, p, since)
    && (forall u :: NotedStamp(s.actor, u) in {None, NotedStamp(from.actor, u), Stamp(from.disk, u)})
    && (Has(s.actor.seen, p) ==> NotedStamp(s.actor, p) == NotedStamp(from.actor, p))
  }

  lemma DisplacesOnce(cfg: Config, from: Sys, s: Sys, p: Profile, since: set<Profile>, job: Job)
    requires Displaces(cfg, from, s, p, since)
    requires Unopened(job, from.disk, job.profile) && job.profile != p
    requires !StampAdvanced(NotedStamp(from.actor, job.profile), Stamp(from.disk, job.profile))
    ensures Displaces(cfg, from, Step(cfg, s, Message(job)), p, since + {job.profile})
  {
    var (u, t) := (job.profile, Step(cfg, s, Message(job)));
    UnopenedStep(cfg, s, u, job);
    var noted := Noted(Stamp(s.disk, u), cfg.clock(s.actor.readings));
    PutFacts(s.actor.seen, cfg.cap, u, noted);
    UseOnce(s.actor.seen, cfg.cap, p, since, u, noted);
    forall v ensures NotedStamp(t.actor, v) in {None, NotedStamp(from.actor, v), Stamp(from.disk, v)} {
      if v != u { PutKeepsOthers(s.actor.seen, cfg.cap, u, noted, v); }
    }
    PutKeepsOthers(s.actor.seen, cfg.cap, u, noted, p);
  }

  /** Every job fails before its session opens, asks for another profile than `p`, and finds no rebuild of its own. */
  ghost predicate AllUnopened(a: Actor, disk: Disk, p: Profile, jobs: seq<Job>) {
    forall i :: 0 <= i < |jobs| ==>
      && Unopened(jobs[i], disk, jobs[i].profile)
      && jobs[i].profile != p
      && !StampAdvanced(NotedStamp(a, jobs[i].profile), Stamp(disk, jobs[i].profile))
  }

  lemma {:induction false} JobsDisplace(cfg: Config, from: Sys, p: Profile, jobs: seq<Job>)
    requires Displaces(cfg, from, from, p, {})
    requires AllUnopened(from.actor, from.disk, p, jobs)
    ensures Displaces(cfg, from, Run(cfg, from, Messages(jobs)), p, Profiles(jobs))
    decreases |jobs|
  {
    if jobs == [] {
      assert Profiles(jobs) == {};
    } else {
      var (init, last) := (jobs[..|jobs| - 1], jobs[|jobs| - 1]);
      JobsDisplace(cfg, from, p, init);
      RunAppend(cfg, from, Messages(init), [Message(last)]);
      RunOne(cfg, Run(cfg, from, Messages(init)), Message(last));
      DisplacesOnce(cfg, from, Run(cfg, from, Messages(init)), p, Profiles(init), last);
      ProfilesSnoc(jobs);
    }
  }

  lemma ProfilesSnoc(jobs: seq<Job>)
    requires jobs != []
    ensures Profiles(jobs) == Profiles(jobs[..|jobs| - 1]) + {jobs[|jobs| - 1].profile}
  {
    var init := jobs[..|jobs| - 1];
    forall u | u in Profiles(jobs) ensures u in Profiles(init) + {jobs[|jobs| - 1].profile} {
      var i :| 0 <= i < |jobs| && jobs[i].profile == u;
      assert i < |init| ==> init[i].profile == u;
    }
    forall u | u in Profiles(init) ensures u in Profiles(jobs) {
      var i :| 0 <= i < |init| && init[i].profile == u;
      assert jobs[i].profile == u;
    }
  }

  /** A call notes its own profile and at most forgets others. */
  lemma CallNotes(cfg: Config, s: Sys, p: Profile, call: Job, u: Profile)
    requires s.actor.healthy && Undisturbed(call, s.disk, p) && u != p
    requires Distinct(s.actor.seen) && |s.actor.seen| <= cfg.cap
    ensures NotedStamp(Step(cfg, s, Message(call)).actor, u) in {None, NotedStamp(s.actor, u)}
  {
    CallEnds(cfg, s, p, call);
    var a := s.actor.(cycledWhileIdle := false);
    var noted := Noted(Stamp(s.disk, p), cfg.clock(a.readings));
    PutKeepsOthers(a.seen, cfg.cap, p, noted, u);
    var b := NoteImportProfile(cfg, a, p, Stamp(s.disk, p)).0;
    RecordKeeps(cfg, b, ArtifactsRebuilt);
    assert b.seen == Put(a.seen, cfg.cap, p, noted);
    var c := CycleIfImportsRebuilt(cfg, a, s.disk, p, true).actor;
    assert c.seen == b.seen || c.seen == [Entry(p, noted)];
  }

  lemma CallStandsLast(cfg: Config, s: Sys, used: iset<Profile>, p: Profile, call: Job, jobs: seq<Job>)
    requires Aligns(cfg, s, used) && p in used && Undisturbed(call, s.disk, p)
    requires AllUnopened(s.actor, s.disk, p, jobs)
    ensures var t := Step(cfg, s, Message(call));
            Displaces(cfg, t, t, p, {}) && AllUnopened(t.actor, t.disk, p, jobs)
  {
    var t := Step(cfg, s, Message(call));
    CallHolds(cfg, s, used, p, call);
    forall i | 0 <= i < |jobs| ensures !StampAdvanced(NotedStamp(t.actor, jobs[i].profile), Stamp(s.disk, jobs[i].profile)) {
      CallNotes(cfg, s, p, call, jobs[i].profile);
    }
  }

  /** What is hidden once the disk has moved: the rebuild of a profile that was displaced. */
  lemma DisplacedHides(cfg: Config, from: Sys, s: Sys, used: iset<Profile>, p: Profile, since: set<Profile>, disk: Disk)
    requires Holds(cfg, from.actor, from.disk, used, p) && Displaces(cfg, from, s, p, since)
    requires Ticks(from.disk, disk, p)
    ensures HidesStale(s.actor, disk, p) <==> |since| >= cfg.cap && StampAdvanced(Stamp(from.disk, p), Stamp(disk, p))
  {
    UsedBeforeSaysHeld(s.actor.seen, cfg.cap, p, since);
    RoseExactly(from.disk, disk, p);
  }

  /**
   A profile is called, other calls fail before their sessions open, and the
   artifacts are rebuilt or not: the profile's next call is stale exactly when
   they were and the failed calls asked for at least as many profiles as the
   shadow holds.
   */
  lemma UnopenedJobsHideRebuild(
      cfg: Config, s: Sys, used: iset<Profile>, p: Profile, call: Job, jobs: seq<Job>, disk: Disk, next: Job)
    requires Aligns(cfg, s, used) && p in used && Undisturbed(call, s.disk, p)
    requires AllUnopened(s.actor, s.disk, p, jobs)
    requires Advances(s.disk, disk, used) && Undisturbed(next, disk, p)
    ensures EndsStale(Run(cfg, s, [Message(call)] + Messages(jobs) + [DiskMoves(disk), Message(next)])) <==>
            |Profiles(jobs)| >= cfg.cap && StampAdvanced(Stamp(s.disk, p), Stamp(disk, p))
  {
    var called := Step(cfg, s, Message(call));
    var after := Run(cfg, called, Messages(jobs));
    CallHolds(cfg, s, used, p, call);
    CallStandsLast(cfg, s, used, p, call, jobs);
    JobsDisplace(cfg, called, p, jobs);
    DisplacedHides(cfg, called, after, used, p, Profiles(jobs), disk);
    CallEnds(cfg, Step(cfg, after, DiskMoves(disk)), p, next);
    RunOne(cfg, s, Message(call));
    RunAppend(cfg, s, [Message(call)], Messages(jobs));
    RunAppend(cfg, s, [Message(call)] + Messages(jobs), [DiskMoves(disk), Message(next)]);
    RunTwo(cfg, after, DiskMoves(disk), Message(next));
  }

  // --- a run for each ------------------------------------------------------

  const Watched: Profile := ["Demo"]
  const Unrelated: Profile := ["Other"]

  /** A one-root disk where `Demo` holds `content`, built at `mtime`. */
  function DemoDisk(content: nat, mtime: nat): Disk {
    [map["Demo" := Olean(content, Some(mtime)), "Other" := Olean(0, Some(0))]]
  }

  function SmallConfig(cap: Positive): Config {
    Config(cap, 3, 60_000, 1, true, (i: nat) => i)
  }

  function PlainAttempt(disk: Disk): Attempt {
    Attempt(disk, 0, true, 1, 0, None, Value, None)
  }

  /** A job that opens its session at once and is answered. */
  function PlainJob(p: Profile, disk: Disk): Job {
    Job(p, true, k => PlainAttempt(disk), None, None)
  }

  /** A job whose only attempt fails without having opened a session. */
  function LostJob(p: Profile, disk: Disk): Job {
    Job(p, true, k => PlainAttempt(disk).(opens := false, reply := OtherError), None, None)
  }

  lemma DemoImport(content: nat, mtime: nat)
    ensures Import(DemoDisk(content, mtime), Watched) == Env([Some(content)], Some(mtime))
    ensures Import(DemoDisk(content, mtime), Unrelated) == Env([Some(0)], Some(0))
  {
    var d := DemoDisk(content, mtime);
    assert Resolve(d, "Demo") == Some(Olean(content, Some(mtime)));
    assert Resolve(d, "Other") == Some(Olean(0, Some(0)));
    assert Content(d, Watched) == [Some(content)];
    assert Content(d, Unrelated) == [Some(0)];
    assert Watched[..0] == [] && Unrelated[..0] == [];
    assert MtimeOf(d, Watched[0]) == Some(mtime) && MtimeOf(d, Unrelated[0]) == Some(0);
  }

  /** A fresh project, and the build that is to be missed. */
  lemma DemoPremises(cap: Positive)
    ensures Aligns(SmallConfig(cap), Initial(0, 1, DemoDisk(1, 10)), iset{Watched})
    ensures Advances(DemoDisk(1, 10), DemoDisk(2, 20), iset{Watched})
    ensures StampAdvanced(Stamp(DemoDisk(1, 10), Watched), Stamp(DemoDisk(2, 20), Watched))
  {
    DemoImport(1, 10);
    DemoImport(2, 20);
  }

  lemma FailingIsSound(disk: Disk)
    ensures FailsToCycle(PlainJob(Watched, disk).(cycleOk := false), disk, iset{Watched}, Watched)
  {
    var job := PlainJob(Watched, disk).(cycleOk := false).(cycleOk := true);
    assert forall k: nat :: job.attempts(k) == PlainAttempt(disk);
  }

  /**
   A replacement that fails has already recorded the new stamp, so the next
   call sees nothing to replace and the child answers from the old artifacts.
   */
  lemma FailedCycleServesStale()
    ensures var built, rebuilt := DemoDisk(1, 10), DemoDisk(2, 20);
            EndsStale(Run(SmallConfig(2), Initial(0, 1, built), [
              Message(PlainJob(Watched, built)), DiskMoves(rebuilt),
              Message(PlainJob(Watched, rebuilt).(cycleOk := false)), Message(PlainJob(Watched, rebuilt))]))
  {
    var cfg, built, rebuilt := SmallConfig(2), DemoDisk(1, 10), DemoDisk(2, 20);
    var s, used := Initial(0, 1, built), iset{Watched};
    var call, failing, next := PlainJob(Watched, built), PlainJob(Watched, rebuilt).(cycleOk := false), PlainJob(Watched, rebuilt);
    DemoPremises(2);
    FailingIsSound(rebuilt);
    FailingKeepsDisk(cfg, s, used, call, rebuilt, failing);
    FailedCycleHidesRebuild(cfg, s, used, Watched, call, rebuilt, failing, next);
    assert [Message(call), DiskMoves(rebuilt)] + [Message(failing), Message(next)]
           == [Message(call), DiskMoves(rebuilt), Message(failing), Message(next)];
  }

  lemma FailingKeepsDisk(cfg: Config, s: Sys, used: iset<Profile>, call: Job, disk: Disk, failing: Job)
    requires Aligns(cfg, s, used) && Watched in used && Undisturbed(call, s.disk, Watched)
    requires FailsToCycle(failing, disk, used, Watched)
    requires StampAdvanced(Stamp(s.disk, Watched), Stamp(disk, Watched))
    ensures Run(cfg, s, [Message(call), DiskMoves(disk), Message(failing)]).disk == disk
  {
    var called := Step(cfg, s, Message(call));
    CallHolds(cfg, s, used, Watched, call);
    FailingStep(cfg, Step(cfg, called, DiskMoves(disk)), Watched, failing);
    RunThree(cfg, s, Message(call), DiskMoves(disk), Message(failing));
  }

  lemma OneLostJob(job: Job, a: Actor, disk: Disk, p: Profile)
    requires Unopened(job, disk, job.profile) && job.profile != p
    requires NotedStamp(a, job.profile).None?
    ensures AllUnopened(a, disk, p, [job]) && Profiles([job]) == {job.profile} && Messages([job]) == [Message(job)]
  {
    ProfilesSnoc([job]);
    assert [job][..0] == [] && Profiles([]) == {} && Messages([]) == [];
  }

  lemma OneJobHidesRebuild(cfg: Config, s: Sys, used: iset<Profile>, p: Profile, call: Job, lost: Job, disk: Disk, next: Job)
    requires cfg.cap == 1 && Aligns(cfg, s, used) && p in used && Undisturbed(call, s.disk, p)
    requires Unopened(lost, s.disk, lost.profile) && lost.profile != p && NotedStamp(s.actor, lost.profile).None?
    requires Advances(s.disk, disk, used) && Undisturbed(next, disk, p)
    requires StampAdvanced(Stamp(s.disk, p), Stamp(disk, p))
    ensures EndsStale(Run(cfg, s, [Message(call), Message(lost), DiskMoves(disk), Message(next)]))
  {
    OneLostJob(lost, s.actor, s.disk, p);
    UnopenedJobsHideRebuild(cfg, s, used, p, call, [lost], disk, next);
    assert [Message(call)] + [Message(lost)] + [DiskMoves(disk), Message(next)]
           == [Message(call), Message(lost), DiskMoves(disk), Message(next)];
  }

  /**
   A job that fails before its session opens still pushes another profile out of
   a full `imports_seen`, while the child keeps that profile's environment.
   */
  lemma UnopenedJobServesStale()
    ensures var built, rebuilt := DemoDisk(1, 10), DemoDisk(2, 20);
            EndsStale(Run(SmallConfig(1), Initial(0, 1, built), [
              Message(PlainJob(Watched, built)), Message(LostJob(Unrelated, built)), DiskMoves(rebuilt),
              Message(PlainJob(Watched, rebuilt))]))
  {
    var built, rebuilt := DemoDisk(1, 10), DemoDisk(2, 20);
    DemoPremises(1);
    assert Unrelated[0] != Watched[0];
    OneJobHidesRebuild(SmallConfig(1), Initial(0, 1, built), iset{Watched}, Watched, PlainJob(Watched, built),
                       LostJob(Unrelated, built), rebuilt, PlainJob(Watched, rebuilt));
  }

  lemma CalledOnce(cfg: Config, disk: Disk)
    requires cfg == SmallConfig(2) && Import(disk, Watched) == Env([Some(1)], Some(10))
    ensures var a := Step(cfg, Initial(0, 1, disk), Message(PlainJob(Watched, disk))).actor;
            && a.healthy && a.seen == [Entry(Watched, Noted(Some(10), 0))]
            && a.child.residue == 1 && !a.cycledWhileIdle && a.readings == 1
  {
    var s, call := Initial(0, 1, disk), PlainJob(Watched, disk);
    CallEnds(cfg, s, Watched, call);
    assert call.attempts(0).charge == 1;
    assert cfg.clock(0) == 0;
  }

  lemma SmallPrewarms(cfg: Config, a: Actor, disk: Disk, q: Quiet)
    requires cfg == SmallConfig(2) && q.cycleOk && q.prewarmOpens
    requires a.seen == [Entry(Watched, Noted(Some(10), 0))]
    requires a.child.residue == 1 && !a.cycledWhileIdle && a.readings == 1
    ensures CycleOverSoftBudget(cfg, a, disk, cfg.hasRuntime, q).prewarmed == Some(Watched)
  {
    assert cfg.clock(1) == 1;
  }

  lemma PrewarmAfterCall(cfg: Config, s: Sys, called: Sys, call: Job, q: Quiet, next: Job)
    requires called == Step(cfg, s, Message(call)) && called.actor.healthy
    requires CycleOverSoftBudget(cfg, called.actor, called.disk, cfg.hasRuntime, q).prewarmed == Some(Watched)
    requires Undisturbed(next, q.stampDisk, Watched)
    requires Import(called.disk, Watched) != Import(q.stampDisk, Watched)
    ensures EndsStale(Run(cfg, s, [Message(call), QuietPeriod(q), Message(next)]))
  {
    PrewarmHidesExactly(cfg, called, q, Watched, next);
    RunThree(cfg, s, Message(call), QuietPeriod(q), Message(next));
    RunTwo(cfg, called, QuietPeriod(q), Message(next));
  }

  /** A build landing between the pre-warm's open and its stamp is recorded as if it had been imported. */
  lemma PrewarmRaceServesStale()
    ensures var built, rebuilt := DemoDisk(1, 10), DemoDisk(2, 20);
            EndsStale(Run(SmallConfig(2), Initial(0, 1, built), [
              Message(PlainJob(Watched, built)), QuietPeriod(Quiet(true, true, 1, rebuilt)), Message(PlainJob(Watched, rebuilt))]))
  {
    var cfg, built, rebuilt := SmallConfig(2), DemoDisk(1, 10), DemoDisk(2, 20);
    DemoImport(1, 10);
    DemoImport(2, 20);
    RacingPrewarm(cfg, built, rebuilt);
  }

  lemma RacingPrewarm(cfg: Config, built: Disk, rebuilt: Disk)
    requires cfg == SmallConfig(2) && Import(built, Watched) == Env([Some(1)], Some(10))
    requires Import(rebuilt, Watched) != Import(built, Watched)
    ensures EndsStale(Run(cfg, Initial(0, 1, built), [
              Message(PlainJob(Watched, built)), QuietPeriod(Quiet(true, true, 1, rebuilt)), Message(PlainJob(Watched, rebuilt))]))
  {
    var s, q, call := Initial(0, 1, built), Quiet(true, true, 1, rebuilt), PlainJob(Watched, built);
    var called := Step(cfg, s, Message(call));
    CallEnds(cfg, s, Watched, call);
    CalledOnce(cfg, built);
    SmallPrewarms(cfg, called.actor, called.disk, q);
    PrewarmAfterCall(cfg, s, called, call, q, PlainJob(Watched, rebuilt));
  }
}
