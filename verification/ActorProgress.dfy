/**
 What every step of the actor keeps, whatever its environment does: the crash
 breaker's spacing, the end of service after a refused restart, and a worker
 generation that tells child processes apart.
 */
module ActorProgress {
  import opened Wrappers
  import opened Lru
  import opened Artifacts
  import opened WorkerChild
  import opened ActorModel

  ghost predicate Monotone(clock: nat -> nat) {
    forall i: nat, j: nat :: i <= j ==> clock(i) <= clock(j)
  }

  /**
   `times` is the recent end of the accepted restarts, everything older left the
   window by now, and no `maxRestarts + 1` accepted restarts fit in one window.
   */
  ghost predicate WindowOk(times: seq<nat>, accepted: seq<nat>, now: nat, limit: nat, window: nat) {
    var gone := |accepted| - |times|;
    && 0 <= gone && accepted[gone..] == times
    && |times| <= limit
    && (forall i :: 0 <= i < |accepted| ==> accepted[i] <= now)
    && (forall i :: 0 <= i < gone ==> accepted[i] + window < now)
    && Spaced(accepted, limit, window)
  }

  ghost predicate BreakerOk(cfg: Config, a: Actor) {
    WindowOk(a.times, a.accepted, cfg.clock(a.readings), cfg.maxRestarts, cfg.window)
  }

  /** Any `limit + 1` consecutive entries span strictly more than the window. */
  ghost predicate Spaced(accepted: seq<nat>, limit: nat, window: nat) {
    forall i, j :: 0 <= i && j == i + limit && j < |accepted| ==> accepted[j] > accepted[i] + window
  }

  /**
   The generation never falls, rises by at least one per process replaced until
   it saturates, and does not move while the process stays the same.
   */
  ghost predicate Generations(a: Actor, b: Actor) {
    && a.child.process <= b.child.process
    && Observed(a) <= Observed(b)
    && (Observed(b) < U64_MAX ==> Observed(b) - Observed(a) >= b.child.process - a.child.process)
    && (b.child.process == a.child.process ==> Observed(b) == Observed(a))
  }

  /** What every step keeps; only the breaker needs the clock not to run backwards. */
  ghost predicate Progress(cfg: Config, a: Actor, b: Actor) {
    && (Monotone(cfg.clock) && BreakerOk(cfg, a) ==> BreakerOk(cfg, b))
    && (b.healthy ==> a.healthy)
    && Generations(a, b)
    && a.accepted <= b.accepted
  }

  /** Only the clock was read. */
  lemma ReadingKeepsBreaker(cfg: Config, a: Actor, b: Actor)
    requires Monotone(cfg.clock) && BreakerOk(cfg, a)
    requires b.times == a.times && b.accepted == a.accepted && a.readings <= b.readings
    ensures BreakerOk(cfg, b)
  {
    assert cfg.clock(a.readings) <= cfg.clock(b.readings);
  }

  lemma {:induction false} PruneDropsOld(times: seq<nat>, now: nat, window: nat) returns (k: nat)
    ensures k <= |times| && Prune(times, now, window) == times[k..]
    ensures forall i :: 0 <= i < k ==> times[i] + window < now
  {
    if times != [] && SatSub(now, times[0]) > window {
      k := PruneDropsOld(times[1..], now, window);
      assert times[1..][k..] == times[k + 1..];
      forall i | 0 <= i < k + 1 ensures times[i] + window < now {
        if i > 0 { assert times[i] == times[1..][i - 1]; }
      }
      k := k + 1;
    } else {
      k := 0;
    }
  }

  /** Dropping the restarts that left the window by `now` keeps it. */
  lemma PruneKeepsWindow(times: seq<nat>, accepted: seq<nat>, now: nat, limit: nat, window: nat)
    requires WindowOk(times, accepted, now, limit, window)
    ensures WindowOk(Prune(times, now, window), accepted, now, limit, window)
  {
    var k := PruneDropsOld(times, now, window);
    var older := |accepted| - |times|;
    assert accepted[older + k..] == times[k..];
    forall i | 0 <= i < older + k ensures accepted[i] + window < now {
      if i >= older { assert accepted[i] == times[i - older]; }
    }
  }

  /** Accepting one more restart into a window that is not full keeps the spacing. */
  lemma AcceptKeepsWindow(times: seq<nat>, accepted: seq<nat>, now: nat, limit: nat, window: nat)
    requires WindowOk(times, accepted, now, limit, window) && |times| < limit
    ensures WindowOk(times + [now], accepted + [now], now, limit, window)
  {
    var gone := |accepted| - |times|;
    assert (accepted + [now])[gone..] == times + [now];
  }

  lemma LaterKeepsWindow(times: seq<nat>, accepted: seq<nat>, now: nat, later: nat, limit: nat, window: nat)
    requires WindowOk(times, accepted, now, limit, window) && now <= later
    ensures WindowOk(times, accepted, later, limit, window)
  {
  }

  lemma RecordKeepsBreaker(cfg: Config, a: Actor, cause: Cause)
    requires Monotone(cfg.clock) && BreakerOk(cfg, a)
    ensures BreakerOk(cfg, RecordRestartOrStop(cfg, a, cause).actor)
  {
    if CountsTowardLimit(cause) {
      var now, later := cfg.clock(a.readings), cfg.clock(a.readings + 1);
      var recent := Prune(a.times, now, cfg.window);
      PruneKeepsWindow(a.times, a.accepted, now, cfg.maxRestarts, cfg.window);
      if |recent| < cfg.maxRestarts {
        AcceptKeepsWindow(recent, a.accepted, now, cfg.maxRestarts, cfg.window);
        LaterKeepsWindow(recent + [now], a.accepted + [now], now, later, cfg.maxRestarts, cfg.window);
      } else {
        LaterKeepsWindow(recent, a.accepted, now, later, cfg.maxRestarts, cfg.window);
      }
    }
  }

  /** An abnormal restart is refused exactly when the last `maxRestarts` accepted ones all lie in the window. */
  lemma RefusedExactly(cfg: Config, a: Actor, cause: Cause)
    requires Monotone(cfg.clock) && BreakerOk(cfg, a) && CountsTowardLimit(cause)
    ensures RecordRestartOrStop(cfg, a, cause).result.Err? <==>
            |a.accepted| >= cfg.maxRestarts
            && a.accepted[|a.accepted| - cfg.maxRestarts] + cfg.window >= cfg.clock(a.readings)
  {
    var now := cfg.clock(a.readings);
    var recent := Prune(a.times, now, cfg.window);
    PruneKeepsWindow(a.times, a.accepted, now, cfg.maxRestarts, cfg.window);
    PruneStops(a.times, now, cfg.window);
    if |recent| == cfg.maxRestarts {
      assert recent[0] == a.accepted[|a.accepted| - cfg.maxRestarts];
    }
  }

  lemma {:induction false} PruneStops(times: seq<nat>, now: nat, window: nat)
    ensures var r := Prune(times, now, window); r != [] ==> r[0] + window >= now
  {
    if times != [] && SatSub(now, times[0]) > window { PruneStops(times[1..], now, window); }
  }

  lemma RecordProgress(cfg: Config, a: Actor, cause: Cause)
    ensures Progress(cfg, a, RecordRestartOrStop(cfg, a, cause).actor)
  {
    if Monotone(cfg.clock) && BreakerOk(cfg, a) { RecordKeepsBreaker(cfg, a, cause); }
  }

  lemma {:induction false} RecordAllProgress(cfg: Config, a: Actor, cause: Cause, k: nat)
    ensures Progress(cfg, a, RecordRestarts(cfg, a, cause, k).actor)
    decreases k
  {
    if k > 0 {
      RecordProgress(cfg, a, cause);
      var first := RecordRestartOrStop(cfg, a, cause);
      if first.result.Ok? { RecordAllProgress(cfg, first.actor, cause, k - 1); }
    }
  }

  lemma NoteProgress(cfg: Config, a: Actor, p: Profile, stamp: Option<nat>)
    ensures Progress(cfg, a, NoteImportProfile(cfg, a, p, stamp).0)
  {
    if Monotone(cfg.clock) && BreakerOk(cfg, a) { ReadingKeepsBreaker(cfg, a, NoteImportProfile(cfg, a, p, stamp).0); }
  }

  lemma CycleProgress(cfg: Config, a: Actor, disk: Disk, p: Profile, cycleOk: bool)
    ensures Progress(cfg, a, CycleIfImportsRebuilt(cfg, a, disk, p, cycleOk).actor)
  {
    NoteProgress(cfg, a, p, Stamp(disk, p));
    RecordProgress(cfg, NoteImportProfile(cfg, a, p, Stamp(disk, p)).0, ArtifactsRebuilt);
  }

  lemma ServeProgress(cfg: Config, a: Actor, p: Profile, at: Attempt)
    ensures Progress(cfg, a, a.(child := Serve(a.child, cfg.cap, p, at)))
  {
  }

  lemma AccountProgress(cfg: Config, a: Actor, baseline: nat)
    ensures Progress(cfg, a, AccountLifecycleRestarts(cfg, a, baseline).actor)
  {
    RecordAllProgress(cfg, a, CauseOf(a.child.lastReason), SatSub(a.child.restarts, baseline));
  }

  lemma RebuildProgress(cfg: Config, a: Actor, cause: Cause, respawn: Option<nat>)
    ensures Progress(cfg, a, RebuildAfterDeath(cfg, a, cause, respawn).actor)
  {
    RecordProgress(cfg, a, cause);
  }

  lemma ProgressComposes(cfg: Config, a: Actor, b: Actor, c: Actor)
    requires Progress(cfg, a, b) && Progress(cfg, b, c)
    ensures Progress(cfg, a, c)
  {
  }

  lemma {:induction false} AttemptsProgress(
      cfg: Config, a: Actor, job: Job, k: nat, baseline: nat, callRestart: Option<Cause>, gen: nat)
    requires k <= MAX_JOB_RETRIES
    ensures Progress(cfg, a, RunAttempts(cfg, a, job, k, MAX_JOB_RETRIES, baseline, callRestart, gen).actor)
    decreases MAX_JOB_RETRIES - k
  {
    var at := job.attempts(k);
    var s := a.(child := Serve(a.child, cfg.cap, job.profile, at));
    var acc := AccountLifecycleRestarts(cfg, s, baseline);
    ServeProgress(cfg, a, job.profile, at);
    AccountProgress(cfg, s, baseline);
    ProgressComposes(cfg, a, s, acc.actor);
    if acc.result.Ok? && IsRetryable(at.reply) && k < MAX_JOB_RETRIES {
      var rb := RebuildAfterDeath(cfg, acc.actor, ReplyCause(at.reply), at.respawn);
      RebuildProgress(cfg, acc.actor, ReplyCause(at.reply), at.respawn);
      ProgressComposes(cfg, a, acc.actor, rb.actor);
      if rb.result.Ok? {
        var end := RunAttempts(cfg, rb.actor, job, k + 1, MAX_JOB_RETRIES, rb.actor.child.restarts,
                               Some(rb.result.value), gen);
        AttemptsProgress(cfg, rb.actor, job, k + 1, rb.actor.child.restarts, Some(rb.result.value), gen);
        ProgressComposes(cfg, a, rb.actor, end.actor);
      }
    }
  }

  lemma JobProgress(cfg: Config, a: Actor, disk: Disk, job: Job)
    ensures Progress(cfg, a, RunJob(cfg, a, disk, job).actor)
  {
    CycleProgress(cfg, a, disk, job.profile, job.cycleOk);
    var c := CycleIfImportsRebuilt(cfg, a, disk, job.profile, job.cycleOk);
    if c.result.Ok? {
      AttemptsProgress(cfg, c.actor, job, 0, c.actor.child.restarts, c.result.value, Observed(a));
      var end := RunAttempts(cfg, c.actor, job, 0, MAX_JOB_RETRIES, c.actor.child.restarts, c.result.value, Observed(a));
      ProgressComposes(cfg, a, c.actor, end.actor);
      assert Progress(cfg, end.actor, Finalize(a, end, job));
    }
  }

  lemma QuietProgress(cfg: Config, a: Actor, disk: Disk, quiesced: bool, q: Quiet)
    ensures Progress(cfg, a, CycleOverSoftBudget(cfg, a, disk, quiesced, q).actor)
  {
    var b := CycleOverSoftBudget(cfg, a, disk, quiesced, q).actor;
    if Monotone(cfg.clock) && BreakerOk(cfg, a) { ReadingKeepsBreaker(cfg, a, b); }
  }

  lemma StepProgress(cfg: Config, s: Sys, e: Event)
    ensures Progress(cfg, s.actor, Step(cfg, s, e).actor)
  {
    match e
    case DiskMoves(_) =>
    case SupervisorRestarts(_, _) =>
    case Message(job) =>
      if s.actor.healthy { JobProgress(cfg, s.actor.(cycledWhileIdle := false), s.disk, job); }
    case SemanticMessage(_, _, _) =>
    case QuietPeriod(q) => QuietProgress(cfg, s.actor, s.disk, cfg.hasRuntime, q);
  }

  // --- run theorems ----------------------------------------------------------

  predicate IsRefusal(o: Output) {
    o.NotAnswered? && o.error.Some? && o.error.value.RestartLimit?
  }

  predicate IsHandled(o: Output) {
    o.Answered? || o.NotAnswered?
  }

  /** Once a restart was refused, no later message is handled. */
  ghost predicate RefusalIsFinal(log: seq<Output>) {
    forall i, j :: 0 <= i < j < |log| && IsRefusal(log[i]) ==> !IsHandled(log[j])
  }

  /** Between two idle cycles a message was handled. */
  ghost predicate CyclesSeparated(log: seq<Output>) {
    forall i, j :: 0 <= i < j < |log| && log[i].IdleCycled? && log[j].IdleCycled? ==> HandledBetween(log, i, j)
  }

  ghost predicate HandledBetween(log: seq<Output>, i: int, j: int)
    requires 0 <= i < j <= |log|
  {
    exists k :: i < k < j && IsHandled(log[k])
  }

  /** A quiet period that has taken its cycle since the last handled message. */
  ghost predicate QuietSpent(log: seq<Output>) {
    exists i :: 0 <= i < |log| && log[i].IdleCycled? && !HandledBetween(log, i, |log|)
  }

  ghost predicate RunOk(cfg: Config, s: Sys) {
    && BreakerOk(cfg, s.actor)
    && ((exists o :: o in s.log && IsRefusal(o)) ==> !s.actor.healthy)
    && RefusalIsFinal(s.log)
    && (QuietSpent(s.log) ==> s.actor.cycledWhileIdle)
    && CyclesSeparated(s.log)
  }

  lemma {:induction false} LoopRefusalUnhealthy(
      cfg: Config, a: Actor, job: Job, k: nat, baseline: nat, callRestart: Option<Cause>, gen: nat)
    requires k <= MAX_JOB_RETRIES
    ensures var end := RunAttempts(cfg, a, job, k, MAX_JOB_RETRIES, baseline, callRestart, gen);
            && (end.exit.Failed? && end.exit.error.RestartLimit? ==> !end.actor.healthy)
            && end.actor.cycledWhileIdle == a.cycledWhileIdle
    decreases MAX_JOB_RETRIES - k
  {
    var at := job.attempts(k);
    var s := a.(child := Serve(a.child, cfg.cap, job.profile, at));
    RecordAllRefusal(cfg, s, CauseOf(s.child.lastReason), SatSub(s.child.restarts, baseline));
    var acc := AccountLifecycleRestarts(cfg, s, baseline);
    if acc.result.Ok? && IsRetryable(at.reply) && k < MAX_JOB_RETRIES {
      var rb := RebuildAfterDeath(cfg, acc.actor, ReplyCause(at.reply), at.respawn);
      if rb.result.Ok? {
        LoopRefusalUnhealthy(cfg, rb.actor, job, k + 1, rb.actor.child.restarts, Some(rb.result.value), gen);
      }
    }
  }

  lemma {:induction false} RecordAllRefusal(cfg: Config, a: Actor, cause: Cause, k: nat)
    ensures var r := RecordRestarts(cfg, a, cause, k);
            && (r.result.Err? ==> !r.actor.healthy)
            && r.actor.cycledWhileIdle == a.cycledWhileIdle
    decreases k
  {
    if k > 0 { RecordAllRefusal(cfg, RecordRestartOrStop(cfg, a, cause).actor, cause, k - 1); }
  }

  lemma JobRefusalUnhealthy(cfg: Config, a: Actor, disk: Disk, job: Job)
    ensures var run := RunJob(cfg, a, disk, job);
            && (run.exit.Failed? && run.exit.error.RestartLimit? ==> !run.actor.healthy)
            && run.actor.cycledWhileIdle == a.cycledWhileIdle
  {
    var c := CycleIfImportsRebuilt(cfg, a, disk, job.profile, job.cycleOk);
    if c.result.Ok? {
      LoopRefusalUnhealthy(cfg, c.actor, job, 0, c.actor.child.restarts, c.result.value, Observed(a));
    }
  }

  /** Appending an output neither makes nor breaks what was handled between two earlier ones. */
  lemma BetweenStays(log: seq<Output>, o: Output, i: int, j: int)
    requires 0 <= i < j <= |log|
    ensures HandledBetween(log + [o], i, j) <==> HandledBetween(log, i, j)
  {
    var grown := log + [o];
    if HandledBetween(log, i, j) {
      var k :| i < k < j && IsHandled(log[k]);
      assert IsHandled(grown[k]);
    }
    if HandledBetween(grown, i, j) {
      var k :| i < k < j && IsHandled(grown[k]);
      assert IsHandled(log[k]);
    }
  }

  /** Appending one output keeps the log's ordering facts. */
  lemma LogGrows(log: seq<Output>, o: Output)
    requires RefusalIsFinal(log) && CyclesSeparated(log)
    requires IsHandled(o) ==> !exists r :: r in log && IsRefusal(r)
    requires o.IdleCycled? ==> !QuietSpent(log)
    ensures RefusalIsFinal(log + [o]) && CyclesSeparated(log + [o])
  {
    var grown := log + [o];
    forall i, j | 0 <= i < j < |grown| && grown[i].IdleCycled? && grown[j].IdleCycled?
      ensures HandledBetween(grown, i, j)
    {
      assert grown[i] == log[i] && log[i].IdleCycled?;
      BetweenStays(log, o, i, j);
    }
    forall i, j | 0 <= i < j < |grown| && IsRefusal(grown[i]) ensures !IsHandled(grown[j]) {
      assert grown[i] == log[i] && log[i] in log;
    }
  }

  /** A quiet period is unspent until its cycle, and a handled message starts a new one. */
  lemma QuietGrows(log: seq<Output>, o: Output)
    requires !o.IdleCycled? && QuietSpent(log + [o])
    ensures QuietSpent(log) && !IsHandled(o)
  {
    var grown := log + [o];
    var i :| 0 <= i < |grown| && grown[i].IdleCycled? && !HandledBetween(grown, i, |grown|);
    assert grown[|log|] == o;
    assert i < |log| && log[i].IdleCycled?;
    BetweenStays(log, o, i, |log|);
    assert !HandledBetween(grown, i, |log|);
  }

  lemma StepKeepsRunOk(cfg: Config, s: Sys, e: Event)
    requires Monotone(cfg.clock) && RunOk(cfg, s)
    ensures RunOk(cfg, Step(cfg, s, e))
  {
    StepProgress(cfg, s, e);
    var t := Step(cfg, s, e);
    if e.Message? && s.actor.healthy {
      JobRefusalUnhealthy(cfg, s.actor.(cycledWhileIdle := false), s.disk, e.job);
    }
    if t.log != s.log {
      var o := t.log[|s.log|];
      assert t.log == s.log + [o];
      LogGrows(s.log, o);
      if !o.IdleCycled? && QuietSpent(t.log) { QuietGrows(s.log, o); }
    }
  }

  lemma InitialRunOk(cfg: Config, process: nat, generation: nat, disk: Disk)
    ensures RunOk(cfg, Initial(process, generation, disk))
  {
  }

  /**
   On a non-decreasing clock, over every run: accepted abnormal restarts keep
   their spacing, a refused restart ends service for good, and a quiet period
   takes at most one idle cycle.
   */
  lemma {:induction false} EveryRunIsOk(cfg: Config, process: nat, generation: nat, disk: Disk, events: seq<Event>)
    requires Monotone(cfg.clock)
    ensures RunOk(cfg, Run(cfg, Initial(process, generation, disk), events))
    decreases |events|
  {
    if events == [] {
      InitialRunOk(cfg, process, generation, disk);
    } else {
      EveryRunIsOk(cfg, process, generation, disk, events[..|events| - 1]);
      StepKeepsRunOk(cfg, Run(cfg, Initial(process, generation, disk), events[..|events| - 1]), events[|events| - 1]);
    }
  }

  /** Along every run the generation tells child processes apart, so equal generations mean one process. */
  lemma {:induction false} GenerationNamesTheChild(cfg: Config, s: Sys, events: seq<Event>)
    ensures var t := Run(cfg, s, events);
            && Generations(s.actor, t.actor)
            && (Observed(t.actor) < U64_MAX ==>
                  (Observed(s.actor) == Observed(t.actor) <==> s.actor.child.process == t.actor.child.process))
    decreases |events|
  {
    if events != [] {
      var before := events[..|events| - 1];
      GenerationNamesTheChild(cfg, s, before);
      StepProgress(cfg, Run(cfg, s, before), events[|events| - 1]);
    }
  }

  /** A CPU delta is reported only when both samples come from the same child. */
  lemma CpuDeltaIsOneChild(cfg: Config, a: Actor, disk: Disk, job: Job)
    ensures var run := RunJob(cfg, a, disk, job);
            !run.exit.Failed? && Observed(run.actor) < U64_MAX ==>
              && run.actor.published != []
              && (run.actor.published[|run.actor.published| - 1].cpu.Some? ==>
                    run.actor.child.process == a.child.process)
  {
    JobProgress(cfg, a, disk, job);
  }

  // --- one call ---------------------------------------------------------------

  /** A refusal publishes once; an accepted restart publishes nothing. */
  lemma {:induction false} RecordAllPublishes(cfg: Config, a: Actor, cause: Cause, k: nat)
    ensures var r := RecordRestarts(cfg, a, cause, k);
            && a.published <= r.actor.published
            && |r.actor.published| == |a.published| + (if r.result.Ok? then 0 else 1)
            && (r.result.Err? ==> r.result.error.RestartLimit?)
    decreases k
  {
    if k > 0 { RecordAllPublishes(cfg, RecordRestartOrStop(cfg, a, cause).actor, cause, k - 1); }
  }

  /** Every attempt but the last ended in a retryable reply, whichever of the two kinds it was. */
  ghost predicate Retried(job: Job, first: nat, last: nat) {
    forall i :: first <= i < last ==> IsRetryable(job.attempts(i).reply)
  }

  lemma {:induction false} LoopRuns(
      cfg: Config, a: Actor, job: Job, k: nat, baseline: nat, callRestart: Option<Cause>, gen: nat)
    requires k <= MAX_JOB_RETRIES
    ensures var end := RunAttempts(cfg, a, job, k, MAX_JOB_RETRIES, baseline, callRestart, gen);
            && k <= end.retries <= MAX_JOB_RETRIES
            && Retried(job, k, end.retries)
            && end.disk == job.attempts(end.retries).disk
            && (!end.exit.Failed? ==>
                  && (end.exit.Done? <==> job.attempts(end.retries).reply.Value?)
                  && (IsRetryable(job.attempts(end.retries).reply) ==> end.retries == MAX_JOB_RETRIES))
            && a.published <= end.actor.published
            && |end.actor.published| == |a.published|
               + (if end.exit.Failed? && end.exit.error.RestartLimit? then 1 else 0)
    decreases MAX_JOB_RETRIES - k
  {
    var at := job.attempts(k);
    var s := a.(child := Serve(a.child, cfg.cap, job.profile, at));
    RecordAllPublishes(cfg, s, CauseOf(s.child.lastReason), SatSub(s.child.restarts, baseline));
    var acc := AccountLifecycleRestarts(cfg, s, baseline);
    if acc.result.Ok? && IsRetryable(at.reply) && k < MAX_JOB_RETRIES {
      RecordAllPublishes(cfg, acc.actor, ReplyCause(at.reply), 1);
      var rb := RebuildAfterDeath(cfg, acc.actor, ReplyCause(at.reply), at.respawn);
      if rb.result.Ok? {
        LoopRuns(cfg, rb.actor, job, k + 1, rb.actor.child.restarts, Some(rb.result.value), gen);
      }
    }
  }

  /**
   The retry loop runs the job once more than it retries, death and missing
   session drawing on one budget, and a call that leaves through the loop
   publishes its facts exactly once, with its retry count.
   */
  lemma JobRunsAndPublishes(cfg: Config, a: Actor, disk: Disk, job: Job)
    ensures var run := RunJob(cfg, a, disk, job);
            && run.runs <= MAX_JOB_RETRIES + 1
            && (run.runs == 0 <==> job.cycleOk == false && CycleIfImportsRebuilt(cfg, a, disk, job.profile, true).result
                                   == Ok(Some(ArtifactsRebuilt)))
            && (run.runs > 0 ==> Retried(job, 0, run.runs - 1) && run.disk == job.attempts(run.runs - 1).disk)
            && (!run.exit.Failed? ==>
                  && |run.actor.published| == |a.published| + 1
                  && a.published <= run.actor.published
                  && run.actor.published[|a.published|].retryCount == run.runs - 1
                  && run.actor.published[|a.published|].generation == Observed(run.actor)
                  && (IsRetryable(job.attempts(run.runs - 1).reply) ==> run.runs == MAX_JOB_RETRIES + 1))
            && (run.exit.Failed? ==>
                  |run.actor.published| == |a.published| + (if run.exit.error.RestartLimit? then 1 else 0))
  {
    var c := CycleIfImportsRebuilt(cfg, a, disk, job.profile, job.cycleOk);
    if c.result.Ok? {
      LoopRuns(cfg, c.actor, job, 0, c.actor.child.restarts, c.result.value, Observed(a));
    }
  }

  /** The job's end depends on the attempts it ran and on no other. */
  lemma {:induction false} LoopSeesOnlyItsRuns(
      cfg: Config, a: Actor, job: Job, other: Job, k: nat, baseline: nat, callRestart: Option<Cause>, gen: nat)
    requires k <= MAX_JOB_RETRIES && other.profile == job.profile
    requires var end := RunAttempts(cfg, a, job, k, MAX_JOB_RETRIES, baseline, callRestart, gen);
             forall i :: k <= i <= end.retries ==> other.attempts(i) == job.attempts(i)
    ensures RunAttempts(cfg, a, other, k, MAX_JOB_RETRIES, baseline, callRestart, gen)
            == RunAttempts(cfg, a, job, k, MAX_JOB_RETRIES, baseline, callRestart, gen)
    decreases MAX_JOB_RETRIES - k
  {
    LoopRuns(cfg, a, job, k, baseline, callRestart, gen);
    assert other.attempts(k) == job.attempts(k);
    var at := job.attempts(k);
    var s := a.(child := Serve(a.child, cfg.cap, job.profile, at));
    var acc := AccountLifecycleRestarts(cfg, s, baseline);
    if acc.result.Ok? && IsRetryable(at.reply) && k < MAX_JOB_RETRIES {
      var rb := RebuildAfterDeath(cfg, acc.actor, ReplyCause(at.reply), at.respawn);
      if rb.result.Ok? {
        LoopSeesOnlyItsRuns(cfg, rb.actor, job, other, k + 1, rb.actor.child.restarts, Some(rb.result.value), gen);
      }
    }
  }

  /**
   An idle cycle leaves `imports_seen` empty, or holding only the profile that
   was most recently served, recently enough, and was just imported again; and
   the actor then waits with no timer however much residue that import left.
   */
  lemma IdleCycleLeaves(cfg: Config, a: Actor, disk: Disk, quiesced: bool, q: Quiet)
    ensures var r := CycleOverSoftBudget(cfg, a, disk, quiesced, q);
            r.cycled ==>
              && !OverSoftBudget(cfg, r.actor)
              && r.actor.child.process == a.child.process + 1
              && match r.prewarmed
                 case None => r.actor.seen == [] && r.actor.child.pool == []
                 case Some(p) =>
                   && quiesced && Some(p) == CurrentProfile(a)
                   && SatSub(cfg.clock(a.readings), a.seen[|a.seen| - 1].value.lastServed) <= PREWARM_RECENCY
                   && r.actor.seen == [Entry(p, Noted(Stamp(q.stampDisk, p), cfg.clock(a.readings + 1)))]
                   && r.actor.child.pool == [Entry(p, Import(disk, p))]
  {
  }

  // --- planned restarts ---------------------------------------------------------

  /** Nothing abnormal happens in the event: every replacement is planned and no attempt dies or loses its session. */
  ghost predicate PlannedOnly(e: Event) {
    e.Message? ==>
      forall k: nat :: !IsRetryable(e.job.attempts(k).reply) && !CountsTowardLimit(CauseOf(e.job.attempts(k).reason))
  }

  lemma {:induction false} PlannedRecordsNothing(cfg: Config, a: Actor, cause: Cause, k: nat)
    requires !CountsTowardLimit(cause)
    ensures RecordRestarts(cfg, a, cause, k) == Outcome(a, Ok(()))
    decreases k
  {
    if k > 0 { PlannedRecordsNothing(cfg, a, cause, k - 1); }
  }

  /** Planned replacements, however many, never consume the restart budget nor end service. */
  lemma {:induction false} PlannedRunStaysHealthy(cfg: Config, s: Sys, events: seq<Event>)
    requires s.actor.healthy
    requires forall e :: e in events ==> PlannedOnly(e)
    ensures var t := Run(cfg, s, events);
            t.actor.healthy && t.actor.times == s.actor.times && t.actor.accepted == s.actor.accepted
    decreases |events|
  {
    if events != [] {
      var before, e := events[..|events| - 1], events[|events| - 1];
      assert e in events;
      forall x | x in before ensures x in events { }
      PlannedRunStaysHealthy(cfg, s, before);
      if e.Message? {
        var r := Run(cfg, s, before);
        PlannedJob(cfg, r.actor.(cycledWhileIdle := false), r.disk, e.job);
      }
    }
  }

  lemma PlannedJob(cfg: Config, a: Actor, disk: Disk, job: Job)
    requires PlannedOnly(Message(job))
    ensures var b := RunJob(cfg, a, disk, job).actor;
            b.healthy == a.healthy && b.times == a.times && b.accepted == a.accepted
  {
    var c := CycleIfImportsRebuilt(cfg, a, disk, job.profile, job.cycleOk);
    if c.result.Ok? {
      PlannedAttempt(cfg, c.actor, job, c.result.value, Observed(a));
    }
  }

  lemma PlannedAttempt(cfg: Config, a: Actor, job: Job, callRestart: Option<Cause>, gen: nat)
    requires PlannedOnly(Message(job))
    ensures var b := RunAttempts(cfg, a, job, 0, MAX_JOB_RETRIES, a.child.restarts, callRestart, gen).actor;
            b.healthy == a.healthy && b.times == a.times && b.accepted == a.accepted
  {
    var at := job.attempts(0);
    assert !IsRetryable(at.reply) && !CountsTowardLimit(CauseOf(at.reason));
    var s := a.(child := Serve(a.child, cfg.cap, job.profile, at));
    PlannedRecordsNothing(cfg, s, CauseOf(at.reason), at.restartsBefore + at.restartsAfter);
  }
}
