/**
 The project actor as the server runs it: one object whose methods update its
 fields in place. Each method is tied to the function of ActorModel that the run
 theorems are about.
 */
module ProjectActor {
  import opened Wrappers
  import opened Lru
  import opened Artifacts
  import opened WorkerChild
  import opened ActorModel

  class ProjectActorState {
    const cfg: Config
    var child: Child
    var workerGenerationBase: nat
    var importsSeen: Recency<Profile, Noted>
    var abnormalRestartTimes: seq<nat>
    var healthy: bool
    var cycledWhileIdle: bool
    var runtime: Option<Facts>
    var readings: nat
    ghost var accepted: seq<nat>
    ghost var published: seq<Facts>

    ghost function State(): Actor
      reads this
    {
      Actor(child, workerGenerationBase, importsSeen, abnormalRestartTimes, accepted, healthy, readings,
            cycledWhileIdle, published)
    }

    /** The published snapshot is the latest publication. */
    ghost predicate Valid()
      reads this
    {
      runtime == if published == [] then None else Some(published[|published| - 1])
    }

    constructor (cfg: Config, process: nat, generation: nat)
      ensures Valid() && this.cfg == cfg
      ensures forall disk :: Initial(process, generation, disk) == Sys(State(), disk, [])
    {
      this.cfg := cfg;
      child := Spawn(process, generation);
      workerGenerationBase := 1;
      importsSeen := [];
      abnormalRestartTimes := [];
      healthy := true;
      cycledWhileIdle := false;
      runtime := None;
      readings := 0;
      accepted := [];
      published := [];
    }

    method Now() returns (t: nat)
      modifies this`readings
      ensures t == cfg.clock(old(readings)) && readings == old(readings) + 1
    {
      t := cfg.clock(readings);
      readings := readings + 1;
    }

    method PublishRuntime(facts: Facts)
      modifies this`runtime, this`published
      ensures Valid() && published == old(published) + [facts]
    {
      runtime := Some(facts);
      published := published + [facts];
    }

    method ObservedGeneration() returns (generation: nat)
      ensures generation == Observed(State())
    {
      generation := SatAdd(workerGenerationBase, child.generation);
    }

    method ForgetOldRestarts(now: nat)
      modifies this`abnormalRestartTimes
      ensures abnormalRestartTimes == Prune(old(abnormalRestartTimes), now, cfg.window)
    {
      while abnormalRestartTimes != [] && SatSub(now, abnormalRestartTimes[0]) > cfg.window
        invariant Prune(abnormalRestartTimes, now, cfg.window) == Prune(old(abnormalRestartTimes), now, cfg.window)
        decreases |abnormalRestartTimes|
      {
        abnormalRestartTimes := abnormalRestartTimes[1..];
      }
    }

    /** No more restarts: the project is unhealthy from here on, and says so. */
    method Refuse()
      requires Valid()
      modifies this`healthy, this`runtime, this`published
      ensures Valid() && !healthy
      ensures published == old(published)
                           + [Facts(Observed(State()), false, MAX_JOB_RETRIES, None, None, CurrentProfile(State()))]
    {
      healthy := false;
      var generation := ObservedGeneration();
      PublishRuntime(Facts(generation, false, MAX_JOB_RETRIES, None, None,
                           if importsSeen == [] then None else Some(importsSeen[|importsSeen| - 1].key)));
    }

    method RecordOrStop(cause: Cause) returns (r: Result<(), JobError>)
      requires Valid()
      modifies this
      ensures Valid() && Outcome(State(), r) == RecordRestartOrStop(cfg, old(State()), cause)
    {
      if !CountsTowardLimit(cause) {
        return Ok(());
      }
      var now := Now();
      ForgetOldRestarts(now);
      if |abnormalRestartTimes| >= cfg.maxRestarts {
        Refuse();
        return Err(RestartLimit(cause));
      }
      abnormalRestartTimes := abnormalRestartTimes + [now];
      accepted := accepted + [now];
      r := Ok(());
    }

    method PositionOf(p: Profile) returns (index: nat)
      ensures index == Find(importsSeen, p)
    {
      index := 0;
      while index < |importsSeen| && importsSeen[index].key != p
        invariant 0 <= index <= |importsSeen|
        invariant forall j :: 0 <= j < index ==> importsSeen[j].key != p
      {
        index := index + 1;
      }
    }

    method EvictOldest()
      modifies this`importsSeen
      ensures importsSeen == Newest(old(importsSeen), cfg.cap - 1)
    {
      while |importsSeen| >= cfg.cap
        invariant Newest(importsSeen, cfg.cap - 1) == Newest(old(importsSeen), cfg.cap - 1)
        decreases |importsSeen|
      {
        importsSeen := importsSeen[1..];
      }
    }

    /** Record that `p` is now the most recently served profile, at `stamp`; return its previous stamp. */
    method NoteProfile(p: Profile, stamp: Option<nat>) returns (previous: Option<nat>)
      requires Valid()
      modifies this`importsSeen, this`readings
      ensures Valid() && (State(), previous) == NoteImportProfile(cfg, old(State()), p, stamp)
    {
      var index := PositionOf(p);
      if index < |importsSeen| {
        previous := importsSeen[index].value.stamp;
        importsSeen := importsSeen[..index] + importsSeen[index + 1..];
      } else {
        previous := None;
        EvictOldest();
      }
      var now := Now();
      importsSeen := importsSeen + [Entry(p, Noted(stamp, now))];
    }

    method ForgetPooledImportProfiles()
      modifies this`importsSeen
      ensures importsSeen == ForgetPooled(old(importsSeen))
    {
      if importsSeen != [] {
        importsSeen := [importsSeen[|importsSeen| - 1]];
      }
    }

    method CycleIfRebuilt(disk: Disk, p: Profile, cycleOk: bool) returns (r: Result<Option<Cause>, JobError>)
      requires Valid()
      modifies this
      ensures Valid() && Outcome(State(), r) == CycleIfImportsRebuilt(cfg, old(State()), disk, p, cycleOk)
    {
      var stamp := ImportArtifactStamp(disk, p);
      var previous := NoteProfile(p, stamp);
      if previous.None? || stamp.None? || stamp.value <= previous.value {
        return Ok(None);
      }
      var recorded := RecordOrStop(ArtifactsRebuilt);
      if recorded.Err? {
        return Err(recorded.error);
      }
      if !cycleOk {
        return Err(CycleFailed);
      }
      child := Replaced(child, 1, Some(ByRequest));
      ForgetPooledImportProfiles();
      r := Ok(Some(ArtifactsRebuilt));
    }

    method AccountRestartsSince(baseline: nat) returns (r: Result<Option<Cause>, JobError>)
      requires Valid()
      modifies this
      ensures Valid() && Outcome(State(), r) == AccountLifecycleRestarts(cfg, old(State()), baseline)
    {
      var restarted := SatSub(child.restarts, baseline);
      if restarted == 0 {
        return Ok(None);
      }
      var cause := CauseOf(child.lastReason);
      var left := restarted;
      while left > 0
        invariant 0 <= left <= restarted && Valid()
        invariant RecordRestarts(cfg, State(), cause, left) == RecordRestarts(cfg, old(State()), cause, restarted)
      {
        var recorded := RecordOrStop(cause);
        if recorded.Err? {
          return Err(recorded.error);
        }
        left := left - 1;
      }
      ForgetPooledImportProfiles();
      r := Ok(Some(cause));
    }

    method RebuildAfterWorkerDeath(cause: Cause, respawn: Option<nat>) returns (r: Result<Cause, JobError>)
      requires Valid()
      modifies this
      ensures Valid() && Outcome(State(), r) == RebuildAfterDeath(cfg, old(State()), cause, respawn)
    {
      var recorded := RecordOrStop(cause);
      if recorded.Err? {
        return Err(recorded.error);
      }
      var observed := ObservedGeneration();
      var nextGeneration := SatAdd(observed, 1);
      if respawn.None? {
        return Err(RespawnFailed);
      }
      child := Spawn(child.process + 1, respawn.value);
      workerGenerationBase := nextGeneration;
      ForgetPooledImportProfiles();
      r := Ok(cause);
    }

    /** One attempt, the accounting after it, and the rebuild when it is to be tried again. */
    method RunOnce(job: Job, retries: nat, maxRetries: nat, baseline: nat, callRestart: Option<Cause>,
                   generationBefore: nat)
        returns (t: Turn)
      requires Valid() && retries <= maxRetries
      modifies this
      ensures Valid()
      ensures Turned(State(), t) == TurnOf(cfg, old(State()), job, retries, maxRetries, baseline, callRestart, generationBefore)
    {
      var at := job.attempts(retries);
      var env := AnsweredIn(child, job.profile, at);
      child := WorkerChild.Serve(child, cfg.cap, job.profile, at);
      var accounted := AccountRestartsSince(baseline);
      if accounted.Err? {
        return Settled(callRestart, Failed(accounted.error));
      }
      if !IsRetryable(at.reply) || retries >= maxRetries {
        var generation := ObservedGeneration();
        return Settled(if accounted.value.Some? then accounted.value else callRestart,
                       LastExit(at.reply, env, generation, generationBefore));
      }
      var rebuilt := RebuildAfterWorkerDeath(ReplyCause(at.reply), at.respawn);
      t := if rebuilt.Err? then Settled(callRestart, Failed(rebuilt.error)) else Again(rebuilt.value);
    }

    /** Run the job until it needs no retry or may have none. */
    method RunUntilSettled(job: Job, maxRetries: nat, start: Option<Cause>, generationBefore: nat)
        returns (last: Disk, retries: nat, callRestart: Option<Cause>, exit: Exit)
      requires Valid()
      modifies this
      ensures Valid()
      ensures LoopEnd(State(), last, retries, callRestart, exit)
              == RunAttempts(cfg, old(State()), job, 0, maxRetries, old(child.restarts), start, generationBefore)
    {
      callRestart, retries := start, 0;
      var baseline := child.restarts;
      ghost var end := RunAttempts(cfg, State(), job, 0, maxRetries, baseline, start, generationBefore);
      while true
        invariant retries <= maxRetries && Valid()
        invariant RunAttempts(cfg, State(), job, retries, maxRetries, baseline, callRestart, generationBefore) == end
        decreases maxRetries - retries
      {
        TurnIsAttempt(cfg, State(), job, retries, maxRetries, baseline, callRestart, generationBefore);
        var t := RunOnce(job, retries, maxRetries, baseline, callRestart, generationBefore);
        match t
        case Settled(cause, outcome) =>
          return job.attempts(retries).disk, retries, cause, outcome;
        case Again(cause) =>
          callRestart, baseline, retries := Some(cause), child.restarts, retries + 1;
      }
    }

    /** Serve one job: replace a stale child, run with at most one retry, publish once. */
    method Serve(disk: Disk, job: Job) returns (last: Disk, runs: nat, exit: Exit)
      requires Valid()
      modifies this
      ensures Valid() && JobRun(State(), last, runs, exit) == RunJob(cfg, old(State()), disk, job)
    {
      var generationBefore := ObservedGeneration();
      var cycled := CycleIfRebuilt(disk, job.profile, job.cycleOk);
      if cycled.Err? {
        return disk, 0, Failed(cycled.error);
      }
      var retries, callRestart;
      last, retries, callRestart, exit := RunUntilSettled(job, MAX_JOB_RETRIES, cycled.value, generationBefore);
      runs := retries + 1;
      if !exit.Failed? {
        var generation := ObservedGeneration();
        PublishRuntime(Facts(generation, callRestart.Some? || generation > generationBefore, retries, callRestart,
                             CpuDelta(job.cpuStart, generationBefore, generation, job.cpuEnd), Some(job.profile)));
      }
    }

    /** The profile worth importing into a fresh child, if the project is quiet and it was served recently. */
    method PrewarmCandidate(quiesced: bool) returns (prewarm: Option<Profile>)
      requires Valid()
      modifies this`readings
      ensures Valid() && (prewarm, readings) == PrewarmProfile(cfg, old(State()), quiesced)
    {
      prewarm := None;
      if quiesced && importsSeen != [] {
        var held := importsSeen[|importsSeen| - 1];
        var now := Now();
        if SatSub(now, held.value.lastServed) <= PREWARM_RECENCY {
          prewarm := Some(held.key);
        }
      }
    }

    /** Replace an over-budget child between calls and import the last profile into the fresh one. */
    method CycleOverBudget(disk: Disk, quiesced: bool, q: Quiet)
        returns (after: Disk, cycled: bool, prewarmed: Option<Profile>)
      requires Valid()
      modifies this
      ensures Valid()
      ensures Idled(State(), after, cycled, prewarmed) == CycleOverSoftBudget(cfg, old(State()), disk, quiesced, q)
    {
      after, cycled, prewarmed := disk, false, None;
      if cycledWhileIdle || child.residue == 0 || child.residue < cfg.softBytes {
        return;
      }
      var prewarm := PrewarmCandidate(quiesced);
      if !q.cycleOk {
        return;
      }
      child := Replaced(child, 1, Some(ByRequest));
      importsSeen := [];
      cycledWhileIdle := true;
      cycled := true;
      var generation := ObservedGeneration();
      PublishRuntime(Facts(generation, true, 0, None, None, None));
      if prewarm.Some? && q.prewarmOpens {
        child := OpenSession(child, cfg.cap, disk, prewarm.value, q.charge);
        after := q.stampDisk;
        var stamp := ImportArtifactStamp(after, prewarm.value);
        var _ := NoteProfile(prewarm.value, stamp);
        prewarmed := prewarm;
      }
    }

    /** One turn: a message, a quiet period, or a move of the environment. */
    method TakeTurn(disk: Disk, before: seq<Output>, e: Event) returns (last: Disk, log: seq<Output>)
      requires Valid()
      modifies this
      ensures Valid() && Sys(State(), last, log) == Step(cfg, Sys(old(State()), disk, before), e)
    {
      last, log := disk, before;
      match e {
        case DiskMoves(moved) =>
          last := moved;
        case SupervisorRestarts(k, reason) =>
          child := Replaced(child, k, reason);
        case Message(job) =>
          if healthy {
            cycledWhileIdle := false;
            var asked := last;
            var runs, exit;
            last, runs, exit := Serve(last, job);
            log := log + [match exit
              case Done(env) => Answered(job.profile, env, asked, last)
              case Unavailable(_, _, _) => NotAnswered(None)
              case Failed(error) => NotAnswered(Some(error))];
          } else {
            log := log + [Rejected];
          }
        case SemanticMessage(p, opens, ok) =>
          if healthy {
            cycledWhileIdle := false;
            if opens {
              var generation := ObservedGeneration();
              PublishRuntime(Facts(generation, false, 0, None, None, Some(p)));
            }
            log := log + [if opens && ok then Answered(p, Import(last, p), last, last) else NotAnswered(None)];
          } else {
            log := log + [Rejected];
          }
        case QuietPeriod(q) =>
          var cycled, prewarmed;
          last, cycled, prewarmed := CycleOverBudget(last, cfg.hasRuntime, q);
          if cycled {
            log := log + [IdleCycled(prewarmed)];
          }
      }
    }

    /** The actor's loop: one turn per event, rejecting every message once the project is unhealthy. */
    method ActorMain(disk: Disk, events: seq<Event>) returns (last: Disk, log: seq<Output>)
      requires Valid()
      modifies this
      ensures Valid() && Sys(State(), last, log) == Run(cfg, Sys(old(State()), disk, []), events)
    {
      last, log := disk, [];
      for i := 0 to |events|
        invariant Valid() && Sys(State(), last, log) == Run(cfg, Sys(old(State()), disk, []), events[..i])
      {
        assert events[..i + 1][..i] == events[..i];
        last, log := TakeTurn(last, log, events[i]);
      }
      assert events[..|events|] == events;
    }
  }

  /** How one turn of the retry loop ends. */
  datatype Turn = Settled(callRestart: Option<Cause>, exit: Exit) | Again(cause: Cause)

  datatype Turned = Turned(actor: Actor, turn: Turn)

  function TurnOf(cfg: Config, a: Actor, job: Job, k: nat, maxRetries: nat, baseline: nat,
                  callRestart: Option<Cause>, generationBefore: nat): Turned {
    var at := job.attempts(k);
    var served := a.(child := WorkerChild.Serve(a.child, cfg.cap, job.profile, at));
    var accounted := AccountLifecycleRestarts(cfg, served, baseline);
    if accounted.result.Err? then Turned(accounted.actor, Settled(callRestart, Failed(accounted.result.error)))
    else if IsRetryable(at.reply) && k < maxRetries then
      var rebuilt := RebuildAfterDeath(cfg, accounted.actor, ReplyCause(at.reply), at.respawn);
      Turned(rebuilt.actor,
             if rebuilt.result.Err? then Settled(callRestart, Failed(rebuilt.result.error)) else Again(rebuilt.result.value))
    else
      Turned(accounted.actor,
             Settled(if accounted.result.value.Some? then accounted.result.value else callRestart,
                     LastExit(at.reply, AnsweredIn(a.child, job.profile, at), Observed(accounted.actor), generationBefore)))
  }

  /** The retry loop is its first turn, and the rest of it when that turn goes round again. */
  lemma TurnIsAttempt(cfg: Config, a: Actor, job: Job, k: nat, maxRetries: nat, baseline: nat,
                      callRestart: Option<Cause>, generationBefore: nat)
    requires k <= maxRetries
    ensures var t := TurnOf(cfg, a, job, k, maxRetries, baseline, callRestart, generationBefore);
            var end := RunAttempts(cfg, a, job, k, maxRetries, baseline, callRestart, generationBefore);
            && (t.turn.Settled? ==> end == LoopEnd(t.actor, job.attempts(k).disk, k, t.turn.callRestart, t.turn.exit))
            && (t.turn.Again? ==>
                  k < maxRetries
                  && end == RunAttempts(cfg, t.actor, job, k + 1, maxRetries, t.actor.child.restarts,
                                        Some(t.turn.cause), generationBefore))
  {
  }
}
