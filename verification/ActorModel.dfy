/**
 The project actor as a value: what each of its steps does to its state. The
 class in ProjectActor.dfy refines these functions; the run theorems are about
 them.
 */
module ActorModel {
  import opened Wrappers
  import opened Lru
  import opened Artifacts
  import opened WorkerChild

  const MAX_JOB_RETRIES: nat := 1
  const PREWARM_RECENCY: nat := 60_000

  /** `clock(i)` is the `i`-th reading of the monotonic clock, in milliseconds. */
  datatype Config = Config(
    cap: Positive,
    maxRestarts: Positive,
    window: nat,
    softBytes: nat,
    hasRuntime: bool,
    clock: nat -> nat)

  datatype Cause =
    | ArtifactsRebuilt | RssPostJob | CauseRssHardLimit | MaxRequests | MaxImports | ImportResidue
    | ImportResidueIdle | Idle | CauseTimeout | Cancelled | CauseChildExit | CauseChildAbort
    | CauseSessionMissing | Explicit | WorkerInternal

  predicate CountsTowardLimit(cause: Cause) {
    || cause.CauseTimeout? || cause.Cancelled? || cause.CauseChildExit? || cause.CauseChildAbort?
    || cause.CauseSessionMissing? || cause.CauseRssHardLimit? || cause.WorkerInternal?
  }

  function CauseOf(reason: Option<Reason>): Cause {
    match reason
    case None => WorkerInternal
    case Some(ByRequest) => Explicit
    case Some(RequestLimit) => MaxRequests
    case Some(ImportLimit) => MaxImports
    case Some(ResidueLimit) => ImportResidue
    case Some(RssCeiling) => RssPostJob
    case Some(RssHard) => CauseRssHardLimit
    case Some(IdleLimit) => Idle
    case Some(CancelledRequest) => Cancelled
    case Some(RequestTimeout) => CauseTimeout
    case Some(Aborted) => CauseChildAbort
    case Some(Unrecognized) => WorkerInternal
  }

  /** One remembered profile: the stamp it was last served at, and when. */
  datatype Noted = Noted(stamp: Option<nat>, lastServed: nat)

  /** What the actor publishes for the paths that answer without a call. */
  datatype Facts = Facts(
    generation: nat,
    restarted: bool,
    retryCount: nat,
    callRestart: Option<Cause>,
    cpu: Option<nat>,
    profile: Option<Profile>)

  /** `accepted` and `published` are histories: every admitted abnormal restart, every publication. */
  datatype Actor = Actor(
    child: Child,
    base: nat,
    seen: Recency<Profile, Noted>,
    times: seq<nat>,
    accepted: seq<nat>,
    healthy: bool,
    readings: nat,
    cycledWhileIdle: bool,
    published: seq<Facts>)

  datatype JobError = RestartLimit(cause: Cause) | CycleFailed | RespawnFailed | WorkerFailure

  datatype Outcome<+T> = Outcome(actor: Actor, result: Result<T, JobError>)

  function Observed(a: Actor): nat {
    SatAdd(a.base, a.child.generation)
  }

  function CurrentProfile(a: Actor): Option<Profile> {
    if a.seen == [] then None else Some(a.seen[|a.seen| - 1].key)
  }

  // --- the crash breaker ---------------------------------------------------

  /** Forget recorded restarts that have left the window. */
  function Prune(times: seq<nat>, now: nat, window: nat): seq<nat> {
    if times != [] && SatSub(now, times[0]) > window then Prune(times[1..], now, window) else times
  }

  function RecordRestartOrStop(cfg: Config, a: Actor, cause: Cause): Outcome<()> {
    if !CountsTowardLimit(cause) then Outcome(a, Ok(()))
    else
      var now := cfg.clock(a.readings);
      var recent := Prune(a.times, now, cfg.window);
      var b := a.(times := recent, readings := a.readings + 1);
      if |recent| >= cfg.maxRestarts then
        Outcome(
          b.(healthy := false,
             published := b.published + [Facts(Observed(b), false, MAX_JOB_RETRIES, None, None, CurrentProfile(b))]),
          Err(RestartLimit(cause)))
      else
        Outcome(b.(times := recent + [now], accepted := b.accepted + [now]), Ok(()))
  }

  function RecordRestarts(cfg: Config, a: Actor, cause: Cause, k: nat): Outcome<()>
    decreases k
  {
    if k == 0 then Outcome(a, Ok(()))
    else
      var first := RecordRestartOrStop(cfg, a, cause);
      if first.result.Err? then first else RecordRestarts(cfg, first.actor, cause, k - 1)
  }

  // --- the shadow of the session pool --------------------------------------

  /** Keep only the profile of the job being served. */
  function ForgetPooled(seen: Recency<Profile, Noted>): Recency<Profile, Noted> {
    Newest(seen, 1)
  }

  /** The stamp the profile was last noted at, and the state with it noted at `stamp`. */
  function NoteImportProfile(cfg: Config, a: Actor, p: Profile, stamp: Option<nat>): (Actor, Option<nat>) {
    var previous := match Get(a.seen, p) case Some(held) => held.stamp case None => None;
    (a.(seen := Put(a.seen, cfg.cap, p, Noted(stamp, cfg.clock(a.readings))), readings := a.readings + 1), previous)
  }

  predicate StampAdvanced(previous: Option<nat>, current: Option<nat>) {
    previous.Some? && current.Some? && current.value > previous.value
  }

  /** Replace the child when an artifact it may have imported was rebuilt since. */
  function CycleIfImportsRebuilt(cfg: Config, a: Actor, disk: Disk, p: Profile, cycleOk: bool): Outcome<Option<Cause>> {
    var stamp := Stamp(disk, p);
    var (b, previous) := NoteImportProfile(cfg, a, p, stamp);
    if !StampAdvanced(previous, stamp) then Outcome(b, Ok(None))
    else
      var recorded := RecordRestartOrStop(cfg, b, ArtifactsRebuilt);
      if recorded.result.Err? then Outcome(recorded.actor, Err(recorded.result.error))
      else if !cycleOk then Outcome(recorded.actor, Err(CycleFailed))
      else
        var c := recorded.actor;
        Outcome(
          c.(child := Replaced(c.child, 1, Some(ByRequest)), seen := ForgetPooled(c.seen)),
          Ok(Some(ArtifactsRebuilt)))
  }

  /** Charge the supervisor's own replacements since `baseline` to the breaker. */
  function AccountLifecycleRestarts(cfg: Config, a: Actor, baseline: nat): Outcome<Option<Cause>> {
    var restarted := SatSub(a.child.restarts, baseline);
    if restarted == 0 then Outcome(a, Ok(None))
    else
      var cause := CauseOf(a.child.lastReason);
      var recorded := RecordRestarts(cfg, a, cause, restarted);
      if recorded.result.Err? then Outcome(recorded.actor, Err(recorded.result.error))
      else Outcome(recorded.actor.(seen := ForgetPooled(recorded.actor.seen)), Ok(Some(cause)))
  }

  /** Open a new handle after the child died, rebasing the generation above every earlier one. */
  function RebuildAfterDeath(cfg: Config, a: Actor, cause: Cause, respawn: Option<nat>): Outcome<Cause> {
    var recorded := RecordRestartOrStop(cfg, a, cause);
    if recorded.result.Err? then Outcome(recorded.actor, Err(recorded.result.error))
    else
      var b := recorded.actor;
      match respawn
      case None => Outcome(b, Err(RespawnFailed))
      case Some(generation) =>
        Outcome(
          b.(child := Spawn(b.child.process + 1, generation),
             base := SatAdd(Observed(b), 1),
             seen := ForgetPooled(b.seen)),
          Ok(cause))
  }

  // --- one job -------------------------------------------------------------

  /** One call: what it asks for and everything the environment does during it. */
  datatype Job = Job(
    profile: Profile,
    cycleOk: bool,
    attempts: nat -> Attempt,
    cpuStart: Option<nat>,
    cpuEnd: Option<nat>)

  datatype Exit =
    | Done(env: Env)
    | Unavailable(cause: Cause, retryable: bool, restarted: bool)
    | Failed(error: JobError)

  /** The end of the retry loop: `disk` is what the last attempt saw, `retries` how often it went round. */
  datatype LoopEnd = LoopEnd(actor: Actor, disk: Disk, retries: nat, callRestart: Option<Cause>, exit: Exit)

  predicate IsRetryable(r: Reply) {
    Died(r) || r.SessionMissing?
  }

  function ReplyCause(r: Reply): Cause {
    match r
    case ChildAbort => CauseChildAbort
    case ChildExited => CauseChildExit
    case SessionMissing => CauseSessionMissing
    case RssHardLimit => CauseRssHardLimit
    case Timeout => CauseTimeout
    case _ => WorkerInternal
  }

  function LastExit(reply: Reply, env: Env, generation: nat, generationBefore: nat): Exit {
    match reply
    case Value => Done(env)
    case OtherError => Failed(WorkerFailure)
    case RssHardLimit => Unavailable(CauseRssHardLimit, false, true)
    case _ => Unavailable(ReplyCause(reply), true, generation > generationBefore)
  }

  function RunAttempts(cfg: Config, a: Actor, job: Job, k: nat, maxRetries: nat, baseline: nat,
                       callRestart: Option<Cause>, generationBefore: nat): LoopEnd
    requires k <= maxRetries
    decreases maxRetries - k
  {
    var at := job.attempts(k);
    var served := a.(child := Serve(a.child, cfg.cap, job.profile, at));
    var accounted := AccountLifecycleRestarts(cfg, served, baseline);
    if accounted.result.Err? then
      LoopEnd(accounted.actor, at.disk, k, callRestart, Failed(accounted.result.error))
    else if IsRetryable(at.reply) && k < maxRetries then
      var rebuilt := RebuildAfterDeath(cfg, accounted.actor, ReplyCause(at.reply), at.respawn);
      if rebuilt.result.Err? then
        LoopEnd(rebuilt.actor, at.disk, k, callRestart, Failed(rebuilt.result.error))
      else
        RunAttempts(cfg, rebuilt.actor, job, k + 1, maxRetries, rebuilt.actor.child.restarts,
                    Some(rebuilt.result.value), generationBefore)
    else
      LoopEnd(accounted.actor, at.disk, k,
              if accounted.result.value.Some? then accounted.result.value else callRestart,
              LastExit(at.reply, AnsweredIn(a.child, job.profile, at), Observed(accounted.actor), generationBefore))
  }

  /** CPU the current child has used since the baseline, if the baseline is the current child's. */
  function CpuDelta(baseline: Option<nat>, sampledAt: nat, generation: nat, end: Option<nat>): Option<nat> {
    if baseline.Some? && sampledAt == generation && end.Some?
    then Some(SatSub(end.value, baseline.value)) else None
  }

  datatype JobRun = JobRun(actor: Actor, disk: Disk, runs: nat, exit: Exit)

  function Finalize(a: Actor, end: LoopEnd, job: Job): Actor {
    var b := end.actor;
    if end.exit.Failed? then b
    else
      b.(published := b.published + [
        Facts(Observed(b), end.callRestart.Some? || Observed(b) > Observed(a), end.retries, end.callRestart,
              CpuDelta(job.cpuStart, Observed(a), Observed(b), job.cpuEnd), Some(job.profile))])
  }

  function RunJob(cfg: Config, a: Actor, disk: Disk, job: Job): JobRun {
    var cycled := CycleIfImportsRebuilt(cfg, a, disk, job.profile, job.cycleOk);
    if cycled.result.Err? then JobRun(cycled.actor, disk, 0, Failed(cycled.result.error))
    else
      var end := RunAttempts(cfg, cycled.actor, job, 0, MAX_JOB_RETRIES, cycled.actor.child.restarts,
                             cycled.result.value, Observed(a));
      JobRun(Finalize(a, end, job), end.disk, end.retries + 1, end.exit)
  }

  // --- the idle cycle ------------------------------------------------------

  /** What the environment does to an idle cycle; `stampDisk` is the disk when the pre-warm's stamp is read. */
  datatype Quiet = Quiet(cycleOk: bool, prewarmOpens: bool, charge: nat, stampDisk: Disk)

  predicate OverSoftBudget(cfg: Config, a: Actor) {
    !a.cycledWhileIdle && a.child.residue > 0 && a.child.residue >= cfg.softBytes
  }

  /** The profile worth importing into the fresh child; reading its age costs a clock reading. */
  function PrewarmProfile(cfg: Config, a: Actor, quiesced: bool): (Option<Profile>, nat) {
    if quiesced && a.seen != [] then
      var last := a.seen[|a.seen| - 1];
      (if SatSub(cfg.clock(a.readings), last.value.lastServed) <= PREWARM_RECENCY then Some(last.key) else None,
       a.readings + 1)
    else (None, a.readings)
  }

  datatype Idled = Idled(actor: Actor, disk: Disk, cycled: bool, prewarmed: Option<Profile>)

  function CycleOverSoftBudget(cfg: Config, a: Actor, disk: Disk, quiesced: bool, q: Quiet): Idled {
    if !OverSoftBudget(cfg, a) then Idled(a, disk, false, None)
    else
      var (prewarm, readings) := PrewarmProfile(cfg, a, quiesced);
      if !q.cycleOk then Idled(a.(readings := readings), disk, false, None)
      else
        var b := a.(readings := readings, child := Replaced(a.child, 1, Some(ByRequest)), seen := [], cycledWhileIdle := true);
        var c := b.(published := b.published + [Facts(Observed(b), true, 0, None, None, None)]);
        match prewarm
        case Some(p) =>
          if q.prewarmOpens then
            var d := c.(child := OpenSession(c.child, cfg.cap, disk, p, q.charge));
            Idled(NoteImportProfile(cfg, d, p, Stamp(q.stampDisk, p)).0, q.stampDisk, true, Some(p))
          else Idled(c, disk, true, None)
        case None => Idled(c, disk, true, None)
  }

  // --- whole runs ----------------------------------------------------------

  datatype Event =
    | DiskMoves(disk: Disk)
    | SupervisorRestarts(k: nat, reason: Option<Reason>)
    | Message(job: Job)
    | SemanticMessage(profile: Profile, opens: bool, ok: bool)
    | QuietPeriod(quiet: Quiet)

  datatype Output =
    | Rejected
    | Answered(profile: Profile, env: Env, asked: Disk, served: Disk)
    | NotAnswered(error: Option<JobError>)
    | IdleCycled(prewarmed: Option<Profile>)

  datatype Sys = Sys(actor: Actor, disk: Disk, log: seq<Output>)

  function Initial(process: nat, generation: nat, disk: Disk): Sys {
    Sys(Actor(Spawn(process, generation), 1, [], [], [], true, 0, false, []), disk, [])
  }

  function OutputOf(p: Profile, asked: Disk, run: JobRun): Output {
    match run.exit
    case Done(env) => Answered(p, env, asked, run.disk)
    case Unavailable(_, _, _) => NotAnswered(None)
    case Failed(error) => NotAnswered(Some(error))
  }

  /** One turn of the actor, or one move of its environment. */
  function Step(cfg: Config, s: Sys, e: Event): Sys {
    match e
    case DiskMoves(disk) => s.(disk := disk)
    case SupervisorRestarts(k, reason) => s.(actor := s.actor.(child := Replaced(s.actor.child, k, reason)))
    case Message(job) =>
      if !s.actor.healthy then s.(log := s.log + [Rejected])
      else
        var run := RunJob(cfg, s.actor.(cycledWhileIdle := false), s.disk, job);
        Sys(run.actor, run.disk, s.log + [OutputOf(job.profile, s.disk, run)])
    case SemanticMessage(p, opens, ok) =>
      if !s.actor.healthy then s.(log := s.log + [Rejected])
      else
        var a := s.actor.(cycledWhileIdle := false);
        if opens then
          // A capability child spawned for this one call imports what is on disk.
          var b := a.(published := a.published + [Facts(Observed(a), false, 0, None, None, Some(p))]);
          Sys(b, s.disk, s.log + [if ok then Answered(p, Import(s.disk, p), s.disk, s.disk) else NotAnswered(None)])
        else Sys(a, s.disk, s.log + [NotAnswered(None)])
    case QuietPeriod(q) =>
      var idled := CycleOverSoftBudget(cfg, s.actor, s.disk, cfg.hasRuntime, q);
      Sys(idled.actor, idled.disk, if idled.cycled then s.log + [IdleCycled(idled.prewarmed)] else s.log)
  }

  function Run(cfg: Config, s: Sys, events: seq<Event>): Sys
    decreases |events|
  {
    if events == [] then s
    else Step(cfg, Run(cfg, s, events[..|events| - 1]), events[|events| - 1])
  }
}
