/**
 The Lean worker child behind its handle, reduced to what the actor relies on: a
 session pool with LRU eviction, lifecycle counters, and the ways one request
 can end. Everything the library decides is data chosen by the environment.
 */
module WorkerChild {
  import opened Wrappers
  import opened Lru
  import opened Artifacts

  /** An imported environment: a snapshot of the artifacts at the time of its import. */
  datatype Env = Env(content: seq<Option<nat>>, stamp: Option<nat>)

  /** Why the supervisor last replaced the child. */
  datatype Reason =
    | ByRequest | RequestLimit | ImportLimit | ResidueLimit | RssCeiling | RssHard
    | IdleLimit | CancelledRequest | RequestTimeout | Aborted | Unrecognized

  /** `process` names the live child process; the other counters are the handle's lifecycle snapshot. */
  datatype Child = Child(
    pool: Recency<Profile, Env>,
    process: nat,
    generation: nat,
    restarts: nat,
    lastReason: Option<Reason>,
    residue: nat)

  /** A handle opened on a new process. */
  function Spawn(process: nat, generation: nat): Child {
    Child([], process, generation, 0, None, 0)
  }

  /** The supervisor replaced the process `k` times. */
  function Replaced(c: Child, k: nat, reason: Option<Reason>): Child {
    if k == 0 then c
    else Child([], c.process + k, c.generation + k, c.restarts + k, reason, 0)
  }

  function Import(disk: Disk, p: Profile): Env {
    Env(Content(disk, p), Stamp(disk, p))
  }

  /** A pooled profile keeps its environment; any other open imports what is on disk now. */
  function EnvFor(c: Child, disk: Disk, p: Profile): Env {
    match Get(c.pool, p)
    case Some(env) => env
    case None => Import(disk, p)
  }

  function OpenSession(c: Child, cap: nat, disk: Disk, p: Profile, charge: nat): Child
    requires cap >= 1
  {
    c.(pool := Put(c.pool, cap, p, EnvFor(c, disk, p)),
       residue := if Has(c.pool, p) then c.residue else c.residue + charge)
  }

  datatype Reply = Value | ChildExited | ChildAbort | SessionMissing | RssHardLimit | Timeout | OtherError

  /**
   One run of a job closure: replacements before and after the session open,
   whether it was reached, what is on disk when it is, how it ended, and the
   first generation of a handle opened afterwards if opening one succeeds.
   */
  datatype Attempt = Attempt(
    disk: Disk,
    restartsBefore: nat,
    opens: bool,
    charge: nat,
    restartsAfter: nat,
    reason: Option<Reason>,
    reply: Reply,
    respawn: Option<nat>)

  predicate Died(r: Reply) {
    r.ChildExited? || r.ChildAbort?
  }

  /** The child after one attempt; a dead process holds nothing. */
  function Serve(c: Child, cap: nat, p: Profile, a: Attempt): Child
    requires cap >= 1
  {
    var before := Replaced(c, a.restartsBefore, a.reason);
    var inSession := if a.opens then OpenSession(before, cap, a.disk, p, a.charge) else before;
    var after := Replaced(inSession, a.restartsAfter, a.reason);
    if Died(a.reply) then after.(pool := []) else after
  }

  /** The environment the attempt's session ran in. */
  function AnsweredIn(c: Child, p: Profile, a: Attempt): Env {
    EnvFor(Replaced(c, a.restartsBefore, a.reason), a.disk, p)
  }
}
