/**
 One project's mailbox: callers that build a message, clone the sender and try to
 send; an actor that receives in order; shutdown at any moment. Every task and
 the actor interleave freely, one atomic step at a time.
 */
module Mailbox {
  import opened Wrappers

  type TaskId = nat

  /** Where a caller is. A message lives in the caller until it is sent; a sender clone lives until its reply. */
  datatype Caller = Holding | Sending | Waiting | Finished

  /** What the actor has taken out of the queue. A served job drops its guard before its reply is sent, a rejected one after. */
  datatype Turn = Receiving | Running(task: TaskId) | Replying(task: TaskId) | Dropping(task: TaskId)

  datatype Reply = Reply(task: TaskId, served: bool)

  /** `accepted` and `replies` are histories. */
  datatype State = State(
    capacity: nat,
    open: bool,
    healthy: bool,
    exited: bool,
    activeJobs: nat,
    callers: map<TaskId, Caller>,
    queue: seq<TaskId>,
    turn: Turn,
    accepted: seq<TaskId>,
    replies: seq<Reply>)

  function Initial(capacity: nat): State {
    State(capacity, true, true, false, 0, map[], [], Receiving, [], [])
  }

  datatype Step =
    | BuildMessage(task: TaskId)
    | CloneSender(task: TaskId)
    | TrySend(task: TaskId)
    | LeaveWait(task: TaskId)
    | Receive
    | JobReturns
    | SendReply
    | DropRejected
    | Exit
    | MarkUnhealthy
    | Shutdown

  /** A sender exists while the handle keeps one or some caller holds a clone. */
  ghost predicate SenderAlive(open: bool, callers: map<TaskId, Caller>) {
    open || exists t :: t in callers && (callers[t].Sending? || callers[t].Waiting?)
  }

  ghost predicate Enabled(s: State, e: Step) {
    match e
    case BuildMessage(t) => t !in s.callers
    case CloneSender(t) => t in s.callers && s.callers[t].Holding?
    case TrySend(t) => t in s.callers && s.callers[t].Sending?
    case LeaveWait(t) => t in s.callers && s.callers[t].Waiting?
    case Receive => !s.exited && s.turn.Receiving? && s.queue != []
    case JobReturns => s.turn.Running?
    case SendReply => s.turn.Replying?
    case DropRejected => s.turn.Dropping?
    case Exit => !s.exited && s.turn.Receiving? && s.queue == [] && !SenderAlive(s.open, s.callers)
    case MarkUnhealthy => true
    case Shutdown => true
  }

  function Next(s: State, e: Step): State
    requires Enabled(s, e)
  {
    match e
    case BuildMessage(t) => s.(callers := s.callers[t := Holding], activeJobs := s.activeJobs + 1)
    case CloneSender(t) =>
      if s.open then s.(callers := s.callers[t := Sending])
      // No sender: the message is dropped and its guard with it.
      else s.(callers := s.callers[t := Finished], activeJobs := SatSub(s.activeJobs, 1))
    case TrySend(t) =>
      if s.exited then
        s.(callers := s.callers[t := Finished], activeJobs := SatSub(s.activeJobs, 1), open := false, healthy := false)
      else if |s.queue| >= s.capacity then
        s.(callers := s.callers[t := Finished], activeJobs := SatSub(s.activeJobs, 1))
      else s.(callers := s.callers[t := Waiting], queue := s.queue + [t], accepted := s.accepted + [t])
    case LeaveWait(t) => s.(callers := s.callers[t := Finished])
    case Receive =>
      var t := s.queue[0];
      if s.healthy then s.(queue := s.queue[1..], turn := Running(t))
      else s.(queue := s.queue[1..], turn := Dropping(t), replies := s.replies + [Reply(t, false)])
    case JobReturns => s.(turn := Replying(s.turn.task), activeJobs := SatSub(s.activeJobs, 1))
    case SendReply => s.(turn := Receiving, replies := s.replies + [Reply(s.turn.task, true)])
    case DropRejected => s.(turn := Receiving, activeJobs := SatSub(s.activeJobs, 1))
    case Exit => s.(exited := true)
    case MarkUnhealthy => s.(healthy := false)
    case Shutdown => s.(healthy := false, open := false)
  }

  predicate IsIdle(s: State) {
    s.activeJobs == 0
  }

  function Tasks(replies: seq<Reply>): seq<TaskId> {
    if replies == [] then [] else Tasks(replies[..|replies| - 1]) + [replies[|replies| - 1].task]
  }

  /** Callers whose message has not been sent yet. */
  function Unsent(callers: map<TaskId, Caller>): set<TaskId> {
    set t | t in callers && (callers[t].Holding? || callers[t].Sending?)
  }

  /** The message the actor holds that has not been replied to. */
  function InTurn(turn: Turn): seq<TaskId> {
    if turn.Running? || turn.Replying? then [turn.task] else []
  }

  /** Guards alive: one per message that is unsent, queued, running, or rejected but not yet dropped. */
  function LiveGuards(callers: map<TaskId, Caller>, queued: nat, turn: Turn): nat {
    |Unsent(callers)| + queued + (if turn.Running? || turn.Dropping? then 1 else 0)
  }

  /** Every accepted message is replied to, in the turn, or queued, in the order of acceptance. */
  ghost predicate Conserved(accepted: seq<TaskId>, replied: seq<TaskId>, turn: seq<TaskId>, queue: seq<TaskId>) {
    accepted == replied + turn + queue
  }

  ghost predicate SentOnce(accepted: seq<TaskId>, callers: map<TaskId, Caller>) {
    && (forall i, j :: 0 <= i < j < |accepted| ==> accepted[i] != accepted[j])
    && (forall i :: 0 <= i < |accepted| ==>
          accepted[i] in callers && (callers[accepted[i]].Waiting? || callers[accepted[i]].Finished?))
  }

  ghost predicate Inv(s: State) {
    && s.activeJobs == LiveGuards(s.callers, |s.queue|, s.turn)
    && Conserved(s.accepted, Tasks(s.replies), InTurn(s.turn), s.queue)
    && SentOnce(s.accepted, s.callers)
    && (s.exited ==> s.queue == [] && s.turn.Receiving? && !SenderAlive(s.open, s.callers))
    && |s.queue| <= s.capacity
  }

  lemma TasksSnoc(replies: seq<Reply>, r: Reply)
    ensures Tasks(replies + [r]) == Tasks(replies) + [r.task]
  {
    assert (replies + [r])[..|replies|] == replies;
  }

  /** How the unsent messages change when one caller moves on. */
  lemma UnsentChanges(callers: map<TaskId, Caller>, t: TaskId, c: Caller)
    ensures var after, held := |Unsent(callers[t := c])|, |Unsent(callers)|;
            var unsent := c.Holding? || c.Sending?;
            if t in Unsent(callers) then after == (if unsent then held else held - 1)
            else after == (if unsent then held + 1 else held)
  {
    var (after, held) := (Unsent(callers[t := c]), Unsent(callers));
    if c.Holding? || c.Sending? {
      assert after == if t in held then held else held + {t};
    } else {
      assert after == if t in held then held - {t} else held;
    }
  }

  lemma CallerStepKeepsInv(s: State, e: Step)
    requires Inv(s) && Enabled(s, e)
    requires e.BuildMessage? || e.CloneSender? || e.LeaveWait?
    ensures Inv(Next(s, e))
  {
    var after := Next(s, e);
    UnsentChanges(s.callers, e.task, after.callers[e.task]);
    assert SentOnce(s.accepted, after.callers);
    if s.exited { StaysSenderless(s.callers, e.task, after.callers[e.task]); }
  }

  lemma StaysSenderless(callers: map<TaskId, Caller>, t: TaskId, c: Caller)
    requires !SenderAlive(false, callers) && !c.Sending? && !c.Waiting?
    ensures !SenderAlive(false, callers[t := c])
  {
  }

  lemma SendKeepsInv(s: State, t: TaskId)
    requires Inv(s) && Enabled(s, TrySend(t))
    ensures Inv(Next(s, TrySend(t))) && !s.exited
  {
    assert SenderAlive(s.open, s.callers);
    var after := Next(s, TrySend(t));
    UnsentChanges(s.callers, t, after.callers[t]);
    if |s.queue| < s.capacity { AcceptedGrows(s.accepted, s.callers, t); }
  }

  lemma AcceptedGrows(accepted: seq<TaskId>, callers: map<TaskId, Caller>, t: TaskId)
    requires SentOnce(accepted, callers) && t in callers && callers[t].Sending?
    ensures SentOnce(accepted + [t], callers[t := Waiting])
  {
  }

  lemma ReceiveKeepsInv(s: State)
    requires Inv(s) && Enabled(s, Receive)
    ensures Inv(Next(s, Receive))
  {
    var t, after := s.queue[0], Next(s, Receive);
    HeadMoves(s.accepted, Tasks(s.replies), s.queue);
    TasksSnoc(s.replies, Reply(t, false));
  }

  /** Moving the head of the queue into the turn, or past it into what is replied to, moves nothing else. */
  lemma HeadMoves(accepted: seq<TaskId>, replied: seq<TaskId>, queue: seq<TaskId>)
    requires queue != [] && Conserved(accepted, replied, [], queue)
    ensures Conserved(accepted, replied, [queue[0]], queue[1..])
    ensures Conserved(accepted, replied + [queue[0]], [], queue[1..])
  {
  }

  lemma TurnStepKeepsInv(s: State, e: Step)
    requires Inv(s) && Enabled(s, e)
    requires e.JobReturns? || e.SendReply? || e.DropRejected?
    ensures Inv(Next(s, e))
  {
    if e.SendReply? {
      TasksSnoc(s.replies, Reply(s.turn.task, true));
      ReplyMoves(s.accepted, Tasks(s.replies), s.turn.task, s.queue);
    }
  }

  lemma ReplyMoves(accepted: seq<TaskId>, replied: seq<TaskId>, t: TaskId, queue: seq<TaskId>)
    requires Conserved(accepted, replied, [t], queue)
    ensures Conserved(accepted, replied + [t], [], queue)
  {
  }

  lemma LifecycleStepKeepsInv(s: State, e: Step)
    requires Inv(s) && Enabled(s, e)
    requires e.Exit? || e.MarkUnhealthy? || e.Shutdown?
    ensures Inv(Next(s, e))
  {
  }

  lemma StepKeepsInv(s: State, e: Step)
    requires Inv(s) && Enabled(s, e)
    ensures Inv(Next(s, e))
  {
    if e.BuildMessage? || e.CloneSender? || e.LeaveWait? {
      CallerStepKeepsInv(s, e);
    } else if e.TrySend? {
      SendKeepsInv(s, e.task);
    } else if e.Receive? {
      ReceiveKeepsInv(s);
    } else if e.JobReturns? || e.SendReply? || e.DropRejected? {
      TurnStepKeepsInv(s, e);
    } else {
      LifecycleStepKeepsInv(s, e);
    }
  }

  ghost predicate ValidRun(s: State, steps: seq<Step>)
    decreases |steps|, 0
  {
    steps == [] ||
    (&& ValidRun(s, steps[..|steps| - 1])
     && Enabled(Run(s, steps[..|steps| - 1]), steps[|steps| - 1]))
  }

  ghost function Run(s: State, steps: seq<Step>): State
    requires ValidRun(s, steps)
    decreases |steps|, 1
  {
    if steps == [] then s else Next(Run(s, steps[..|steps| - 1]), steps[|steps| - 1])
  }

  /**
   Over every interleaving: the messages accepted so far are, in order, those
   already replied to, the one being run, and those queued, none of them twice;
   and the job count is exactly the number of live guards.
   */
  lemma {:induction false} EveryRunConserves(capacity: nat, steps: seq<Step>)
    requires ValidRun(Initial(capacity), steps)
    ensures Inv(Run(Initial(capacity), steps))
    decreases |steps|
  {
    if steps == [] {
      assert Unsent(map[]) == {};
    } else {
      EveryRunConserves(capacity, steps[..|steps| - 1]);
      StepKeepsInv(Run(Initial(capacity), steps[..|steps| - 1]), steps[|steps| - 1]);
    }
  }

  /** An idle project has nothing queued, nothing in the worker and no message on its way. */
  lemma IdleMeansNothingInFlight(capacity: nat, steps: seq<Step>)
    requires ValidRun(Initial(capacity), steps)
    ensures var s := Run(Initial(capacity), steps);
            IsIdle(s) <==> s.queue == [] && !s.turn.Running? && !s.turn.Dropping? && Unsent(s.callers) == {}
  {
    EveryRunConserves(capacity, steps);
  }

  /** When the actor has exited, every accepted message was replied to exactly once, in the order it was accepted. */
  lemma ExitedMeansAllReplied(capacity: nat, steps: seq<Step>)
    requires ValidRun(Initial(capacity), steps)
    ensures var s := Run(Initial(capacity), steps);
            s.exited ==> Tasks(s.replies) == s.accepted
  {
    EveryRunConserves(capacity, steps);
  }

  /** After shutdown nothing more is served than the job already taken; what is received is rejected. */
  ghost predicate ServesOnly(before: State, after: State) {
    && before.replies <= after.replies
    && (forall i :: |before.replies| <= i < |after.replies| && after.replies[i].served ==>
          InTurn(before.turn) != [] && after.replies[i].task == InTurn(before.turn)[0])
  }

  lemma {:induction false} ShutdownRejectsTheRest(s: State, steps: seq<Step>)
    requires !s.healthy && ValidRun(s, steps)
    ensures var t := Run(s, steps);
            && !t.healthy && ServesOnly(s, t)
            && (InTurn(t.turn) != [] ==> InTurn(t.turn) == InTurn(s.turn))
    decreases |steps|
  {
    if steps != [] { ShutdownRejectsTheRest(s, steps[..|steps| - 1]); }
  }

  /** No send ever finds the mailbox closed: the actor cannot exit while a caller holds a sender. */
  lemma SendNeverFindsActorGone(capacity: nat, steps: seq<Step>, t: TaskId)
    requires ValidRun(Initial(capacity), steps)
    requires Enabled(Run(Initial(capacity), steps), TrySend(t))
    ensures !Run(Initial(capacity), steps).exited
  {
    EveryRunConserves(capacity, steps);
    SendKeepsInv(Run(Initial(capacity), steps), t);
  }

  // --- after shutdown ------------------------------------------------------------

  function Senders(callers: map<TaskId, Caller>): set<TaskId> {
    set t | t in callers && callers[t].Sending?
  }

  function Waiters(callers: map<TaskId, Caller>): set<TaskId> {
    set t | t in callers && callers[t].Waiting?
  }

  function TurnWork(turn: Turn): nat {
    match turn
    case Receiving => 0
    case Running(_) => 2
    case Replying(_) => 1
    case Dropping(_) => 1
  }

  /** What is left to do before the actor can exit. */
  function Work(s: State): nat {
    4 * |Senders(s.callers)| + |Waiters(s.callers)| + 2 * |s.queue| + TurnWork(s.turn)
  }

  /** A step of the actor, or of a caller that already has a sender. */
  predicate Finishes(e: Step) {
    e.TrySend? || e.LeaveWait? || e.Receive? || e.JobReturns? || e.SendReply? || e.DropRejected?
  }

  lemma SetMoves(held: set<TaskId>, t: TaskId)
    ensures |held - {t}| == |held| - if t in held then 1 else 0
    ensures |held + {t}| == |held| + if t in held then 0 else 1
  {
    if t in held { assert held + {t} == held; } else { assert held - {t} == held; }
  }

  lemma CallerMoves(callers: map<TaskId, Caller>, t: TaskId, c: Caller)
    requires t in callers && !c.Sending?
    ensures |Senders(callers[t := c])| == |Senders(callers)| - if callers[t].Sending? then 1 else 0
    ensures |Waiters(callers[t := c])|
            == |Waiters(callers)| - (if callers[t].Waiting? then 1 else 0) + if c.Waiting? then 1 else 0
  {
    var (after, held) := (callers[t := c], Waiters(callers));
    assert Senders(after) == Senders(callers) - {t};
    SetMoves(Senders(callers), t);
    SetMoves(held, t);
    if c.Waiting? { assert Waiters(after) == held + {t}; } else { assert Waiters(after) == held - {t}; }
  }

  /** Each of those steps leaves less to do once the project is unhealthy. */
  lemma FinishingFinishes(s: State, e: Step)
    requires Enabled(s, e) && Finishes(e) && !s.healthy
    ensures Work(Next(s, e)) < Work(s) && !Next(s, e).healthy && (!s.open ==> !Next(s, e).open)
  {
    if e.TrySend? || e.LeaveWait? { CallerMoves(s.callers, e.task, Next(s, e).callers[e.task]); }
  }

  /** And there is one as long as there is work; then the actor can exit. */
  lemma NeverStuck(s: State) returns (e: Step)
    requires !s.open && !s.exited
    ensures Enabled(s, e) && (Finishes(e) || e.Exit?)
  {
    if s.turn.Running? { e := JobReturns; }
    else if s.turn.Replying? { e := SendReply; }
    else if s.turn.Dropping? { e := DropRejected; }
    else if s.queue != [] { e := Receive; }
    else if t :| t in s.callers && s.callers[t].Sending? { e := TrySend(t); }
    else if t :| t in s.callers && s.callers[t].Waiting? { e := LeaveWait(t); }
    else { e := Exit; }
  }

  lemma OneMore(s: State, steps: seq<Step>, e: Step)
    requires ValidRun(s, steps) && Enabled(Run(s, steps), e)
    ensures ValidRun(s, steps + [e]) && Run(s, steps + [e]) == Next(Run(s, steps), e)
  {
    assert (steps + [e])[..|steps|] == steps;
  }

  /**
   From any state a run reaches with the project shut down, the actor can be
   driven to its exit by its own steps and by callers that already hold a
   sender, in at most as many steps as there is work; and then every message
   ever accepted has been replied to in order.
   */
  lemma {:induction false} ShutdownDrains(capacity: nat, steps: seq<Step>) returns (more: seq<Step>)
    requires ValidRun(Initial(capacity), steps)
    requires var s := Run(Initial(capacity), steps); !s.open && !s.healthy
    ensures ValidRun(Initial(capacity), steps + more)
    ensures |more| <= Work(Run(Initial(capacity), steps)) + 1
    ensures forall i :: 0 <= i < |more| ==> Finishes(more[i]) || more[i].Exit?
    ensures var t := Run(Initial(capacity), steps + more); t.exited && Tasks(t.replies) == t.accepted
    decreases Work(Run(Initial(capacity), steps))
  {
    var s := Run(Initial(capacity), steps);
    if s.exited {
      more := [];
      assert steps + more == steps;
    } else {
      var e := NeverStuck(s);
      OneMore(Initial(capacity), steps, e);
      more := [e];
      if !e.Exit? {
        FinishingFinishes(s, e);
        var rest := ShutdownDrains(capacity, steps + [e]);
        more := [e] + rest;
        assert steps + more == steps + [e] + rest;
      }
    }
    ExitedMeansAllReplied(capacity, steps + more);
  }
}
