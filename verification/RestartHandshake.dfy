/**
  The lighting gate, the one-slot overwrite queue, the renderer worker, the
  progress supervisor and the owner that fails the strip off for a restart, as
  interleaved atomic steps. Any number of publishers race them, every driver
  write may fail, and the epoch may be bumped and black queued at any moment.
 */
module RestartHandshake {
  import opened Pixels
  import opened Display
  import opened Transients

  /** Of a lighting command the protocol only sees whether it may light the strip. */
  datatype Command = Command(actionable: bool)

  /** The default command that every fail-off queues. */
  const BLACK_COMMAND := Command(false)

  datatype Gate = Open | Closed | Shut

  /** Where a publisher is inside the gated `publish`. */
  datatype Publisher =
    | Idle
    | Entered(command: Command)
    | EpochRead(command: Command, epoch: nat)
    | Checked(command: Command, epoch: nat)
    | Enqueued(epoch: nat)
    | StillOpen(epoch: nat)
    | MustBlacken
    | Leaving

  /** Where the restart owner is inside `fail_off_for_restart`. */
  datatype Owner =
    | Running
    | ShutStored
    | Draining
    | Drained
    | PassesRead(passes: uint32)
    | BlackQueued(passes: uint32)
    | SawPass(passes: uint32)
    | SawEmpty(passes: uint32)
    | Confirmed
    | GaveUp

  /** Where the worker is inside one pass. */
  datatype Worker = Waiting | Holding(command: Option<Command>) | Drawn | FlagStored

  /** Where the supervisor is inside a stall fail-off or a resume. */
  datatype Supervisor = Watching | GateClosed | ClosedAndBumped | ReopenBumped

  datatype State = State(
    gate: Gate, epoch: nat, inFlight: int, queue: Option<Command>,
    publishers: seq<Publisher>, owner: Owner, worker: Worker, supervisor: Supervisor,
    display: Display, workerBlack: bool, workerPasses: uint32)

  datatype Action =
    | Publish(who: nat, command: Command)
    | OwnerStep(expired: bool)
    | WorkerStep(after: Display, ok: bool)
    | SupervisorStep(stalled: bool)
    | BumpEpoch
    | QueueBlack

  // ---------------------------------------------------------------- the steps

  /** The next atomic step of publisher `p`: its new position, the queue and the in-flight count. */
  function PublisherNext(s: State, p: Publisher, command: Command): (Publisher, Option<Command>, int) {
    match p
    case Idle => (Entered(command), s.queue, s.inFlight + 1)
    case Entered(c) => (EpochRead(c, s.epoch), s.queue, s.inFlight)
    case EpochRead(c, e) => (if s.gate == Open then Checked(c, e) else Leaving, s.queue, s.inFlight)
    case Checked(c, e) => (Enqueued(e), Some(c), s.inFlight)
    case Enqueued(e) => (if s.gate == Open then StillOpen(e) else MustBlacken, s.queue, s.inFlight)
    case StillOpen(e) => (if e == s.epoch then Leaving else MustBlacken, s.queue, s.inFlight)
    case MustBlacken => (Leaving, Some(BLACK_COMMAND), s.inFlight)
    case Leaving => (Idle, s.queue, s.inFlight - 1)
  }

  function PublishStep(s: State, who: nat, command: Command): State
    requires who < |s.publishers|
  {
    var (p, queue, inFlight) := PublisherNext(s, s.publishers[who], command);
    s.(publishers := s.publishers[who := p], queue := queue, inFlight := inFlight)
  }

  function OwnerNext(s: State, expired: bool): State {
    match s.owner
    case Running => s.(owner := ShutStored, gate := Shut)
    case ShutStored => s.(owner := Draining, epoch := s.epoch + 1)
    case Draining =>
      if s.inFlight == 0 then s.(owner := Drained) else if expired then s.(owner := GaveUp) else s
    case Drained => s.(owner := PassesRead(s.workerPasses))
    case PassesRead(n) => s.(owner := BlackQueued(n), queue := Some(BLACK_COMMAND))
    case BlackQueued(n) =>
      if s.workerPasses != n then s.(owner := SawPass(n)) else if expired then s.(owner := GaveUp) else s
    case SawPass(n) =>
      if s.queue.None? then s.(owner := SawEmpty(n)) else s.(owner := if expired then GaveUp else BlackQueued(n))
    case SawEmpty(n) => s.(owner := if s.workerBlack then Confirmed else if expired then GaveUp else BlackQueued(n))
    case Confirmed => s
    case GaveUp => s
  }

  /** One worker step; drawing ends in any outcome the renderer allows and a fault bumps the epoch. */
  ghost predicate WorkerNext(s: State, after: Display, ok: bool, pixelCount: ActiveLength, post: State) {
    match s.worker
    case Waiting => post == s.(worker := Holding(s.queue), queue := None)
    case Holding(command) =>
      && TickOutcome(Taken(s.display, command), pixelCount, after, ok)
      && post == s.(worker := Drawn, display := after, epoch := if after.faulted then s.epoch + 1 else s.epoch)
    case Drawn => post == s.(worker := FlagStored, workerBlack := BlackWritten(s.display))
    case FlagStored =>
      post == s.(worker := Waiting, workerPasses := if s.workerPasses == 0xFFFF_FFFF then 0 else s.workerPasses + 1)
  }

  /** The display once a pass took its command; a pass without one is a tick. */
  function Taken(d: Display, command: Option<Command>): Display {
    if command.Some? then Received(d, command.value.actionable) else d
  }

  /** A stall closes the gate, bumps and queues black; a resume bumps and then reopens a closed gate. */
  function SupervisorNext(s: State, stalled: bool): State {
    match s.supervisor
    case Watching =>
      if stalled then s.(supervisor := GateClosed, gate := if s.gate == Open then Closed else s.gate)
      else s.(supervisor := ReopenBumped, epoch := s.epoch + 1)
    case GateClosed => s.(supervisor := ClosedAndBumped, epoch := s.epoch + 1)
    case ClosedAndBumped => s.(supervisor := Watching, queue := Some(BLACK_COMMAND))
    case ReopenBumped => s.(supervisor := Watching, gate := if s.gate == Closed then Open else s.gate)
  }

  ghost predicate Step(s: State, action: Action, pixelCount: ActiveLength, post: State) {
    match action
    case Publish(who, command) => who < |s.publishers| && post == PublishStep(s, who, command)
    case OwnerStep(expired) => post == OwnerNext(s, expired)
    case WorkerStep(after, ok) => WorkerNext(s, after, ok, pixelCount, post)
    case SupervisorStep(stalled) => post == SupervisorNext(s, stalled)
    case BumpEpoch => post == s.(epoch := s.epoch + 1)
    case QueueBlack => post == s.(queue := Some(BLACK_COMMAND))
  }

  /** The renderer has started: black was written, nobody is publishing and no restart is under way. */
  predicate Init(s: State, pixelCount: ActiveLength) {
    && s.gate == Open && s.inFlight == 0 && s.queue == None
    && (forall i :: 0 <= i < |s.publishers| ==> s.publishers[i] == Idle)
    && s.owner == Running && s.worker == Waiting && s.supervisor == Watching
    && Mirror(s.display, pixelCount) && !s.workerBlack && s.workerPasses == 0
  }

  ghost predicate Run(states: seq<State>, pixelCount: ActiveLength) {
    && states != [] && Init(states[0], pixelCount)
    && forall i :: 0 <= i < |states| - 1 ==> StepAt(states, i, pixelCount)
  }

  ghost predicate StepAt(states: seq<State>, i: nat, pixelCount: ActiveLength) {
    i + 1 < |states| && Steps(states[i], states[i + 1], pixelCount)
  }

  ghost predicate Steps(s: State, post: State, pixelCount: ActiveLength) {
    exists action :: Step(s, action, pixelCount, post)
  }

  // ---------------------------------------------------------------- the invariant

  function Inside(publishers: seq<Publisher>): nat {
    if publishers == [] then 0
    else Inside(publishers[..|publishers| - 1]) + (if publishers[|publishers| - 1] == Idle then 0 else 1)
  }

  lemma {:induction false} InsideAfterUpdate(publishers: seq<Publisher>, who: nat, p: Publisher)
    requires who < |publishers|
    ensures Inside(publishers[who := p]) ==
            Inside(publishers) - (if publishers[who] == Idle then 0 else 1) + (if p == Idle then 0 else 1)
  {
    var n := |publishers| - 1;
    if who < n {
      InsideAfterUpdate(publishers[..n], who, p);
      assert publishers[who := p][..n] == publishers[..n][who := p];
    } else {
      assert publishers[who := p][..n] == publishers[..n];
    }
  }

  lemma {:induction false} InsideBoundsEach(publishers: seq<Publisher>, who: nat)
    requires who < |publishers| && publishers[who] != Idle
    ensures Inside(publishers) > 0
  {
    if who < |publishers| - 1 {
      InsideBoundsEach(publishers[..|publishers| - 1], who);
    }
  }

  lemma {:induction false} NobodyInside(publishers: seq<Publisher>)
    requires forall i :: 0 <= i < |publishers| ==> publishers[i] == Idle
    ensures Inside(publishers) == 0
  {
    if publishers != [] {
      NobodyInside(publishers[..|publishers| - 1]);
    }
  }

  predicate Dark(command: Option<Command>) {
    command.Some? ==> !command.value.actionable
  }

  /** What the worker holds, or what the renderer held last, cannot light. */
  predicate HeldDark(s: State) {
    if s.worker.Holding? && s.worker.command.Some? then !s.worker.command.value.actionable else !s.display.canLight
  }

  /** The newest command, queued or taken, cannot light. */
  predicate LatestDark(s: State) {
    if s.queue.Some? then !s.queue.value.actionable else HeldDark(s)
  }

  /** A publisher that saw the gate open but still has to re-check it, or to write its trailing black. */
  predicate Committed(p: Publisher) {
    p.Checked? || p.Enqueued? || p.StillOpen? || p.MustBlacken?
  }

  /** A publisher that is bound to write black behind its command. */
  predicate WillBlacken(s: State, p: Publisher) {
    p.Enqueued? || p.MustBlacken? || (p.StillOpen? && p.epoch != s.epoch)
  }

  predicate SomeWillBlacken(s: State) {
    exists i :: 0 <= i < |s.publishers| && WillBlacken(s, s.publishers[i])
  }

  /** The captured epoch can only be current while no close or shut has passed. */
  predicate EpochsCurrent(s: State) {
    forall i :: 0 <= i < |s.publishers| ==> EpochCurrent(s, s.publishers[i])
  }

  predicate EpochCurrent(s: State, p: Publisher) {
    && (p.EpochRead? || p.Checked? || p.Enqueued? || p.StillOpen? ==> p.epoch <= s.epoch)
    && ((p.Checked? || p.Enqueued? || p.StillOpen?) && p.epoch == s.epoch ==>
          s.gate == Open || s.gate == Shut || s.supervisor == GateClosed)
  }

  predicate GateDrained(s: State) {
    s.owner.Drained? || s.owner.PassesRead? || BlackWasQueued(s)
  }

  predicate BlackWasQueued(s: State) {
    s.owner.BlackQueued? || s.owner.SawPass? || s.owner.SawEmpty? || s.owner.Confirmed?
  }

  predicate NoneCommitted(publishers: seq<Publisher>) {
    forall i :: 0 <= i < |publishers| ==> !Committed(publishers[i])
  }

  lemma ZeroInFlight(publishers: seq<Publisher>)
    requires Inside(publishers) == 0
    ensures NoneCommitted(publishers)
  {
    forall i | 0 <= i < |publishers|
      ensures !Committed(publishers[i])
    {
      if publishers[i] != Idle {
        InsideBoundsEach(publishers, i);
      }
    }
  }

  /** Who may still be inside the gate, and what the gate's state says about the owner. */
  predicate GateInv(s: State) {
    && s.inFlight == Inside(s.publishers)
    && EpochsCurrent(s)
    && (s.supervisor.GateClosed? || s.supervisor.ClosedAndBumped? ==> s.gate != Open)
    && (!s.owner.Running? ==> s.gate == Shut)
    && (GateDrained(s) ==> NoneCommitted(s.publishers))
  }

  /** What is dark, and what the worker's published flag is worth. */
  predicate DarkInv(s: State, pixelCount: ActiveLength) {
    && Mirror(s.display, pixelCount)
    && (BlackWasQueued(s) ==> Dark(s.queue) && LatestDark(s))
    && (s.owner.SawEmpty? || s.owner.Confirmed? ==> HeldDark(s))
    && (s.workerBlack && (s.worker != Drawn || HeldDark(s)) ==> BlackWritten(s.display))
    && (s.owner.Confirmed? ==> BlackWritten(s.display))
    && (s.gate == Closed && s.supervisor == Watching ==> LatestDark(s) || SomeWillBlacken(s))
  }

  predicate Inv(s: State, pixelCount: ActiveLength) {
    GateInv(s) && DarkInv(s, pixelCount)
  }

  lemma InitHolds(s: State, pixelCount: ActiveLength)
    requires Init(s, pixelCount)
    ensures Inv(s, pixelCount)
  {
    NobodyInside(s.publishers);
  }

  lemma PublishKeepsInv(s: State, who: nat, command: Command, pixelCount: ActiveLength)
    requires who < |s.publishers| && Inv(s, pixelCount)
    ensures Inv(PublishStep(s, who, command), pixelCount)
  {
    var post := PublishStep(s, who, command);
    var p := s.publishers[who];
    InsideAfterUpdate(s.publishers, who, post.publishers[who]);
    if GateDrained(s) {
      assert !Committed(p);
    }
    if s.gate == Closed && s.supervisor == Watching && SomeWillBlacken(s) {
      var i :| 0 <= i < |s.publishers| && WillBlacken(s, s.publishers[i]);
      if i != who {
        assert WillBlacken(post, post.publishers[i]);
      } else if !p.MustBlacken? {
        assert WillBlacken(post, post.publishers[who]);
      }
    }
    if p.Checked? {
      assert WillBlacken(post, post.publishers[who]);
    }
  }

  /** A captured epoch stays honest when the epoch moves on or the gate only tightens. */
  lemma EpochsStayCurrent(s: State, post: State)
    requires EpochsCurrent(s) && post.publishers == s.publishers && s.epoch <= post.epoch
    requires s.epoch < post.epoch || post.gate == Open || post.gate == Shut || post.supervisor == GateClosed ||
             (post.gate == s.gate && s.supervisor != GateClosed)
    ensures EpochsCurrent(post)
  {
    forall i | 0 <= i < |s.publishers|
      ensures EpochCurrent(post, post.publishers[i])
    {
      assert EpochCurrent(s, s.publishers[i]);
    }
  }

  lemma OwnerKeepsGateInv(s: State, expired: bool)
    requires GateInv(s)
    ensures GateInv(OwnerNext(s, expired))
  {
    EpochsStayCurrent(s, OwnerNext(s, expired));
    if s.owner.Draining? && s.inFlight == 0 {
      ZeroInFlight(s.publishers);
    }
  }

  lemma OwnerKeepsDarkInv(s: State, expired: bool, pixelCount: ActiveLength)
    requires GateInv(s) && DarkInv(s, pixelCount)
    ensures DarkInv(OwnerNext(s, expired), pixelCount)
  {
    match s.owner {
      case Running | ShutStored | Draining | Drained =>
      case PassesRead(_) | BlackQueued(_) =>
      case SawPass(_) | SawEmpty(_) =>
      case Confirmed | GaveUp =>
    }
  }

  lemma WorkerKeepsInv(s: State, after: Display, ok: bool, pixelCount: ActiveLength, post: State)
    requires Inv(s, pixelCount) && WorkerNext(s, after, ok, pixelCount, post)
    ensures Inv(post, pixelCount)
  {
    if s.worker.Holding? {
      var taken := Taken(s.display, s.worker.command);
      PassKeepsMirror(taken, pixelCount, after, ok);
      if BlackWritten(s.display) && HeldDark(s) {
        DarkIsStable(taken, pixelCount, after, ok);
      }
    }
    EpochsStayCurrent(s, post);
    StillBlackens(s, post);
  }

  /** Bumping the epoch releases no publisher from its trailing black. */
  lemma StillBlackens(s: State, post: State)
    requires post.publishers == s.publishers && s.epoch <= post.epoch && EpochsCurrent(s)
    ensures SomeWillBlacken(s) ==> SomeWillBlacken(post)
  {
    if SomeWillBlacken(s) {
      var i :| 0 <= i < |s.publishers| && WillBlacken(s, s.publishers[i]);
      assert EpochCurrent(s, s.publishers[i]);
      assert WillBlacken(post, post.publishers[i]);
    }
  }

  lemma SupervisorKeepsInv(s: State, stalled: bool, pixelCount: ActiveLength)
    requires Inv(s, pixelCount)
    ensures Inv(SupervisorNext(s, stalled), pixelCount)
  {
    EpochsStayCurrent(s, SupervisorNext(s, stalled));
    StillBlackens(s, SupervisorNext(s, stalled));
  }

  lemma StepKeepsInv(s: State, action: Action, pixelCount: ActiveLength, post: State)
    requires Inv(s, pixelCount) && Step(s, action, pixelCount, post)
    ensures Inv(post, pixelCount)
    ensures s.owner.Confirmed? ==> post.owner.Confirmed?
  {
    match action {
      case Publish(who, command) => PublishKeepsInv(s, who, command, pixelCount);
      case OwnerStep(expired) => OwnerKeepsGateInv(s, expired); OwnerKeepsDarkInv(s, expired, pixelCount);
      case WorkerStep(after, ok) =>
        WorkerKeepsInv(s, after, ok, pixelCount, post);
      case SupervisorStep(stalled) => SupervisorKeepsInv(s, stalled, pixelCount);
      case BumpEpoch => EpochsStayCurrent(s, post); StillBlackens(s, post);
      case QueueBlack =>
    }
  }

  lemma StepsKeepInv(s: State, post: State, pixelCount: ActiveLength)
    requires Inv(s, pixelCount) && Steps(s, post, pixelCount)
    ensures Inv(post, pixelCount)
    ensures s.owner.Confirmed? ==> post.owner.Confirmed?
  {
    var action :| Step(s, action, pixelCount, post);
    StepKeepsInv(s, action, pixelCount, post);
  }

  // ---------------------------------------------------------------- the theorems

  lemma {:induction false} ReachableInv(states: seq<State>, pixelCount: ActiveLength, n: nat)
    requires Run(states, pixelCount) && n < |states|
    ensures Inv(states[n], pixelCount)
  {
    if n == 0 {
      InitHolds(states[0], pixelCount);
    } else {
      ReachableInv(states, pixelCount, n - 1);
      assert StepAt(states, n - 1, pixelCount);
      StepsKeepInv(states[n - 1], states[n], pixelCount);
    }
  }

  lemma {:induction false} ConfirmedIsFinal(states: seq<State>, pixelCount: ActiveLength, i: nat, j: nat)
    requires Run(states, pixelCount) && i <= j < |states| && states[i].owner.Confirmed?
    ensures states[j].owner.Confirmed?
  {
    if i < j {
      ConfirmedIsFinal(states, pixelCount, i, j - 1);
      ReachableInv(states, pixelCount, j - 1);
      assert StepAt(states, j - 1, pixelCount);
      StepsKeepInv(states[j - 1], states[j], pixelCount);
    }
  }

  /** When `fail_off_for_restart` returns true the strip is black, and it is black in every later state. */
  lemma ConfirmedStaysBlack(states: seq<State>, pixelCount: ActiveLength, i: nat, j: nat)
    requires Run(states, pixelCount) && i <= j < |states| && states[i].owner.Confirmed?
    ensures states[j].display.strip == BLACK_FRAME
  {
    ConfirmedIsFinal(states, pixelCount, i, j);
    ReachableInv(states, pixelCount, j);
  }

  /** Once the gate is shut and nobody was inside it, only commands that cannot light reach the queue. */
  lemma DrainedGateAdmitsNothing(states: seq<State>, pixelCount: ActiveLength, n: nat)
    requires Run(states, pixelCount) && n + 1 < |states| && GateDrained(states[n])
    ensures states[n + 1].queue == states[n].queue || Dark(states[n + 1].queue)
  {
    ReachableInv(states, pixelCount, n);
    assert StepAt(states, n, pixelCount);
    var action :| Step(states[n], action, pixelCount, states[n + 1]);
    if action.Publish? {
      assert !Committed(states[n].publishers[action.who]);
    }
  }

  /** A finished stall fail-off leaves nothing to light, unless a racing publisher's black is still to come. */
  lemma StallLeavesNoLight(states: seq<State>, pixelCount: ActiveLength, n: nat)
    requires Run(states, pixelCount) && n < |states|
    requires states[n].gate == Closed && states[n].supervisor == Watching
    ensures LatestDark(states[n]) || SomeWillBlacken(states[n])
    ensures states[n].inFlight == 0 ==> LatestDark(states[n])
  {
    ReachableInv(states, pixelCount, n);
    if SomeWillBlacken(states[n]) {
      var i :| 0 <= i < |states[n].publishers| && WillBlacken(states[n], states[n].publishers[i]);
      InsideBoundsEach(states[n].publishers, i);
    }
  }

  lemma Extend(states: seq<State>, action: Action, pixelCount: ActiveLength, next: State) returns (longer: seq<State>)
    requires Run(states, pixelCount) && Step(states[|states| - 1], action, pixelCount, next)
    ensures Run(longer, pixelCount) && longer[|longer| - 1] == next
  {
    longer := states + [next];
    assert Steps(states[|states| - 1], next, pixelCount);
    forall i | 0 <= i < |longer| - 1
      ensures StepAt(longer, i, pixelCount)
    {
      if i < |states| - 1 {
        assert StepAt(states, i, pixelCount);
      }
    }
  }

  lemma OwnerAdvances(states: seq<State>, pixelCount: ActiveLength) returns (longer: seq<State>)
    requires Run(states, pixelCount)
    ensures Run(longer, pixelCount) && longer[|longer| - 1] == OwnerNext(states[|states| - 1], false)
  {
    longer := Extend(states, OwnerStep(false), pixelCount, OwnerNext(states[|states| - 1], false));
  }

  /** A pass that takes black while the strip is black changes only the flag, the count and the queue. */
  lemma DarkPass(states: seq<State>, pixelCount: ActiveLength) returns (longer: seq<State>)
    requires Run(states, pixelCount)
    requires var s := states[|states| - 1];
             && s.worker == Waiting && s.queue == Some(BLACK_COMMAND) && s.workerPasses == 0
             && BlackWritten(s.display) && !s.display.canLight && !s.display.faulted
    ensures Run(longer, pixelCount)
    ensures longer[|longer| - 1] == states[|states| - 1].(queue := None, workerBlack := true, workerPasses := 1)
  {
    var s := states[|states| - 1];
    var d := s.display;
    var taken := s.(worker := Holding(s.queue), queue := None);
    assert Drawable(d, BLACK_FRAME, pixelCount) && WriteOutcome(d, BLACK_FRAME, pixelCount, d, true);
    longer := Extend(states, WorkerStep(d, true), pixelCount, taken);
    longer := Extend(longer, WorkerStep(d, true), pixelCount, taken.(worker := Drawn));
    longer := Extend(longer, WorkerStep(d, true), pixelCount, taken.(worker := FlagStored, workerBlack := true));
    longer := Extend(longer, WorkerStep(d, true), pixelCount,
                     taken.(worker := Waiting, workerBlack := true, workerPasses := 1));
  }

  lemma OwnerQueuesBlack(d: Display, pixelCount: ActiveLength) returns (run: seq<State>)
    requires Mirror(d, pixelCount)
    ensures Run(run, pixelCount)
    ensures run[|run| - 1] == State(Shut, 1, 0, Some(BLACK_COMMAND), [], BlackQueued(0), Waiting, Watching, d, false, 0)
  {
    run := [State(Open, 0, 0, None, [], Running, Waiting, Watching, d, false, 0)];
    run := OwnerAdvances(run, pixelCount);
    run := OwnerAdvances(run, pixelCount);
    run := OwnerAdvances(run, pixelCount);
    run := OwnerAdvances(run, pixelCount);
    run := OwnerAdvances(run, pixelCount);
  }

  /** The confirmation is not vacuous: a renderer showing black reaches it in twelve steps. */
  lemma ConfirmationIsReachable(d: Display, pixelCount: ActiveLength) returns (run: seq<State>)
    requires Mirror(d, pixelCount) && BlackWritten(d) && !d.canLight && !d.faulted
    ensures Run(run, pixelCount) && run[|run| - 1].owner.Confirmed?
  {
    run := OwnerQueuesBlack(d, pixelCount);
    run := DarkPass(run, pixelCount);
    run := OwnerAdvances(run, pixelCount);
    run := OwnerAdvances(run, pixelCount);
    run := OwnerAdvances(run, pixelCount);
  }
}
