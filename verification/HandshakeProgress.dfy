/** When the restart owner gives up, and that until then it can always still be confirmed. */
module HandshakeProgress {
  import opened Pixels
  import opened Display
  import opened Transients
  import opened RestartHandshake

  // ---------------------------------------------------------------- giving up

  /** The owner polls for something that has not happened. */
  predicate StillWaiting(s: State) {
    match s.owner
    case Draining => s.inFlight != 0
    case BlackQueued(n) => s.workerPasses == n
    case SawPass(_) => s.queue.Some?
    case SawEmpty(_) => !s.workerBlack
    case _ => false
  }

  /** The owner gives up only at a poll that found nothing after its deadline, and then it does. */
  lemma GivesUpExactlyWhenExpired(s: State, expired: bool)
    requires s.owner != GaveUp
    ensures OwnerNext(s, expired).owner == GaveUp <==> expired && StillWaiting(s)
  {
  }

  /** A step in which the owner's deadline has not passed. */
  ghost predicate PatientStep(s: State, post: State, pixelCount: ActiveLength) {
    exists action :: Step(s, action, pixelCount, post) && (action.OwnerStep? ==> !action.expired)
  }

  ghost predicate PatientAt(states: seq<State>, i: nat, pixelCount: ActiveLength) {
    i + 1 < |states| && PatientStep(states[i], states[i + 1], pixelCount)
  }

  ghost predicate PatientPath(states: seq<State>, from: State, to: State, pixelCount: ActiveLength) {
    && states != [] && states[0] == from && states[|states| - 1] == to
    && forall i :: 0 <= i < |states| - 1 ==> PatientAt(states, i, pixelCount)
  }

  /** Before its deadline the owner never gives up. */
  lemma {:induction false} PatientOwnerNeverGivesUp(states: seq<State>, from: State, pixelCount: ActiveLength, n: nat)
    requires n < |states| && PatientPath(states, from, states[|states| - 1], pixelCount) && from.owner != GaveUp
    ensures states[n].owner != GaveUp
  {
    if n > 0 {
      PatientOwnerNeverGivesUp(states, from, pixelCount, n - 1);
      assert PatientAt(states, n - 1, pixelCount);
      var action :| Step(states[n - 1], action, pixelCount, states[n]) && (action.OwnerStep? ==> !action.expired);
    }
  }

  // ---------------------------------------------------------------- the way to the confirmation

  lemma Extend(states: seq<State>, from: State, via: State, action: Action, pixelCount: ActiveLength, to: State)
      returns (longer: seq<State>)
    requires PatientPath(states, from, via, pixelCount) && Step(via, action, pixelCount, to)
    requires action.OwnerStep? ==> !action.expired
    ensures PatientPath(longer, from, to, pixelCount)
  {
    longer := states + [to];
    assert PatientStep(via, to, pixelCount);
    forall i | 0 <= i < |longer| - 1
      ensures PatientAt(longer, i, pixelCount)
    {
      if i < |states| - 1 {
        assert PatientAt(states, i, pixelCount);
      }
    }
  }

  function StepsLeft(p: Publisher): nat {
    match p
    case Idle => 0
    case Entered(_) => 7
    case EpochRead(_, _) => 6
    case Checked(_, _) => 5
    case Enqueued(_) => 4
    case StillOpen(_) => 3
    case MustBlacken => 2
    case Leaving => 1
  }

  /** Nothing but the publishers, their count and the queue changes. */
  predicate OnlyPublishes(s: State, post: State) {
    post == s.(publishers := post.publishers, queue := post.queue, inFlight := post.inFlight)
    && |post.publishers| == |s.publishers| && post.inFlight == Inside(post.publishers)
  }

  /** Publisher `who` finishes its call. */
  lemma PublisherLeaves(path: seq<State>, from: State, via: State, pixelCount: ActiveLength, who: nat)
      returns (longer: seq<State>, to: State)
    requires PatientPath(path, from, via, pixelCount) && who < |via.publishers| && via.inFlight == Inside(via.publishers)
    ensures PatientPath(longer, from, to, pixelCount) && OnlyPublishes(via, to)
    ensures to.publishers == via.publishers[who := Idle]
    decreases StepsLeft(via.publishers[who])
  {
    if via.publishers[who] == Idle {
      longer, to := path, via;
    } else {
      var next := PublishStep(via, who, BLACK_COMMAND);
      InsideAfterUpdate(via.publishers, who, next.publishers[who]);
      longer := Extend(path, from, via, Publish(who, BLACK_COMMAND), pixelCount, next);
      longer, to := PublisherLeaves(longer, from, next, pixelCount, who);
    }
  }

  lemma {:induction false} PublishersLeave(path: seq<State>, from: State, via: State, pixelCount: ActiveLength, n: nat)
      returns (longer: seq<State>, to: State)
    requires PatientPath(path, from, via, pixelCount) && n <= |via.publishers| && via.inFlight == Inside(via.publishers)
    ensures PatientPath(longer, from, to, pixelCount) && OnlyPublishes(via, to)
    ensures forall i :: 0 <= i < n ==> to.publishers[i] == Idle
  {
    if n == 0 {
      longer, to := path, via;
    } else {
      longer, to := PublishersLeave(path, from, via, pixelCount, n - 1);
      longer, to := PublisherLeaves(longer, from, to, pixelCount, n - 1);
    }
  }

  function NextCount(passes: uint32): uint32 {
    if passes == 0xFFFF_FFFF then 0 else passes + 1
  }

  /** The strip after an accepted black write. */
  function Blackened(d: Display): Display {
    if BlackWritten(d) then d else d.(strip := BLACK_FRAME, hasLast := true, lastWritten := BLACK_FRAME)
  }

  lemma BlackIsAllowed(d: Display, pixelCount: ActiveLength)
    ensures TickOutcome(d, pixelCount, Blackened(d), true) && BlackWritten(Blackened(d))
  {
    assert Drawable(d, BLACK_FRAME, pixelCount);
    assert BLACK_FRAME[..MAX_LED_COUNT] + d.strip[MAX_LED_COUNT..] == BLACK_FRAME;
    assert WriteOutcome(d, BLACK_FRAME, pixelCount, Blackened(d), true);
  }

  /** The worker is done with its pass; the owner, the gate and the publishers are where they were. */
  predicate OnlyWorks(s: State, post: State) {
    post == s.(worker := post.worker, queue := post.queue, display := post.display, epoch := post.epoch,
               workerBlack := post.workerBlack, workerPasses := post.workerPasses)
  }

  /** Without another pass, the worker's flag says black, or is about to. */
  predicate WillFlagBlack(s: State) {
    match s.worker
    case Holding(_) => true
    case Drawn => BlackWritten(s.display)
    case _ => s.workerBlack
  }

  /** The worker ends the pass it is in, with black if it still has to draw. */
  lemma WorkerEnds(path: seq<State>, from: State, via: State, pixelCount: ActiveLength)
      returns (longer: seq<State>, to: State)
    requires PatientPath(path, from, via, pixelCount)
    ensures PatientPath(longer, from, to, pixelCount) && OnlyWorks(via, to) && to.worker == Waiting && to.queue == via.queue
    ensures to.workerPasses == if via.worker == Waiting then via.workerPasses else NextCount(via.workerPasses)
    ensures WillFlagBlack(via) ==> to.workerBlack
    decreases match via.worker case Holding(_) => 3 case Drawn => 2 case FlagStored => 1 case Waiting => 0
  {
    if via.worker == Waiting {
      longer, to := path, via;
    } else {
      var taken := if via.worker.Holding? then Taken(via.display, via.worker.command) else via.display;
      BlackIsAllowed(taken, pixelCount);
      var after := Blackened(taken);
      var next := match via.worker
        case Holding(_) => via.(worker := Drawn, display := after, epoch := if after.faulted then via.epoch + 1 else via.epoch)
        case Drawn => via.(worker := FlagStored, workerBlack := BlackWritten(via.display))
        case _ => via.(worker := Waiting, workerPasses := NextCount(via.workerPasses));
      longer := Extend(path, from, via, WorkerStep(after, true), pixelCount, next);
      longer, to := WorkerEnds(longer, from, next, pixelCount);
    }
  }

  /** A whole pass: the queue is emptied and black is shown. */
  lemma WorkerPasses(path: seq<State>, from: State, via: State, pixelCount: ActiveLength)
      returns (longer: seq<State>, to: State)
    requires PatientPath(path, from, via, pixelCount) && via.worker == Waiting
    ensures PatientPath(longer, from, to, pixelCount) && OnlyWorks(via, to) && to.worker == Waiting
    ensures to.queue == None && to.workerBlack && to.workerPasses == NextCount(via.workerPasses)
  {
    var next := via.(worker := Holding(via.queue), queue := None);
    longer := Extend(path, from, via, WorkerStep(via.display, true), pixelCount, next);
    longer, to := WorkerEnds(longer, from, next, pixelCount);
  }

  lemma OwnerStepsOn(path: seq<State>, from: State, via: State, pixelCount: ActiveLength)
      returns (longer: seq<State>, to: State)
    requires PatientPath(path, from, via, pixelCount)
    ensures to == OwnerNext(via, false) && PatientPath(longer, from, to, pixelCount)
  {
    to := OwnerNext(via, false);
    longer := Extend(path, from, via, OwnerStep(false), pixelCount, to);
  }

  /** With nobody inside the gate, the owner reaches its wait for a pass, or the confirmation. */
  lemma OwnerQueues(path: seq<State>, from: State, via: State, pixelCount: ActiveLength)
      returns (longer: seq<State>, to: State)
    requires PatientPath(path, from, via, pixelCount) && via.inFlight == 0 && via.owner != GaveUp
    ensures PatientPath(longer, from, to, pixelCount) && (to.owner.BlackQueued? || to.owner == Confirmed)
    decreases match via.owner
      case Running => 5 case ShutStored => 4 case Draining => 3 case Drained => 2 case SawPass(_) => 2 case PassesRead(_) => 1
      case SawEmpty(_) => 1 case _ => 0
  {
    if via.owner.BlackQueued? || via.owner == Confirmed {
      longer, to := path, via;
    } else {
      longer, to := OwnerStepsOn(path, from, via, pixelCount);
      longer, to := OwnerQueues(longer, from, to, pixelCount);
    }
  }

  /** From its wait for a pass on, one or two passes and three polls confirm. */
  lemma OwnerConfirms(path: seq<State>, from: State, via: State, pixelCount: ActiveLength)
      returns (longer: seq<State>, to: State)
    requires PatientPath(path, from, via, pixelCount) && via.owner.BlackQueued? && via.worker == Waiting
    ensures PatientPath(longer, from, to, pixelCount) && to.owner == Confirmed
  {
    longer, to := WorkerPasses(path, from, via, pixelCount);
    if to.workerPasses == to.owner.passes {
      longer, to := WorkerPasses(longer, from, to, pixelCount);
    }
    longer, to := OwnerStepsOn(longer, from, to, pixelCount);
    longer, to := OwnerStepsOn(longer, from, to, pixelCount);
    longer, to := OwnerStepsOn(longer, from, to, pixelCount);
  }

  ghost predicate CanConfirm(s: State, pixelCount: ActiveLength) {
    exists states, to :: PatientPath(states, s, to, pixelCount) && to.owner == Confirmed
  }

  /**
    In every reachable state in which the owner has not given up, publishers,
    worker and owner can still bring the restart to its confirmation before the
    deadline, whatever happened so far.
   */
  lemma ConfirmationStaysPossible(states: seq<State>, pixelCount: ActiveLength, n: nat)
    requires Run(states, pixelCount) && n < |states| && states[n].owner != GaveUp
    ensures CanConfirm(states[n], pixelCount)
  {
    ReachableInv(states, pixelCount, n);
    var s := states[n];
    var path, to := PublishersLeave([s], s, s, pixelCount, |s.publishers|);
    NobodyInside(to.publishers);
    path, to := WorkerEnds(path, s, to, pixelCount);
    path, to := OwnerQueues(path, s, to, pixelCount);
    if to.owner != Confirmed {
      path, to := WorkerEnds(path, s, to, pixelCount);
      path, to := OwnerConfirms(path, s, to, pixelCount);
    }
  }

  // ---------------------------------------------------------------- publishing

  /** Through an open gate a publisher that is not disturbed queues its own command and leaves it there. */
  lemma OpenGateLetsThrough(s: State, who: nat, command: Command, pixelCount: ActiveLength) returns (states: seq<State>, to: State)
    requires who < |s.publishers| && s.publishers[who] == Idle && s.gate == Open
    ensures PatientPath(states, s, to, pixelCount)
    ensures to == s.(queue := Some(command))
  {
    states, to := [s], s;
    var i := 0;
    var e := s.epoch;
    var places := [Entered(command), EpochRead(command, e), Checked(command, e), Enqueued(e), StillOpen(e), Leaving, Idle];
    while i < 7
      invariant 0 <= i <= 7 && PatientPath(states, s, to, pixelCount)
      invariant to == s.(publishers := s.publishers[who := if i == 0 then Idle else places[i - 1]],
                         queue := if i >= 4 then Some(command) else s.queue, inFlight := s.inFlight + if 0 < i < 7 then 1 else 0)
    {
      var next := PublishStep(to, who, command);
      states := Extend(states, s, to, Publish(who, command), pixelCount, next);
      to := next;
      i := i + 1;
    }
    assert s.publishers[who := Idle] == s.publishers;
  }

  /**
    A publisher that looked at an open gate and then meets a closed one, or a
    bumped epoch, leaves black behind its command; one that has not looked yet
    queues nothing.
   */
  lemma ClosedGateLeavesBlack(s: State, who: nat, pixelCount: ActiveLength) returns (states: seq<State>, to: State)
    requires who < |s.publishers| && s.inFlight == Inside(s.publishers)
    requires s.gate != Open || (s.publishers[who].Checked? && s.publishers[who].epoch != s.epoch)
    requires s.publishers[who].EpochRead? || s.publishers[who].Checked?
    ensures PatientPath(states, s, to, pixelCount) && to.publishers == s.publishers[who := Idle] && OnlyPublishes(s, to)
    ensures to.queue == if s.publishers[who].EpochRead? then s.queue else Some(BLACK_COMMAND)
  {
    states, to := [s], s;
    while to.publishers[who] != Idle
      invariant PatientPath(states, s, to, pixelCount) && OnlyPublishes(s, to)
      invariant to.publishers == s.publishers[who := to.publishers[who]]
      invariant match to.publishers[who]
                case EpochRead(_, _) => to == s
                case Checked(_, e) => s.publishers[who].Checked? && to == s
                case Enqueued(e) => s.publishers[who].Checked? && e == s.publishers[who].epoch
                case StillOpen(e) => s.publishers[who].Checked? && e != s.epoch
                case MustBlacken => s.publishers[who].Checked?
                case Leaving => to.queue == if s.publishers[who].EpochRead? then s.queue else Some(BLACK_COMMAND)
                case Idle => to.queue == if s.publishers[who].EpochRead? then s.queue else Some(BLACK_COMMAND)
                case Entered(_) => false
      decreases StepsLeft(to.publishers[who])
    {
      var next := PublishStep(to, who, BLACK_COMMAND);
      InsideAfterUpdate(to.publishers, who, next.publishers[who]);
      states := Extend(states, s, to, Publish(who, BLACK_COMMAND), pixelCount, next);
      to := next;
    }
  }

  // ---------------------------------------------------------------- the supervisor

  /** A stall closes an open gate, bumps the epoch and queues black; a resume bumps it and opens a closed gate. */
  lemma StallCloses(s: State, a: State, b: State, c: State)
    requires s.supervisor == Watching
    requires a == SupervisorNext(s, true) && b == SupervisorNext(a, true) && c == SupervisorNext(b, true)
    ensures c == s.(gate := if s.gate == Shut then Shut else Closed, epoch := s.epoch + 1, queue := Some(Command(false)))
  {
  }

  lemma ResumeOpens(s: State, a: State, b: State)
    requires s.supervisor == Watching && a == SupervisorNext(s, false) && b == SupervisorNext(a, false)
    ensures b == s.(gate := if s.gate == Shut then Shut else Open, epoch := s.epoch + 1)
  {
  }
}
