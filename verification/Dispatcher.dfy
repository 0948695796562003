/**
  The profile service's callback dispatcher: producers that publish and mark
  pending work, one dispatcher, and the lifecycle owner that starts, drains and
  stops it, as interleaved atomic steps. Both wake forms are covered: the binary
  semaphore and the condition variable shared with the draining owner.

  The acquisition runtime is abstract: frame and diagnostics callbacks only run
  while it runs, and a stop that succeeds returns after the last of them.
 */
module Dispatcher {
  datatype Form = BinarySemaphore | ConditionVariable

  /** `Head` is the loop head; `Asleep` only occurs with the condition variable, `Woken` only with the semaphore. */
  datatype Worker = Absent | Head | Asleep | Woken | Dispatching | Exiting | Exited

  /** Inside `start` (up to `StartGiven`) and `stop` (from `FaultPublished`). */
  datatype Owner =
    | Stopped | Reset | Spawned | ProviderOn | Enabled | StartMarked | StartGiven
    | Running
    | FaultPublished | StopMarked | StopGiven | Quiescing | QuiesceAsleep | Quiesced | ShutdownSet | AwaitingExit
    | TimedOut

  /**
    Producers run `process` or `on_diagnostics`: each publishes, marks the work
    pending, then wakes the dispatcher. `marking` of them still have to mark and
    `waking` still have to wake.

    `published` counts publications of this session, `due` how many of them a
    mark has made pending, `begun` how many the latest dispatch started with and
    `covered` how many the latest finished dispatch had started with.
   */
  datatype State = State(
    form: Form, started: bool, enabled: bool, shutdown: bool, pending: bool, active: bool, exited: bool,
    semaphore: bool, worker: Worker, owner: Owner, runtime: bool, marking: nat, waking: nat,
    published: nat, due: nat, begun: nat, covered: nat)

  datatype Action =
    | Publish | MarkWork | WakeUp(wakeOwner: bool)
    | Work
    | Own(give: bool, fail: bool, wakeOwner: bool)
    | SpuriousWake

  // ---------------------------------------------------------------- the steps

  /** Gives the semaphore, or notifies one of the sleepers. */
  function Wake(s: State, wakeOwner: bool): State {
    if s.form.BinarySemaphore? then s.(semaphore := true)
    else if s.owner.QuiesceAsleep? && (wakeOwner || !s.worker.Asleep?) then s.(owner := Quiescing)
    else if s.worker.Asleep? then s.(worker := Head)
    else s
  }

  function Mark(s: State): State {
    s.(pending := true, due := s.published)
  }

  /** Under the lock: exit, take the pending work, or go back to waiting. */
  predicate Decides(s: State, waiting: Worker, post: State) {
    if s.shutdown && !s.pending then post == s.(worker := Exiting)
    else if s.enabled && s.pending then
      post == s.(worker := Dispatching, pending := false, active := true, begun := s.published)
    else post == s.(worker := waiting)
  }

  predicate Works(s: State, post: State) {
    match s.worker
    case Absent => false
    case Asleep => false
    case Exited => false
    case Head =>
      if s.form.BinarySemaphore? then s.semaphore && post == s.(worker := Woken, semaphore := false)
      else Decides(s, if s.shutdown then Head else Asleep, post)
    case Woken => Decides(s, Head, post)
    case Dispatching =>
      // Only the condition variable announces that the work ran out.
      if s.form.ConditionVariable? && !s.pending && s.owner.QuiesceAsleep? then
        post == s.(worker := Head, active := false, covered := s.begun, owner := Quiescing)
      else post == s.(worker := Head, active := false, covered := s.begun)
    case Exiting => post == s.(worker := Exited, exited := true)
  }

  /** No callback of the acquisition runtime is inside the service. */
  predicate NoProducer(s: State) {
    s.marking == 0 && s.waking == 0
  }

  predicate Quiescent(s: State) {
    !s.pending && !s.active
  }

  /**
    One step of the owner. `give` lets it start or stop, `fail` takes the
    failing or timed-out outcome where one exists.
   */
  predicate Owns(s: State, give: bool, fail: bool, wakeOwner: bool, post: State) {
    match s.owner
    case Stopped =>
      post == if give then
        s.(owner := Reset, started := true, enabled := false, shutdown := false, pending := false, active := false,
           exited := false, published := 0, due := 0, begun := 0, covered := 0)
      else s
    case Reset =>
      post == if fail then s.(owner := Stopped, started := false, exited := true)
            else s.(owner := Spawned, semaphore := false, worker := Head)
    case Spawned => post == s.(owner := ProviderOn)
    case ProviderOn => post == s.(owner := Enabled, enabled := true)
    case Enabled => post == Mark(s.(owner := StartMarked))
    case StartMarked => post == Wake(s.(owner := StartGiven), wakeOwner)
    case StartGiven => post == s.(owner := Running, runtime := !fail)
    case Running => post == if give then s.(owner := FaultPublished, published := s.published + 1) else s
    case FaultPublished => post == Mark(s.(owner := StopMarked))
    case StopMarked => post == Wake(s.(owner := StopGiven), wakeOwner)
    case StopGiven =>
      post == if fail || !NoProducer(s) then s.(owner := Running) else s.(owner := Quiescing, runtime := false)
    case Quiescing =>
      post == if Quiescent(s) then s.(owner := Quiesced)
            else if fail then s.(owner := TimedOut)
            else if s.form.ConditionVariable? then s.(owner := QuiesceAsleep)
            else s
    case QuiesceAsleep => post == if fail then s.(owner := if Quiescent(s) then Quiesced else TimedOut) else s
    case Quiesced => post == s.(owner := ShutdownSet, enabled := true, shutdown := true)
    case ShutdownSet => post == Wake(s.(owner := AwaitingExit), wakeOwner)
    case AwaitingExit =>
      post == if s.exited && s.worker.Exited? then s.(owner := Stopped, started := false, worker := Absent)
            else if fail && s.form.BinarySemaphore? then s.(owner := TimedOut)
            else s
    case TimedOut => post == if give then s.(owner := FaultPublished, published := s.published + 1) else s
  }

  predicate Step(s: State, action: Action, post: State) {
    match action
    case Publish => s.runtime && post == s.(marking := s.marking + 1, published := s.published + 1)
    case MarkWork => s.marking > 0 && post == Mark(s.(marking := s.marking - 1, waking := s.waking + 1))
    case WakeUp(wakeOwner) => s.waking > 0 && post == Wake(s.(waking := s.waking - 1), wakeOwner)
    case Work => Works(s, post)
    case Own(give, fail, wakeOwner) => Owns(s, give, fail, wakeOwner, post)
    case SpuriousWake =>
      s.form.ConditionVariable? &&
      post == s.(worker := if s.worker.Asleep? then Head else s.worker,
               owner := if s.owner.QuiesceAsleep? then Quiescing else s.owner)
  }

  predicate Init(s: State) {
    && s.owner.Stopped? && s.worker.Absent? && !s.started && !s.runtime && NoProducer(s)
    && !s.pending && !s.active && s.published == s.due == s.begun == s.covered == 0
  }

  // ---------------------------------------------------------------- the invariant

  predicate Starting(s: State) {
    Resetting(s) || s.owner.StartMarked? || s.owner.StartGiven?
  }

  /** No work can be pending yet. */
  predicate Resetting(s: State) {
    s.owner.Reset? || s.owner.Spawned? || s.owner.ProviderOn? || s.owner.Enabled?
  }

  /** The owner has stopped the runtime and is draining or shutting the dispatcher. */
  predicate Draining(s: State) {
    s.owner.Quiescing? || s.owner.QuiesceAsleep? || Shutting(s)
  }

  predicate Shutting(s: State) {
    s.owner.Quiesced? || s.owner.ShutdownSet? || s.owner.AwaitingExit?
  }

  /** Somebody marked work and still has to wake the dispatcher for it. */
  predicate WakeComing(s: State) {
    s.waking > 0 || s.owner.Enabled? || s.owner.StartMarked? || s.owner.StopMarked?
  }

  predicate UnmarkedPublication(s: State) {
    s.marking > 0 || s.owner.FaultPublished?
  }

  /** Where the threads can be, relative to each other. */
  predicate ShapeInv(s: State) {
    && (s.owner.Stopped? || s.owner.Reset? <==> s.worker.Absent?)
    && (s.started <==> !s.owner.Stopped?)
    && (s.worker.Asleep? || s.owner.QuiesceAsleep? ==> s.form.ConditionVariable?)
    && (s.worker.Woken? ==> s.form.BinarySemaphore?)
    && (s.active <==> s.worker.Dispatching?)
    && (!s.owner.Stopped? ==> (s.enabled <==> !s.owner.Reset? && !s.owner.Spawned? && !s.owner.ProviderOn?))
    && (!s.runtime ==> NoProducer(s))
    && (s.owner.Stopped? || Starting(s) || Draining(s) || s.owner.TimedOut? ==> !s.runtime)
    && (s.worker.Exiting? || s.worker.Exited? ==> s.shutdown)
    && (s.worker.Exited? ==> s.exited)
    && (Starting(s) ==> !s.shutdown)
    && (s.shutdown && s.form.ConditionVariable? ==> s.owner.ShutdownSet? || s.owner.AwaitingExit? || s.owner.Stopped?)
    && (s.owner.ShutdownSet? || s.owner.AwaitingExit? ==> s.shutdown)
  }

  /** No publication falls between a mark and a dispatch. */
  predicate CountInv(s: State) {
    && s.covered <= s.begun <= s.published && s.due <= s.published
    && (!s.pending ==> s.due <= s.begun)
    && (!s.active ==> s.covered == s.begun)
    && (UnmarkedPublication(s) || s.due == s.published)
    && (s.owner.Stopped? || Resetting(s) || Shutting(s) ==> Quiescent(s))
  }

  /** No wake-up is lost, for the dispatcher or for the draining owner. */
  predicate WakeInv(s: State) {
    && (s.form.BinarySemaphore? && (s.worker.Head? || s.worker.Dispatching?) && s.pending && s.enabled ==>
          s.semaphore || WakeComing(s))
    && (s.worker.Asleep? && s.pending && s.enabled ==> WakeComing(s))
    && (s.owner.AwaitingExit? && s.form.BinarySemaphore? && s.worker.Head? ==> s.semaphore)
    && (s.worker.Asleep? && s.shutdown ==> s.owner.ShutdownSet?)
    && (s.owner.QuiesceAsleep? ==> !Quiescent(s))
  }

  predicate Inv(s: State) {
    ShapeInv(s) && CountInv(s) && WakeInv(s)
  }

  lemma InitHolds(s: State)
    requires Init(s)
    ensures Inv(s)
  {
  }

  lemma ProducerKeepsInv(s: State, action: Action, post: State)
    requires Inv(s) && Step(s, action, post) && (action.Publish? || action.MarkWork? || action.WakeUp?)
    ensures Inv(post)
  {
  }

  lemma WorkKeepsInv(s: State, post: State)
    requires Inv(s) && Works(s, post)
    ensures Inv(post)
  {
  }

  lemma ResetKeepsInv(s: State, give: bool, fail: bool, wakeOwner: bool, post: State)
    requires Inv(s) && Owns(s, give, fail, wakeOwner, post)
    requires s.owner.Stopped? || s.owner.Reset? || s.owner.Spawned? || s.owner.ProviderOn?
    ensures Inv(post)
  {
  }

  lemma StartKeepsInv(s: State, give: bool, fail: bool, wakeOwner: bool, post: State)
    requires Inv(s) && Owns(s, give, fail, wakeOwner, post)
    requires s.owner.Enabled? || s.owner.StartMarked? || s.owner.StartGiven?
    ensures Inv(post)
  {
  }

  lemma FaultOffKeepsInv(s: State, give: bool, fail: bool, wakeOwner: bool, post: State)
    requires Inv(s) && Owns(s, give, fail, wakeOwner, post)
    requires s.owner.Running? || s.owner.TimedOut? || s.owner.FaultPublished?
    ensures Inv(post)
  {
  }

  lemma StopWakeKeepsInv(s: State, give: bool, fail: bool, wakeOwner: bool, post: State)
    requires Inv(s) && Owns(s, give, fail, wakeOwner, post)
    requires s.owner.StopMarked?
    ensures Inv(post)
  {
    if s.form.BinarySemaphore? {
      StopGiveKeepsInv(s, post);
    } else {
      StopNotifyKeepsInv(s, wakeOwner, post);
    }
  }

  lemma StopGiveKeepsInv(s: State, post: State)
    requires Inv(s) && s.owner.StopMarked? && s.form.BinarySemaphore?
    requires post == s.(owner := StopGiven, semaphore := true)
    ensures Inv(post)
  {
  }

  lemma StopNotifyKeepsInv(s: State, wakeOwner: bool, post: State)
    requires Inv(s) && s.owner.StopMarked? && s.form.ConditionVariable?
    requires post == Wake(s.(owner := StopGiven), wakeOwner)
    ensures Inv(post)
  {
  }

  lemma RuntimeStopKeepsInv(s: State, give: bool, fail: bool, wakeOwner: bool, post: State)
    requires Inv(s) && Owns(s, give, fail, wakeOwner, post)
    requires s.owner.StopGiven?
    ensures Inv(post)
  {
  }

  lemma QuiesceKeepsInv(s: State, give: bool, fail: bool, wakeOwner: bool, post: State)
    requires Inv(s) && Owns(s, give, fail, wakeOwner, post)
    requires s.owner.Quiescing? || s.owner.QuiesceAsleep?
    ensures Inv(post)
  {
  }

  lemma ShutdownKeepsInv(s: State, give: bool, fail: bool, wakeOwner: bool, post: State)
    requires Inv(s) && Owns(s, give, fail, wakeOwner, post)
    requires Shutting(s)
    ensures Inv(post)
  {
  }

  lemma StepKeepsInv(s: State, action: Action, post: State)
    requires Inv(s) && Step(s, action, post)
    ensures Inv(post)
  {
    match action {
      case Work => WorkKeepsInv(s, post);
      case Own(give, fail, wakeOwner) =>
        if s.owner.Enabled? || s.owner.StartMarked? || s.owner.StartGiven? {
          StartKeepsInv(s, give, fail, wakeOwner, post);
        } else if s.owner.Running? || s.owner.TimedOut? || s.owner.FaultPublished? {
          FaultOffKeepsInv(s, give, fail, wakeOwner, post);
        } else if s.owner.StopMarked? {
          StopWakeKeepsInv(s, give, fail, wakeOwner, post);
        } else if s.owner.StopGiven? {
          RuntimeStopKeepsInv(s, give, fail, wakeOwner, post);
        } else if s.owner.Quiescing? || s.owner.QuiesceAsleep? {
          QuiesceKeepsInv(s, give, fail, wakeOwner, post);
        } else if Shutting(s) {
          ShutdownKeepsInv(s, give, fail, wakeOwner, post);
        } else {
          ResetKeepsInv(s, give, fail, wakeOwner, post);
        }
      case SpuriousWake =>
      case _ => ProducerKeepsInv(s, action, post);
    }
  }

  ghost predicate Steps(s: State, post: State) {
    exists action :: Step(s, action, post)
  }

  ghost predicate StepAt(states: seq<State>, i: nat) {
    i + 1 < |states| &&
    Steps(states[i], states[i + 1])
  }

  ghost predicate Run(states: seq<State>) {
    states != [] && Init(states[0]) && forall i :: 0 <= i < |states| - 1 ==> StepAt(states, i)
  }

  lemma {:induction false} ReachableInv(states: seq<State>, n: nat)
    requires Run(states) && n < |states|
    ensures Inv(states[n])
  {
    if n == 0 {
      InitHolds(states[0]);
    } else {
      ReachableInv(states, n - 1);
      assert StepAt(states, n - 1);
      var action :| Step(states[n - 1], action, states[n]);
      StepKeepsInv(states[n - 1], action, states[n]);
    }
  }

  // ---------------------------------------------------------------- the theorems

  /**
    No marked publication is lost: it is pending, or the running dispatch began
    after it, or a finished one did. When nothing is pending or active, a
    finished dispatch began after every marked publication.
   */
  lemma NoPublicationIsLost(states: seq<State>, n: nat)
    requires Run(states) && n < |states|
    ensures states[n].pending || (states[n].active && states[n].due <= states[n].begun) ||
            states[n].due <= states[n].covered
    ensures Quiescent(states[n]) ==> states[n].due <= states[n].covered
    ensures Quiescent(states[n]) && states[n].marking == 0 && !states[n].owner.FaultPublished? ==>
              states[n].covered == states[n].published
  {
    ReachableInv(states, n);
  }

  /** A stop that returns Ok delivered every publication of the session, the final fail-off included. */
  lemma StoppedMeansDelivered(states: seq<State>, n: nat)
    requires Run(states) && n < |states| && states[n].owner.Stopped?
    ensures states[n].covered == states[n].published && NoProducer(states[n])
  {
    ReachableInv(states, n);
  }

  /** No callback runs while the service is stopped. */
  lemma StoppedRunsNoCallback(states: seq<State>, n: nat)
    requires Run(states) && n < |states| && states[n].owner.Stopped?
    ensures states[n].worker.Absent? && !states[n].active
  {
    ReachableInv(states, n);
  }

  /** The step that leaves pending work to a waiting dispatcher can always be followed by one that finds it. */
  lemma NoWakeIsLost(states: seq<State>, n: nat)
    requires Run(states) && n < |states|
    requires states[n].pending && states[n].enabled && !WakeComing(states[n])
    ensures !states[n].worker.Asleep?
    ensures states[n].worker.Head? && states[n].form.BinarySemaphore? ==> states[n].semaphore
  {
    ReachableInv(states, n);
  }

  /** The draining owner never sleeps through quiescence, although it shares the condition variable. */
  lemma OwnerIsNotStranded(states: seq<State>, n: nat)
    requires Run(states) && n < |states| && states[n].owner.QuiesceAsleep?
    ensures states[n].active || (states[n].pending && !states[n].worker.Asleep?)
  {
    ReachableInv(states, n);
  }

  // ---------------------------------------------------------------- retrying a stop that timed out

  predicate Leaving(s: State) {
    s.worker.Exiting? || s.worker.Exited?
  }

  /**
    The dispatcher is gone and the owner is retrying: it has either not marked
    its fail-off yet, or marked work that nobody will take.
   */
  predicate Stuck(s: State) {
    && Leaving(s) && !s.runtime
    && (s.owner.TimedOut? || s.owner.FaultPublished? ||
        (s.pending && (s.owner.Running? || s.owner.StopMarked? || s.owner.StopGiven? ||
                       s.owner.Quiescing? || s.owner.QuiesceAsleep?)))
  }

  lemma StuckStays(s: State, action: Action, post: State)
    requires Inv(s) && Stuck(s) && Step(s, action, post)
    ensures Stuck(post)
  {
  }

  ghost predicate Path(states: seq<State>, from: State, to: State) {
    && states != [] && states[0] == from && states[|states| - 1] == to
    && forall i :: 0 <= i < |states| - 1 ==> StepAt(states, i)
  }

  /** Once stuck, no later stop returns Ok. */
  lemma {:induction false} StuckForever(states: seq<State>, from: State, to: State)
    requires Path(states, from, to) && Inv(from) && Stuck(from)
    ensures Inv(to) && Stuck(to)
  {
    var n := |states| - 1;
    if n > 0 {
      assert StepAt(states, n - 1);
      forall i | 0 <= i < n - 1
        ensures StepAt(states[..n], i)
      {
        assert StepAt(states, i);
      }
      StuckForever(states[..n], from, states[n - 1]);
      var action :| Step(states[n - 1], action, to);
      StepKeepsInv(states[n - 1], action, to);
      StuckStays(states[n - 1], action, to);
    }
  }

  lemma Extend(states: seq<State>, from: State, via: State, action: Action, to: State) returns (longer: seq<State>)
    requires Path(states, from, via) && Step(via, action, to)
    ensures Path(longer, from, to)
  {
    longer := states + [to];
    assert Steps(via, to);
    forall i | 0 <= i < |longer| - 1
      ensures StepAt(longer, i)
    {
      if i < |states| - 1 {
        assert StepAt(states, i);
      }
    }
  }

  /** The retry's own first steps: publish the fail-off, mark it, wake the dispatcher and find the runtime stopped. */
  function Retried(s: State): State {
    s.(owner := Quiescing, pending := true, published := s.published + 1, due := s.published + 1, semaphore := true)
  }

  lemma RetryBegins(s: State) returns (path: seq<State>)
    requires Inv(s) && s.owner.TimedOut? && s.form.BinarySemaphore?
    ensures Path(path, s, Retried(s))
  {
    var faulted := s.(owner := FaultPublished, published := s.published + 1);
    var marked := Mark(faulted.(owner := StopMarked));
    var woken := Wake(marked.(owner := StopGiven), false);
    path := Extend([s], s, s, Own(true, false, false), faulted);
    path := Extend(path, s, faulted, Own(true, false, false), marked);
    path := Extend(path, s, marked, Own(true, false, false), woken);
    path := Extend(path, s, woken, Own(true, false, false), Retried(s));
  }

  /** A dispatcher that has not left takes the marked work and finishes it. */
  lemma WorkerDrains(path: seq<State>, s: State, via: State) returns (longer: seq<State>, to: State)
    requires Path(path, s, via)
    requires via.form.BinarySemaphore? && via.enabled && via.pending && (via.worker.Woken? || via.semaphore)
    requires via.worker.Head? || via.worker.Woken? || via.worker.Dispatching?
    ensures Path(longer, s, to)
    ensures to == via.(worker := Head, pending := false, active := false, semaphore := to.semaphore,
                       begun := via.published, covered := via.published)
    decreases if via.worker.Dispatching? then 2 else if via.worker.Head? then 1 else 0
  {
    match via.worker {
      case Dispatching =>
        var next := via.(worker := Head, active := false, covered := via.begun);
        longer := Extend(path, s, via, Work, next);
        longer, to := WorkerDrains(longer, s, next);
      case _ =>
        var woken := if via.worker.Head? then via.(worker := Woken, semaphore := false) else via;
        longer := path;
        if via.worker.Head? {
          longer := Extend(path, s, via, Work, woken);
        }
        var busy := woken.(worker := Dispatching, pending := false, active := true, begun := via.published);
        longer := Extend(longer, s, woken, Work, busy);
        to := busy.(worker := Head, active := false, covered := via.published);
        longer := Extend(longer, s, busy, Work, to);
    }
  }

  lemma OwnerShutsDown(path: seq<State>, s: State, via: State) returns (longer: seq<State>, to: State)
    requires Path(path, s, via)
    requires via.form.BinarySemaphore? && via.owner.Quiescing? && Quiescent(via)
    ensures Path(longer, s, to)
    ensures to == via.(owner := AwaitingExit, enabled := true, shutdown := true, semaphore := true)
  {
    var quiesced := via.(owner := Quiesced);
    var closing := quiesced.(owner := ShutdownSet, enabled := true, shutdown := true);
    to := Wake(closing.(owner := AwaitingExit), false);
    longer := Extend(path, s, via, Own(true, false, false), quiesced);
    longer := Extend(longer, s, quiesced, Own(true, false, false), closing);
    longer := Extend(longer, s, closing, Own(true, false, false), to);
  }

  lemma WorkerLeaves(path: seq<State>, s: State, via: State) returns (longer: seq<State>, to: State)
    requires Path(path, s, via)
    requires via.form.BinarySemaphore? && via.owner.AwaitingExit? && via.shutdown && !via.pending
    requires (via.worker.Head? && via.semaphore) || via.worker.Woken? || Leaving(via)
    requires via.worker.Exited? ==> via.exited
    ensures Path(longer, s, to) && to.owner.Stopped?
    decreases match via.worker case Head => 3 case Woken => 2 case Exiting => 1 case _ => 0
  {
    match via.worker {
      case Exited =>
        to := via.(owner := Stopped, started := false, worker := Absent);
        longer := Extend(path, s, via, Own(true, false, false), to);
      case Exiting =>
        var exited := via.(worker := Exited, exited := true);
        longer := Extend(path, s, via, Work, exited);
        longer, to := WorkerLeaves(longer, s, exited);
      case Woken =>
        var exiting := via.(worker := Exiting);
        longer := Extend(path, s, via, Work, exiting);
        longer, to := WorkerLeaves(longer, s, exiting);
      case Head =>
        var woken := via.(worker := Woken, semaphore := false);
        longer := Extend(path, s, via, Work, woken);
        longer, to := WorkerLeaves(longer, s, woken);
    }
  }

  ghost predicate CanStop(s: State) {
    exists path, to :: Path(path, s, to) && to.owner.Stopped?
  }

  /**
    A retry of a timed-out stop has an interleaving that succeeds exactly when the
    dispatcher has not left: otherwise the retry marks work for a dispatcher that is gone and
    waits for a quiescence that never comes.
   */
  lemma RetrySucceedsUnlessDispatcherLeft(s: State)
    requires Inv(s) && s.owner.TimedOut? && s.form.BinarySemaphore?
    ensures CanStop(s) <==> !Leaving(s)
  {
    if Leaving(s) {
      StuckCannotStop(s);
    } else {
      var path := RetryBegins(s);
      var via, to;
      path, via := WorkerDrains(path, s, Retried(s));
      path, via := OwnerShutsDown(path, s, via);
      path, to := WorkerLeaves(path, s, via);
    }
  }

  // ---------------------------------------------------------------- a retry in every interleaving

  /** A step without a timeout. */
  ghost predicate PatientStep(s: State, post: State) {
    exists action :: Step(s, action, post) && (action.Own? ==> !action.fail)
  }

  ghost predicate PatientAt(states: seq<State>, i: nat) {
    i + 1 < |states| && !states[i].owner.Stopped? && PatientStep(states[i], states[i + 1])
  }

  /** An interleaving of one more `stop` in which no wait times out, at most up to its return. */
  ghost predicate RetryPath(states: seq<State>, from: State, to: State) {
    && states != [] && states[0] == from && states[|states| - 1] == to
    && forall i :: 0 <= i < |states| - 1 ==> PatientAt(states, i)
  }

  /** However the retry interleaves, the service can still be stopped. */
  ghost predicate StaysStoppable(s: State) {
    forall states, to :: RetryPath(states, s, to) ==> CanStop(to)
  }

  /** The dispatcher leaves its loop unless more work is marked in time: its wake-ups reach past the pending work. */
  predicate WillLeave(s: State) {
    s.shutdown &&
    (Leaving(s) || (s.worker.Woken? && (!s.pending || s.semaphore)) ||
     ((s.worker.Head? || s.worker.Dispatching?) && !s.pending && s.semaphore))
  }

  /** Where a retry can be while it can still succeed. */
  predicate Retrying(s: State) {
    && s.form.BinarySemaphore? && !s.runtime
    && match s.owner
       case TimedOut => !WillLeave(s)
       case FaultPublished => !WillLeave(s)
       case StopMarked => s.pending ==> !Leaving(s)
       case StopGiven => s.pending ==> !Leaving(s)
       case Quiescing => s.pending ==> !Leaving(s)
       case _ => Shutting(s) || s.owner.Stopped?
  }

  lemma WorkKeepsRetrying(s: State, post: State)
    requires ShapeInv(s) && Retrying(s) && Works(s, post)
    ensures Retrying(post)
  {
  }

  lemma MarkingKeepsRetrying(s: State, give: bool, wakeOwner: bool, post: State)
    requires ShapeInv(s) && Retrying(s) && Owns(s, give, false, wakeOwner, post)
    requires s.owner.TimedOut? || s.owner.FaultPublished? || s.owner.StopMarked?
    ensures Retrying(post)
  {
  }

  lemma WaitingKeepsRetrying(s: State, give: bool, wakeOwner: bool, post: State)
    requires ShapeInv(s) && Retrying(s) && Owns(s, give, false, wakeOwner, post)
    requires s.owner.StopGiven? || s.owner.Quiescing?
    ensures Retrying(post)
  {
  }

  lemma ShuttingKeepsRetrying(s: State, give: bool, wakeOwner: bool, post: State)
    requires ShapeInv(s) && Retrying(s) && Owns(s, give, false, wakeOwner, post) && Shutting(s)
    ensures Retrying(post)
  {
  }

  lemma OwnerKeepsRetrying(s: State, give: bool, wakeOwner: bool, post: State)
    requires ShapeInv(s) && Retrying(s) && !s.owner.Stopped? && Owns(s, give, false, wakeOwner, post)
    ensures Retrying(post)
  {
    if Shutting(s) {
      ShuttingKeepsRetrying(s, give, wakeOwner, post);
    } else if s.owner.StopGiven? || s.owner.Quiescing? {
      WaitingKeepsRetrying(s, give, wakeOwner, post);
    } else {
      MarkingKeepsRetrying(s, give, wakeOwner, post);
    }
  }

  lemma {:induction false} StaysRetrying(states: seq<State>, from: State, to: State)
    requires RetryPath(states, from, to) && Inv(from) && Retrying(from)
    ensures Inv(to) && Retrying(to)
  {
    var n := |states| - 1;
    if n > 0 {
      assert PatientAt(states, n - 1);
      forall i | 0 <= i < n - 1
        ensures PatientAt(states[..n], i)
      {
        assert PatientAt(states, i);
      }
      StaysRetrying(states[..n], from, states[n - 1]);
      var action :| Step(states[n - 1], action, to) && (action.Own? ==> !action.fail);
      StepKeepsInv(states[n - 1], action, to);
      match action {
        case Work => WorkKeepsRetrying(states[n - 1], to);
        case Own(give, fail, wakeOwner) => OwnerKeepsRetrying(states[n - 1], give, wakeOwner, to);
        case _ =>
      }
    }
  }

  /** The owner's steps up to its wait for quiescence, on its own. */
  lemma OwnerReachesWait(s: State) returns (path: seq<State>, to: State)
    requires Inv(s) && Retrying(s)
    requires s.owner.TimedOut? || s.owner.FaultPublished? || s.owner.StopMarked? || s.owner.StopGiven? || s.owner.Quiescing?
    ensures Path(path, s, to) && to.owner.Quiescing? && Retrying(to) && Inv(to)
    decreases match s.owner case TimedOut => 4 case FaultPublished => 3 case StopMarked => 2 case StopGiven => 1 case _ => 0
  {
    if s.owner.Quiescing? {
      path, to := [s], s;
    } else {
      var next := match s.owner
        case TimedOut => s.(owner := FaultPublished, published := s.published + 1)
        case FaultPublished => Mark(s.(owner := StopMarked))
        case StopMarked => Wake(s.(owner := StopGiven), false)
        case _ => s.(owner := Quiescing, runtime := false);
      var action := Own(true, false, false);
      assert Step(s, action, next);
      StepKeepsInv(s, action, next);
      OwnerKeepsRetrying(s, true, false, next);
      path, to := OwnerReachesWait(next);
      path := Prepend(path, s, action, next, to);
    }
  }

  lemma Prepend(path: seq<State>, s: State, action: Action, next: State, to: State) returns (longer: seq<State>)
    requires Path(path, next, to) && Step(s, action, next)
    ensures Path(longer, s, to)
  {
    longer := [s] + path;
    assert Steps(s, next);
    forall i | 0 <= i < |longer| - 1
      ensures StepAt(longer, i)
    {
      if i > 0 {
        assert StepAt(path, i - 1);
      }
    }
  }

  /** The dispatcher finishes what is pending or running. */
  lemma DispatcherDrains(path: seq<State>, s: State, via: State) returns (longer: seq<State>, to: State)
    requires Path(path, s, via) && Inv(via) && Retrying(via) && via.owner.Quiescing?
    ensures Path(longer, s, to) && to.owner.Quiescing? && Quiescent(to) && to.form.BinarySemaphore?
    ensures to.worker.Head? || to.worker.Woken? || Leaving(to)
    ensures to.worker.Exited? ==> to.exited
  {
    if via.pending {
      longer, to := WorkerDrains(path, s, via);
    } else if via.worker.Dispatching? {
      to := via.(worker := Head, active := false, covered := via.begun);
      longer := Extend(path, s, via, Work, to);
    } else {
      longer, to := path, via;
    }
  }

  /** From the shutdown on, the owner and the dispatcher finish together. */
  lemma ShutdownFinishes(path: seq<State>, s: State, via: State) returns (longer: seq<State>, to: State)
    requires Path(path, s, via) && via.form.BinarySemaphore? && Shutting(via) && !via.pending
    requires (via.worker.Head? && (via.owner.AwaitingExit? ==> via.semaphore)) || via.worker.Woken? || Leaving(via)
    requires (via.worker.Exited? ==> via.exited) && (!via.owner.Quiesced? ==> via.shutdown)
    ensures Path(longer, s, to) && to.owner.Stopped?
    decreases match via.owner case Quiesced => 2 case ShutdownSet => 1 case _ => 0
  {
    match via.owner {
      case Quiesced =>
        var closing := via.(owner := ShutdownSet, enabled := true, shutdown := true);
        longer := Extend(path, s, via, Own(true, false, false), closing);
        longer, to := ShutdownFinishes(longer, s, closing);
      case ShutdownSet =>
        var waiting := Wake(via.(owner := AwaitingExit), false);
        longer := Extend(path, s, via, Own(true, false, false), waiting);
        longer, to := ShutdownFinishes(longer, s, waiting);
      case AwaitingExit =>
        longer, to := WorkerLeaves(path, s, via);
    }
  }

  lemma RetryingCanStop(s: State)
    requires Inv(s) && Retrying(s)
    ensures CanStop(s)
  {
    var path, to;
    if s.owner.Stopped? {
      assert Path([s], s, s);
    } else if Shutting(s) {
      path, to := ShutdownFinishes([s], s, s);
    } else {
      var via;
      path, via := OwnerReachesWait(s);
      path, via := DispatcherDrains(path, s, via);
      var quiesced := via.(owner := Quiesced);
      path := Extend(path, s, via, Own(true, false, false), quiesced);
      path, to := ShutdownFinishes(path, s, quiesced);
    }
  }

  lemma ExtendRetry(states: seq<State>, from: State, via: State, action: Action, to: State) returns (longer: seq<State>)
    requires RetryPath(states, from, via) && Step(via, action, to) && !via.owner.Stopped? && (action.Own? ==> !action.fail)
    ensures RetryPath(longer, from, to)
  {
    longer := states + [to];
    assert PatientStep(via, to);
    forall i | 0 <= i < |longer| - 1
      ensures PatientAt(longer, i)
    {
      if i < |states| - 1 {
        assert PatientAt(states, i);
      }
    }
  }

  /** Left alone, the dispatcher leaves before the retry marks its work. */
  lemma DispatcherLeavesFirst(states: seq<State>, from: State, via: State) returns (longer: seq<State>, to: State)
    requires RetryPath(states, from, via) && Inv(via) && via.owner.TimedOut? && via.form.BinarySemaphore? && WillLeave(via)
    ensures RetryPath(longer, from, to) && Inv(to) && Stuck(to)
    decreases if via.pending then 1 else 0,
              match via.worker case Dispatching => 3 case Head => 2 case Woken => 1 case _ => 0
  {
    if Leaving(via) {
      longer, to := states, via;
    } else {
      var next := match via.worker
        case Dispatching => via.(worker := Head, active := false, covered := via.begun)
        case Head => via.(worker := Woken, semaphore := false)
        case _ =>
          if via.pending then via.(worker := Dispatching, pending := false, active := true, begun := via.published)
          else via.(worker := Exiting);
      assert Step(via, Work, next);
      StepKeepsInv(via, Work, next);
      longer := ExtendRetry(states, from, via, Work, next);
      longer, to := DispatcherLeavesFirst(longer, from, next);
    }
  }

  lemma StuckCannotStop(s: State)
    requires Inv(s) && Stuck(s)
    ensures !CanStop(s)
  {
    forall path, to | Path(path, s, to)
      ensures !to.owner.Stopped?
    {
      StuckForever(path, s, to);
    }
  }

  /**
    After a timed-out stop, every interleaving of a retry can still be brought to
    Ok exactly when the dispatcher is not about to leave. While shutdown was not
    requested, which is what a timed-out wait for quiescence leaves, it never is.
   */
  lemma RetryIsSafeUnlessDispatcherLeaves(s: State)
    requires Inv(s) && s.owner.TimedOut? && s.form.BinarySemaphore?
    ensures StaysStoppable(s) <==> !WillLeave(s)
    ensures !s.shutdown ==> StaysStoppable(s)
  {
    if WillLeave(s) {
      assert RetryPath([s], s, s);
      var states, to := DispatcherLeavesFirst([s], s, s);
      StuckCannotStop(to);
    } else {
      forall states, to | RetryPath(states, s, to)
        ensures CanStop(to)
      {
        StaysRetrying(states, s, to);
        RetryingCanStop(to);
      }
    }
  }

  lemma ServiceStarts(s: State) returns (path: seq<State>, to: State)
    requires Init(s) && s.form.BinarySemaphore?
    ensures Path(path, s, to)
    ensures to.owner.Running? && to.worker.Head? && to.pending && to.enabled && to.semaphore && !to.shutdown
    ensures to.form.BinarySemaphore? && NoProducer(to) && !to.exited
  {
    var reset := s.(owner := Reset, started := true, enabled := false, shutdown := false, pending := false,
                    active := false, exited := false, published := 0, due := 0, begun := 0, covered := 0);
    var spawned := reset.(owner := Spawned, semaphore := false, worker := Head);
    var provider := spawned.(owner := ProviderOn);
    var enabled := provider.(owner := Enabled, enabled := true);
    var marked := Mark(enabled.(owner := StartMarked));
    var given := Wake(marked.(owner := StartGiven), false);
    to := given.(owner := Running, runtime := true);
    path := Extend([s], s, s, Own(true, false, false), reset);
    path := Extend(path, s, reset, Own(true, false, false), spawned);
    path := Extend(path, s, spawned, Own(true, false, false), provider);
    path := Extend(path, s, provider, Own(true, false, false), enabled);
    path := Extend(path, s, enabled, Own(true, false, false), marked);
    path := Extend(path, s, marked, Own(true, false, false), given);
    path := Extend(path, s, given, Own(true, false, false), to);
  }

  lemma StopBegins(path: seq<State>, s: State, via: State) returns (longer: seq<State>, to: State)
    requires Path(path, s, via)
    requires via.owner.Running? && via.form.BinarySemaphore? && NoProducer(via)
    ensures Path(longer, s, to)
    ensures to == Retried(via).(runtime := false)
  {
    var faulted := via.(owner := FaultPublished, published := via.published + 1);
    var marked := Mark(faulted.(owner := StopMarked));
    var woken := Wake(marked.(owner := StopGiven), false);
    to := Retried(via).(runtime := false);
    longer := Extend(path, s, via, Own(true, false, false), faulted);
    longer := Extend(longer, s, faulted, Own(true, false, false), marked);
    longer := Extend(longer, s, marked, Own(true, false, false), woken);
    longer := Extend(longer, s, woken, Own(true, false, false), to);
  }

  /** The failing case occurs: the exit wait times out and the dispatcher leaves just after it. */
  lemma AStopCanGetStuck() returns (path: seq<State>, to: State)
    ensures Run(path) && path[|path| - 1] == to && to.owner.TimedOut? && Leaving(to) && !CanStop(to)
  {
    var s := State(BinarySemaphore, false, false, false, false, false, true, false, Absent, Stopped, false,
                   0, 0, 0, 0, 0, 0);
    var via;
    path, via := ServiceStarts(s);
    path, via := WorkerDrains(path, s, via);
    path, via := StopBegins(path, s, via);
    path, via := WorkerDrains(path, s, via);
    path, via := OwnerShutsDown(path, s, via);
    path, to := ExitIsMissed(path, s, via);
    ReachableInv(path, |path| - 1);
    RetrySucceedsUnlessDispatcherLeft(to);
  }

  lemma ExitIsMissed(path: seq<State>, s: State, via: State) returns (longer: seq<State>, to: State)
    requires Path(path, s, via)
    requires via.owner.AwaitingExit? && via.worker.Head? && !via.exited && via.form.BinarySemaphore?
    requires via.shutdown && !via.pending && via.semaphore
    ensures Path(longer, s, to) && to.owner.TimedOut? && Leaving(to) && to.form.BinarySemaphore?
  {
    var late := via.(owner := TimedOut);
    var woken := late.(worker := Woken, semaphore := false);
    to := woken.(worker := Exiting);
    longer := Extend(path, s, via, Own(true, true, false), late);
    longer := Extend(longer, s, late, Work, woken);
    longer := Extend(longer, s, woken, Work, to);
  }

  /** A timed-out stop whose retry succeeds in one interleaving and can never succeed again in another. */
  lemma ASuccessfulRetryIsNotCertain() returns (path: seq<State>, to: State)
    ensures Run(path) && path[|path| - 1] == to && to.owner.TimedOut? && !Leaving(to)
    ensures CanStop(to) && !StaysStoppable(to)
  {
    var s := State(BinarySemaphore, false, false, false, false, false, true, false, Absent, Stopped, false,
                   0, 0, 0, 0, 0, 0);
    var via;
    path, via := ServiceStarts(s);
    path, via := WorkerDrains(path, s, via);
    path, via := StopBegins(path, s, via);
    path, via := WorkerDrains(path, s, via);
    path, via := OwnerShutsDown(path, s, via);
    to := via.(owner := TimedOut);
    path := Extend(path, s, via, Own(true, true, false), to);
    ReachableInv(path, |path| - 1);
    RetrySucceedsUnlessDispatcherLeft(to);
    RetryIsSafeUnlessDispatcherLeaves(to);
  }
}
