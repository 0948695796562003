/** With either wake form, marked work can always be dispatched and a running service can always be stopped. */
module DispatcherProgress {
  import opened Dispatcher

  // ---------------------------------------------------------------- marked work gets dispatched

  /** The dispatcher is in its loop, and its waits can end. */
  predicate InLoop(s: State) {
    s.worker.Head? || s.worker.Asleep? || s.worker.Woken? || s.worker.Dispatching?
  }

  /** A dispatcher that waits will be woken by somebody who marked work, or already is. */
  predicate Wakeable(s: State) {
    (s.worker.Asleep? || (s.worker.Head? && s.form.BinarySemaphore? && !s.semaphore)) ==> WakeComing(s)
  }

  lemma ReachableWakeable(s: State)
    requires Inv(s) && s.pending && s.enabled
    ensures Wakeable(s)
  {
  }

  /** The wake-up that is on its way arrives. */
  lemma WakeArrives(path: seq<State>, from: State, via: State) returns (longer: seq<State>, to: State)
    requires Path(path, from, via) && Inv(via) && via.pending && via.enabled && WakeComing(via)
    requires via.worker.Asleep? || via.worker.Head?
    ensures Path(longer, from, to) && Inv(to) && Ready(to) && to.due >= via.due && WorksAlone(via, to)
  {
    var action := if via.waking > 0 then WakeUp(false) else Own(true, false, false);
    to := if via.waking > 0 then Wake(via.(waking := via.waking - 1), false)
          else Wake(via.(owner := if via.owner.StartMarked? then StartGiven else StopGiven), false);
    assert Step(via, action, to);
    StepKeepsInv(via, action, to);
    longer := Extend(path, from, via, action, to);
  }

  /** The dispatcher is at its loop head and will not wait there. */
  predicate Ready(s: State) {
    s.pending && s.enabled && s.worker.Head? && (s.form.BinarySemaphore? ==> s.semaphore)
  }

  /** One step of the dispatcher's loop with work pending. */
  function Worked(s: State): State {
    match s.worker
    case Head =>
      if s.form.BinarySemaphore? then s.(worker := Woken, semaphore := false)
      else s.(worker := Dispatching, pending := false, active := true, begun := s.published)
    case Woken => s.(worker := Dispatching, pending := false, active := true, begun := s.published)
    case _ =>
      s.(worker := Head, active := false, covered := s.begun,
         owner := if s.form.ConditionVariable? && !s.pending && s.owner.QuiesceAsleep? then Quiescing else s.owner)
  }

  lemma LoopGoesOn(path: seq<State>, from: State, via: State) returns (longer: seq<State>, to: State)
    requires Path(path, from, via) && Inv(via) && via.enabled
    requires via.worker.Dispatching? || (via.pending && via.worker.Woken?) ||
             (via.pending && via.worker.Head? && (via.form.BinarySemaphore? ==> via.semaphore))
    ensures to == Worked(via) && Path(longer, from, to) && Inv(to)
  {
    to := Worked(via);
    assert Step(via, Work, to);
    StepKeepsInv(via, Work, to);
    longer := Extend(path, from, via, Work, to);
  }

  /** While nobody has to wake the dispatcher, it works alone: a draining owner goes on draining. */
  predicate WorksAlone(s: State, post: State) {
    post.form == s.form && post.shutdown == s.shutdown &&
    (s.owner.Quiescing? && !WakeComing(s) ==> post.owner.Quiescing? && !WakeComing(post))
  }

  /** The dispatch of `due` publications is over. */
  predicate Finished(s: State, due: nat) {
    s.covered >= due && !s.pending && s.worker.Head? && s.enabled
  }

  lemma WokenDispatches(path: seq<State>, from: State, via: State) returns (longer: seq<State>, to: State)
    requires Path(path, from, via) && Inv(via) && via.pending && via.enabled && via.worker.Woken?
    ensures Path(longer, from, to) && Inv(to) && Finished(to, via.due) && WorksAlone(via, to)
  {
    longer, to := LoopGoesOn(path, from, via);
    longer, to := LoopGoesOn(longer, from, to);
  }

  lemma ReadyDispatches(path: seq<State>, from: State, via: State) returns (longer: seq<State>, to: State)
    requires Path(path, from, via) && Inv(via) && Ready(via)
    ensures Path(longer, from, to) && Inv(to) && Finished(to, via.due) && WorksAlone(via, to)
  {
    longer, to := LoopGoesOn(path, from, via);
    if via.form.BinarySemaphore? {
      longer, to := WokenDispatches(longer, from, to);
    } else {
      longer, to := LoopGoesOn(longer, from, to);
    }
  }

  lemma WaitingDispatches(path: seq<State>, from: State, via: State) returns (longer: seq<State>, to: State)
    requires Path(path, from, via) && Inv(via) && via.pending && via.enabled && (via.worker.Head? || via.worker.Asleep?)
    ensures Path(longer, from, to) && Inv(to) && Finished(to, via.due) && WorksAlone(via, to)
  {
    longer, to := path, via;
    if !Ready(via) {
      ReachableWakeable(via);
      longer, to := WakeArrives(path, from, via);
    }
    longer, to := ReadyDispatches(longer, from, to);
  }

  /** The dispatcher takes what is pending and finishes it. */
  lemma PendingIsDispatched(path: seq<State>, from: State, via: State) returns (longer: seq<State>, to: State)
    requires Path(path, from, via) && Inv(via) && via.pending && via.enabled && InLoop(via)
    ensures Path(longer, from, to) && Inv(to) && Finished(to, via.due) && WorksAlone(via, to)
  {
    if via.worker.Woken? {
      longer, to := WokenDispatches(path, from, via);
    } else {
      longer, to := path, via;
      if via.worker.Dispatching? {
        longer, to := LoopGoesOn(path, from, via);
      }
      longer, to := WaitingDispatches(longer, from, to);
    }
  }

  ghost predicate CanCover(s: State, publications: nat) {
    exists path, to :: Path(path, s, to) && to.covered >= publications
  }

  /**
    In every reachable state, while the dispatcher is enabled and has not left its
    loop, everything marked can still be covered by a finished dispatch, with the
    semaphore and with the condition variable.
   */
  lemma MarkedWorkGetsDispatched(states: seq<State>, n: nat)
    requires Run(states) && n < |states| && states[n].pending && states[n].enabled && InLoop(states[n])
    ensures CanCover(states[n], states[n].due)
  {
    ReachableInv(states, n);
    var path, to := PendingIsDispatched([states[n]], states[n], states[n]);
  }

  // ---------------------------------------------------------------- a running service can be stopped

  lemma OwnerGoesOn(path: seq<State>, from: State, via: State, to: State) returns (longer: seq<State>)
    requires Path(path, from, via) && Inv(via) && Owns(via, true, false, false, to)
    ensures Path(longer, from, to) && Inv(to)
  {
    assert Step(via, Own(true, false, false), to);
    StepKeepsInv(via, Own(true, false, false), to);
    longer := Extend(path, from, via, Own(true, false, false), to);
  }

  /** The producers that are inside the service finish. */
  lemma ProducersFinish(path: seq<State>, from: State, via: State) returns (longer: seq<State>, to: State)
    requires Path(path, from, via) && Inv(via) && via.owner.Running? && !via.shutdown
    ensures Path(longer, from, to) && Inv(to) && NoProducer(to) && to.owner.Running? && !to.shutdown && to.form == via.form
    decreases 2 * via.marking + via.waking
  {
    if NoProducer(via) {
      longer, to := path, via;
    } else {
      var action := if via.marking > 0 then MarkWork else WakeUp(false);
      var next := if via.marking > 0 then Mark(via.(marking := via.marking - 1, waking := via.waking + 1))
                  else Wake(via.(waking := via.waking - 1), false);
      assert Step(via, action, next);
      StepKeepsInv(via, action, next);
      longer := Extend(path, from, via, action, next);
      longer, to := ProducersFinish(longer, from, next);
    }
  }

  /** The owner publishes its fail-off, marks it, wakes the dispatcher and stops the runtime. */
  lemma StopReachesWait(path: seq<State>, from: State, via: State) returns (longer: seq<State>, to: State)
    requires Path(path, from, via) && Inv(via) && NoProducer(via) && via.owner.Running? && !via.shutdown
    ensures Path(longer, from, to) && Inv(to) && to.owner.Quiescing? && !WakeComing(to) && !to.shutdown
    ensures to.pending && to.enabled && InLoop(to) && to.form == via.form
  {
    var faulted := via.(owner := FaultPublished, published := via.published + 1);
    var marked := Mark(faulted.(owner := StopMarked));
    var woken := Wake(marked.(owner := StopGiven), false);
    to := woken.(owner := Quiescing, runtime := false);
    longer := OwnerGoesOn(path, from, via, faulted);
    longer := OwnerGoesOn(longer, from, faulted, marked);
    longer := OwnerGoesOn(longer, from, marked, woken);
    longer := OwnerGoesOn(longer, from, woken, to);
  }

  lemma WorkerExits(path: seq<State>, from: State, via: State) returns (longer: seq<State>, to: State)
    requires Path(path, from, via) && Inv(via) && via.owner.AwaitingExit? && (via.worker.Head? || via.worker.Woken? || via.worker.Exiting?)
    ensures Path(longer, from, to) && Inv(to) && to.owner.AwaitingExit? && to.worker.Exited?
    decreases match via.worker case Head => 3 case Woken => 2 case _ => 1
  {
    var next := match via.worker
      case Head => if via.form.BinarySemaphore? then via.(worker := Woken, semaphore := false) else via.(worker := Exiting)
      case Woken => via.(worker := Exiting)
      case _ => via.(worker := Exited, exited := true);
    assert Step(via, Work, next);
    StepKeepsInv(via, Work, next);
    longer := Extend(path, from, via, Work, next);
    to := next;
    if !to.worker.Exited? {
      longer, to := WorkerExits(longer, from, to);
    }
  }

  lemma OwnerFinishes(path: seq<State>, from: State, via: State) returns (longer: seq<State>, to: State)
    requires Path(path, from, via) && Inv(via) && via.owner.Quiescing? && !via.pending && via.worker.Head?
    ensures Path(longer, from, to) && to.owner.Stopped?
  {
    var quiesced := via.(owner := Quiesced);
    var closing := quiesced.(owner := ShutdownSet, enabled := true, shutdown := true);
    var waiting := Wake(closing.(owner := AwaitingExit), false);
    longer := OwnerGoesOn(path, from, via, quiesced);
    longer := OwnerGoesOn(longer, from, quiesced, closing);
    longer := OwnerGoesOn(longer, from, closing, waiting);
    longer, to := WorkerExits(longer, from, waiting);
    var stopped := to.(owner := Stopped, started := false, worker := Absent);
    longer := OwnerGoesOn(longer, from, to, stopped);
    to := stopped;
  }

  /** In every reachable state, a running service that no earlier stop has shut down can be stopped, with both wake forms. */
  lemma RunningServiceCanStop(states: seq<State>, n: nat)
    requires Run(states) && n < |states| && states[n].owner.Running? && !states[n].shutdown
    ensures CanStop(states[n])
  {
    ReachableInv(states, n);
    var s := states[n];
    var path, to := ProducersFinish([s], s, s);
    path, to := StopReachesWait(path, s, to);
    path, to := PendingIsDispatched(path, s, to);
    path, to := OwnerFinishes(path, s, to);
  }

  /** A stopped service can be started, with both wake forms. */
  lemma StoppedServiceCanStart(s: State) returns (path: seq<State>, to: State)
    requires Inv(s) && s.owner.Stopped?
    ensures Path(path, s, to) && to.owner.Running? && to.runtime && to.enabled && !to.shutdown
  {
    var reset := s.(owner := Reset, started := true, enabled := false, shutdown := false, pending := false,
                    active := false, exited := false, published := 0, due := 0, begun := 0, covered := 0);
    var spawned := reset.(owner := Spawned, semaphore := false, worker := Head);
    var provider := spawned.(owner := ProviderOn);
    var enabled := provider.(owner := Enabled, enabled := true);
    var marked := Mark(enabled.(owner := StartMarked));
    var given := Wake(marked.(owner := StartGiven), false);
    to := given.(owner := Running, runtime := true);
    path := OwnerGoesOn([s], s, s, reset);
    path := OwnerGoesOn(path, s, reset, spawned);
    path := OwnerGoesOn(path, s, spawned, provider);
    path := OwnerGoesOn(path, s, provider, enabled);
    path := OwnerGoesOn(path, s, enabled, marked);
    path := OwnerGoesOn(path, s, marked, given);
    path := OwnerGoesOn(path, s, given, to);
  }

  /** With nothing to do and no shutdown, the dispatcher waits: for the semaphore, or asleep on the condition variable. */
  lemma IdleDispatcherWaits(s: State, post: State)
    requires Inv(s) && s.worker.Head? && !s.shutdown && !(s.enabled && s.pending) && Works(s, post)
    ensures s.form.ConditionVariable? ==> post == s.(worker := Asleep)
    ensures s.form.BinarySemaphore? ==> s.semaphore && post == s.(worker := Woken, semaphore := false)
  {
  }

  /** A producer's publication and mark: everything published so far is due and pending, and one wake-up is owed for it. */
  lemma PublishAndMark(s: State, a: State, b: State)
    requires Step(s, Publish, a) && Step(a, MarkWork, b)
    ensures b == s.(waking := s.waking + 1, published := s.published + 1, pending := true, due := s.published + 1)
  {
  }

  /** Paying the wake-up gives the semaphore, and nothing else. */
  lemma WakeUpGives(s: State, wakeOwner: bool)
    requires s.waking > 0 && s.form.BinarySemaphore?
    ensures Step(s, WakeUp(wakeOwner), s.(waking := s.waking - 1, semaphore := true))
  {
  }

  /** It wakes a sleeping dispatcher, unless the owner shares its wait and is woken instead. */
  lemma WakeUpNotifies(s: State, wakeOwner: bool)
    requires s.waking > 0 && s.form.ConditionVariable? && s.worker.Asleep?
    ensures Step(s, WakeUp(wakeOwner),
                 if wakeOwner && s.owner.QuiesceAsleep? then s.(waking := s.waking - 1, owner := Quiescing)
                 else s.(waking := s.waking - 1, worker := Head))
  {
  }
}
