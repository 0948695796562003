/** What a trigger puts on its way, and that it is shown when a pass comes in time. */
module TransientProgress {
  import opened Pixels
  import opened LedZone
  import opened Lighting
  import opened Transients
  import opened TransientBindings
  import opened TransientRuns

  // ---------------------------------------------------------------- one slot

  /**
    A slot after a command: an unseen start replaces what ran, and begins only in
    its own epoch, inside its window and its zone; a start seen before changes
    nothing; without a start the slot stops.
   */
  lemma SlotAfterCommand(timing: Timing, start: TransientStart, now: uint64, epoch: uint32, pixelCount: ActiveLength)
    ensures Applied(timing, None, now, epoch, pixelCount) == timing.(active := false)
    ensures timing.sequence == start.sequence ==> Applied(timing, Some(start), now, epoch, pixelCount) == timing
    ensures timing.sequence != start.sequence ==>
              Applied(timing, Some(start), now, epoch, pixelCount) ==
              Timing(start.effect, start.sequence, now,
                     && 0 < start.effect.duration as int <= 5000000 && start.epoch == epoch
                     && start.origin as int <= now as int < start.origin as int + start.effect.duration as int
                     && !start.effect.zone.direction.Undeclared? && 0 < start.effect.zone.length
                     && start.effect.zone.start as int + start.effect.zone.length as int <= pixelCount as int)
  {
  }

  /** An effect runs from its beginning for exactly its duration, and never comes back. */
  lemma EffectRunsItsDuration(timing: Timing, now: uint64)
    ensures Expired(timing, now) ==
            timing.(active := timing.active &&
                              timing.started as int <= now as int < timing.started as int + timing.effect.duration as int)
    ensures Cancelled(timing) == timing.(active := false)
  {
  }

  // ---------------------------------------------------------------- a trigger

  /** A trigger numbers its slots, stamps them with its time and the current epoch, and offers them; no other slot changes. */
  lemma TriggerIssues(s: State, action: uint16, origin: uint64, post: State, i: nat)
    requires i < |s.bindings| && NoWrap(s.bindings, action) && post == Executed(s, true, action, origin)
    ensures |post.bindings| == |s.bindings| && post.epoch == s.epoch && post.queue == s.queue
    ensures s.bindings[i].action == action ==>
              var n := s.bindings[i].sequence as int + 1;
              var start := TransientStart(i as uint8 + 1, s.epoch, n as uint64, s.bindings[i].effect, origin);
              && post.issued[(i, n as uint64)] == start && Offered(post, i) == Some(start)
              && i in post.phase.triggered
    ensures s.bindings[i].action != action ==>
              && post.bindings[i] == s.bindings[i] && i !in post.phase.triggered
              && Offered(post, i) == if s.bindings[i].retained && s.bindings[i].epoch == s.epoch
                                     then Some(StartOf(s.bindings[i], i)) else None
  {
    LatestStartFor(post.bindings, s.epoch, i);
    assert ValidBinding(s.bindings[i]);
  }

  /** The steps of an undisturbed publication and the pass that takes it, drawing at `now`. */
  lemma TriggerIsTaken(s: State, action: uint16, origin: uint64, now: uint64, pixelCount: ActiveLength)
      returns (states: seq<State>, loaded: State)
    requires s.phase == Ready && s.worker == Waiting && NoWrap(s.bindings, action)
    ensures Path(states, s, pixelCount)
    ensures var post := Executed(s, true, action, origin);
            && loaded == s.(bindings := post.bindings, phase := Verdict(post.phase.triggered), queue := None,
                            worker := Loaded(post.phase.starts, s.epoch), pass := NoPass, issued := post.issued)
            && states[|states| - 1] == Drawn(loaded, now, false, false, pixelCount)
  {
    var post := Executed(s, true, action, origin);
    var queued := post.(phase := Verdict(post.phase.triggered), queue := Some(post.phase.starts));
    var taken := Taken(queued);
    loaded := taken.(worker := Loaded(post.phase.starts, s.epoch));
    states := Extend([s], s, Execute(true, action, origin), pixelCount, post);
    states := Extend(states, s, Enqueue, pixelCount, queued);
    states := Extend(states, s, Take, pixelCount, taken);
    states := Extend(states, s, LoadEpoch, pixelCount, loaded);
    states := Extend(states, s, Draw(now, false, false), pixelCount, Drawn(loaded, now, false, false, pixelCount));
  }

  /** Adapter and worker are idle, and a trigger of the action at `origin` can be shown in slot `i` at `now`. */
  predicate CanTrigger(s: State, pixelCount: ActiveLength, action: uint16, origin: uint64, now: uint64, i: nat) {
    && s.phase == Ready && s.worker == Waiting && NoWrap(s.bindings, action)
    && i < |s.bindings| && s.bindings[i].action == action
    && ValidateZone(s.bindings[i].effect.zone, pixelCount) == Valid
    && origin as int <= now as int < origin as int + s.bindings[i].effect.duration as int
  }

  /** The loaded snapshot holds the trigger's start. */
  lemma LoadedHolds(s: State, action: uint16, origin: uint64, i: nat, loaded: State)
    requires i < |s.bindings| && s.bindings[i].action == action && NoWrap(s.bindings, action)
    requires loaded.worker == Loaded(Executed(s, true, action, origin).phase.starts, s.epoch)
    ensures var b := s.bindings[i];
            Held(loaded, i) == Some(TransientStart(i as uint8 + 1, s.epoch, b.sequence + 1, b.effect, origin))
    ensures 0 < s.bindings[i].effect.duration <= MAX_TRANSIENT_DURATION
  {
    TriggerIssues(s, action, origin, Executed(s, true, action, origin), i);
    assert ValidBinding(s.bindings[i]);
  }

  lemma TriggerShows(s: State, pixelCount: ActiveLength, action: uint16, origin: uint64, now: uint64, i: nat)
    requires CanTrigger(s, pixelCount, action, origin, now, i) && SlotInv(s, i)
    ensures CanShow(s, i, s.bindings[i].sequence + 1, pixelCount)
  {
    var n := s.bindings[i].sequence + 1;
    var states, loaded := TriggerIsTaken(s, action, origin, now, pixelCount);
    LoadedHolds(s, action, origin, i, loaded);
    StartBegins(loaded, now, pixelCount, i, n);
    assert Shows(states, s, i, n, pixelCount);
  }

  /**
    From every reachable state in which adapter and worker are idle, a trigger can
    be shown by the pass that takes it, at any time inside its window.
   */
  lemma TriggerIsShown(run: seq<State>, pixelCount: ActiveLength, k: nat, action: uint16, origin: uint64, now: uint64, i: nat)
    requires TransientRuns.Run(run, pixelCount) && k < |run| && i < |run[0].bindings|
    requires CanTrigger(run[k], pixelCount, action, origin, now, i)
    ensures CanShow(run[k], i, run[k].bindings[i].sequence + 1, pixelCount)
  {
    ReachableSlot(run, pixelCount, k, i);
    TriggerShows(run[k], pixelCount, action, origin, now, i);
  }

  /** Drawing a loaded start inside its window begins it. */
  lemma StartBegins(s: State, now: uint64, pixelCount: ActiveLength, i: nat, n: uint64)
    requires i < TRANSIENT_CAPACITY && s.worker.Loaded? && Carries(Held(s, i), n) && s.timings[i].sequence != n
    requires var start := Held(s, i).value;
             && start.epoch == s.worker.captured && 0 < start.effect.duration <= MAX_TRANSIENT_DURATION
             && start.origin as int <= now as int < start.origin as int + start.effect.duration as int
             && ValidateZone(start.effect.zone, pixelCount) == Valid
    ensures Draws(Drawn(s, now, false, false, pixelCount), i, n)
  {
  }
}
