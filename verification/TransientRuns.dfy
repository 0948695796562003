/**
  One-shot effects end to end: the adapter that numbers and retires starts, the
  cancellation epoch, the overwrite queue and the renderer's timings, in every
  interleaving of publishing steps with renderer passes. The clocks are
  arbitrary, a pass may be cancelled or fail for any reason, and the epoch may
  change and black may be queued at any moment.
 */
module TransientRuns {
  import opened Pixels
  import opened LedZone
  import opened Lighting
  import opened Transients
  import opened TransientBindings

  /** What the adapter's setup and triggers can build. */
  type BindingList = s: seq<Binding> | ValidBindings(s)
    witness []

  /** Where the adapter is inside one publication; `triggered` are the slots triggered by it. */
  datatype Phase =
    | Ready
    | Publishing(starts: TransientStarts, triggered: set<int>)
    | Verdict(triggered: set<int>)
    | Discarding(triggered: set<int>)

  /** Where the worker is inside one pass: with a received snapshot, and with the epoch it loaded for it. */
  datatype Worker = Waiting | Ticking | Received(starts: TransientStarts) | Loaded(starts: TransientStarts, captured: uint32)

  /** What the last step drew, if it was the drawing of a pass; only a pass that took a command captured an epoch. */
  datatype Pass = NoPass | Pass(now: uint64, captured: Option<uint32>, drawn: Timings)

  /** `issued` remembers every start a trigger ever numbered. */
  datatype State = State(
    bindings: BindingList, phase: Phase, epoch: uint32, queue: Option<TransientStarts>, worker: Worker,
    timings: Timings, rendererEpoch: uint32, pass: Pass, issued: map<(int, uint64), TransientStart>)

  datatype Action =
    | Execute(trigger: bool, action: uint16, origin: uint64)
    | Enqueue | Accept | RejectEarly | RejectLate | Discard
    | BumpEpoch | QueueBlack
    | Take | LoadEpoch | Draw(now: uint64, cancel: bool, failed: bool)

  // ---------------------------------------------------------------- the steps

  /** The slots of `action`, and the starts their triggers number. */
  function SlotsOf(bindings: seq<Binding>, action: uint16): set<int> {
    set i | 0 <= i < |bindings| && bindings[i].action == action
  }

  function Issue(bindings: BindingList, slots: set<int>): map<(int, uint64), TransientStart> {
    map i | i in slots && 0 <= i < |bindings| :: (i, bindings[i].sequence) := StartOf(bindings[i], i)
  }

  predicate NoWrap(bindings: seq<Binding>, action: uint16) {
    forall i :: 0 <= i < |bindings| && bindings[i].action == action ==> bindings[i].sequence < 0xFFFF_FFFF_FFFF_FFFF
  }

  /**
    The adapter executes a command: it loads the epoch, a Trigger renumbers its
    slots, and every command snapshots the latest starts. Nobody else sees the
    bindings, so the load is the only step of it that can interleave.
   */
  function Executed(s: State, trigger: bool, action: uint16, origin: uint64): State {
    if !trigger then
      s.(phase := Publishing(LatestStarts(s.bindings, s.epoch), {}), pass := NoPass)
    else
      var bindings := TriggerAll(s.bindings, action, origin, s.epoch);
      var triggered := SlotsOf(s.bindings, action);
      s.(bindings := bindings, phase := Publishing(LatestStarts(bindings, s.epoch), triggered), pass := NoPass,
         issued := s.issued + Issue(bindings, triggered))
  }

  /** The worker receives the queued snapshot, or ticks when there is none. */
  function Taken(s: State): State {
    s.(worker := if s.queue.Some? then Received(s.queue.value) else Ticking, queue := None, pass := NoPass)
  }

  /** The timings a pass draws: a captured epoch change cancels, the received snapshot applies, then everything ages. */
  function DrawnTimings(s: State, now: uint64, cancel: bool, pixelCount: ActiveLength): Timings {
    var started := match s.worker
      case Loaded(starts, captured) =>
        ApplyAll(if captured != s.rendererEpoch then CancelAll(s.timings) else s.timings, starts, now, captured, pixelCount)
      case _ => s.timings;
    ExpireAll(if cancel then CancelAll(started) else started, now)
  }

  function Drawn(s: State, now: uint64, cancel: bool, failed: bool, pixelCount: ActiveLength): State {
    var drawn := DrawnTimings(s, now, cancel, pixelCount);
    var captured := if s.worker.Loaded? then Some(s.worker.captured) else None;
    s.(worker := Waiting, timings := if failed then CancelAll(drawn) else drawn,
       rendererEpoch := if captured.Some? then captured.value else s.rendererEpoch,
       pass := Pass(now, captured, drawn))
  }

  /** The 32-bit epoch wraps. */
  function NextEpoch(epoch: uint32): uint32 {
    if epoch == 0xFFFF_FFFF then 0 else epoch + 1
  }

  ghost predicate Step(s: State, action: Action, pixelCount: ActiveLength, post: State) {
    match action
    case Execute(trigger, name, origin) =>
      s.phase == Ready && (trigger ==> NoWrap(s.bindings, name)) && post == Executed(s, trigger, name, origin)
    case Enqueue =>
      s.phase.Publishing? &&
      post == s.(phase := Verdict(s.phase.triggered), queue := Some(s.phase.starts), pass := NoPass)
    case Accept => s.phase.Verdict? && post == s.(phase := Ready, pass := NoPass)
    case RejectEarly => s.phase.Publishing? && post == s.(phase := Discarding(s.phase.triggered), pass := NoPass)
    case RejectLate =>
      s.phase.Verdict? && post == s.(phase := Discarding(s.phase.triggered), queue := Some([]), pass := NoPass)
    case Discard =>
      s.phase.Discarding? && post == s.(phase := Ready, bindings := DiscardAll(s.bindings), pass := NoPass)
    case BumpEpoch => post == s.(epoch := NextEpoch(s.epoch), pass := NoPass)
    case QueueBlack => post == s.(queue := Some([]), pass := NoPass)
    case Take => s.worker.Waiting? && post == Taken(s)
    case LoadEpoch => s.worker.Received? && post == s.(worker := Loaded(s.worker.starts, s.epoch), pass := NoPass)
    case Draw(now, cancel, failed) =>
      (s.worker.Ticking? || s.worker.Loaded?) && post == Drawn(s, now, cancel, failed, pixelCount)
  }

  predicate Init(s: State) {
    && (forall i :: 0 <= i < |s.bindings| ==> s.bindings[i].sequence == 0)
    && s.phase == Ready && s.queue == None && s.worker == Waiting && s.pass == NoPass && s.issued == map[]
    && (forall i :: 0 <= i < TRANSIENT_CAPACITY ==> s.timings[i] == IDLE_TIMING)
  }

  ghost predicate Path(states: seq<State>, from: State, pixelCount: ActiveLength) {
    && states != [] && states[0] == from
    && (forall n :: 0 <= n < |states| - 1 ==> StepAt(states, n, pixelCount))
  }

  ghost predicate Run(states: seq<State>, pixelCount: ActiveLength) {
    states != [] && Init(states[0]) && Path(states, states[0], pixelCount)
  }

  ghost predicate StepAt(states: seq<State>, n: nat, pixelCount: ActiveLength) {
    n + 1 < |states| && Steps(states[n], pixelCount, states[n + 1])
  }

  ghost predicate Steps(s: State, pixelCount: ActiveLength, post: State) {
    exists action :: Step(s, action, pixelCount, post)
  }

  // ---------------------------------------------------------------- the invariant of one slot

  function Queued(s: State, i: int): Option<TransientStart> {
    if s.queue.Some? then StartFor(s.queue.value, i) else None
  }

  function Offered(s: State, i: int): Option<TransientStart> {
    if s.phase.Publishing? then StartFor(s.phase.starts, i) else None
  }

  /** The slot's start in the snapshot the worker has received and not applied yet. */
  function Held(s: State, i: int): Option<TransientStart> {
    if s.worker.Received? || s.worker.Loaded? then StartFor(s.worker.starts, i) else None
  }

  predicate WasIssued(s: State, i: int, start: TransientStart) {
    (i, start.sequence) in s.issued && s.issued[(i, start.sequence)] == start
  }

  /** A running timing began inside its trigger's window, in its trigger's epoch. */
  predicate Justified(s: State, i: int, timing: Timing) {
    timing.active ==>
      && (i, timing.sequence) in s.issued
      && var start := s.issued[(i, timing.sequence)];
         && timing.effect == start.effect
         && start.origin <= timing.started
         && timing.started - start.origin < start.effect.duration
         && start.epoch == s.rendererEpoch
  }

  /** Everything on its way to the renderer was issued, and is numbered in the order it travels. */
  predicate TravelInv(s: State, i: int) {
    0 <= i < |s.bindings| &&
    var b, t, h, q, o := s.bindings[i], s.timings[i], Held(s, i), Queued(s, i), Offered(s, i);
    && t.sequence <= b.sequence
    && (b.retained ==> WasIssued(s, i, StartOf(b, i)))
    && (o.Some? ==> o.value.sequence == b.sequence && WasIssued(s, i, o.value))
    && (q.Some? ==> t.sequence <= q.value.sequence <= b.sequence && WasIssued(s, i, q.value))
    && (h.Some? ==> t.sequence <= h.value.sequence <= b.sequence && WasIssued(s, i, h.value))
    && (h.Some? && q.Some? ==> h.value.sequence <= q.value.sequence)
    && (forall n :: (i, n) in s.issued ==> n <= b.sequence)
  }

  /** A publication that is not enqueued, or was rejected, is not queued; only the worker may hold it already. */
  predicate TriggeredInv(s: State, i: int) {
    0 <= i < |s.bindings| &&
    var b, h, q := s.bindings[i], Held(s, i), Queued(s, i);
    && ((s.phase.Publishing? || s.phase.Discarding?) && i in s.phase.triggered && q.Some? ==>
          q.value.sequence < b.sequence)
    && (s.phase.Publishing? && i in s.phase.triggered && h.Some? ==> h.value.sequence < b.sequence)
  }

  predicate PassInv(s: State, i: int) {
    0 <= i < |s.bindings| &&
    (s.pass.Pass? ==>
       var drawn, t := s.pass.drawn[i], s.timings[i];
       && s.worker.Waiting?
       && drawn.sequence == t.sequence && drawn.started == t.started && drawn.effect == t.effect
       && (t.active ==> drawn.active)
       && (drawn.active ==> Live(drawn, s.pass.now))
       && Justified(s, i, drawn)
       && (s.pass.captured.Some? ==> s.rendererEpoch == s.pass.captured.value))
  }

  predicate SlotInv(s: State, i: int) {
    TravelInv(s, i) && TriggeredInv(s, i) && Justified(s, i, s.timings[i]) && PassInv(s, i)
  }

  /** The snapshot entry of a slot is the slot's own retained start. */
  lemma {:induction false} LatestStartFor(bindings: seq<Binding>, epoch: uint32, i: int)
    requires ValidBindings(bindings) && 0 <= i < |bindings|
    ensures StartFor(LatestStarts(bindings, epoch), i) ==
            if Current(bindings[i], epoch) then Some(StartOf(bindings[i], i)) else None
  {
    var n := |bindings| - 1;
    var rest := LatestStarts(bindings[..n], epoch);
    assert ValidBinding(bindings[n]);
    if Current(bindings[n], epoch) {
      assert (rest + [StartOf(bindings[n], n)])[..|rest|] == rest;
    }
    if i < n {
      LatestStartFor(bindings[..n], epoch, i);
    } else {
      StartForIsIn(rest, i);
    }
  }

  lemma InitHolds(s: State, i: int)
    requires Init(s) && 0 <= i < |s.bindings|
    ensures SlotInv(s, i)
  {
    assert ValidBinding(s.bindings[i]);
  }

  lemma ExecuteKeepsSlot(s: State, trigger: bool, action: uint16, origin: uint64, i: int)
    requires SlotInv(s, i) && s.phase == Ready && (trigger ==> NoWrap(s.bindings, action))
    ensures SlotInv(Executed(s, trigger, action, origin), i)
  {
    LatestStartFor(Executed(s, trigger, action, origin).bindings, s.epoch, i);
  }

  lemma DrawKeepsSlot(s: State, now: uint64, cancel: bool, failed: bool, pixelCount: ActiveLength, i: int)
    requires SlotInv(s, i) && (s.worker.Ticking? || s.worker.Loaded?)
    ensures SlotInv(Drawn(s, now, cancel, failed, pixelCount), i)
  {
  }

  lemma TakeKeepsSlot(s: State, i: int)
    requires SlotInv(s, i)
    ensures SlotInv(Taken(s), i)
  {
  }

  lemma PublishKeepsSlot(s: State, action: Action, pixelCount: ActiveLength, post: State, i: int)
    requires SlotInv(s, i) && Step(s, action, pixelCount, post)
    requires action.Enqueue? || action.Accept? || action.RejectEarly? || action.RejectLate? || action.Discard?
    ensures |post.bindings| == |s.bindings| && SlotInv(post, i)
  {
  }

  /** Whatever the adapter, the worker, a fail-off or the epoch does next, the slot's invariant holds. */
  lemma StepKeepsSlot(s: State, action: Action, pixelCount: ActiveLength, post: State, i: int)
    requires SlotInv(s, i) && Step(s, action, pixelCount, post)
    ensures |post.bindings| == |s.bindings| && SlotInv(post, i)
  {
    match action {
      case Execute(trigger, name, origin) => ExecuteKeepsSlot(s, trigger, name, origin, i);
      case Draw(now, cancel, failed) => DrawKeepsSlot(s, now, cancel, failed, pixelCount, i);
      case Take => TakeKeepsSlot(s, i);
      case BumpEpoch =>
      case QueueBlack =>
      case LoadEpoch =>
      case _ => PublishKeepsSlot(s, action, pixelCount, post, i);
    }
  }

  /** What one step may do to a slot's timing: move on to a newer start, or keep this one and never revive it. */
  predicate Ages(s: State, post: State, i: int) {
    0 <= i < TRANSIENT_CAPACITY &&
    var t, later := s.timings[i], post.timings[i];
    && t.sequence <= later.sequence
    && (t.sequence == later.sequence ==>
          && later.started == t.started && later.effect == t.effect
          && (later.active ==> t.active)
          && (post.pass.Pass? && post.pass.drawn[i].active ==> t.active))
  }

  lemma StepAges(s: State, action: Action, pixelCount: ActiveLength, post: State, i: int)
    requires SlotInv(s, i) && Step(s, action, pixelCount, post)
    ensures Ages(s, post, i)
  {
  }

  lemma StepsKeepSlot(s: State, pixelCount: ActiveLength, post: State, i: int)
    requires SlotInv(s, i) && Steps(s, pixelCount, post)
    ensures |post.bindings| == |s.bindings| && SlotInv(post, i) && Ages(s, post, i)
  {
    var action :| Step(s, action, pixelCount, post);
    StepKeepsSlot(s, action, pixelCount, post, i);
    StepAges(s, action, pixelCount, post, i);
  }

  // ---------------------------------------------------------------- the theorems

  /** In `s`, the last step was a drawing that showed start `n` of slot `i`. */
  predicate Draws(s: State, i: int, n: uint64) {
    0 <= i < TRANSIENT_CAPACITY && s.pass.Pass? && s.pass.drawn[i].active && s.pass.drawn[i].sequence == n
  }

  /** Start `n` of the slot is over: a newer one was seen, or it was stopped. */
  predicate Over(s: State, i: int, n: uint64) {
    0 <= i < TRANSIENT_CAPACITY &&
    (s.timings[i].sequence > n || (s.timings[i].sequence == n && !s.timings[i].active))
  }

  lemma {:induction false} ReachableSlot(states: seq<State>, pixelCount: ActiveLength, k: nat, i: int)
    requires Run(states, pixelCount) && k < |states| && 0 <= i < |states[0].bindings|
    ensures |states[k].bindings| == |states[0].bindings| && SlotInv(states[k], i)
  {
    if k == 0 {
      InitHolds(states[0], i);
    } else {
      ReachableSlot(states, pixelCount, k - 1, i);
      assert StepAt(states, k - 1, pixelCount);
      StepsKeepSlot(states[k - 1], pixelCount, states[k], i);
    }
  }

  /** Between two moments a slot only moves on to newer starts, and a start that is over stays over. */
  lemma {:induction false} SlotOnlyAges(states: seq<State>, pixelCount: ActiveLength, j: nat, k: nat, i: int, n: uint64)
    requires Run(states, pixelCount) && j <= k < |states| && 0 <= i < |states[0].bindings|
    ensures i < TRANSIENT_CAPACITY && states[j].timings[i].sequence <= states[k].timings[i].sequence
    ensures states[j].timings[i].sequence == states[k].timings[i].sequence ==>
              && states[j].timings[i].started == states[k].timings[i].started
              && states[j].timings[i].effect == states[k].timings[i].effect
    ensures Over(states[j], i, n) ==> Over(states[k], i, n) && (j < k ==> !Draws(states[k], i, n))
  {
    ReachableSlot(states, pixelCount, j, i);
    if j < k {
      SlotOnlyAges(states, pixelCount, j, k - 1, i, n);
      ReachableSlot(states, pixelCount, k - 1, i);
      assert StepAt(states, k - 1, pixelCount);
      StepsKeepSlot(states[k - 1], pixelCount, states[k], i);
    }
  }

  /** A trigger is shown in at most one contiguous run of passes: it is never shown, dropped and shown again. */
  lemma ShownOnce(states: seq<State>, pixelCount: ActiveLength, i: int, n: uint64, k1: nat, k2: nat, k3: nat)
    requires Run(states, pixelCount) && 0 <= i < |states[0].bindings| && k1 < k2 < k3 < |states|
    requires Draws(states[k1], i, n) && Draws(states[k3], i, n) && states[k2].pass.Pass?
    ensures Draws(states[k2], i, n)
  {
    ReachableSlot(states, pixelCount, k1, i);
    ReachableSlot(states, pixelCount, k2, i);
    SlotOnlyAges(states, pixelCount, k1, k2, i, n);
    SlotOnlyAges(states, pixelCount, k2, k3, i, n);
  }

  /** Every showing lies inside its trigger's window, and two showings are less than one duration apart. */
  lemma ShownInWindow(states: seq<State>, pixelCount: ActiveLength, i: int, n: uint64, j: nat, k: nat)
    requires Run(states, pixelCount) && 0 <= i < |states[0].bindings| && j <= k < |states|
    requires Draws(states[j], i, n) && Draws(states[k], i, n)
    ensures (i, n) in states[k].issued
    ensures var start := states[k].issued[(i, n)];
            var duration := start.effect.duration as int;
            && start.origin as int <= states[k].pass.now as int < start.origin as int + 2 * duration
            && states[k].pass.now as int - states[j].pass.now as int < duration
            && states[j].pass.now as int - states[k].pass.now as int < duration
  {
    ReachableSlot(states, pixelCount, j, i);
    ReachableSlot(states, pixelCount, k, i);
    SlotOnlyAges(states, pixelCount, j, k, i, n);
  }

  /**
    A trigger is only shown in the epoch it captured, compared with the epoch
    that the last command-taking pass loaded. The gate may have moved on since
    that load: see `RejectedCanStillBegin`.
   */
  lemma ShownInItsEpoch(states: seq<State>, pixelCount: ActiveLength, i: int, n: uint64, k: nat)
    requires Run(states, pixelCount) && 0 <= i < |states[0].bindings| && k < |states| && Draws(states[k], i, n)
    ensures (i, n) in states[k].issued && states[k].issued[(i, n)].epoch == states[k].rendererEpoch
    ensures states[k].pass.captured.Some? ==> states[k].rendererEpoch == states[k].pass.captured.value
  {
    ReachableSlot(states, pixelCount, k, i);
  }

  // ---------------------------------------------------------------- rejected publications

  predicate Carries(start: Option<TransientStart>, n: uint64) {
    start.Some? && start.value.sequence == n
  }

  /** Start `n` of the slot is in no snapshot, queued or to come. The worker may still hold it. */
  predicate Retired(s: State, i: int, n: uint64) {
    0 <= i < |s.bindings| &&
    var b := s.bindings[i];
    && n <= b.sequence && (b.sequence == n ==> !b.retained)
    && !Carries(Queued(s, i), n) && !Carries(Offered(s, i), n)
  }

  lemma ExecuteKeepsRetired(s: State, trigger: bool, action: uint16, origin: uint64, i: int, n: uint64)
    requires Retired(s, i, n) && s.phase == Ready && (trigger ==> NoWrap(s.bindings, action))
    ensures Retired(Executed(s, trigger, action, origin), i, n)
  {
    LatestStartFor(Executed(s, trigger, action, origin).bindings, s.epoch, i);
  }

  lemma StepKeepsRetired(s: State, action: Action, pixelCount: ActiveLength, post: State, i: int, n: uint64)
    requires Retired(s, i, n) && Step(s, action, pixelCount, post)
    ensures |post.bindings| == |s.bindings| && Retired(post, i, n)
  {
    match action {
      case Execute(trigger, name, origin) => ExecuteKeepsRetired(s, trigger, name, origin, i, n);
      case _ =>
    }
  }

  /** The adapter retires what it triggered in a publication that was rejected. */
  lemma RejectionRetires(s: State, pixelCount: ActiveLength, post: State, i: int)
    requires SlotInv(s, i) && Step(s, Discard, pixelCount, post) && i in s.phase.triggered
    ensures |post.bindings| == |s.bindings| && Retired(post, i, s.bindings[i].sequence)
  {
  }

  /** The zone still fits, and the epoch the worker loaded, or will load, can be the one the start captured. */
  predicate Admissible(worker: Worker, start: TransientStart, pixelCount: ActiveLength) {
    ValidateZone(start.effect.zone, pixelCount) == Valid && (worker.Loaded? ==> worker.captured == start.epoch)
  }

  /** The worker holds a received snapshot with start `n`, which the renderer has not seen and can still admit. */
  predicate HeldBack(s: State, i: int, n: uint64, pixelCount: ActiveLength) {
    0 <= i < TRANSIENT_CAPACITY && s.timings[i].sequence != n &&
    Carries(Held(s, i), n) && Admissible(s.worker, Held(s, i).value, pixelCount)
  }

  /** How many bumps lead from one epoch to another; the 32-bit epoch comes round. */
  function Distance(from: uint32, to: uint32): nat {
    if to >= from then to as int - from as int else 0x1_0000_0000 - from as int + to as int
  }

  /** The held start can be admitted after at most `bumps` more bumps of the epoch. */
  predicate HeldBackWithin(s: State, i: int, n: uint64, pixelCount: ActiveLength, bumps: nat) {
    HeldBack(s, i, n, pixelCount) && (s.worker.Received? ==> Distance(s.epoch, Held(s, i).value.epoch) <= bumps)
  }

  predicate Running(s: State, i: int, n: uint64) {
    0 <= i < TRANSIENT_CAPACITY && s.timings[i].active && s.timings[i].sequence == n
  }

  /** Start `n` cannot begin any more within `bumps` bumps. */
  predicate Hopeless(s: State, i: int, n: uint64, pixelCount: ActiveLength, bumps: nat) {
    Retired(s, i, n) && !Running(s, i, n) && !HeldBackWithin(s, i, n, pixelCount, bumps)
  }

  lemma DrawKeepsHopeless(s: State, now: uint64, cancel: bool, failed: bool, pixelCount: ActiveLength, i: int, n: uint64, bumps: nat)
    requires (s.worker.Ticking? || s.worker.Loaded?) && Hopeless(s, i, n, pixelCount, bumps)
    ensures var post := Drawn(s, now, cancel, failed, pixelCount);
            Hopeless(post, i, n, pixelCount, bumps) && !Draws(post, i, n)
  {
  }

  lemma StepKeepsHopeless(s: State, action: Action, pixelCount: ActiveLength, post: State, i: int, n: uint64, bumps: nat)
    requires Hopeless(s, i, n, pixelCount, bumps) && Step(s, action, pixelCount, post) && Bumps([s, post]) <= bumps
    ensures Hopeless(post, i, n, pixelCount, bumps - Bumps([s, post])) && !Draws(post, i, n)
  {
    assert [s, post][..1] == [s];
    StepKeepsRetired(s, action, pixelCount, post, i, n);
    if action.Draw? {
      DrawKeepsHopeless(s, action.now, action.cancel, action.failed, pixelCount, i, n, bumps);
    }
  }

  /** How often the epoch was bumped along a path. */
  function Bumps(states: seq<State>): nat {
    if |states| < 2 then 0
    else
      var n := |states| - 1;
      Bumps(states[..n]) + if states[n - 1].epoch == states[n].epoch then 0 else 1
  }

  lemma {:induction false} HopelessStays(states: seq<State>, from: State, pixelCount: ActiveLength, i: int, n: uint64, bumps: nat)
    requires Path(states, from, pixelCount) && Bumps(states) <= bumps && Hopeless(from, i, n, pixelCount, bumps)
    ensures Hopeless(states[|states| - 1], i, n, pixelCount, bumps - Bumps(states))
    ensures 1 < |states| ==> !Draws(states[|states| - 1], i, n)
  {
    var k := |states| - 1;
    if k > 0 {
      assert StepAt(states, k - 1, pixelCount);
      forall m | 0 <= m < k - 1
        ensures StepAt(states[..k], m, pixelCount)
      {
        assert StepAt(states, m, pixelCount);
      }
      HopelessStays(states[..k], from, pixelCount, i, n, bumps);
      var s, post := states[k - 1], states[k];
      var action :| Step(s, action, pixelCount, post);
      assert [s, post][..1] == [s];
      StepKeepsHopeless(s, action, pixelCount, post, i, n, bumps - Bumps(states[..k]));
    }
  }

  /** Some future of `s` shows start `n`. */
  ghost predicate CanShow(s: State, i: int, n: uint64, pixelCount: ActiveLength) {
    exists states :: Shows(states, s, i, n, pixelCount)
  }

  /** Some future of `s` with at most `bumps` bumps of the epoch shows start `n`. */
  ghost predicate CanShowWithin(s: State, i: int, n: uint64, pixelCount: ActiveLength, bumps: nat) {
    exists states :: Shows(states, s, i, n, pixelCount) && Bumps(states) <= bumps
  }

  ghost predicate Shows(states: seq<State>, from: State, i: int, n: uint64, pixelCount: ActiveLength) {
    Path(states, from, pixelCount) && Draws(states[|states| - 1], i, n)
  }

  lemma Extend(states: seq<State>, from: State, action: Action, pixelCount: ActiveLength, next: State)
      returns (longer: seq<State>)
    requires Path(states, from, pixelCount) && Step(states[|states| - 1], action, pixelCount, next)
    ensures Path(longer, from, pixelCount) && longer[|longer| - 1] == next
    ensures Bumps(longer) == Bumps(states) + if states[|states| - 1].epoch == next.epoch then 0 else 1
  {
    longer := states + [next];
    assert longer[..|states|] == states;
    assert Steps(states[|states| - 1], pixelCount, next);
    forall n | 0 <= n < |longer| - 1
      ensures StepAt(longer, n, pixelCount)
    {
      if n < |states| - 1 {
        assert StepAt(states, n, pixelCount);
      }
    }
  }

  /** The epoch can be bumped to any value before the worker loads it. */
  lemma {:induction false} EpochReaches(states: seq<State>, from: State, epoch: uint32, pixelCount: ActiveLength)
      returns (longer: seq<State>)
    requires Path(states, from, pixelCount) && states[|states| - 1].pass == NoPass
    ensures Path(longer, from, pixelCount) && longer[|longer| - 1] == states[|states| - 1].(epoch := epoch)
    ensures Bumps(longer) == Bumps(states) + Distance(states[|states| - 1].epoch, epoch)
    decreases Distance(states[|states| - 1].epoch, epoch)
  {
    var s := states[|states| - 1];
    if s.epoch == epoch {
      longer := states;
    } else {
      longer := Extend(states, from, BumpEpoch, pixelCount, s.(epoch := NextEpoch(s.epoch)));
      longer := EpochReaches(longer, from, epoch, pixelCount);
    }
  }

  /** Drawing a held start in its own epoch at its trigger's time begins it. */
  lemma DrawBegins(s: State, i: int, n: uint64, pixelCount: ActiveLength)
    requires s.worker.Loaded? && HeldBack(s, i, n, pixelCount)
    ensures Draws(Drawn(s, Held(s, i).value.origin, false, false, pixelCount), i, n)
  {
    StartForIsIn(s.worker.starts, i);
  }

  lemma HeldCanBegin(s: State, i: int, n: uint64, pixelCount: ActiveLength, bumps: nat)
    requires HeldBackWithin(s, i, n, pixelCount, bumps) && s.pass == NoPass
    ensures CanShowWithin(s, i, n, pixelCount, bumps)
  {
    var start := Held(s, i).value;
    var states := [s];
    var loaded := s;
    if s.worker.Received? {
      states := EpochReaches(states, s, start.epoch, pixelCount);
      loaded := s.(epoch := start.epoch, worker := Loaded(s.worker.starts, start.epoch));
      states := Extend(states, s, LoadEpoch, pixelCount, loaded);
    }
    DrawBegins(loaded, i, n, pixelCount);
    states := Extend(states, s, Draw(start.origin, false, false), pixelCount,
                     Drawn(loaded, start.origin, false, false, pixelCount));
    assert Shows(states, s, i, n, pixelCount);
  }

  /**
    After a rejected publication, a start it triggered can still begin within
    `bumps` bumps of the epoch exactly when the worker already held it in a
    received snapshot, its zone fits, and its epoch is the one the worker loaded
    or one it may still load within them. When the bumps cannot take the epoch
    all the way round, that is the current epoch alone.
   */
  lemma RejectedBeginsWithinBumps(s: State, pixelCount: ActiveLength, post: State, i: int, bumps: nat)
    requires SlotInv(s, i) && Step(s, Discard, pixelCount, post) && i in s.phase.triggered
    requires !Running(s, i, s.bindings[i].sequence)
    ensures var n := s.bindings[i].sequence;
            && (CanShowWithin(post, i, n, pixelCount, bumps) <==> HeldBackWithin(post, i, n, pixelCount, bumps))
            && (HeldBack(post, i, n, pixelCount) && post.worker.Received? ==>
                  var epoch := Held(post, i).value.epoch;
                  bumps + Distance(epoch, post.epoch) < 0x1_0000_0000 ==>
                    (CanShowWithin(post, i, n, pixelCount, bumps) <==> post.epoch == epoch))
  {
    var n := s.bindings[i].sequence;
    RejectionRetires(s, pixelCount, post, i);
    if HeldBackWithin(post, i, n, pixelCount, bumps) {
      HeldCanBegin(post, i, n, pixelCount, bumps);
    } else {
      forall states | Path(states, post, pixelCount) && Bumps(states) <= bumps
        ensures !Shows(states, post, i, n, pixelCount)
      {
        HopelessStays(states, post, pixelCount, i, n, bumps);
      }
    }
  }

  /** Over any number of bumps only the worker's held snapshot matters: everything else about a rejection is final. */
  lemma RejectedBeginsIffHeld(s: State, pixelCount: ActiveLength, post: State, i: int)
    requires SlotInv(s, i) && Step(s, Discard, pixelCount, post) && i in s.phase.triggered
    requires !Running(s, i, s.bindings[i].sequence)
    ensures CanShow(post, i, s.bindings[i].sequence, pixelCount) <==> HeldBack(post, i, s.bindings[i].sequence, pixelCount)
  {
    var n := s.bindings[i].sequence;
    RejectedBeginsWithinBumps(s, pixelCount, post, i, 0x1_0000_0000);
    forall states | Shows(states, post, i, n, pixelCount)
      ensures CanShowWithin(post, i, n, pixelCount, Bumps(states))
      ensures HeldBack(post, i, n, pixelCount)
    {
      RejectedBeginsWithinBumps(s, pixelCount, post, i, Bumps(states));
    }
  }

  // ---------------------------------------------------------------- the end of a late start

  /** Start `n` is retired and the worker does not hold it either. */
  predicate Spent(s: State, i: int, n: uint64) {
    Retired(s, i, n) && !Carries(Held(s, i), n)
  }

  lemma StepKeepsSpent(s: State, action: Action, pixelCount: ActiveLength, post: State, i: int, n: uint64)
    requires Spent(s, i, n) && Step(s, action, pixelCount, post)
    ensures Spent(post, i, n)
    ensures post.pass.Pass? && post.pass.captured.Some? ==> !Draws(post, i, n)
  {
    StepKeepsRetired(s, action, pixelCount, post, i, n);
  }

  lemma {:induction false} RetiredStays(states: seq<State>, pixelCount: ActiveLength, j: nat, k: nat, i: int, n: uint64)
    requires Run(states, pixelCount) && j <= k < |states| && Retired(states[j], i, n)
    ensures Retired(states[k], i, n)
  {
    if j < k {
      RetiredStays(states, pixelCount, j, k - 1, i, n);
      assert StepAt(states, k - 1, pixelCount);
      var action :| Step(states[k - 1], action, pixelCount, states[k]);
      StepKeepsRetired(states[k - 1], action, pixelCount, states[k], i, n);
    }
  }

  lemma {:induction false} SpentStays(states: seq<State>, pixelCount: ActiveLength, j: nat, k: nat, i: int, n: uint64)
    requires Run(states, pixelCount) && j <= k < |states| && Spent(states[j], i, n)
    ensures Spent(states[k], i, n)
    ensures j < k && states[k].pass.Pass? && states[k].pass.captured.Some? ==> !Draws(states[k], i, n)
  {
    if j < k {
      SpentStays(states, pixelCount, j, k - 1, i, n);
      assert StepAt(states, k - 1, pixelCount);
      var action :| Step(states[k - 1], action, pixelCount, states[k]);
      StepKeepsSpent(states[k - 1], action, pixelCount, states[k], i, n);
    }
  }

  /** A rejected start that is shown after its rejection is over at the next pass that takes a command. */
  lemma RejectedEndsAtNextCommand(states: seq<State>, pixelCount: ActiveLength, j: nat, k1: nat, k2: nat, i: int)
    requires Run(states, pixelCount) && j < k1 < k2 < |states| && 0 <= i < |states[0].bindings|
    requires Step(states[j], Discard, pixelCount, states[j + 1]) && i in states[j].phase.triggered
    requires i < |states[j].bindings| && Draws(states[k1], i, states[j].bindings[i].sequence)
    requires states[k2].pass.Pass? && states[k2].pass.captured.Some?
    ensures !Draws(states[k2], i, states[j].bindings[i].sequence)
  {
    var n := states[j].bindings[i].sequence;
    ReachableSlot(states, pixelCount, j, i);
    RejectionRetires(states[j], pixelCount, states[j + 1], i);
    RetiredStays(states, pixelCount, j + 1, k1, i, n);
    ReachableSlot(states, pixelCount, k1, i);
    SpentStays(states, pixelCount, k1, k2, i, n);
  }

  // ---------------------------------------------------------------- the failing case

  const EXAMPLE_ZONE := Zone(0, 10, StartToEnd)

  const EXAMPLE_EFFECT := LightingTransient(EXAMPLE_ZONE, Rgb(1, 1, 1), 100, 1000)

  function ExampleBindings(): (r: BindingList)
    ensures |r| == 1 && r[0] == Binding(7, EXAMPLE_EFFECT, 0, 0, 0, false)
  {
    [Binding(7, EXAMPLE_EFFECT, 0, 0, 0, false)]
  }

  lemma ExampleTriggered(bindings: BindingList, triggered: BindingList)
    requires bindings == ExampleBindings() && triggered == TriggerAll(bindings, 7, 50, 3)
    ensures |triggered| == 1 && triggered[0] == Binding(7, EXAMPLE_EFFECT, 1, 50, 3, true)
    ensures StartFor(LatestStarts(triggered, 3), 0) == Some(TransientStart(1, 3, 1, EXAMPLE_EFFECT, 50))
  {
    LatestStartFor(triggered, 3, 0);
  }

  /**
    The held start does begin in a real run: the worker receives the snapshot and
    loads the epoch, a fail-off bumps the epoch, the publication is rejected with
    black behind it and discarded, and only then the worker draws.
   */
  lemma RejectedCanStillBegin(pixelCount: ActiveLength, idle: Timings) returns (states: seq<State>, late: seq<State>)
    requires forall i :: 0 <= i < TRANSIENT_CAPACITY ==> idle[i] == IDLE_TIMING
    ensures Run(states, pixelCount)
    ensures var s := states[|states| - 1]; s.phase == Ready && Retired(s, 0, 1) && !Running(s, 0, 1) && s.epoch == 4
    ensures Path(late, states[|states| - 1], pixelCount) && Draws(late[|late| - 1], 0, 1)
    ensures late[|late| - 1].pass.captured == Some(3)
  {
    var s0 := State(ExampleBindings(), Ready, 3, None, Waiting, idle, 0, NoPass, map[]);
    var s1 := Executed(s0, true, 7, 50);
    ExampleTriggered(s0.bindings, s1.bindings);
    var s2 := s1.(phase := Verdict(s1.phase.triggered), queue := Some(s1.phase.starts));
    var s3 := Taken(s2);
    var s4 := s3.(worker := Loaded(s3.worker.starts, 3));
    var s5 := s4.(epoch := 4);
    var s6 := s5.(phase := Discarding(s5.phase.triggered), queue := Some([]));
    var s7 := s6.(phase := Ready, bindings := DiscardAll(s6.bindings));
    states := [s0];
    states := Extend(states, s0, Execute(true, 7, 50), pixelCount, s1);
    states := Extend(states, s0, Enqueue, pixelCount, s2);
    states := Extend(states, s0, Take, pixelCount, s3);
    states := Extend(states, s0, LoadEpoch, pixelCount, s4);
    states := Extend(states, s0, BumpEpoch, pixelCount, s5);
    states := Extend(states, s0, RejectLate, pixelCount, s6);
    states := Extend(states, s0, Discard, pixelCount, s7);
    DrawBegins(s7, 0, 1, pixelCount);
    late := Extend([s7], s7, Draw(50, false, false), pixelCount, Drawn(s7, 50, false, false, pixelCount));
  }
}
