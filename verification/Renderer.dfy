/** The strip renderer state machine over a pixel sink whose writes may fail. */
module Renderer {
  import opened Pixels
  import opened LedZone
  import opened Lighting
  import opened Layers
  import opened LayerStack
  import opened Transients
  import opened Display

  // ---------------------------------------------------------------- the driver

  datatype SinkEvent = Wrote(frame: Frame, length: size, ok: bool) | CommandArrived

  predicate FailedWrite(e: SinkEvent) { e.Wrote? && !e.ok }
  predicate LitWrite(e: SinkEvent) { e.Wrote? && e.frame != BLACK_FRAME }
  predicate BlackShown(e: SinkEvent) { e.Wrote? && e.ok && e.frame == BLACK_FRAME && e.length == MAX_LED_COUNT }

  /**
    After a failed write no lit frame is sent until a black frame over the
    whole buffer was accepted and a command arrived after it.
   */
  ghost predicate FailDark(log: seq<SinkEvent>) {
    forall i, j :: 0 <= i < j < |log| && FailedWrite(log[i]) && LitWrite(log[j]) ==> Recovered(log, i, j)
  }

  ghost predicate Recovered(log: seq<SinkEvent>, i: int, j: int) {
    exists b, c :: i < b < c < j && c < |log| && 0 <= b && BlackShown(log[b]) && log[c].CommandArrived?
  }

  datatype Debt = Clear | NeedsCommand | NeedsBlack

  /** What the events so far still owe before light is allowed. */
  function DebtOf(log: seq<SinkEvent>): Debt {
    if log == [] then Clear
    else
      var debt, e := DebtOf(log[..|log| - 1]), log[|log| - 1];
      if FailedWrite(e) then NeedsBlack
      else if BlackShown(e) && debt == NeedsBlack then NeedsCommand
      else if e.CommandArrived? && debt == NeedsCommand then Clear
      else debt
  }

  lemma {:induction false} DebtCountsRecovery(log: seq<SinkEvent>, i: int)
    requires 0 <= i < |log| && FailedWrite(log[i])
    ensures DebtOf(log) == NeedsCommand ==> exists b :: i < b < |log| && BlackShown(log[b])
    ensures DebtOf(log) == Clear ==> Recovered(log, i, |log|)
  {
    var n := |log| - 1;
    if i < n {
      DebtCountsRecovery(log[..n], i);
      if DebtOf(log[..n]) == Clear {
        var b, c :| i < b < c < n && BlackShown(log[..n][b]) && log[..n][c].CommandArrived?;
        assert BlackShown(log[b]) && log[c].CommandArrived?;
      } else if DebtOf(log[..n]) == NeedsCommand && log[n].CommandArrived? {
        var b :| i < b < n && BlackShown(log[..n][b]);
        assert BlackShown(log[b]) && log[n].CommandArrived?;
      } else if DebtOf(log[..n]) == NeedsCommand {
        var b :| i < b < n && BlackShown(log[..n][b]);
        assert BlackShown(log[b]);
      }
    }
  }

  lemma FailDarkExtends(log: seq<SinkEvent>, e: SinkEvent)
    requires FailDark(log) && (LitWrite(e) ==> DebtOf(log) == Clear)
    ensures FailDark(log + [e])
  {
    var all := log + [e];
    forall i, j | 0 <= i < j < |all| && FailedWrite(all[i]) && LitWrite(all[j])
      ensures Recovered(all, i, j)
    {
      if j == |log| {
        DebtCountsRecovery(log, i);
      }
      var b, c :| i < b < c < j && BlackShown(log[b]) && log[c].CommandArrived?;
      assert BlackShown(all[b]) && all[c].CommandArrived?;
    }
  }

  /** Accepts a prefix of a frame, or fails and leaves anything on the strip. */
  class PixelSink {
    var pixels: Frame
    ghost var log: seq<SinkEvent>

    constructor ()
      ensures log == []
    {
      pixels := *;
      log := [];
    }

    method Write(frame: Frame, length: size) returns (ok: bool)
      requires length <= MAX_LED_COUNT
      modifies this
      ensures ok ==> pixels == frame[..length] + old(pixels)[length..]
      ensures log == old(log) + [Wrote(frame, length, ok)]
    {
      ok := *;
      if ok {
        pixels := frame[..length] + pixels[length..];
      } else {
        pixels := *;
      }
      log := log + [Wrote(frame, length, ok)];
    }

    /** A command settles a debt whose black was shown, and sends nothing. */
    ghost method NoteCommand()
      requires FailDark(log)
      modifies this`log
      ensures log == old(log) + [CommandArrived] && FailDark(log)
      ensures DebtOf(log) == if DebtOf(old(log)) == NeedsCommand then Clear else DebtOf(old(log))
    {
      FailDarkExtends(log, CommandArrived);
      log := log + [CommandArrived];
      assert log[..|log| - 1] == old(log);
    }
  }

  // ---------------------------------------------------------------- the frame of a command

  predicate NothingHeld(command: LightingCommand) {
    !command.leftTurn && !command.rightTurn && !command.brake && command.fills == []
  }

  /** The generic colour over the active length when no effect is held, else black. */
  function Background(command: LightingCommand, pixelCount: size): Frame {
    var color := if NothingHeld(command) then CeilingClamped(command.color) else BLACK;
    seq(300, p => if p < pixelCount as int then color else BLACK)
  }

  /** The painter's result for `command` with these transient timings. */
  function CommandFrame(command: LightingCommand, timings: Timings, d: Drawing): Frame {
    Painted(StableSort(LayersOf(command, timings, d.pixelCount)), Background(command, d.pixelCount), d)
  }

  function LayersOf(command: LightingCommand, timings: Timings, pixelCount: ActiveLength): seq<Layer> {
    DrawingOrder(command, ActiveFills(timings, command.transients), pixelCount)
  }

  /** The painted frame shows each pixel's owner, and no other frame does. */
  lemma CommandFrameShowsOwners(command: LightingCommand, timings: Timings, d: Drawing, frame: Frame)
    ensures frame == CommandFrame(command, timings, d) <==>
            Shows(frame, LayersOf(command, timings, d.pixelCount), Background(command, d.pixelCount), d)
  {
    var layers, background := LayersOf(command, timings, d.pixelCount), Background(command, d.pixelCount);
    SortThenPaintShowsOwners(layers, background, d);
    if Shows(frame, layers, background, d) {
      ShownFrameIsUnique(frame, CommandFrame(command, timings, d), layers, background, d);
    }
  }

  lemma SortedLayersAreValid(command: LightingCommand, timings: Timings, pixelCount: ActiveLength)
    requires ZonesFit(timings, pixelCount)
    ensures AllValid(StableSort(LayersOf(command, timings, pixelCount)), pixelCount)
  {
    ActiveFillsFit(timings, command.transients, pixelCount);
    var layers := LayersOf(command, timings, pixelCount);
    SortIsAPermutation(layers);
    forall i | 0 <= i < |StableSort(layers)|
      ensures ValidLayer(StableSort(layers)[i], pixelCount)
    {
      assert StableSort(layers)[i] in multiset(StableSort(layers));
      assert StableSort(layers)[i] in layers;
    }
  }

  lemma {:induction false} PaintedIsDarkBeyond(layers: seq<Layer>, background: Frame, d: Drawing)
    requires DarkBeyond(background, d.pixelCount)
    requires AllValid(layers, d.pixelCount)
    ensures DarkBeyond(Painted(layers, background, d), d.pixelCount)
  {
    if layers != [] {
      PaintedIsDarkBeyond(layers[..|layers| - 1], background, d);
    }
  }

  /** No command ever lights a pixel past the active length. */
  lemma CommandFrameIsDarkBeyond(command: LightingCommand, timings: Timings, d: Drawing)
    requires ZonesFit(timings, d.pixelCount)
    ensures DarkBeyond(CommandFrame(command, timings, d), d.pixelCount)
  {
    SortedLayersAreValid(command, timings, d.pixelCount);
    BackgroundIsDarkBeyond(command, d.pixelCount);
    PaintedIsDarkBeyond(StableSort(LayersOf(command, timings, d.pixelCount)), Background(command, d.pixelCount), d);
  }

  lemma BackgroundIsDarkBeyond(command: LightingCommand, pixelCount: size)
    ensures DarkBeyond(Background(command, pixelCount), pixelCount)
  {
  }

  method PaintLayers(frame: array<Rgb>, stack: Stack, d: Drawing)
    requires frame.Length == 300 && stack.Valid()
    requires AllValid(stack.Contents(), d.pixelCount)
    modifies frame
    ensures frame[..] == Painted(stack.Contents(), old(frame[..]), d)
  {
    ghost var sorted := stack.Contents();
    var i: size := 0;
    while i < stack.count
      invariant i <= stack.count && stack.Contents() == sorted
      invariant frame[..] == Painted(sorted[..i], old(frame[..]), d)
    {
      assert sorted[..i + 1][..i] == sorted[..i] && sorted[i] == stack.layers[i];
      DrawOwned(frame, stack.layers[i], d);
      i := i + 1;
    }
    assert sorted[..i] == sorted;
  }

  // ---------------------------------------------------------------- the controller

  class RendererController {
    const sink: PixelSink
    const transients: TransientLayers
    const desired: array<Rgb>
    var pixelCount: ActiveLength
    var command: LightingCommand
    var lastTick: uint64
    var transientEpoch: uint32
    var hasCommand: bool
    var lastWritten: Frame
    var hasLastWritten: bool
    var faulted: bool
    var animationStarted: uint64
    var animation: AnimationStrategy

    /** The shape of the controller, before and after its start. */
    ghost predicate Ready()
      reads this, sink, transients.timing
    {
      && desired.Length == 300 && transients.Valid()
      && ZonesFit(transients.Contents(), pixelCount)
      && FailDark(sink.log)
    }

    ghost function View(): Display
      reads this, sink
    {
      Display(sink.pixels, hasLastWritten, lastWritten, faulted, hasCommand && command.actionable)
    }

    /** The fault flag and the recorded frame never claim more recovery than the events show. */
    ghost predicate DebtMatches()
      reads this, sink
    {
      && (!faulted && hasCommand ==> DebtOf(sink.log) == Clear)
      && (hasLastWritten && (!faulted || BlackWritten(View())) ==> DebtOf(sink.log) != NeedsBlack)
    }

    /** Every state reachable after `Start`. */
    ghost predicate Valid()
      reads this, sink, transients.timing
    {
      Ready() && Mirror(View(), pixelCount) && DebtMatches()
    }

    /** Between calls, no transient runs while nothing is recorded as shown. */
    ghost predicate Quiet()
      requires transients.Valid()
      reads this, transients.timing
    {
      !hasLastWritten ==> forall i :: 0 <= i < TRANSIENT_CAPACITY ==> !transients.Contents()[i].active
    }

    constructor (output: PixelSink, strategy: AnimationStrategy)
      requires FailDark(output.log)
      ensures Ready() && Quiet() && sink == output && !hasCommand && !hasLastWritten
      ensures fresh(transients) && fresh(transients.timing) && fresh(desired)
    {
      sink := output;
      transients := new TransientLayers();
      desired := new Rgb[300](_ => BLACK);
      pixelCount := DEFAULT_LED_COUNT;
      command := BLACK_COMMAND;
      lastTick, transientEpoch, animationStarted := 0, 0, 0;
      hasCommand, hasLastWritten, faulted := false, false, false;
      lastWritten := BLACK_FRAME;
      animation := strategy;
    }

    /** The active length can only change while no frame is recorded, whatever happened before. */
    method ConfigurePixelCount(count: size) returns (ok: bool)
      requires Ready() && Quiet()
      modifies this`pixelCount
      ensures Ready() && Quiet() && (old(Valid()) ==> Valid())
      ensures ok <==> DEFAULT_LED_COUNT <= count <= MAX_LED_COUNT && !hasLastWritten
      ensures pixelCount == if ok then count else old(pixelCount)
    {
      if count < DEFAULT_LED_COUNT || count > MAX_LED_COUNT || hasLastWritten {
        return false;
      }
      pixelCount := count;
      return true;
    }

    /** Sends `frame` unless the strip already shows it; a failure holds a fault and tries black. */
    method WriteDesired(frame: Frame) returns (ok: bool)
      requires Ready() && DebtMatches() && DarkBeyond(frame, pixelCount)
      requires Mirror(View(), pixelCount) || frame == BLACK_FRAME
      requires frame != BLACK_FRAME ==> !faulted && hasCommand && command.actionable
      modifies this`lastWritten, this`hasLastWritten, this`faulted, sink, transients.timing
      ensures Ready() && DebtMatches()
      ensures WriteOutcome(old(View()), frame, pixelCount, View(), ok)
      ensures var cleared := hasLastWritten; sink.log == old(sink.log) + old(Sent(frame, ok, cleared))
      ensures ok ==> faulted == old(faulted) && transients.Contents() == old(transients.Contents())
      ensures !ok ==> transients.Contents() == CancelAll(old(transients.Contents()))
    {
      if hasLastWritten && frame == lastWritten {
        return true;
      }
      var length := if frame == BLACK_FRAME then MAX_LED_COUNT else pixelCount;
      FailDarkAfter(frame, length);
      ok := sink.Write(frame, length);
      if ok {
        lastWritten := frame;
        hasLastWritten := true;
        return;
      }
      faulted := true;
      transients.Cancel();
      hasLastWritten := false;
      if frame != BLACK_FRAME {
        FailDarkAfter(BLACK_FRAME, MAX_LED_COUNT);
        var cleared := sink.Write(BLACK_FRAME, MAX_LED_COUNT);
        if cleared {
          lastWritten := BLACK_FRAME;
          hasLastWritten := true;
        }
      }
    }

    /** What a write of `frame` sends: nothing twice, black over the whole buffer, and black again behind a failed lit frame. */
    function Sent(frame: Frame, ok: bool, cleared: bool): seq<SinkEvent>
      reads this
    {
      if hasLastWritten && frame == lastWritten then []
      else if ok || frame == BLACK_FRAME then [Wrote(frame, if frame == BLACK_FRAME then 300 else pixelCount, ok)]
      else [Wrote(frame, pixelCount, false), Wrote(BLACK_FRAME, 300, cleared)]
    }

    lemma FailDarkAfter(frame: Frame, length: size)
      requires FailDark(sink.log) && (frame != BLACK_FRAME ==> DebtOf(sink.log) == Clear)
      ensures forall ok :: FailDark(sink.log + [Wrote(frame, length, ok)])
      ensures forall ok :: (sink.log + [Wrote(frame, length, ok)])[..|sink.log|] == sink.log
    {
      FailDarkExtends(sink.log, Wrote(frame, length, true));
      FailDarkExtends(sink.log, Wrote(frame, length, false));
    }

    /** Forgets everything and sends the startup black frame. */
    method Start() returns (ok: bool)
      requires Ready()
      modifies this, sink, transients.timing
      ensures Valid() && Quiet() && !hasCommand && pixelCount == old(pixelCount)
      ensures ok ==> BlackWritten(View()) && !faulted && sink.pixels == BLACK_FRAME
      ensures !ok ==> faulted
    {
      hasCommand := false;
      hasLastWritten := false;
      faulted := false;
      animationStarted := 0;
      lastTick := 0;
      transients.Reset();
      transientEpoch := 0;
      ok := WriteDesired(BLACK_FRAME);
    }

    /** Takes a new command and renders it; a fault ends here once black was written. */
    method Apply(next: LightingCommand, now: uint64, epoch: uint32) returns (ok: bool)
      requires Valid()
      modifies this, desired, sink, transients.timing
      ensures Valid() && Quiet() && pixelCount == old(pixelCount) && animation == old(animation)
      ensures command == next && hasCommand && transientEpoch == epoch && lastTick == now
      ensures animationStarted ==
              if old(hasCommand && next.leftTurn == command.leftTurn && next.rightTurn == command.rightTurn &&
                     next.brake == command.brake)
              then old(animationStarted) else now
      ensures TickOutcome(Received(old(View()), next.actionable), pixelCount, View(), ok)
      ensures var held := old(faulted && !BlackWritten(View()));
              && (ok && (held || !next.actionable || now > next.validUntil) ==> sink.pixels == BLACK_FRAME && NothingRuns())
              && (ok && !held && next.actionable && now <= next.validUntil ==>
                    sink.pixels == CommandFrame(next, transients.Contents(), DrawingAt(now)))
              && (!ok ==> faulted && NothingRuns())
              && Aged(now, ok, held, now < old(lastTick), old(StartedTimings(next.transients, now, epoch)))
    {
      TakeCommand(next, now, epoch);
      ok := Tick(now);
    }

    method StartTransients(starts: TransientStarts, now: uint64, epoch: uint32)
      requires transients.Valid() && ZonesFit(transients.Contents(), pixelCount)
      modifies this`transientEpoch, transients.timing
      ensures transientEpoch == epoch
      ensures transients.Contents() == old(StartedTimings(starts, now, epoch))
      ensures ZonesFit(transients.Contents(), pixelCount)
    {
      ZonesStayFit(transients.Contents(), starts, now, epoch, pixelCount);
      if epoch != transientEpoch {
        transients.Cancel();
      }
      transientEpoch := epoch;
      transients.Apply(starts, now, epoch, pixelCount);
    }

    /** The state part of `Apply`: a fault is dropped here once black was written. */
    method TakeCommand(next: LightingCommand, now: uint64, epoch: uint32)
      requires Valid()
      modifies this`transientEpoch, this`command, this`hasCommand, this`animationStarted, this`faulted,
               sink`log, transients.timing
      ensures Valid()
      ensures View() == Received(old(View()), next.actionable)
      ensures command == next && hasCommand && transientEpoch == epoch
      ensures animationStarted == if old(EffectsChange(next)) then now else old(animationStarted)
      ensures transients.Contents() == old(StartedTimings(next.transients, now, epoch))
    {
      StartTransients(next.transients, now, epoch);
      HoldCommand(next, now);
    }

    method HoldCommand(next: LightingCommand, now: uint64)
      requires Valid()
      modifies this`command, this`hasCommand, this`animationStarted, this`faulted, sink`log
      ensures Valid() && command == next && hasCommand
      ensures View() == Received(old(View()), next.actionable)
      ensures animationStarted == if old(EffectsChange(next)) then now else old(animationStarted)
    {
      sink.NoteCommand();
      if EffectsChange(next) {
        animationStarted := now;
      }
      command := next;
      hasCommand := true;
      if !faulted || (hasLastWritten && lastWritten == BLACK_FRAME) {
        faulted := false;
      }
    }

    predicate EffectsChange(next: LightingCommand)
      reads this
    {
      || !hasCommand || next.leftTurn != command.leftTurn
      || next.rightTurn != command.rightTurn || next.brake != command.brake
    }

    /** The timings once a command was taken: an epoch change cancels before its starts count. */
    ghost function StartedTimings(starts: TransientStarts, now: uint64, epoch: uint32): Timings
      requires transients.Valid()
      reads this, transients.timing
    {
      ApplyAll(if epoch != transientEpoch then CancelAll(transients.Contents()) else transients.Contents(),
               starts, now, epoch, pixelCount)
    }

    /** The effects running after rendering at `now`: all of them stop when nothing may be lit or the pass failed. */
    ghost predicate Aged(now: uint64, ok: bool, held: bool, backwards: bool, timings: Timings)
      requires transients.Valid()
      reads this, transients.timing
    {
      var remaining := TickTimings(timings, backwards || held || !command.actionable || now > command.validUntil, now);
      transients.Contents() == if ok then remaining else CancelAll(remaining)
    }

    ghost predicate NothingRuns()
      requires transients.Valid()
      reads this, transients.timing
    {
      forall i :: 0 <= i < TRANSIENT_CAPACITY ==> !transients.Contents()[i].active
    }

    /** Animations run from the moment an effect was switched. */
    function DrawingAt(now: uint64): (d: Drawing)
      reads this
      ensures d.animation == animation && d.pixelCount == pixelCount
      ensures now >= animationStarted ==> d.elapsed as int == now as int - animationStarted as int
    {
      Drawing(animation, if now >= animationStarted then now - animationStarted else 0, pixelCount)
    }

    /** Renders the held command at `now`, black when it is missing, spent or a fault is held. */
    method Tick(now: uint64) returns (ok: bool)
      requires Valid()
      modifies this`lastTick, this`lastWritten, this`hasLastWritten, this`faulted, desired, sink, transients.timing
      ensures Valid() && Quiet() && lastTick == now
      ensures TickOutcome(old(View()), pixelCount, View(), ok)
      ensures ok && (old(faulted) || !hasCommand || !command.actionable || now > command.validUntil) ==>
                sink.pixels == BLACK_FRAME
      ensures old(faulted) || !command.actionable || now > command.validUntil || !ok ==> NothingRuns()
      ensures ok && !old(faulted) && hasCommand && command.actionable && now <= command.validUntil ==>
                sink.pixels == CommandFrame(command, transients.Contents(), DrawingAt(now))
      ensures !ok ==> faulted
      ensures Aged(now, ok, old(faulted), now < old(lastTick), old(transients.Contents()))
    {
      ghost var before := View();
      Prepare(now);
      var frame := desired[..];
      ok := WriteDesired(frame);
      WriteKeepsMirror(before, frame, pixelCount, View(), ok);
      assert Drawable(before, frame, pixelCount);
    }

    /** The part of `Tick` before the write: ages the transients and draws the wanted frame. */
    method Prepare(now: uint64)
      requires Ready()
      modifies this`lastTick, desired, transients.timing
      ensures Ready() && lastTick == now
      ensures transients.Contents() ==
              TickTimings(old(transients.Contents()),
                          now < old(lastTick) || faulted || !command.actionable || now > command.validUntil, now)
      ensures desired[..] == if !faulted && hasCommand && command.actionable && now <= command.validUntil
                             then CommandFrame(command, transients.Contents(), DrawingAt(now)) else BLACK_FRAME
      ensures DarkBeyond(desired[..], pixelCount)
    {
      ClearDesired();
      if now < lastTick || faulted || !command.actionable || now > command.validUntil {
        transients.Cancel();
      }
      transients.Expire(now);
      lastTick := now;
      if !faulted && hasCommand && command.actionable && now <= command.validUntil {
        DrawFrame(now);
      }
    }

    method ClearDesired()
      requires desired.Length == 300
      modifies desired
      ensures desired[..] == BLACK_FRAME
    {
      for i := 0 to 300
        invariant forall k :: 0 <= k < i ==> desired[k] == BLACK
      {
        desired[i] := BLACK;
      }
    }

    /** Paints the held command on the cleared frame, lowest priority first. */
    method DrawFrame(now: uint64)
      requires Ready() && desired[..] == BLACK_FRAME
      modifies desired
      ensures desired[..] == CommandFrame(command, transients.Contents(), DrawingAt(now))
      ensures DarkBeyond(desired[..], pixelCount)
    {
      if NothingHeld(command) {
        FillActivePixels(CeilingClamped(command.color));
      }
      assert desired[..] == Background(command, pixelCount);
      var running := transients.Active(command.transients);
      var stack := new Stack(command, running, pixelCount);
      stack.SortByPriority();
      SortedLayersAreValid(command, transients.Contents(), pixelCount);
      PaintLayers(desired, stack, DrawingAt(now));
      CommandFrameIsDarkBeyond(command, transients.Contents(), DrawingAt(now));
    }

    method FillActivePixels(color: Rgb)
      requires desired.Length == 300
      modifies desired
      ensures forall k :: 0 <= k < 300 ==> desired[k] == if k < pixelCount as int then color else old(desired[k])
    {
      for i := 0 to pixelCount
        invariant forall k :: 0 <= k < 300 ==> desired[k] == if k < i as int then color else old(desired[k])
      {
        desired[i] := color;
      }
    }
  }

  function TickTimings(timings: Timings, cancel: bool, now: uint64): Timings {
    ExpireAll(if cancel then CancelAll(timings) else timings, now)
  }
}
