/**
  The worker's wiring of the renderer controller and the gate's cancellation
  epoch. Every pass it makes is made of worker steps of `TransientRuns`, so the
  theorems over all interleavings speak of what the controller shows.
 */
module RendererRuntime {
  import opened Pixels
  import opened Lighting
  import opened Transients
  import opened TransientRuns
  import opened Renderer
  import Display

  class Runtime {
    const renderer: RendererController
    /** The cancellation epoch of the gate. */
    var epoch: uint32

    constructor (controller: RendererController)
      ensures renderer == controller && epoch == 0
    {
      renderer := controller;
      epoch := 0;
    }

    /** `s` has this runtime's running effects and epochs. */
    ghost predicate Matches(s: State)
      requires renderer.transients.Valid()
      reads this, renderer, renderer.transients.timing
    {
      && s.timings == renderer.transients.Contents()
      && s.rendererEpoch == renderer.transientEpoch
      && s.epoch == epoch
    }

    /** The strip shows the held command with the effects that a pass drew. */
    ghost predicate StripShows(drawn: State, now: uint64)
      requires renderer.transients.Valid()
      reads this, renderer, renderer.sink
    {
      drawn.pass.Pass? &&
      renderer.sink.pixels == CommandFrame(renderer.command, drawn.pass.drawn, renderer.DrawingAt(now))
    }

    /** A fault bumps the epoch after the pass that drew `drawn`. */
    ghost predicate EndsIn(drawn: State, after: State)
      reads this, renderer
    {
      if renderer.faulted then Step(drawn, BumpEpoch, renderer.pixelCount, after) else after == drawn
    }

    /**
      A pass over a received command: the worker loads the gate's epoch and
      draws; a fault then cancels every pending start.
     */
    method Apply(command: LightingCommand, now: uint64, ghost s: State)
        returns (ok: bool, ghost loaded: State, ghost drawn: State, ghost after: State)
      requires renderer.Valid() && Matches(s) && s.worker == TransientRuns.Received(command.transients)
      modifies this`epoch, renderer, renderer.desired, renderer.sink, renderer.transients.timing
      ensures renderer.Valid() && renderer.Quiet() && renderer.pixelCount == old(renderer.pixelCount)
      ensures Step(s, LoadEpoch, renderer.pixelCount, loaded)
      ensures var held := old(renderer.faulted && !Display.BlackWritten(renderer.View()));
              var dark := held || !command.actionable || now > command.validUntil;
              && Step(loaded, Draw(now, dark || now < old(renderer.lastTick), !ok), renderer.pixelCount, drawn)
              && (ok && !dark ==> StripShows(drawn, now))
              && (ok && dark ==> renderer.sink.pixels == BLACK_FRAME)
      ensures EndsIn(drawn, after) && Matches(after)
    {
      loaded := s.(worker := Loaded(command.transients, epoch), pass := NoPass);
      ok, drawn := DrawCommand(command, now, loaded);
      after := InvalidateIfFaulted(drawn);
    }

    /** The drawing of a pass over the command whose epoch was loaded. */
    method DrawCommand(command: LightingCommand, now: uint64, ghost loaded: State) returns (ok: bool, ghost drawn: State)
      requires renderer.Valid() && Matches(loaded) && loaded.worker == Loaded(command.transients, epoch)
      modifies renderer, renderer.desired, renderer.sink, renderer.transients.timing
      ensures renderer.Valid() && renderer.Quiet() && renderer.pixelCount == old(renderer.pixelCount)
      ensures var held := old(renderer.faulted && !Display.BlackWritten(renderer.View()));
              var dark := held || !command.actionable || now > command.validUntil;
              && Step(loaded, Draw(now, dark || now < old(renderer.lastTick), !ok), renderer.pixelCount, drawn)
              && (ok && !dark ==> StripShows(drawn, now))
              && (ok && dark ==> renderer.sink.pixels == BLACK_FRAME)
      ensures Matches(drawn)
    {
      ghost var held := renderer.faulted && !Display.BlackWritten(renderer.View());
      ghost var backwards := now < renderer.lastTick;
      ok := renderer.Apply(command, now, epoch);
      drawn := Drawn(loaded, now, held || !command.actionable || now > command.validUntil || backwards, !ok, renderer.pixelCount);
    }

    /** A pass without a command draws from the running effects alone. */
    method Tick(now: uint64, ghost s: State) returns (ok: bool, ghost drawn: State, ghost after: State)
      requires renderer.Valid() && Matches(s) && s.worker == Ticking
      modifies this`epoch, renderer, renderer.desired, renderer.sink, renderer.transients.timing
      ensures renderer.Valid() && renderer.Quiet() && renderer.pixelCount == old(renderer.pixelCount)
      ensures var dark := old(renderer.faulted) || !renderer.command.actionable || now > renderer.command.validUntil;
              && Step(s, Draw(now, dark || now < old(renderer.lastTick), !ok), renderer.pixelCount, drawn)
              && (ok && !dark && renderer.hasCommand ==> StripShows(drawn, now))
              && (ok && (dark || !renderer.hasCommand) ==> renderer.sink.pixels == BLACK_FRAME)
      ensures EndsIn(drawn, after) && Matches(after)
    {
      ghost var dark := renderer.faulted || !renderer.command.actionable || now > renderer.command.validUntil;
      ghost var backwards := now < renderer.lastTick;
      ok := renderer.Tick(now);
      drawn := Drawn(s, now, dark || backwards, !ok, renderer.pixelCount);
      after := InvalidateIfFaulted(drawn);
    }

    /** Cancels the starts that are still on their way after a faulted pass. */
    method InvalidateIfFaulted(ghost drawn: State) returns (ghost after: State)
      requires renderer.transients.Valid() && Matches(drawn)
      modifies this`epoch
      ensures EndsIn(drawn, after) && Matches(after)
      ensures epoch == if renderer.faulted then NextEpoch(old(epoch)) else old(epoch)
    {
      after := drawn;
      if renderer.faulted {
        epoch := NextEpoch(epoch);
        after := drawn.(epoch := epoch, pass := NoPass);
      }
    }
  }
}
