/** Renderer-owned timing of one-shot effects, kept apart from held command state. */
module Transients {
  import opened Pixels
  import opened LedZone
  import opened Lighting

  datatype Option<+T> = None | Some(value: T)

  datatype Timing = Timing(effect: LightingTransient, sequence: uint64, started: uint64, active: bool)

  const IDLE_TIMING :=
    Timing(LightingTransient(Zone(0, 0, StartToEnd), BLACK, 100, 0), 0, 0, false)

  type Timings = s: seq<Timing> | |s| == TRANSIENT_CAPACITY
    witness seq(TRANSIENT_CAPACITY, _ => IDLE_TIMING)

  /** Elapsed time is compared, never a deadline, so nothing overflows near the clock limit. */
  predicate Live(timing: Timing, now: uint64) {
    timing.active && now >= timing.started && now - timing.started < timing.effect.duration
  }

  /** An unseen start begins only inside its own window, in the current epoch and in a valid zone. */
  predicate Admits(start: TransientStart, now: uint64, epoch: uint32, pixelCount: size) {
    && 0 < start.effect.duration <= MAX_TRANSIENT_DURATION
    && start.epoch == epoch
    && now >= start.origin
    && now - start.origin < start.effect.duration
    && ValidateZone(start.effect.zone, pixelCount) == Valid
  }

  function Cancelled(timing: Timing): Timing {
    timing.(active := false)
  }

  function Expired(timing: Timing, now: uint64): Timing {
    if Live(timing, now) then timing else timing.(active := false)
  }

  function Restarted(timing: Timing, start: TransientStart, now: uint64, epoch: uint32, pixelCount: size): Timing {
    if timing.sequence == start.sequence then timing
    else Timing(start.effect, start.sequence, now, Admits(start, now, epoch, pixelCount))
  }

  /** The snapshot entry for a slot, if the snapshot has one. */
  function StartFor(starts: seq<TransientStart>, slot: int): Option<TransientStart> {
    if starts == [] then None
    else if starts[|starts| - 1].id as int - 1 == slot then Some(starts[|starts| - 1])
    else StartFor(starts[..|starts| - 1], slot)
  }

  /** A slot after a command: a named start is considered, a missing identity cancels. */
  function Applied(timing: Timing, start: Option<TransientStart>, now: uint64, epoch: uint32, pixelCount: size): Timing {
    match start
    case None => Cancelled(timing)
    case Some(s) => Restarted(timing, s, now, epoch, pixelCount)
  }

  function CancelAll(timings: Timings): Timings {
    seq(TRANSIENT_CAPACITY, i requires 0 <= i < TRANSIENT_CAPACITY => Cancelled(timings[i]))
  }

  function ExpireAll(timings: Timings, now: uint64): Timings {
    seq(TRANSIENT_CAPACITY, i requires 0 <= i < TRANSIENT_CAPACITY => Expired(timings[i], now))
  }

  function ApplyAll(timings: Timings, starts: TransientStarts, now: uint64, epoch: uint32, pixelCount: size): Timings {
    seq(TRANSIENT_CAPACITY, i requires 0 <= i < TRANSIENT_CAPACITY =>
      Applied(timings[i], StartFor(starts, i), now, epoch, pixelCount))
  }

  function FillOfTiming(timing: Timing): LightingFill {
    LightingFill(timing.effect.zone, FULL, timing.effect.color, timing.effect.priority)
  }

  /** The running transients as full fills, in snapshot order. */
  function ActiveFills(timings: Timings, starts: seq<TransientStart>): (r: seq<LightingFill>)
    requires forall i :: 0 <= i < |starts| ==> ValidStart(starts[i])
    ensures |r| <= |starts|
  {
    if starts == [] then []
    else
      var rest := ActiveFills(timings, starts[..|starts| - 1]);
      assert ValidStart(starts[|starts| - 1]);
      var timing := timings[starts[|starts| - 1].id as int - 1];
      if timing.active then rest + [FillOfTiming(timing)] else rest
  }

  /** Every running effect was admitted with a zone inside the active length. */
  predicate ZonesFit(timings: Timings, pixelCount: size) {
    forall i :: 0 <= i < TRANSIENT_CAPACITY && timings[i].active ==>
                  ValidateZone(timings[i].effect.zone, pixelCount) == Valid
  }

  /** Admission is the only way in, so no command, expiry or cancellation lets a bad zone run. */
  lemma ZonesStayFit(timings: Timings, starts: TransientStarts, now: uint64, epoch: uint32, pixelCount: size)
    requires ZonesFit(timings, pixelCount)
    ensures ZonesFit(ApplyAll(timings, starts, now, epoch, pixelCount), pixelCount)
    ensures ZonesFit(ApplyAll(CancelAll(timings), starts, now, epoch, pixelCount), pixelCount)
  {
  }

  lemma {:induction false} ActiveFillsFit(timings: Timings, starts: seq<TransientStart>, pixelCount: size)
    requires forall i :: 0 <= i < |starts| ==> ValidStart(starts[i])
    requires ZonesFit(timings, pixelCount)
    ensures forall i :: 0 <= i < |ActiveFills(timings, starts)| ==>
              ValidateZone(ActiveFills(timings, starts)[i].zone, pixelCount) == Valid
  {
    if starts != [] {
      ActiveFillsFit(timings, starts[..|starts| - 1], pixelCount);
    }
  }

  lemma {:induction false} StartForIsIn(starts: seq<TransientStart>, slot: int)
    ensures StartFor(starts, slot).Some? ==>
              StartFor(starts, slot).value in starts && StartFor(starts, slot).value.id as int - 1 == slot
    ensures StartFor(starts, slot).None? ==> forall s :: s in starts ==> s.id as int - 1 != slot
  {
    if starts != [] {
      StartForIsIn(starts[..|starts| - 1], slot);
      assert starts == starts[..|starts| - 1] + [starts[|starts| - 1]];
    }
  }

  class TransientLayers {
    const timing: array<Timing>

    ghost predicate Valid() {
      timing.Length == TRANSIENT_CAPACITY
    }

    ghost function Contents(): Timings
      requires Valid()
      reads timing
    {
      timing[..]
    }

    constructor ()
      ensures Valid() && fresh(timing)
      ensures forall i :: 0 <= i < TRANSIENT_CAPACITY ==> Contents()[i] == IDLE_TIMING
    {
      timing := new Timing[TRANSIENT_CAPACITY](_ => IDLE_TIMING);
    }

    method Reset()
      requires Valid()
      modifies timing
      ensures forall i :: 0 <= i < TRANSIENT_CAPACITY ==> Contents()[i] == IDLE_TIMING
    {
      for i := 0 to timing.Length
        invariant forall k :: 0 <= k < i ==> timing[k] == IDLE_TIMING
      {
        timing[i] := IDLE_TIMING;
      }
    }

    method Cancel()
      requires Valid()
      modifies timing
      ensures Contents() == CancelAll(old(Contents()))
    {
      for i := 0 to timing.Length
        invariant forall k :: 0 <= k < timing.Length ==>
                    timing[k] == if k < i then Cancelled(old(timing[k])) else old(timing[k])
      {
        timing[i] := timing[i].(active := false);
      }
    }

    method Expire(now: uint64)
      requires Valid()
      modifies timing
      ensures Contents() == ExpireAll(old(Contents()), now)
    {
      for i := 0 to timing.Length
        invariant forall k :: 0 <= k < timing.Length ==>
                    timing[k] == if k < i then Expired(old(timing[k]), now) else old(timing[k])
      {
        if !Live(timing[i], now) {
          timing[i] := timing[i].(active := false);
        }
      }
    }

    method Apply(starts: TransientStarts, now: uint64, epoch: uint32, pixelCount: size)
      requires Valid()
      modifies timing
      ensures Contents() == ApplyAll(old(Contents()), starts, now, epoch, pixelCount)
    {
      var present := new bool[TRANSIENT_CAPACITY](_ => false);
      var n := 0;
      while n < |starts|
        invariant 0 <= n <= |starts|
        invariant forall k :: 0 <= k < TRANSIENT_CAPACITY ==> present[k] == StartFor(starts[..n], k).Some?
        invariant forall k :: 0 <= k < TRANSIENT_CAPACITY ==>
                    timing[k] == if present[k]
                                 then Applied(old(timing[k]), StartFor(starts[..n], k), now, epoch, pixelCount)
                                 else old(timing[k])
      {
        var start := starts[n];
        var index := start.id as int - 1;
        StartForIsIn(starts[..n], index);
        assert starts[..n + 1][..n] == starts[..n];
        present[index] := true;
        if timing[index].sequence != start.sequence {
          timing[index] := Timing(start.effect, start.sequence, now, Admits(start, now, epoch, pixelCount));
        }
        n := n + 1;
      }
      assert starts[..n] == starts;
      for i := 0 to timing.Length
        invariant forall k :: 0 <= k < TRANSIENT_CAPACITY ==> present[k] == StartFor(starts, k).Some?
        invariant forall k :: 0 <= k < TRANSIENT_CAPACITY ==>
                    timing[k] == if k < i || present[k]
                                 then Applied(old(timing[k]), StartFor(starts, k), now, epoch, pixelCount)
                                 else old(timing[k])
      {
        if !present[i] {
          timing[i] := timing[i].(active := false);
        }
      }
    }

    method Active(starts: TransientStarts) returns (fills: LightingFills)
      requires Valid()
      ensures fills == ActiveFills(Contents(), starts)
    {
      fills := [];
      var n := 0;
      while n < |starts|
        invariant 0 <= n <= |starts|
        invariant |fills| <= n && fills == ActiveFills(Contents(), starts[..n])
      {
        assert starts[..n + 1][..n] == starts[..n];
        var slot := timing[starts[n].id as int - 1];
        if slot.active {
          fills := fills + [FillOfTiming(slot)];
        }
        n := n + 1;
      }
      assert starts[..n] == starts;
    }
  }
}
