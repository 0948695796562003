/** The publisher's side of one-shot effects: setup-time bindings and their latest starts. */
module TransientBindings {
  import opened Pixels
  import opened LedZone
  import opened Lighting

  datatype BindingStatus = Ok | InvalidAction | InvalidEffect | DuplicateBinding | CapacityExceeded

  /** `retained` keeps the latest start in every snapshot until it is retired. */
  datatype Binding = Binding(
    action: uint16, effect: LightingTransient, sequence: uint64, origin: uint64, epoch: uint32, retained: bool)

  const UNBOUND := Binding(0, LightingTransient(Zone(0, 0, StartToEnd), BLACK, 100, 0), 0, 0, 0, false)

  // ---------------------------------------------------------------- the specification

  /** The next sequence number: 64-bit, wrapping past zero. */
  function NextSequence(sequence: uint64): (r: uint64)
    ensures r != 0 && r != sequence
    ensures sequence < 0xFFFF_FFFF_FFFF_FFFF ==> r == sequence + 1
  {
    if sequence == 0xFFFF_FFFF_FFFF_FFFF then 1 else sequence + 1
  }

  predicate ValidEffect(effect: LightingTransient, pixelCount: size) {
    && 0 < effect.duration <= MAX_TRANSIENT_DURATION
    && DEFAULT_LED_COUNT <= pixelCount <= MAX_LED_COUNT
    && ValidateZone(effect.zone, pixelCount) == Valid
  }

  /** What binding and triggering maintain: every bound effect is bounded, every retained start is numbered. */
  predicate ValidBindings(bindings: seq<Binding>) {
    && |bindings| <= TRANSIENT_CAPACITY
    && forall i :: 0 <= i < |bindings| ==> ValidBinding(bindings[i])
  }

  predicate ValidBinding(binding: Binding) {
    && 0 < binding.effect.duration <= MAX_TRANSIENT_DURATION
    && (binding.retained ==> binding.sequence != 0)
  }

  function Triggered(binding: Binding, action: uint16, origin: uint64, epoch: uint32): Binding {
    if binding.action != action then binding
    else binding.(sequence := NextSequence(binding.sequence), origin := origin, epoch := epoch, retained := true)
  }

  function TriggerAll(bindings: seq<Binding>, action: uint16, origin: uint64, epoch: uint32): (r: seq<Binding>)
    ensures |r| == |bindings|
    ensures forall i :: 0 <= i < |r| ==> r[i] == Triggered(bindings[i], action, origin, epoch)
    ensures ValidBindings(bindings) ==> ValidBindings(r)
  {
    seq(|bindings|, i requires 0 <= i < |bindings| => Triggered(bindings[i], action, origin, epoch))
  }

  function DiscardAll(bindings: seq<Binding>): (r: seq<Binding>)
    ensures |r| == |bindings|
    ensures forall i :: 0 <= i < |r| ==> r[i] == bindings[i].(retained := false)
    ensures ValidBindings(bindings) ==> ValidBindings(r)
  {
    seq(|bindings|, i requires 0 <= i < |bindings| => bindings[i].(retained := false))
  }

  function StartOf(binding: Binding, slot: nat): TransientStart
    requires slot < TRANSIENT_CAPACITY
  {
    TransientStart(slot as uint8 + 1, binding.epoch, binding.sequence, binding.effect, binding.origin)
  }

  predicate Current(binding: Binding, epoch: uint32) {
    binding.retained && binding.epoch == epoch
  }

  /** The retained starts of `epoch`, in binding order, each under its slot identity. */
  function LatestStarts(bindings: seq<Binding>, epoch: uint32): (r: seq<TransientStart>)
    requires ValidBindings(bindings)
    ensures ValidStarts(r) && |r| <= |bindings|
    ensures forall i :: 0 <= i < |r| ==> r[i].id as int <= |bindings|
  {
    if bindings == [] then []
    else
      var n := |bindings| - 1;
      var rest := LatestStarts(bindings[..n], epoch);
      assert ValidBinding(bindings[n]);
      if Current(bindings[n], epoch) then rest + [StartOf(bindings[n], n)] else rest
  }

  /** The start carries the slot's identity and everything the last trigger stored there. */
  predicate IsStartOf(start: TransientStart, binding: Binding, i: int) {
    && start.id as int == i + 1 && start.sequence == binding.sequence && start.effect == binding.effect
    && start.origin == binding.origin && start.epoch == binding.epoch
  }

  /** A snapshot holds exactly the current retained starts, one per slot. */
  lemma {:induction false} LatestHoldsCurrentStarts(bindings: seq<Binding>, epoch: uint32, start: TransientStart)
    requires ValidBindings(bindings)
    ensures start in LatestStarts(bindings, epoch) <==>
            exists i :: 0 <= i < |bindings| && IsStartOf(start, bindings[i], i) && bindings[i].retained &&
                        bindings[i].epoch == start.epoch == epoch
  {
    if bindings != [] {
      var n := |bindings| - 1;
      LatestHoldsCurrentStarts(bindings[..n], epoch, start);
      assert forall i :: 0 <= i < n ==> bindings[..n][i] == bindings[i];
      assert ValidBinding(bindings[n]);
    }
  }

  predicate Bound(bindings: seq<Binding>, action: uint16, zone: Zone) {
    exists i :: 0 <= i < |bindings| && bindings[i].action == action &&
                bindings[i].effect.zone.start == zone.start && bindings[i].effect.zone.length == zone.length
  }

  // ---------------------------------------------------------------- the bindings

  class Bindings {
    const slots: array<Binding>
    var count: size

    ghost predicate Valid()
      reads this, slots
    {
      slots.Length == TRANSIENT_CAPACITY && count as int <= TRANSIENT_CAPACITY && ValidBindings(slots[..count])
    }

    ghost function Contents(): seq<Binding>
      requires Valid()
      reads this, slots
    {
      slots[..count]
    }

    constructor ()
      ensures Valid() && fresh(slots) && Contents() == []
    {
      slots := new Binding[TRANSIENT_CAPACITY](_ => UNBOUND);
      count := 0;
    }

    method Bind(action: uint16, effect: LightingTransient, pixelCount: size) returns (status: BindingStatus)
      requires Valid()
      modifies this, slots
      ensures Valid()
      ensures status == if action == 0 then InvalidAction
                        else if !ValidEffect(effect, pixelCount) then InvalidEffect
                        else if Bound(old(Contents()), action, effect.zone) then DuplicateBinding
                        else if old(count) as int == TRANSIENT_CAPACITY then CapacityExceeded
                        else Ok
      ensures Contents() == if status == Ok then old(Contents()) + [Binding(action, effect, 0, 0, 0, false)]
                            else old(Contents())
    {
      if action == 0 {
        return InvalidAction;
      }
      var zone := effect.zone;
      if effect.duration == 0 || effect.duration > MAX_TRANSIENT_DURATION || zone.length == 0 ||
         pixelCount < DEFAULT_LED_COUNT || pixelCount > MAX_LED_COUNT ||
         zone.start >= pixelCount || zone.length > pixelCount - zone.start || zone.direction.Undeclared? {
        return InvalidEffect;
      }
      var duplicate := Contains(action, zone);
      if duplicate {
        return DuplicateBinding;
      }
      if count as int == TRANSIENT_CAPACITY {
        return CapacityExceeded;
      }
      slots[count] := Binding(action, effect, 0, 0, 0, false);
      count := count + 1;
      return Ok;
    }

    method Contains(action: uint16, zone: Zone) returns (found: bool)
      requires Valid()
      ensures found == Bound(Contents(), action, zone)
    {
      var index: size := 0;
      while index < count
        invariant index <= count && !Bound(slots[..index], action, zone)
      {
        if slots[index].action == action && slots[index].effect.zone.start == zone.start &&
           slots[index].effect.zone.length == zone.length {
          assert Contents()[index] == slots[index];
          return true;
        }
        index := index + 1;
      }
      return false;
    }

    /** Renumbers and stamps every binding of the action. */
    method Trigger(action: uint16, origin: uint64, epoch: uint32) returns (bound: bool)
      requires Valid()
      modifies slots
      ensures Valid()
      ensures Contents() == TriggerAll(old(Contents()), action, origin, epoch)
      ensures bound <==> exists i :: 0 <= i < |old(Contents())| && old(Contents())[i].action == action
    {
      bound := false;
      ghost var before := Contents();
      var index: size := 0;
      while index < count
        invariant index <= count
        invariant forall k :: 0 <= k < count ==>
                    slots[k] == if k < index then Triggered(before[k], action, origin, epoch) else before[k]
        invariant bound <==> exists i :: 0 <= i < index && before[i].action == action
      {
        var binding := slots[index];
        if binding.action == action {
          // The increment wraps, and zero is skipped.
          var sequence := if binding.sequence == 0xFFFF_FFFF_FFFF_FFFF then 0 else binding.sequence + 1;
          if sequence == 0 {
            sequence := sequence + 1;
          }
          slots[index] := binding.(sequence := sequence, origin := origin, epoch := epoch, retained := true);
          bound := true;
        }
        index := index + 1;
      }
      assert Contents() == TriggerAll(before, action, origin, epoch);
    }

    method Latest(epoch: uint32) returns (starts: TransientStarts)
      requires Valid()
      ensures starts == LatestStarts(Contents(), epoch)
    {
      starts := [];
      var index: size := 0;
      while index < count
        invariant index <= count && ValidBindings(slots[..index])
        invariant starts == LatestStarts(slots[..index], epoch)
      {
        var binding := slots[index];
        assert ValidBinding(Contents()[index]);
        assert slots[..index + 1][..index] == slots[..index];
        if binding.retained && binding.epoch == epoch {
          var added := AddStart(starts, StartOf(binding, index as int));
          assert starts + [StartOf(binding, index as int)] == LatestStarts(slots[..index + 1], epoch);
          assert added.1;
          starts := added.0;
        }
        index := index + 1;
      }
    }

    method DiscardStarts()
      requires Valid()
      modifies slots
      ensures Valid()
      ensures Contents() == DiscardAll(old(Contents()))
    {
      ghost var before := Contents();
      var index: size := 0;
      while index < count
        invariant index <= count
        invariant forall k :: 0 <= k < count ==>
                    slots[k] == if k < index then before[k].(retained := false) else before[k]
      {
        slots[index] := slots[index].(retained := false);
        index := index + 1;
      }
      assert Contents() == DiscardAll(before);
    }

    method Clear()
      requires Valid()
      modifies this, slots
      ensures Valid() && Contents() == []
    {
      for i := 0 to slots.Length {
        slots[i] := UNBOUND;
      }
      count := 0;
    }
  }
}
