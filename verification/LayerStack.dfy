/** The bounded layer list of one frame and its in-place sort. */
module LayerStack {
  import opened Pixels
  import opened LedZone
  import opened Lighting
  import opened Layers

  const LAYER_CAPACITY: size := 19

  /** A fill lights something: it is not empty and its zone fits the active length. */
  predicate Lights(fill: LightingFill, pixelCount: size) {
    !SameFraction(fill.level, EMPTY) && ValidateZone(fill.zone, pixelCount) == Valid
  }

  function LayerOfFill(fill: LightingFill): Layer {
    Layer(FillLayer(fill), fill.priority, fill.zone.start, fill.zone.length)
  }

  function FillLayers(fills: seq<LightingFill>, pixelCount: size): (r: seq<Layer>)
    ensures |r| <= |fills|
    ensures AllValid(r, pixelCount)
  {
    if fills == [] then []
    else
      var rest, last := FillLayers(fills[..|fills| - 1], pixelCount), fills[|fills| - 1];
      if Lights(last, pixelCount) then rest + [LayerOfFill(last)] else rest
  }

  function TurnAndBrakeLayers(command: LightingCommand, pixelCount: ActiveLength): (r: seq<Layer>)
    ensures |r| <= 3
    ensures AllValid(r, pixelCount)
  {
    (if command.brake
     then [Layer(BrakeLayer, command.priorities.brake, (pixelCount - BRAKE_LED_COUNT) / 2, BRAKE_LED_COUNT)]
     else []) +
    (if command.leftTurn then [Layer(LeftTurnLayer, command.priorities.leftTurn, 0, TURN_LED_COUNT)] else []) +
    (if command.rightTurn
     then [Layer(RightTurnLayer, command.priorities.rightTurn, pixelCount - TURN_LED_COUNT, TURN_LED_COUNT)]
     else [])
  }

  function TransientLayerList(transients: seq<LightingFill>): (r: seq<Layer>)
    ensures |r| == |transients|
    ensures forall i :: 0 <= i < |r| ==> r[i] == LayerOfFill(transients[i])
  {
    seq(|transients|, i requires 0 <= i < |transients| => LayerOfFill(transients[i]))
  }

  /** Fills in list order, then brake, left turn, right turn, then transients in snapshot order. */
  function DrawingOrder(command: LightingCommand, transients: LightingFills, pixelCount: ActiveLength): (r: seq<Layer>)
    ensures |r| <= LAYER_CAPACITY as int
    ensures ValidTransients(transients, pixelCount) ==> AllValid(r, pixelCount)
  {
    FillLayers(command.fills, pixelCount) + TurnAndBrakeLayers(command, pixelCount) + TransientLayerList(transients)
  }

  /** Transients are only admitted with a valid zone, so the stack does not check them again. */
  predicate ValidTransients(transients: seq<LightingFill>, pixelCount: size) {
    forall i :: 0 <= i < |transients| ==> ValidateZone(transients[i].zone, pixelCount) == Valid
  }

  lemma {:induction false} InsertFrom(s: seq<Layer>, x: Layer, slot: nat)
    requires slot <= |s| && forall i :: slot <= i < |s| ==> x.priority < s[i].priority
    ensures Insert(s, x) == Insert(s[..slot], x) + s[slot..]
  {
    if slot < |s| {
      var rest := s[..|s| - 1];
      InsertFrom(rest, x, slot);
      assert rest[..slot] == s[..slot];
      assert rest[slot..] + [s[|s| - 1]] == s[slot..];
    } else {
      assert s[..slot] == s && s[slot..] == [];
    }
  }

  class Stack {
    const layers: array<Layer>
    var count: size

    ghost predicate Valid()
      reads this
    {
      layers.Length == LAYER_CAPACITY as int && count <= LAYER_CAPACITY
    }

    ghost function Contents(): seq<Layer>
      requires Valid()
      reads this, layers
    {
      layers[..count]
    }

    constructor (command: LightingCommand, transients: LightingFills, pixelCount: ActiveLength)
      ensures Valid() && fresh(layers)
      ensures Contents() == DrawingOrder(command, transients, pixelCount)
    {
      layers := new Layer[LAYER_CAPACITY](_ => Layer(BrakeLayer, 0, 0, 0));
      count := 0;
      new;
      PushFills(command.fills, pixelCount);
      PushEffects(command, pixelCount);
      PushTransients(transients);
    }

    method PushFills(fills: LightingFills, pixelCount: size)
      requires Valid() && count == 0
      modifies this`count, layers
      ensures Valid() && Contents() == FillLayers(fills, pixelCount)
    {
      var i := 0;
      while i < |fills|
        invariant 0 <= i <= |fills| && Valid()
        invariant Contents() == FillLayers(fills[..i], pixelCount)
      {
        assert fills[..i + 1][..i] == fills[..i];
        if Lights(fills[i], pixelCount) {
          Push(LayerOfFill(fills[i]));
        }
        i := i + 1;
      }
      assert fills[..i] == fills;
    }

    method PushEffects(command: LightingCommand, pixelCount: ActiveLength)
      requires Valid() && count + 3 <= LAYER_CAPACITY
      modifies this`count, layers
      ensures Valid() && Contents() == old(Contents()) + TurnAndBrakeLayers(command, pixelCount)
    {
      if command.brake {
        Push(Layer(BrakeLayer, command.priorities.brake, (pixelCount - BRAKE_LED_COUNT) / 2, BRAKE_LED_COUNT));
      }
      if command.leftTurn {
        Push(Layer(LeftTurnLayer, command.priorities.leftTurn, 0, TURN_LED_COUNT));
      }
      if command.rightTurn {
        Push(Layer(RightTurnLayer, command.priorities.rightTurn, pixelCount - TURN_LED_COUNT, TURN_LED_COUNT));
      }
    }

    method PushTransients(transients: LightingFills)
      requires Valid() && count as int + |transients| <= LAYER_CAPACITY as int
      modifies this`count, layers
      ensures Valid() && Contents() == old(Contents()) + TransientLayerList(transients)
    {
      var i := 0;
      while i < |transients|
        invariant 0 <= i <= |transients| && Valid() && count as int == old(count) as int + i
        invariant Contents() == old(Contents()) + TransientLayerList(transients)[..i]
      {
        Push(LayerOfFill(transients[i]));
        i := i + 1;
      }
    }

    method Push(layer: Layer)
      requires Valid() && count < LAYER_CAPACITY
      modifies this`count, layers
      ensures Valid()
      ensures Contents() == old(Contents()) + [layer]
    {
      layers[count] := layer;
      count := count + 1;
    }

    /** One pass of the sort: shifts higher layers up and drops the layer at `index` into place. */
    method Sink(index: size)
      requires Valid() && index < count
      modifies layers
      ensures layers[..index + 1] == Insert(old(layers[..index]), old(layers[index]))
      ensures layers[index + 1..] == old(layers[index + 1..])
    {
      var layer := layers[index];
      ghost var sorted := layers[..index];
      var slot := index;
      while slot > 0 && layer.priority < layers[slot - 1].priority
        invariant slot <= index
        invariant forall i :: 0 <= i < slot ==> layers[i] == sorted[i]
        invariant forall i :: slot < i <= index ==> layers[i] == sorted[i - 1]
        invariant forall i :: index as int < i < layers.Length ==> layers[i] == old(layers[i])
        invariant forall i :: slot as int <= i < index as int ==> layer.priority < sorted[i].priority
      {
        layers[slot] := layers[slot - 1];
        slot := slot - 1;
      }
      layers[slot] := layer;
      InsertFrom(sorted, layer, slot as int);
      ghost var placed := sorted[..slot] + [layer] + sorted[slot..];
      assert forall i :: 0 <= i <= index ==> layers[i] == placed[i];
      assert layers[..index + 1] == placed;
    }

    /** The in-place insertion sort is the stable sort of the list. */
    method SortByPriority()
      requires Valid()
      modifies layers
      ensures Valid()
      ensures Contents() == StableSort(old(Contents()))
    {
      ghost var before := Contents();
      var index: size := 1;
      while index < count
        invariant 1 <= index && (index <= count || count == 0)
        invariant index <= count ==> layers[..index] == StableSort(before[..index])
        invariant forall i :: index <= i < count ==> layers[i] == before[i]
      {
        assert before[..index + 1][..index] == before[..index] && before[index] == layers[index];
        Sink(index);
        assert forall i :: index + 1 <= i < count ==> layers[i] == layers[index + 1..][i - index - 1];
        index := index + 1;
      }
      assert before[..count] == before;
    }
  }
}
