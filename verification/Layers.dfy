/**
  Compositing: the lit effects of a command become layers, a stable insertion
  sort orders them by priority, and the painter draws each over its region.
  The specification needs no order: every pixel belongs to the covering layer
  of greatest priority, the later one in drawing order when priorities tie.
 */
module Layers {
  import opened Pixels
  import opened LedZone
  import opened Lighting

  const FLOW_STEP: uint64 := 33_333
  const FLOW_TAIL_LENGTH: size := 5
  const AMBER := Rgb(128, 16, 0)
  const RED := Rgb(BRIGHTNESS_CEILING, 0, 0)

  datatype AnimationStrategy = RunningFlow | CenterOutFill

  datatype LayerKind = FillLayer(fill: LightingFill) | BrakeLayer | LeftTurnLayer | RightTurnLayer

  /** One lit effect and the strip region it owns while no higher layer covers it. */
  datatype Layer = Layer(kind: LayerKind, priority: uint8, start: size, count: size)

  /** What every layer of one frame is drawn with. */
  datatype Drawing = Drawing(animation: AnimationStrategy, elapsed: uint64, pixelCount: ActiveLength)

  predicate Covers(layer: Layer, p: int) {
    layer.start as int <= p < layer.start as int + layer.count as int
  }

  predicate ValidLayer(layer: Layer, pixelCount: size) {
    && layer.start as int + layer.count as int <= pixelCount as int
    && match layer.kind
       case FillLayer(fill) =>
         ValidateZone(fill.zone) == Valid && layer.start == fill.zone.start && layer.count == fill.zone.length
       case BrakeLayer => layer.count == BRAKE_LED_COUNT
       case LeftTurnLayer => layer.start == 0 && layer.count == TURN_LED_COUNT
       case RightTurnLayer =>
         layer.start as int + TURN_LED_COUNT as int == pixelCount as int && layer.count == TURN_LED_COUNT
  }

  predicate AllValid(layers: seq<Layer>, pixelCount: size) {
    forall i :: 0 <= i < |layers| ==> ValidLayer(layers[i], pixelCount)
  }

  // ---------------------------------------------------------------- what one layer shows

  function CeilingClamped(color: Rgb): Rgb {
    Rgb(if color.red > BRIGHTNESS_CEILING then BRIGHTNESS_CEILING else color.red,
        if color.green > BRIGHTNESS_CEILING then BRIGHTNESS_CEILING else color.green,
        if color.blue > BRIGHTNESS_CEILING then BRIGHTNESS_CEILING else color.blue)
  }

  /** The distance of a turn pixel from the inner edge its animation starts at. */
  function FromInnerEdge(left: bool, pixelCount: int, p: int): int {
    if left then TURN_LED_COUNT as int - 1 - p else p - (pixelCount - TURN_LED_COUNT as int)
  }

  /** A turn pixel `distance` from the inner edge: a moving head with a dimming tail, or a growing bar. */
  function TurnPixel(animation: AnimationStrategy, elapsed: uint64, distance: int): Rgb {
    var steps := (elapsed / FLOW_STEP) as int;
    match animation
    case RunningFlow =>
      var tail := steps % 35 - distance;
      if 0 <= tail < 5 then Dim(AMBER, (5 - tail) as real / 5.0) else BLACK
    case CenterOutFill =>
      var phase := steps % 36;
      if phase != 35 && distance <= phase then AMBER else BLACK
  }

  function LayerPixel(layer: Layer, d: Drawing, p: int): Rgb {
    match layer.kind
    case FillLayer(fill) =>
      if InZone(fill.zone, p) then Dim(CeilingClamped(fill.color), Coverage(fill.zone, fill.level, p)) else BLACK
    case BrakeLayer => RED
    case LeftTurnLayer => TurnPixel(d.animation, d.elapsed, FromInnerEdge(true, d.pixelCount as int, p))
    case RightTurnLayer => TurnPixel(d.animation, d.elapsed, FromInnerEdge(false, d.pixelCount as int, p))
  }

  /** The frame after a layer took its whole region, dark pixels included. */
  function Owned(frame: Frame, layer: Layer, d: Drawing): Frame {
    seq(300, p requires 0 <= p < 300 => if Covers(layer, p) then LayerPixel(layer, d, p) else frame[p])
  }

  // ---------------------------------------------------------------- the ownership specification

  /** Layer `w` owns `p`: it covers it and no covering layer is higher, or equal and later. */
  predicate IsOwner(layers: seq<Layer>, p: int, w: int) {
    && 0 <= w < |layers|
    && Covers(layers[w], p)
    && forall j :: 0 <= j < |layers| && Covers(layers[j], p) ==>
                     layers[j].priority < layers[w].priority || (layers[j].priority == layers[w].priority && j <= w)
  }

  predicate Uncovered(layers: seq<Layer>, p: int) {
    forall j :: 0 <= j < |layers| ==> !Covers(layers[j], p)
  }

  /** `frame` shows `layers` (in drawing order) over `background`, pixel by pixel. */
  ghost predicate Shows(frame: Frame, layers: seq<Layer>, background: Frame, d: Drawing) {
    && (forall p, w :: 0 <= p < 300 && IsOwner(layers, p, w) ==> frame[p] == LayerPixel(layers[w], d, p))
    && (forall p :: 0 <= p < 300 && Uncovered(layers, p) ==> frame[p] == background[p])
  }

  lemma {:induction false} OwnerExists(layers: seq<Layer>, p: int)
    ensures Uncovered(layers, p) || exists w :: IsOwner(layers, p, w)
  {
    if layers != [] {
      var n := |layers| - 1;
      OwnerExists(layers[..n], p);
      if Covers(layers[n], p) {
        if Uncovered(layers[..n], p) {
          assert IsOwner(layers, p, n);
        } else {
          var w :| IsOwner(layers[..n], p, w);
          assert IsOwner(layers, p, if layers[n].priority < layers[w].priority then w else n);
        }
      } else if !Uncovered(layers[..n], p) {
        var w :| IsOwner(layers[..n], p, w);
        assert IsOwner(layers, p, w);
      }
    }
  }

  /** The specification leaves no freedom: at most one frame shows a list of layers. */
  lemma ShownFrameIsUnique(x: Frame, y: Frame, layers: seq<Layer>, background: Frame, d: Drawing)
    requires Shows(x, layers, background, d) && Shows(y, layers, background, d)
    ensures x == y
  {
    forall p | 0 <= p < 300
      ensures x[p] == y[p]
    {
      OwnerExists(layers, p);
    }
  }

  // ---------------------------------------------------------------- stable sorting

  predicate Ascending(s: seq<Layer>) {
    forall i, j :: 0 <= i < j < |s| ==> s[i].priority <= s[j].priority
  }

  /** Places `x` after every layer of at most its priority. */
  function Insert(s: seq<Layer>, x: Layer): (r: seq<Layer>)
    ensures |r| == |s| + 1
  {
    if s != [] && x.priority < s[|s| - 1].priority then Insert(s[..|s| - 1], x) + [s[|s| - 1]]
    else s + [x]
  }

  function StableSort(s: seq<Layer>): (r: seq<Layer>)
    ensures |r| == |s|
  {
    if s == [] then [] else Insert(StableSort(s[..|s| - 1]), s[|s| - 1])
  }

  lemma {:induction false} InsertKeepsLayers(s: seq<Layer>, x: Layer)
    ensures multiset(Insert(s, x)) == multiset(s) + multiset{x}
  {
    if s != [] && x.priority < s[|s| - 1].priority {
      InsertKeepsLayers(s[..|s| - 1], x);
      assert s == s[..|s| - 1] + [s[|s| - 1]];
    }
  }

  lemma {:induction false} InsertAscends(s: seq<Layer>, x: Layer)
    requires Ascending(s)
    ensures Ascending(Insert(s, x))
    ensures forall i :: 0 <= i <= |s| ==> Insert(s, x)[i] == x || Insert(s, x)[i] in s
  {
    if s != [] && x.priority < s[|s| - 1].priority {
      InsertAscends(s[..|s| - 1], x);
    }
  }

  /** Sorting orders the layers and neither loses nor invents one. */
  lemma {:induction false} SortIsAPermutation(s: seq<Layer>)
    ensures Ascending(StableSort(s))
    ensures multiset(StableSort(s)) == multiset(s)
  {
    if s != [] {
      var rest, last := s[..|s| - 1], s[|s| - 1];
      SortIsAPermutation(rest);
      InsertAscends(StableSort(rest), last);
      InsertKeepsLayers(StableSort(rest), last);
      assert s == rest + [last];
    }
  }

  // ---------------------------------------------------------------- painter's order

  /** The painter's fold: the layers drawn in list order. */
  function Painted(layers: seq<Layer>, background: Frame, d: Drawing): Frame {
    if layers == [] then background
    else Owned(Painted(layers[..|layers| - 1], background, d), layers[|layers| - 1], d)
  }

  datatype Found = Nothing | Last(layer: Layer)

  function LastCovering(layers: seq<Layer>, p: int): Found {
    if layers == [] then Nothing
    else if Covers(layers[|layers| - 1], p) then Last(layers[|layers| - 1])
    else LastCovering(layers[..|layers| - 1], p)
  }

  lemma {:induction false} LastCoveringIsIn(layers: seq<Layer>, p: int)
    ensures LastCovering(layers, p).Last? ==> LastCovering(layers, p).layer in layers
  {
    if layers != [] {
      LastCoveringIsIn(layers[..|layers| - 1], p);
    }
  }

  lemma {:induction false} LastDrawnShows(layers: seq<Layer>, background: Frame, d: Drawing, p: int)
    requires 0 <= p < 300
    ensures Painted(layers, background, d)[p] ==
            match LastCovering(layers, p)
            case Nothing => background[p]
            case Last(layer) => LayerPixel(layer, d, p)
  {
    if layers != [] {
      LastDrawnShows(layers[..|layers| - 1], background, d, p);
    }
  }

  lemma {:induction false} LastCoveringOfInsert(s: seq<Layer>, x: Layer, p: int)
    requires Ascending(s)
    ensures var before := LastCovering(s, p);
            LastCovering(Insert(s, x), p) ==
            if !Covers(x, p) || (before.Last? && x.priority < before.layer.priority) then before else Last(x)
  {
    LastCoveringIsIn(s, p);
    if s != [] && x.priority < s[|s| - 1].priority {
      LastCoveringOfInsert(s[..|s| - 1], x, p);
    } else {
      assert (s + [x])[..|s|] == s;
    }
  }

  lemma {:induction false} UncoveredIsNeverDrawn(layers: seq<Layer>, p: int)
    requires Uncovered(layers, p)
    ensures LastCovering(StableSort(layers), p) == Nothing
  {
    if layers != [] {
      var rest := layers[..|layers| - 1];
      UncoveredIsNeverDrawn(rest, p);
      SortIsAPermutation(rest);
      LastCoveringOfInsert(StableSort(rest), layers[|layers| - 1], p);
    }
  }

  /** After the stable sort, the last layer drawn over a pixel is its owner. */
  lemma {:induction false} OwnerIsDrawnLast(layers: seq<Layer>, p: int, w: int)
    requires IsOwner(layers, p, w)
    ensures LastCovering(StableSort(layers), p) == Last(layers[w])
  {
    var rest, last := layers[..|layers| - 1], layers[|layers| - 1];
    SortIsAPermutation(rest);
    LastCoveringOfInsert(StableSort(rest), last, p);
    if w < |rest| {
      OwnerOfRest(layers, p, w);
      OwnerIsDrawnLast(rest, p, w);
    } else if Uncovered(rest, p) {
      UncoveredIsNeverDrawn(rest, p);
    } else {
      OwnerExists(rest, p);
      var v :| IsOwner(rest, p, v);
      OwnerIsDrawnLast(rest, p, v);
      LastOutranks(layers, p, v);
    }
  }

  lemma OwnerOfRest(layers: seq<Layer>, p: int, w: int)
    requires IsOwner(layers, p, w) && w < |layers| - 1
    ensures IsOwner(layers[..|layers| - 1], p, w)
    ensures Covers(layers[|layers| - 1], p) ==> layers[|layers| - 1].priority < layers[w].priority
  {
  }

  lemma LastOutranks(layers: seq<Layer>, p: int, v: int)
    requires layers != [] && IsOwner(layers, p, |layers| - 1) && 0 <= v < |layers| - 1 && Covers(layers[v], p)
    ensures layers[v].priority <= layers[|layers| - 1].priority
  {
  }

  /** Stable sort then paint equals the ownership specification, for every list of layers. */
  lemma SortThenPaintShowsOwners(layers: seq<Layer>, background: Frame, d: Drawing)
    ensures Shows(Painted(StableSort(layers), background, d), layers, background, d)
  {
    forall p | 0 <= p < 300
      ensures Uncovered(layers, p) ==> Painted(StableSort(layers), background, d)[p] == background[p]
      ensures forall w :: IsOwner(layers, p, w) ==>
                Painted(StableSort(layers), background, d)[p] == LayerPixel(layers[w], d, p)
    {
      LastDrawnShows(StableSort(layers), background, d, p);
      if Uncovered(layers, p) {
        UncoveredIsNeverDrawn(layers, p);
      }
      forall w | IsOwner(layers, p, w)
        ensures LastCovering(StableSort(layers), p) == Last(layers[w])
      {
        OwnerIsDrawnLast(layers, p, w);
      }
    }
  }

  // ---------------------------------------------------------------- drawing one layer

  method DrawFlow(frame: array<Rgb>, left: bool, phase: size, pixelCount: ActiveLength)
    requires frame.Length == 300 && phase < TURN_LED_COUNT
    modifies frame
    ensures forall p :: 0 <= p < 300 ==>
              var tail := phase as int - FromInnerEdge(left, pixelCount as int, p);
              frame[p] == if InTurnRegion(left, pixelCount, p) && 0 <= tail < 5
                          then Dim(AMBER, (5 - tail) as real / 5.0) else old(frame[p])
  {
    var tail: size := 0;
    while tail < FLOW_TAIL_LENGTH
      invariant tail <= 5
      invariant forall p :: 0 <= p < 300 ==>
                  var t := phase as int - FromInnerEdge(left, pixelCount as int, p);
                  frame[p] == if InTurnRegion(left, pixelCount, p) && 0 <= t < tail as int
                              then Dim(AMBER, (5 - t) as real / 5.0) else old(frame[p])
    {
      var brightness := FLOW_TAIL_LENGTH - tail;
      var shade := Scale(AMBER, brightness as uint64, FLOW_TAIL_LENGTH as uint64);
      assert brightness as uint64 as real / FLOW_TAIL_LENGTH as uint64 as real == (5 - tail as int) as real / 5.0;
      if left {
        var head := TURN_LED_COUNT - 1 - phase;
        var position := head + tail;
        if position < TURN_LED_COUNT {
          frame[position] := shade;
        }
      } else {
        var head := phase;
        if head >= tail {
          frame[pixelCount - TURN_LED_COUNT + head - tail] := shade;
        }
      }
      tail := tail + 1;
    }
  }

  predicate InTurnRegion(left: bool, pixelCount: size, p: int) {
    if left then 0 <= p < 35 else pixelCount as int - 35 <= p < pixelCount as int
  }

  method DrawCenterOutFill(frame: array<Rgb>, left: bool, phase: size, pixelCount: ActiveLength)
    requires frame.Length == 300 && phase < TURN_LED_COUNT
    modifies frame
    ensures forall p :: 0 <= p < 300 ==>
              frame[p] == if InTurnRegion(left, pixelCount, p) && FromInnerEdge(left, pixelCount as int, p) <= phase as int
                          then AMBER else old(frame[p])
  {
    var fillCount := phase + 1;
    var offset: size := 0;
    while offset < fillCount
      invariant offset <= fillCount
      invariant forall p :: 0 <= p < 300 ==>
                  frame[p] == if InTurnRegion(left, pixelCount, p) && FromInnerEdge(left, pixelCount as int, p) < offset as int
                              then AMBER else old(frame[p])
    {
      var position := if left then TURN_LED_COUNT - 1 - offset else pixelCount - TURN_LED_COUNT + offset;
      frame[position] := AMBER;
      offset := offset + 1;
    }
  }

  /** Runs the animation strategy for one turn side over its cleared region. */
  method Animate(frame: array<Rgb>, left: bool, d: Drawing)
    requires frame.Length == 300
    requires forall p :: 0 <= p < 300 && InTurnRegion(left, d.pixelCount, p) ==> frame[p] == BLACK
    modifies frame
    ensures forall p :: 0 <= p < 300 ==>
              frame[p] == if InTurnRegion(left, d.pixelCount, p)
                          then TurnPixel(d.animation, d.elapsed, FromInnerEdge(left, d.pixelCount as int, p))
                          else old(frame[p])
  {
    match d.animation {
      case RunningFlow =>
        var phase := (d.elapsed / FLOW_STEP) % (TURN_LED_COUNT as uint64);
        DrawFlow(frame, left, phase as size, d.pixelCount);
      case CenterOutFill =>
        var cycleStep := (d.elapsed / FLOW_STEP) % (TURN_LED_COUNT as uint64 + 1);
        if cycleStep == TURN_LED_COUNT as uint64 {
          return;
        }
        DrawCenterOutFill(frame, left, cycleStep as size, d.pixelCount);
    }
  }

  method DrawLayer(frame: array<Rgb>, layer: Layer, d: Drawing)
    requires frame.Length == 300 && ValidLayer(layer, d.pixelCount)
    requires forall p :: 0 <= p < 300 && Covers(layer, p) ==> frame[p] == BLACK
    modifies frame
    ensures frame[..] == Owned(old(frame[..]), layer, d)
  {
    match layer.kind {
      case FillLayer(fill) =>
        var _ := FillZone(frame, fill.zone, fill.level, CeilingClamped(fill.color));
        assert forall p :: Covers(layer, p) <==> InZone(fill.zone, p);
      case BrakeLayer =>
        var index: size := 0;
        while index < layer.count
          invariant index <= layer.count
          invariant forall p :: 0 <= p < 300 ==>
                      frame[p] == if layer.start as int <= p < layer.start as int + index as int
                                  then RED else old(frame[p])
        {
          frame[layer.start + index] := RED;
          index := index + 1;
        }
      case LeftTurnLayer =>
        assert forall p :: Covers(layer, p) <==> InTurnRegion(true, d.pixelCount, p);
        Animate(frame, true, d);
      case RightTurnLayer =>
        assert forall p :: Covers(layer, p) <==> InTurnRegion(false, d.pixelCount, p);
        Animate(frame, false, d);
    }
  }

  /** Clears the layer's region, then draws it: nothing outside the region changes. */
  method DrawOwned(frame: array<Rgb>, layer: Layer, d: Drawing)
    requires frame.Length == 300 && ValidLayer(layer, d.pixelCount)
    modifies frame
    ensures frame[..] == Owned(old(frame[..]), layer, d)
  {
    var index: size := 0;
    while index < layer.count
      invariant index <= layer.count
      invariant forall p :: 0 <= p < 300 ==>
                  frame[p] == if layer.start as int <= p < layer.start as int + index as int
                              then BLACK else old(frame[p])
    {
      frame[layer.start + index] := BLACK;
      index := index + 1;
    }
    DrawLayer(frame, layer, d);
  }

  /** The right turn is the mirror image of the left one at every moment. */
  lemma TurnsMirror(left: Layer, right: Layer, d: Drawing, p: int)
    requires left.kind == LeftTurnLayer && ValidLayer(left, d.pixelCount) && Covers(left, p)
    requires right.kind == RightTurnLayer && ValidLayer(right, d.pixelCount)
    ensures Covers(right, d.pixelCount as int - 1 - p)
    ensures LayerPixel(right, d, d.pixelCount as int - 1 - p) == LayerPixel(left, d, p)
  {
  }
}
