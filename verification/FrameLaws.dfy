/** What a strip shows for a command, effect by effect and pixel by pixel. */
module FrameLaws {
  import opened Pixels
  import opened LedZone
  import opened Lighting
  import opened Layers
  import opened LayerStack
  import opened Transients
  import opened Renderer

  /** The effects a command can ask for; `Fill` and `Start` are positions in its lists. */
  datatype Effect = Fill(i: nat) | Brake | LeftTurn | RightTurn | Start(k: nat)

  // ---------------------------------------------------------------- where an effect is, and what it shows there

  function TimingOf(command: LightingCommand, timings: Timings, k: nat): Timing
    requires k < |command.transients|
  {
    assert ValidStart(command.transients[k]);
    timings[command.transients[k].id as int - 1]
  }

  predicate Inside(zone: Zone, p: int) {
    zone.start as int <= p < zone.start as int + zone.length as int
  }

  /**
    A fill is on with a level above zero and a zone that fits the active length;
    a start while it runs; the brake owns thirty pixels in the middle, each turn
    thirty-five at its end of the strip.
   */
  predicate IsOn(command: LightingCommand, timings: Timings, pixelCount: ActiveLength, e: Effect) {
    match e
    case Fill(i) =>
      && i < |command.fills|
      && var fill := command.fills[i];
         && 0 < fill.level.numerator && !fill.zone.direction.Undeclared? && 0 < fill.zone.length
         && fill.zone.start as int + fill.zone.length as int <= pixelCount as int
    case Brake => command.brake
    case LeftTurn => command.leftTurn
    case RightTurn => command.rightTurn
    case Start(k) => k < |command.transients| && TimingOf(command, timings, k).active
  }

  predicate IsAt(command: LightingCommand, timings: Timings, pixelCount: ActiveLength, e: Effect, p: int) {
    IsOn(command, timings, pixelCount, e) &&
    match e
    case Fill(i) => Inside(command.fills[i].zone, p)
    case Brake => (pixelCount as int - 30) / 2 <= p < (pixelCount as int - 30) / 2 + 30
    case LeftTurn => 0 <= p < 35
    case RightTurn => pixelCount as int - 35 <= p < pixelCount as int
    case Start(k) => Inside(TimingOf(command, timings, k).effect.zone, p)
  }

  function PriorityOf(command: LightingCommand, timings: Timings, pixelCount: ActiveLength, e: Effect): uint8
    requires IsOn(command, timings, pixelCount, e)
  {
    match e
    case Fill(i) => command.fills[i].priority
    case Brake => command.priorities.brake
    case LeftTurn => command.priorities.leftTurn
    case RightTurn => command.priorities.rightTurn
    case Start(k) => TimingOf(command, timings, k).effect.priority
  }

  /** On equal priorities the effect of greater rank wins: fills in order, brake, left, right, starts in order. */
  function RankOf(e: Effect): nat {
    match e
    case Fill(i) => i
    case Brake => 8
    case LeftTurn => 9
    case RightTurn => 10
    case Start(k) => 11 + k
  }

  /** No channel brighter than sixteen. */
  function Limited(color: Rgb): Rgb {
    Rgb(if color.red < 16 then color.red else 16, if color.green < 16 then color.green else 16,
        if color.blue < 16 then color.blue else 16)
  }

  function ColorAt(command: LightingCommand, timings: Timings, d: Drawing, e: Effect, p: int): Rgb
    requires IsAt(command, timings, d.pixelCount, e, p)
  {
    match e
    case Fill(i) => Dim(Limited(command.fills[i].color), Coverage(command.fills[i].zone, command.fills[i].level, p))
    case Brake => Rgb(16, 0, 0)
    case LeftTurn => TurnPixel(d.animation, d.elapsed, 34 - p)
    case RightTurn => TurnPixel(d.animation, d.elapsed, p - (d.pixelCount as int - 35))
    case Start(k) =>
      var effect := TimingOf(command, timings, k).effect;
      Dim(Limited(effect.color), Coverage(effect.zone, FULL, p))
  }

  // ---------------------------------------------------------------- effects and layers

  /** The layer of an effect. */
  function LayerFor(command: LightingCommand, timings: Timings, pixelCount: ActiveLength, e: Effect): Layer
    requires IsOn(command, timings, pixelCount, e)
  {
    match e
    case Fill(i) => LayerOfFill(command.fills[i])
    case Brake => Layer(BrakeLayer, command.priorities.brake, (pixelCount - BRAKE_LED_COUNT) / 2, BRAKE_LED_COUNT)
    case LeftTurn => Layer(LeftTurnLayer, command.priorities.leftTurn, 0, TURN_LED_COUNT)
    case RightTurn => Layer(RightTurnLayer, command.priorities.rightTurn, pixelCount - TURN_LED_COUNT, TURN_LED_COUNT)
    case Start(k) => LayerOfFill(FillOfTiming(TimingOf(command, timings, k)))
  }

  lemma LayerSays(command: LightingCommand, timings: Timings, d: Drawing, e: Effect, p: int)
    requires IsOn(command, timings, d.pixelCount, e)
    ensures var layer := LayerFor(command, timings, d.pixelCount, e);
            && layer.priority == PriorityOf(command, timings, d.pixelCount, e)
            && (Covers(layer, p) <==> IsAt(command, timings, d.pixelCount, e, p))
            && (IsAt(command, timings, d.pixelCount, e, p) ==> LayerPixel(layer, d, p) == ColorAt(command, timings, d, e, p))
  {
  }

  function Count(b: bool): nat { if b then 1 else 0 }

  /** Where the effect's layer is in the drawing order. */
  function IndexOf(command: LightingCommand, timings: Timings, pixelCount: ActiveLength, e: Effect): nat
    requires IsOn(command, timings, pixelCount, e)
  {
    var lit := |FillLayers(command.fills, pixelCount)|;
    match e
    case Fill(i) => |FillLayers(command.fills[..i], pixelCount)|
    case Brake => lit
    case LeftTurn => lit + Count(command.brake)
    case RightTurn => lit + Count(command.brake) + Count(command.leftTurn)
    case Start(k) =>
      lit + Count(command.brake) + Count(command.leftTurn) + Count(command.rightTurn) +
      |ActiveFills(timings, command.transients[..k])|
  }

  lemma LitFill(fill: LightingFill, pixelCount: ActiveLength)
    ensures Lights(fill, pixelCount) <==>
            && 0 < fill.level.numerator && !fill.zone.direction.Undeclared? && 0 < fill.zone.length
            && fill.zone.start as int + fill.zone.length as int <= pixelCount as int
  {
  }

  lemma {:induction false} FillLayerAt(fills: seq<LightingFill>, pixelCount: ActiveLength, i: nat)
    requires i < |fills| && Lights(fills[i], pixelCount)
    ensures var w := |FillLayers(fills[..i], pixelCount)|;
            w < |FillLayers(fills, pixelCount)| && FillLayers(fills, pixelCount)[w] == LayerOfFill(fills[i])
  {
    var n := |fills| - 1;
    if i < n {
      FillLayerAt(fills[..n], pixelCount, i);
      assert fills[..n][..i] == fills[..i];
    }
  }

  lemma {:induction false} FillOfLayer(fills: seq<LightingFill>, pixelCount: ActiveLength, w: nat) returns (i: nat)
    requires w < |FillLayers(fills, pixelCount)|
    ensures i < |fills| && Lights(fills[i], pixelCount) && |FillLayers(fills[..i], pixelCount)| == w
  {
    var n := |fills| - 1;
    if w < |FillLayers(fills[..n], pixelCount)| {
      i := FillOfLayer(fills[..n], pixelCount, w);
      assert fills[..n][..i] == fills[..i];
    } else {
      i := n;
    }
  }

  lemma {:induction false} FillLayersGrow(fills: seq<LightingFill>, pixelCount: ActiveLength, i: nat)
    requires i <= |fills|
    ensures |FillLayers(fills[..i], pixelCount)| <= |FillLayers(fills, pixelCount)|
  {
    if i < |fills| {
      FillLayersGrow(fills[..|fills| - 1], pixelCount, i);
      assert fills[..|fills| - 1][..i] == fills[..i];
    } else {
      assert fills[..i] == fills;
    }
  }

  lemma {:induction false} StartLayerAt(timings: Timings, starts: TransientStarts, n: nat, k: nat)
    requires k < n <= |starts| && ValidStart(starts[k]) && timings[starts[k].id as int - 1].active
    ensures var w := |ActiveFills(timings, starts[..k])|;
            w < |ActiveFills(timings, starts[..n])| &&
            ActiveFills(timings, starts[..n])[w] == FillOfTiming(timings[starts[k].id as int - 1])
  {
    assert starts[..n][..n - 1] == starts[..n - 1];
    if k < n - 1 {
      StartLayerAt(timings, starts, n - 1, k);
    }
  }

  lemma {:induction false} StartOfLayer(timings: Timings, starts: TransientStarts, n: nat, w: nat) returns (k: nat)
    requires n <= |starts| && w < |ActiveFills(timings, starts[..n])|
    ensures k < n && ValidStart(starts[k]) && timings[starts[k].id as int - 1].active
    ensures |ActiveFills(timings, starts[..k])| == w
  {
    assert starts[..n][..n - 1] == starts[..n - 1];
    if w < |ActiveFills(timings, starts[..n - 1])| {
      k := StartOfLayer(timings, starts, n - 1, w);
    } else {
      k := n - 1;
    }
  }

  lemma {:induction false} ActiveFillsGrow(timings: Timings, starts: TransientStarts, k: nat, n: nat)
    requires k <= n <= |starts|
    ensures |ActiveFills(timings, starts[..k])| <= |ActiveFills(timings, starts[..n])|
  {
    if k < n {
      assert starts[..n][..n - 1] == starts[..n - 1];
      ActiveFillsGrow(timings, starts, k, n - 1);
    }
  }

  lemma FillIsAtIndex(command: LightingCommand, timings: Timings, pixelCount: ActiveLength, i: nat)
    requires IsOn(command, timings, pixelCount, Fill(i))
    ensures var lit, w := FillLayers(command.fills, pixelCount), IndexOf(command, timings, pixelCount, Fill(i));
            w < |lit| && lit[w] == LayerOfFill(command.fills[i])
  {
    LitFill(command.fills[i], pixelCount);
    FillLayerAt(command.fills, pixelCount, i);
  }

  lemma StartIsAtIndex(command: LightingCommand, timings: Timings, pixelCount: ActiveLength, k: nat)
    requires IsOn(command, timings, pixelCount, Start(k))
    ensures var running := TransientLayerList(ActiveFills(timings, command.transients));
            var w := |ActiveFills(timings, command.transients[..k])|;
            w < |running| && running[w] == LayerOfFill(FillOfTiming(TimingOf(command, timings, k)))
  {
    assert command.transients[..|command.transients|] == command.transients;
    StartLayerAt(timings, command.transients, |command.transients|, k);
  }

  lemma MiddleSize(command: LightingCommand, pixelCount: ActiveLength)
    ensures |TurnAndBrakeLayers(command, pixelCount)| ==
            Count(command.brake) + Count(command.leftTurn) + Count(command.rightTurn)
  {
  }

  lemma LayerIsAtIndex(command: LightingCommand, timings: Timings, pixelCount: ActiveLength, e: Effect)
    requires IsOn(command, timings, pixelCount, e)
    ensures var layers, w := LayersOf(command, timings, pixelCount), IndexOf(command, timings, pixelCount, e);
            w < |layers| && layers[w] == LayerFor(command, timings, pixelCount, e)
  {
    MiddleSize(command, pixelCount);
    match e {
      case Fill(i) => FillIsAtIndex(command, timings, pixelCount, i);
      case Start(k) => StartIsAtIndex(command, timings, pixelCount, k);
      case _ =>
    }
  }

  lemma EffectIsAtIndex(command: LightingCommand, timings: Timings, pixelCount: ActiveLength, w: nat) returns (e: Effect)
    requires w < |LayersOf(command, timings, pixelCount)|
    ensures IsOn(command, timings, pixelCount, e) && IndexOf(command, timings, pixelCount, e) == w
  {
    var lit := |FillLayers(command.fills, pixelCount)|;
    var middle := |TurnAndBrakeLayers(command, pixelCount)|;
    if w < lit {
      var i := FillOfLayer(command.fills, pixelCount, w);
      LitFill(command.fills[i], pixelCount);
      e := Fill(i);
    } else if w >= lit + middle {
      assert command.transients[..|command.transients|] == command.transients;
      var k := StartOfLayer(timings, command.transients, |command.transients|, w - lit - middle);
      e := Start(k);
    } else if w == lit && command.brake {
      e := Brake;
    } else if w == lit + Count(command.brake) && command.leftTurn {
      e := LeftTurn;
    } else {
      e := RightTurn;
    }
  }

  lemma IndexFollowsRank(command: LightingCommand, timings: Timings, pixelCount: ActiveLength, e: Effect, f: Effect)
    requires IsOn(command, timings, pixelCount, e) && IsOn(command, timings, pixelCount, f) && RankOf(f) <= RankOf(e)
    ensures IndexOf(command, timings, pixelCount, f) <= IndexOf(command, timings, pixelCount, e)
  {
    if f.Fill? {
      FillLayersGrow(command.fills, pixelCount, f.i);
      if e.Fill? {
        FillLayersGrow(command.fills[..e.i], pixelCount, f.i);
        assert command.fills[..e.i][..f.i] == command.fills[..f.i];
      }
    } else if f.Start? {
      ActiveFillsGrow(timings, command.transients, f.k, e.k);
    }
  }

  // ---------------------------------------------------------------- the laws

  /** No effect at the pixel outranks `e`. */
  ghost predicate IsTop(command: LightingCommand, timings: Timings, pixelCount: ActiveLength, e: Effect, p: int) {
    IsAt(command, timings, pixelCount, e, p) &&
    forall f :: IsAt(command, timings, pixelCount, f, p) ==> Yields(command, timings, pixelCount, f, e)
  }

  predicate Yields(command: LightingCommand, timings: Timings, pixelCount: ActiveLength, f: Effect, e: Effect) {
    IsOn(command, timings, pixelCount, e) && IsOn(command, timings, pixelCount, f) &&
    var low, high := PriorityOf(command, timings, pixelCount, f), PriorityOf(command, timings, pixelCount, e);
    low < high || (low == high && RankOf(f) <= RankOf(e))
  }

  /** Every pixel shows the topmost effect there: greatest priority, then greatest rank. */
  lemma TopEffectShows(command: LightingCommand, timings: Timings, d: Drawing, e: Effect, p: int)
    requires 0 <= p < 300 && IsTop(command, timings, d.pixelCount, e, p)
    ensures CommandFrame(command, timings, d)[p] == ColorAt(command, timings, d, e, p)
  {
    var layers, w := LayersOf(command, timings, d.pixelCount), IndexOf(command, timings, d.pixelCount, e);
    LayerIsAtIndex(command, timings, d.pixelCount, e);
    LayerSays(command, timings, d, e, p);
    forall j | 0 <= j < |layers| && Covers(layers[j], p)
      ensures layers[j].priority < layers[w].priority || (layers[j].priority == layers[w].priority && j <= w)
    {
      var f := EffectIsAtIndex(command, timings, d.pixelCount, j);
      LayerIsAtIndex(command, timings, d.pixelCount, f);
      LayerSays(command, timings, d, f, p);
      assert Yields(command, timings, d.pixelCount, f, e);
      if RankOf(f) <= RankOf(e) {
        IndexFollowsRank(command, timings, d.pixelCount, e, f);
      }
    }
    assert IsOwner(layers, p, w);
    CommandFrameShowsOwners(command, timings, d, CommandFrame(command, timings, d));
  }

  /** Where no effect is, the strip is black, or the limited generic colour when no turn, brake or fill is held. */
  lemma BackgroundShows(command: LightingCommand, timings: Timings, d: Drawing, p: int)
    requires 0 <= p < 300 && forall e :: !IsAt(command, timings, d.pixelCount, e, p)
    ensures CommandFrame(command, timings, d)[p] ==
            if !command.leftTurn && !command.rightTurn && !command.brake && command.fills == [] && p < d.pixelCount as int
            then Limited(command.color) else Rgb(0, 0, 0)
  {
    var layers := LayersOf(command, timings, d.pixelCount);
    forall j | 0 <= j < |layers|
      ensures !Covers(layers[j], p)
    {
      var f := EffectIsAtIndex(command, timings, d.pixelCount, j);
      LayerIsAtIndex(command, timings, d.pixelCount, f);
      LayerSays(command, timings, d, f, p);
    }
    assert Uncovered(layers, p);
    CommandFrameShowsOwners(command, timings, d, CommandFrame(command, timings, d));
  }

  // ---------------------------------------------------------------- the turn animations

  lemma DimParts(n: int)
    requires 1 <= n <= 5
    ensures 0.0 <= n as real / 5.0 <= 1.0
    ensures Dim(Rgb(128, 16, 0), n as real / 5.0) ==
            if n == 5 then Rgb(128, 16, 0) else if n == 4 then Rgb(102, 12, 0) else if n == 3 then Rgb(76, 9, 0)
            else if n == 2 then Rgb(51, 6, 0) else Rgb(25, 3, 0)
  {
  }

  /** The flow: every 33333 microseconds the head moves one of thirty-five pixels on, four dimmer ones behind it. */
  lemma FlowShows(elapsed: uint64, distance: int)
    ensures var behind := (elapsed as int / 33333) % 35 - distance;
            TurnPixel(RunningFlow, elapsed, distance) ==
            if behind == 0 then Rgb(128, 16, 0) else if behind == 1 then Rgb(102, 12, 0) else if behind == 2 then Rgb(76, 9, 0)
            else if behind == 3 then Rgb(51, 6, 0) else if behind == 4 then Rgb(25, 3, 0) else Rgb(0, 0, 0)
  {
    var behind := (elapsed as int / 33333) % 35 - distance;
    if 0 <= behind < 5 {
      DimParts(5 - behind);
    }
  }

  /** The bar: one more amber pixel every 33333 microseconds up to thirty-five, then one step of darkness. */
  lemma BarShows(elapsed: uint64, distance: int)
    ensures var step := (elapsed as int / 33333) % 36;
            TurnPixel(CenterOutFill, elapsed, distance) ==
            if step < 35 && distance <= step then Rgb(128, 16, 0) else Rgb(0, 0, 0)
  {
  }

  /** The flow moves outward: one step later, one pixel further, the same colour, until the head reaches the end. */
  lemma FlowMovesOutward(elapsed: uint64, later: uint64, distance: int)
    requires later as int == elapsed as int + 33333 && (elapsed as int / 33333) % 35 < 34
    ensures TurnPixel(RunningFlow, later, distance + 1) == TurnPixel(RunningFlow, elapsed, distance)
  {
    OneStepLater(elapsed as int, later as int);
    FlowShows(elapsed, distance);
    FlowShows(later, distance + 1);
  }

  lemma OneStepLater(elapsed: int, later: int)
    requires 0 <= elapsed && later == elapsed + 33333 && (elapsed / 33333) % 35 < 34
    ensures (later / 33333) % 35 == (elapsed / 33333) % 35 + 1
  {
    assert later / 33333 == elapsed / 33333 + 1;
  }
}
