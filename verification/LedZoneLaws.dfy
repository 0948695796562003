/** Laws of a zone fill: exactness, monotonicity, symmetry and locality. */
module LedZoneLaws {
  import opened Pixels
  import opened LedZone

  // ---------------------------------------------------------------- conservation of light

  /** The total coverage of the first `n` pixels of the zone. */
  function TotalCoverage(zone: Zone, f: FillFraction, n: nat): real
    requires n <= zone.length as int
  {
    if n == 0 then 0.0
    else TotalCoverage(zone, f, n - 1) + Coverage(zone, f, zone.start as int + n - 1)
  }

  /** The light in the first `n` pixels of a run that receives `amount` pixels. */
  function RunLight(amount: real, n: nat): real {
    if n == 0 then 0.0 else RunLight(amount, n - 1) + Clamp01(amount - (n - 1) as real)
  }

  lemma {:induction false} RunLightIsClamped(amount: real, n: nat)
    ensures RunLight(amount, n) ==
            if amount <= 0.0 then 0.0 else if amount >= n as real then n as real else amount
  {
    if n > 0 {
      RunLightIsClamped(amount, n - 1);
    }
  }

  /** The pixels of each side of a `CenterOut` zone, before and after its middle. */
  function SideLight(zone: Zone, f: FillFraction): real {
    if zone.length % 2 == 0 then LitPixels(zone, f) / 2.0 else (LitPixels(zone, f) - 1.0) / 2.0
  }

  function PartialLight(zone: Zone, f: FillFraction, n: nat): real
    requires n <= zone.length as int
  {
    var length, half, lit := zone.length as int, zone.length as int / 2, LitPixels(zone, f);
    match zone.direction
    case StartToEnd => RunLight(lit, n)
    case EndToStart => RunLight(lit, length) - RunLight(lit, length - n)
    case CenterOut =>
      var side := SideLight(zone, f);
      if n <= half then RunLight(side, half) - RunLight(side, half - n)
      else if length % 2 == 0 then RunLight(side, half) + RunLight(side, n - half)
      else RunLight(side, half) + Clamp01(lit) + RunLight(side, n - half - 1)
    case Undeclared(_) => 0.0
  }

  lemma {:induction false} TotalIsPartialLight(zone: Zone, f: FillFraction, n: nat)
    requires n <= zone.length as int
    ensures TotalCoverage(zone, f, n) == PartialLight(zone, f, n)
  {
    if n > 0 {
      TotalIsPartialLight(zone, f, n - 1);
    }
  }

  /** A valid zone holds exactly length times fraction pixels of light, in every direction. */
  lemma LightIsConserved(zone: Zone, f: FillFraction)
    requires ValidateZone(zone) == Valid
    ensures TotalCoverage(zone, f, zone.length as int) == LitPixels(zone, f)
  {
    var length, lit := zone.length as int, LitPixels(zone, f);
    TotalIsPartialLight(zone, f, length);
    RunLightIsClamped(lit, length);
    RunLightIsClamped(SideLight(zone, f), length / 2);
  }

  // ---------------------------------------------------------------- monotonicity

  lemma DimIsMonotone(color: Rgb, low: Share, high: Share)
    requires low <= high
    ensures Dimmer(Dim(color, low), Dim(color, high))
  {
    DimChannelIsMonotone(color.red, low, high);
    DimChannelIsMonotone(color.green, low, high);
    DimChannelIsMonotone(color.blue, low, high);
  }

  lemma DimChannelIsMonotone(channel: uint8, low: Share, high: Share)
    requires low <= high
    ensures DimChannel(channel, low) <= DimChannel(channel, high)
  {
    DimInRange(channel as int, low);
    DimInRange(channel as int, high);
    FloorOrder(channel as int, low, high);
  }

  lemma FloorOrder(channel: int, low: real, high: real)
    requires 0 <= channel && low <= high
    ensures (channel as real * low).Floor <= (channel as real * high).Floor
  {
    ScaledOrder(channel as real, low, high);
  }

  lemma ProductOrder(factor: real, low: real, high: real, x: real, y: real)
    requires 0.0 <= factor && low <= high && x == factor * low && y == factor * high
    ensures x <= y
  {
    ScaledOrder(factor, low, high);
  }

  lemma LitPixelsAreMonotone(zone: Zone, f: FillFraction, g: FillFraction)
    requires Level(f) <= Level(g)
    ensures LitPixels(zone, f) <= LitPixels(zone, g)
  {
    ProductOrder(zone.length as real, Level(f), Level(g), LitPixels(zone, f), LitPixels(zone, g));
  }

  lemma CoverageIsMonotone(zone: Zone, f: FillFraction, g: FillFraction, p: int)
    requires InZone(zone, p) && Level(f) <= Level(g)
    ensures Coverage(zone, f, p) <= Coverage(zone, g, p)
  {
    LitPixelsAreMonotone(zone, f, g);
  }

  /** On a cleared frame a pixel shows exactly its colour dimmed by its coverage. */
  lemma FilledOnBlack(zone: Zone, f: FillFraction, color: Rgb, p: int)
    requires 0 <= p < 300
    ensures Filled(BLACK_FRAME, zone, f, color)[p] ==
            if InZone(zone, p) then Dim(color, Coverage(zone, f, p)) else BLACK
  {
  }

  /** No pixel dims as the level grows, whatever the two denominators are. */
  lemma FillIsMonotone(zone: Zone, f: FillFraction, g: FillFraction, color: Rgb, p: int)
    requires 0 <= p < 300 && Level(f) <= Level(g)
    ensures Dimmer(Filled(BLACK_FRAME, zone, f, color)[p], Filled(BLACK_FRAME, zone, g, color)[p])
  {
    FilledOnBlack(zone, f, color, p);
    FilledOnBlack(zone, g, color, p);
    if InZone(zone, p) {
      CoverageIsMonotone(zone, f, g, p);
      DimIsMonotone(color, Coverage(zone, f, p), Coverage(zone, g, p));
    }
  }

  /** Fractions that compare equal, such as 1/2 and 2/4, draw the same frame on any base. */
  lemma EqualFractionsFillAlike(frame: Frame, zone: Zone, f: FillFraction, g: FillFraction, color: Rgb)
    requires SameFraction(f, g)
    ensures Filled(frame, zone, f, color) == Filled(frame, zone, g, color)
  {
    assert LitPixels(zone, f) == LitPixels(zone, g);
    assert forall p :: InZone(zone, p) ==> Coverage(zone, f, p) == Coverage(zone, g, p);
  }

  // ---------------------------------------------------------------- symmetry and locality

  /** The pixel at the same distance from the other end of the zone. */
  function Mirrored(zone: Zone, p: int): int {
    2 * zone.start as int + zone.length as int - 1 - p
  }

  lemma MirroredCoverage(zone: Zone, f: FillFraction, p: int)
    requires InZone(zone, p) && zone.direction == CenterOut
    ensures InZone(zone, Mirrored(zone, p))
    ensures Coverage(zone, f, Mirrored(zone, p)) == Coverage(zone, f, p)
  {
    var centre := zone.start as int + zone.length as int / 2;
    if zone.length % 2 == 0 {
      assert Mirrored(zone, p) == 2 * centre - 1 - p;
    } else {
      assert Mirrored(zone, p) == 2 * centre - p;
    }
  }

  lemma ReversedCoverage(zone: Zone, f: FillFraction, p: int)
    requires InZone(zone, p) && zone.direction == EndToStart
    ensures InZone(zone, Mirrored(zone, p))
    ensures Coverage(zone, f, p) == Coverage(zone.(direction := StartToEnd), f, Mirrored(zone, p))
  {
    assert LitPixels(zone, f) == LitPixels(zone.(direction := StartToEnd), f);
  }

  /** A centred fill of a cleared frame shows the same on both sides, for odd and even lengths. */
  lemma CenterOutIsSymmetric(zone: Zone, f: FillFraction, color: Rgb, p: int)
    requires ValidateZone(zone) == Valid && InZone(zone, p) && zone.direction == CenterOut
    ensures var frame := Filled(BLACK_FRAME, zone, f, color); frame[Mirrored(zone, p)] == frame[p]
  {
    MirroredCoverage(zone, f, p);
    FilledOnBlack(zone, f, color, p);
    FilledOnBlack(zone, f, color, Mirrored(zone, p));
  }

  /** Filling a cleared frame from the end draws the reversal of filling it from the start. */
  lemma EndToStartReverses(zone: Zone, f: FillFraction, color: Rgb, p: int)
    requires ValidateZone(zone) == Valid && InZone(zone, p) && zone.direction == EndToStart
    ensures Filled(BLACK_FRAME, zone, f, color)[p] ==
            Filled(BLACK_FRAME, zone.(direction := StartToEnd), f, color)[Mirrored(zone, p)]
  {
    var forward := zone.(direction := StartToEnd);
    ReversedCoverage(zone, f, p);
    FilledOnBlack(zone, f, color, p);
    assert InZone(forward, Mirrored(zone, p));
    FilledOnBlack(forward, f, color, Mirrored(zone, p));
  }

  /** A full fill lights the whole zone at full colour and an empty one changes nothing. */
  lemma FullAndEmptyFills(frame: Frame, zone: Zone, color: Rgb)
    requires ValidateZone(zone) == Valid
    ensures Filled(frame, zone, EMPTY, color) == frame
    ensures forall p :: 0 <= p < 300 && InZone(zone, p) ==> Filled(frame, zone, FULL, color)[p] == color
  {
    assert LitPixels(zone, EMPTY) == 0.0;
    assert LitPixels(zone, FULL) == zone.length as real;
    DimToNothing(color);
    forall p | 0 <= p < 300 && InZone(zone, p)
      ensures Coverage(zone, FULL, p) == 1.0 && Coverage(zone, EMPTY, p) == 0.0
    {
    }
  }
}
