/**
  Strip-local zone fills. The drawing methods work on the frame in place with
  machine integers; their specification `Filled` is pointwise and over the
  reals: each pixel of the zone shows the colour dimmed by its coverage.
 */
module LedZone {
  import opened Pixels

  datatype FillDirection = StartToEnd | EndToStart | CenterOut | Undeclared(code: uint8)

  datatype Zone = Zone(start: size, length: size, direction: FillDirection)

  datatype ZoneValidity = Valid | EmptyZone | OutOfRange | UnknownDirection

  /** A level in [0, 1] held as an exact ratio. */
  datatype Ratio = Ratio(numerator: uint32, denominator: uint32)

  type FillFraction = f: Ratio | f.numerator <= f.denominator && 0 < f.denominator
    witness Ratio(0, 1)

  const EMPTY: FillFraction := Ratio(0, 1)
  const FULL: FillFraction := Ratio(1, 1)

  /** Clamping construction: above one is full, a zero denominator is empty. */
  function FractionOf(numerator: uint32, denominator: uint32): (f: FillFraction)
    ensures denominator != 0 ==>
              Level(f) == Clamp01(numerator as real / denominator as real)
    ensures denominator == 0 ==> Level(f) == 0.0
  {
    if denominator == 0 then EMPTY
    else Ratio(if numerator > denominator then denominator else numerator, denominator)
  }

  /** The contract's comparison: 64-bit cross multiplication. */
  predicate SameFraction(left: FillFraction, right: FillFraction)
    ensures SameFraction(left, right) <==> Level(left) == Level(right)
  {
    ProductFits(left.numerator as int, right.denominator as int, 0xFFFF_FFFF, 0xFFFF_FFFF);
    ProductFits(right.numerator as int, left.denominator as int, 0xFFFF_FFFF, 0xFFFF_FFFF);
    CrossMultiplication(left.numerator as int, left.denominator as int,
                        right.numerator as int, right.denominator as int);
    left.numerator as uint64 * right.denominator as uint64 ==
    right.numerator as uint64 * left.denominator as uint64
  }

  // ---------------------------------------------------------------- the specification

  type Share = x: real | 0.0 <= x <= 1.0

  function Clamp01(x: real): Share {
    if x < 0.0 then 0.0 else if x > 1.0 then 1.0 else x
  }

  function Level(f: FillFraction): Share {
    RatioInUnit(f.numerator as int, f.denominator as int);
    (f.numerator as int) as real / (f.denominator as int) as real
  }

  /** The number of pixels to light, exactly. */
  function LitPixels(zone: Zone, f: FillFraction): (r: real)
    ensures 0.0 <= r <= zone.length as real
  {
    ScaledOrder(zone.length as real, 0.0, Level(f));
    ScaledOrder(zone.length as real, Level(f), 1.0);
    zone.length as real * Level(f)
  }

  predicate InZone(zone: Zone, p: int) {
    zone.start as int <= p < zone.start as int + zone.length as int
  }

  /** How much of pixel `p` is lit, from 0 (dark) to 1 (full colour). */
  function Coverage(zone: Zone, f: FillFraction, p: int): Share
    requires InZone(zone, p)
  {
    var lit := LitPixels(zone, f);
    var start, length := zone.start as int, zone.length as int;
    match zone.direction
    case StartToEnd => Clamp01(lit - (p - start) as real)
    case EndToStart => Clamp01(lit - (start + length - 1 - p) as real)
    case CenterOut =>
      var centre := start + length / 2;
      if length % 2 == 0 then
        Clamp01(lit / 2.0 - (if p >= centre then p - centre else centre - 1 - p) as real)
      else if p == centre then Clamp01(lit)
      else Clamp01((lit - 1.0) / 2.0 - ((if p > centre then p - centre else centre - p) - 1) as real)
    case Undeclared(_) => 0.0
  }

  function DimChannel(channel: uint8, coverage: Share): (r: uint8)
    ensures r <= channel
    ensures coverage == 1.0 ==> r == channel
  {
    DimInRange(channel as int, coverage);
    ((channel as int) as real * coverage).Floor as uint8
  }

  /** The colour at partial brightness, each channel rounded down. */
  function Dim(color: Rgb, coverage: Share): (r: Rgb)
    ensures coverage == 1.0 ==> r == color
  {
    Rgb(DimChannel(color.red, coverage), DimChannel(color.green, coverage),
        DimChannel(color.blue, coverage))
  }

  /** What a pixel shows: full coverage overwrites, a pixel that dims to black is left alone. */
  function Paint(base: Rgb, color: Rgb, coverage: Share): Rgb {
    if coverage == 1.0 then color
    else if Dim(color, coverage) == BLACK then base
    else Dim(color, coverage)
  }

  function FilledPixel(base: Rgb, zone: Zone, f: FillFraction, color: Rgb, p: int): Rgb {
    if InZone(zone, p) then Paint(base, color, Coverage(zone, f, p)) else base
  }

  function Filled(frame: Frame, zone: Zone, f: FillFraction, color: Rgb): (r: Frame) {
    seq(300, p requires 0 <= p < 300 => FilledPixel(frame[p], zone, f, color, p))
  }

  // ---------------------------------------------------------------- validation

  predicate IsKnownDirection(direction: FillDirection) {
    !direction.Undeclared?
  }

  /** The range test is a subtraction, so a huge length cannot wrap `start + length`. */
  function ValidateZone(zone: Zone, pixelCount: size := MAX_LED_COUNT): (r: ZoneValidity)
    ensures r == Valid <==>
            && !zone.direction.Undeclared?
            && 0 < zone.length
            && zone.start as int + zone.length as int <= pixelCount as int <= 300
    ensures r == EmptyZone <==> !zone.direction.Undeclared? && zone.length == 0
    ensures r == UnknownDirection <==> zone.direction.Undeclared?
  {
    if !IsKnownDirection(zone.direction) then UnknownDirection
    else if zone.length == 0 then EmptyZone
    else if pixelCount > MAX_LED_COUNT || zone.start >= pixelCount ||
            zone.length > pixelCount - zone.start then OutOfRange
    else Valid
  }

  // ---------------------------------------------------------------- drawing

  datatype Step = Forward | Backward

  datatype Run = Run(origin: size, step: Step, capacity: size, amount: uint64, unit: uint64)

  /** The fill-order index of pixel `p` in a run. */
  function OffsetIn(origin: int, step: Step, p: int): int {
    if step == Forward then p - origin else origin - p
  }

  predicate RunFits(run: Run) {
    && (run.step == Forward ==> run.origin as int + run.capacity as int <= 300)
    && (run.step == Backward ==> run.capacity as int <= run.origin as int + 1 <= 300)
  }

  function RunPixel(base: Rgb, run: Run, color: Rgb, p: int): Rgb
    requires 0 < run.unit
  {
    var k := OffsetIn(run.origin as int, run.step, p);
    if 0 <= k < run.capacity as int then
      Paint(base, color, Clamp01(run.amount as real / run.unit as real - k as real))
    else base
  }

  function ScaleChannel(channel: uint8, numerator: uint64, denominator: uint64): (r: uint8)
    requires numerator <= denominator < 0x2_0000_0000 && 0 < denominator
    ensures 0.0 <= numerator as real / denominator as real <= 1.0
    ensures r == DimChannel(channel, numerator as real / denominator as real)
  {
    RatioInUnit(numerator as int, denominator as int);
    ProductFits(channel as int, numerator as int, 0xFF, 0x1_FFFF_FFFF);
    DimIsIntegerDivision(channel as int, numerator as int, denominator as int);
    assert numerator as real / denominator as real ==
           (numerator as int) as real / (denominator as int) as real;
    (channel as uint64 * numerator / denominator) as uint8
  }

  function Scale(color: Rgb, numerator: uint64, denominator: uint64): (r: Rgb)
    requires numerator <= denominator < 0x2_0000_0000 && 0 < denominator
    ensures 0.0 <= numerator as real / denominator as real <= 1.0
    ensures r == Dim(color, numerator as real / denominator as real)
  {
    Rgb(ScaleChannel(color.red, numerator, denominator),
        ScaleChannel(color.green, numerator, denominator),
        ScaleChannel(color.blue, numerator, denominator))
  }

  method WritePixel(frame: array<Rgb>, index: size, color: Rgb)
    requires index as int < frame.Length
    modifies frame
    ensures frame[..] == old(frame[..])[index as int := if color != BLACK then color else old(frame[index])]
  {
    if color != BLACK {
      frame[index] := color;
    }
  }

  method LightRun(frame: array<Rgb>, run: Run, color: Rgb)
    requires frame.Length == 300 && RunFits(run)
    requires 0 < run.unit < 0x2_0000_0000
    modifies frame
    ensures forall p :: 0 <= p < 300 ==> frame[p] == RunPixel(old(frame[p]), run, color, p)
  {
    var wholePixels := run.amount / run.unit;
    var lit := if wholePixels < run.capacity as uint64 then wholePixels as size else run.capacity;
    var offset: size := 0;
    while offset < lit
      invariant offset <= lit
      invariant forall p :: 0 <= p < 300 ==>
                  frame[p] == if 0 <= OffsetIn(run.origin as int, run.step, p) < offset as int
                              then color else old(frame[p])
    {
      var at := if run.step == Forward then run.origin + offset else run.origin - offset;
      frame[at] := color;
      offset := offset + 1;
    }
    var remainder := run.amount % run.unit;
    ghost var mid := frame[..];
    if remainder != 0 && lit < run.capacity {
      var at := if run.step == Forward then run.origin + lit else run.origin - lit;
      var partial := Scale(color, remainder, run.unit);
      WritePixel(frame, at, partial);
    }
    forall p | 0 <= p < 300
      ensures frame[p] == RunPixel(old(frame[p]), run, color, p)
    {
      var k := OffsetIn(run.origin as int, run.step, p);
      assert mid[p] == if 0 <= k < lit as int then color else old(frame[p]);
      if 0 <= k < run.capacity as int {
        CoverageOfOffset(run.amount as int, run.unit as int, k);
        DimToNothing(color);
      }
    }
  }

  method LightCenterOut(frame: array<Rgb>, zone: Zone, litAmount: uint64, unit: uint64, color: Rgb)
    requires frame.Length == 300 && 0 < zone.length && zone.start as int + zone.length as int <= 300
    requires 0 < unit < 0x1_0000_0000
    modifies frame
    ensures forall p :: 0 <= p < 300 ==>
              frame[p] == CenterOutPixel(old(frame[p]), zone, litAmount as real / unit as real, color, p)
  {
    var half := zone.length / 2;
    var centre := zone.start + half;
    var sideAmount := litAmount;
    var rightOrigin := centre;
    if zone.length % 2 != 0 {
      if litAmount >= unit {
        frame[centre] := color;
      } else if litAmount != 0 {
        var partial := Scale(color, litAmount, unit);
        WritePixel(frame, centre, partial);
      }
      sideAmount := if litAmount > unit then litAmount - unit else 0;
      rightOrigin := centre + 1;
    }
    ghost var mid := frame[..];
    if zone.length % 2 != 0 {
      CoverageOfOffset(litAmount as int, unit as int, 0);
      DimToNothing(color);
    }
    assert forall p :: 0 <= p < 300 ==>
        mid[p] == if zone.length % 2 != 0 && p == centre as int
                  then Paint(old(frame[p]), color, Clamp01(litAmount as real / unit as real))
                  else old(frame[p]);
    SideAmount(litAmount as int, unit as int, sideAmount as int, zone.length % 2 != 0);
    DimToNothing(color);
    if half == 0 || sideAmount == 0 {
      return;
    }
    var sideUnit := 2 * unit;
    var left := Run(centre - 1, Backward, half, sideAmount, sideUnit);
    var right := Run(rightOrigin, Forward, half, sideAmount, sideUnit);
    LightRun(frame, left, color);
    LightRun(frame, right, color);
  }

  /** `CenterOut` written over the exact number of lit pixels. */
  function CenterOutPixel(base: Rgb, zone: Zone, lit: real, color: Rgb, p: int): Rgb {
    if !InZone(zone, p) then base
    else
      var centre := zone.start as int + zone.length as int / 2;
      if zone.length % 2 == 0 then
        Paint(base, color, Clamp01(lit / 2.0 - (if p >= centre then p - centre else centre - 1 - p) as real))
      else if p == centre then Paint(base, color, Clamp01(lit))
      else
        Paint(base, color,
              Clamp01((lit - 1.0) / 2.0 - ((if p > centre then p - centre else centre - p) - 1) as real))
  }

  /** Lights `fraction` of `zone` in `color`; an invalid zone writes nothing. */
  method FillZone(frame: array<Rgb>, zone: Zone, fraction: FillFraction, color: Rgb)
    returns (validity: ZoneValidity)
    requires frame.Length == 300
    modifies frame
    ensures validity == ValidateZone(zone)
    ensures validity != Valid ==> frame[..] == old(frame[..])
    ensures validity == Valid ==> frame[..] == Filled(old(frame[..]), zone, fraction, color)
  {
    validity := ValidateZone(zone);
    if validity != Valid {
      return;
    }
    ProductFits(zone.length as int, fraction.numerator as int, 300, 0xFFFF_FFFF);
    var litAmount := zone.length as uint64 * fraction.numerator as uint64;
    var unit := fraction.denominator as uint64;
    LitPixelsExact(zone, fraction);
    match zone.direction {
      case StartToEnd =>
        LightRun(frame, Run(zone.start, Forward, zone.length, litAmount, unit), color);
      case EndToStart =>
        LightRun(frame, Run(zone.start + zone.length - 1, Backward, zone.length, litAmount, unit), color);
      case CenterOut =>
        LightCenterOut(frame, zone, litAmount, unit, color);
    }
  }

  // ---------------------------------------------------------------- exact arithmetic

  lemma CrossMultiplication(a: int, b: int, c: int, d: int)
    requires 0 < b && 0 < d
    ensures a * d == c * b <==> a as real / b as real == c as real / d as real
  {
    var x, y := a as real / b as real, c as real / d as real;
    assert a as real == x * b as real && c as real == y * d as real;
    assert (a * d) as real == x * (b as real * d as real);
    assert (c * b) as real == y * (b as real * d as real);
    assert b as real * d as real > 0.0;
  }

  lemma ScaledOrder(factor: real, low: real, high: real)
    requires 0.0 <= factor && low <= high
    ensures factor * low <= factor * high
  {
  }

  lemma DimInRange(channel: int, coverage: Share)
    requires 0 <= channel < 256
    ensures 0 <= (channel as real * coverage).Floor <= channel
    ensures coverage == 1.0 ==> (channel as real * coverage).Floor == channel
  {
    assert 0.0 <= channel as real * coverage <= channel as real * 1.0;
  }

  lemma RatioInUnit(numerator: int, denominator: int)
    requires 0 <= numerator <= denominator && 0 < denominator
    ensures 0.0 <= numerator as real / denominator as real <= 1.0
  {
  }

  lemma ProductFits(x: int, y: int, a: int, b: int)
    requires 0 <= x <= a && 0 <= y <= b
    ensures 0 <= x * y <= a * b
  {
    assert x * y <= a * y <= a * b;
  }

  /** Flooring the real product is the integer scaling the source performs. */
  lemma DimIsIntegerDivision(channel: int, numerator: int, denominator: int)
    requires 0 <= channel < 256 && 0 <= numerator <= denominator && 0 < denominator
    ensures 0 <= channel * numerator / denominator <= channel
    ensures (channel as real * (numerator as real / denominator as real)).Floor ==
            channel * numerator / denominator
  {
    var product := channel * numerator;
    var quotient, rest := product / denominator, product % denominator;
    assert product == quotient * denominator + rest;
    var ratio := numerator as real / denominator as real;
    var exact := channel as real * ratio;
    assert ratio * denominator as real == numerator as real;
    assert exact * denominator as real == channel as real * (ratio * denominator as real);
    assert product as real == quotient as real * denominator as real + rest as real;
    FloorOfQuotient(exact, quotient, rest as real, denominator as real);
    RatioInUnit(numerator, denominator);
    DimInRange(channel, ratio);
  }

  lemma FloorOfQuotient(exact: real, quotient: int, rest: real, unit: real)
    requires 0.0 <= rest < unit && exact * unit == quotient as real * unit + rest
    ensures exact.Floor == quotient
  {
    var part := exact - quotient as real;
    assert part * unit == rest;
    PartOfUnit(part, rest, unit);
  }

  lemma PartOfUnit(part: real, rest: real, unit: real)
    requires 0.0 <= rest < unit && part * unit == rest
    ensures 0.0 <= part < 1.0
  {
    SignOfProduct(part, unit);
    SignOfProduct(1.0 - part, unit);
    assert (1.0 - part) * unit == unit - rest;
  }

  lemma SignOfProduct(x: real, unit: real)
    requires 0.0 < unit
    ensures x * unit > 0.0 <==> x > 0.0
    ensures x * unit < 0.0 <==> x < 0.0
  {
  }

  /** The whole part, the remainder and the unlit rest of a run, in terms of coverage. */
  lemma CoverageOfOffset(amount: int, unit: int, k: int)
    requires 0 <= amount && 0 < unit && 0 <= k
    ensures k < amount / unit ==> Clamp01(amount as real / unit as real - k as real) == 1.0
    ensures k > amount / unit ==> Clamp01(amount as real / unit as real - k as real) == 0.0
    ensures k == amount / unit ==>
              && 0.0 <= (amount % unit) as real / unit as real < 1.0
              && Clamp01(amount as real / unit as real - k as real) == (amount % unit) as real / unit as real
    ensures amount < unit ==> amount / unit == 0 && amount % unit == amount
    ensures unit <= amount ==> 1 <= amount / unit
  {
    var whole, rest := amount / unit, amount % unit;
    assert amount == whole * unit + rest;
    assert amount as real == whole as real * unit as real + rest as real;
    assert amount as real / unit as real == whole as real + rest as real / unit as real;
    assert 0.0 <= rest as real / unit as real < 1.0;
  }

  lemma DimToNothing(color: Rgb)
    ensures Dim(color, 0.0) == BLACK
  {
  }

  lemma SideAmount(lit: int, unit: int, side: int, odd: bool)
    requires 0 <= lit && 0 < unit
    requires side == if odd then (if lit > unit then lit - unit else 0) else lit
    ensures var pixels := lit as real / unit as real;
            var share := if odd then (pixels - 1.0) / 2.0 else pixels / 2.0;
            && (side == 0 ==> share <= 0.0)
            && (side != 0 ==> share == side as real / (2 * unit) as real)
  {
    var pixels := lit as real / unit as real;
    assert lit as real == pixels * unit as real;
    if odd && lit > unit {
      assert (lit - unit) as real == (pixels - 1.0) * unit as real;
      HalfShare(pixels - 1.0, unit, lit - unit);
    } else if odd {
      assert pixels <= 1.0;
    } else {
      HalfShare(pixels, unit, lit);
    }
  }

  lemma HalfShare(share: real, unit: int, amount: int)
    requires 0 < unit && amount as real == share * unit as real
    ensures share / 2.0 == amount as real / (2 * unit) as real
  {
    assert (2 * unit) as real == 2.0 * unit as real;
    assert amount as real == (share / 2.0) * (2.0 * unit as real);
  }

  lemma LitPixelsExact(zone: Zone, f: FillFraction)
    ensures LitPixels(zone, f) ==
            (zone.length as int * f.numerator as int) as real / (f.denominator as int) as real
  {
    var length, numerator, denominator := zone.length as real, f.numerator as real, f.denominator as real;
    assert length * (numerator / denominator) == (length * numerator) / denominator;
  }
}
