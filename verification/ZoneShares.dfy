/** A zone fill in integers: which pixels are lit in full, which one in part, and from which end. */
module ZoneShares {
  import opened Pixels
  import opened LedZone

  /** The level's numerator for the whole zone: it is worth one pixel for each denominator in it. */
  function Amount(zone: Zone, f: FillFraction): int {
    zone.length as int * f.numerator as int
  }

  /** Twice the distance of a pixel from the middle of its zone. */
  function FromMiddle(zone: Zone, p: int): nat {
    var twice := 2 * p - (2 * zone.start as int + zone.length as int - 1);
    if twice < 0 then 0 - twice else twice
  }

  /** How many pixels of the zone take their light before `p` does, its partner in a pair apart. */
  function Before(zone: Zone, p: int): int {
    match zone.direction
    case StartToEnd => p - zone.start as int
    case EndToStart => zone.length as int - 1 - (p - zone.start as int)
    case CenterOut => if FromMiddle(zone, p) == 0 then 0 else FromMiddle(zone, p) - 1
    case Undeclared(_) => 0
  }

  predicate IsPaired(zone: Zone, p: int) {
    zone.direction == CenterOut && FromMiddle(zone, p) != 0
  }

  /** What is left for pixel `p` once the pixels before it are full, and how much it takes to fill it. */
  function Left(zone: Zone, f: FillFraction, p: int): int {
    Amount(zone, f) - Before(zone, p) * f.denominator as int
  }

  function Unit(zone: Zone, f: FillFraction, p: int): int {
    if IsPaired(zone, p) then 2 * f.denominator as int else f.denominator as int
  }

  // ---------------------------------------------------------------- shares

  predicate IsShare(x: Share, a: int, k: int) {
    0 < k && (a >= k ==> x == 1.0) && (a <= 0 ==> x == 0.0) && (0 <= a <= k ==> x == Quotient(a, k))
  }

  function Quotient(a: int, k: int): real
    requires 0 < k
  {
    a as real / k as real
  }

  lemma ClampIsShare(v: real, a: int, k: int)
    requires 0 < k && v * k as real == a as real
    ensures IsShare(Clamp01(v), a, k)
  {
    assert v == a as real / k as real;
    SignOfProduct(v, k as real);
    SignOfProduct(1.0 - v, k as real);
    assert (1.0 - v) * k as real == (k - a) as real;
  }

  lemma Less(lit: real, n: int, i: int, m: int)
    requires lit * m as real == n as real
    ensures (lit - i as real) * m as real == (n - i * m) as real
  {
    assert (i * m) as real == i as real * m as real;
  }

  lemma Half(v: real, a: int, m: int)
    requires v * m as real == a as real
    ensures (v / 2.0) * (2 * m) as real == a as real
  {
    assert (2 * m) as real == 2.0 * m as real;
    assert (v / 2.0) * (2.0 * m as real) == v * m as real;
  }

  lemma LitPixelsTimesUnit(zone: Zone, f: FillFraction)
    ensures LitPixels(zone, f) * Denominator(f) as real == Amount(zone, f) as real
  {
    LitPixelsExact(zone, f);
  }

  lemma CoverageAfter(zone: Zone, f: FillFraction, p: int)
    requires !zone.direction.Undeclared? && InZone(zone, p)
    ensures var rest := LitPixels(zone, f) - Before(zone, p) as real;
            Coverage(zone, f, p) == Clamp01(if IsPaired(zone, p) then rest / 2.0 else rest)
  {
    if zone.direction == CenterOut {
      CentredCoverage(zone, f, p, FromMiddle(zone, p));
    }
  }

  lemma ShareOfLit(zone: Zone, f: FillFraction, p: int, x: Share, lit: real)
    requires lit * Denominator(f) as real == Amount(zone, f) as real
    requires x == Clamp01(if IsPaired(zone, p) then (lit - Before(zone, p) as real) / 2.0 else lit - Before(zone, p) as real)
    ensures IsShare(x, Left(zone, f, p), Unit(zone, f, p))
  {
    LeftAfter(zone, f, p);
    ShareAfter(x, lit, Amount(zone, f), Before(zone, p), Denominator(f), IsPaired(zone, p), Left(zone, f, p), Unit(zone, f, p));
  }

  /** The coverage of every pixel is its share. */
  lemma CoverageIsShare(zone: Zone, f: FillFraction, p: int)
    requires !zone.direction.Undeclared? && InZone(zone, p)
    ensures IsShare(Coverage(zone, f, p), Left(zone, f, p), Unit(zone, f, p))
  {
    CoverageAfter(zone, f, p);
    LitPixelsTimesUnit(zone, f);
    ShareOfLit(zone, f, p, Coverage(zone, f, p), LitPixels(zone, f));
  }

  function Denominator(f: FillFraction): (m: int)
    ensures 0 < m
  {
    f.denominator as int
  }

  lemma LeftAfter(zone: Zone, f: FillFraction, p: int)
    ensures Left(zone, f, p) == Amount(zone, f) - Before(zone, p) * Denominator(f)
    ensures Unit(zone, f, p) == if IsPaired(zone, p) then 2 * Denominator(f) else Denominator(f)
  {
  }

  lemma ShareAfter(x: Share, lit: real, n: int, before: int, m: int, paired: bool, left: int, unit: int)
    requires 0 < m && lit * m as real == n as real
    requires x == Clamp01(if paired then (lit - before as real) / 2.0 else lit - before as real)
    requires left == n - before * m && unit == if paired then 2 * m else m
    ensures IsShare(x, left, unit)
  {
    Less(lit, n, before, m);
    var rest := lit - before as real;
    if paired {
      Half(rest, left, m);
      ClampIsShare(rest / 2.0, left, unit);
    } else {
      ClampIsShare(rest, left, unit);
    }
  }

  /** The pixels nearer to the middle take the light first, and a pair shares the rest. */
  lemma CentredCoverage(zone: Zone, f: FillFraction, p: int, away: nat)
    requires zone.direction == CenterOut && InZone(zone, p) && FromMiddle(zone, p) == away
    ensures Coverage(zone, f, p) ==
            if away == 0 then Clamp01(LitPixels(zone, f)) else Clamp01((LitPixels(zone, f) - (away - 1) as real) / 2.0)
  {
    var centre := zone.start as int + zone.length as int / 2;
    if zone.length % 2 == 0 {
      var i := if p >= centre then p - centre else centre - 1 - p;
      assert away == 2 * i + 1;
    } else if p != centre {
      var i := (if p > centre then p - centre else centre - p) - 1;
      assert away == 2 * i + 2;
    }
  }

  // ---------------------------------------------------------------- the frame

  /** `a` of `k` parts of the colour, each channel rounded down. */
  function Part(color: Rgb, a: int, k: int): Rgb
    requires 0 <= a <= k && 0 < k
  {
    DimIsIntegerDivision(color.red as int, a, k);
    DimIsIntegerDivision(color.green as int, a, k);
    DimIsIntegerDivision(color.blue as int, a, k);
    Rgb((color.red as int * a / k) as uint8, (color.green as int * a / k) as uint8, (color.blue as int * a / k) as uint8)
  }

  lemma PartOfChannel(channel: uint8, a: int, k: int, share: Share)
    requires 0 <= a <= k && 0 < k && share == a as real / k as real
    ensures DimChannel(channel, share) as int == channel as int * a / k
  {
    DimIsIntegerDivision(channel as int, a, k);
  }

  lemma PartIsDim(color: Rgb, a: int, k: int, share: Share)
    requires 0 <= a <= k && 0 < k && share == a as real / k as real
    ensures Dim(color, share) == Part(color, a, k)
  {
    PartOfChannel(color.red, a, k, share);
    PartOfChannel(color.green, a, k, share);
    PartOfChannel(color.blue, a, k, share);
  }

  /**
    A fill lights the pixels it fully reaches in the whole colour, leaves the
    ones it does not reach, and shows the one it partly reaches in the part that
    is left, or leaves it when that part is black.
   */
  lemma FillShowsShares(frame: Frame, zone: Zone, f: FillFraction, color: Rgb, p: int)
    requires ValidateZone(zone) == Valid && 0 <= p < 300
    ensures var left, unit := Left(zone, f, p), Unit(zone, f, p);
            Filled(frame, zone, f, color)[p] ==
            if !(zone.start as int <= p < zone.start as int + zone.length as int) then frame[p]
            else if left >= unit then color
            else if left <= 0 || Part(color, left, unit) == Rgb(0, 0, 0) then frame[p]
            else Part(color, left, unit)
  {
    if InZone(zone, p) {
      var left, unit := Left(zone, f, p), Unit(zone, f, p);
      CoverageIsShare(zone, f, p);
      DimToNothing(color);
      if 0 < left < unit {
        PartIsDim(color, left, unit, Coverage(zone, f, p));
        assert left as real / unit as real < 1.0;
      }
    }
  }
}
