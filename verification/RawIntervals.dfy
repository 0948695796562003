/**
  The generator's exact inversion of physical bounds into raw intervals, the
  merging of invalid intervals and the choice of a conversion pivot. Fractions
  are reals here: every operation of the generator on them is exact.
 */
module RawIntervals {
  datatype Mechanics = Mechanics(length: nat, signed: bool, scale: real, offset: real, minimum: real, maximum: real)

  /** The numeric mechanics of a validated field: `scale` is not zero and the bounds are ordered. */
  type Field = f: Mechanics | 1 <= f.length <= 64 && f.scale != 0.0 && f.minimum <= f.maximum
    witness Mechanics(1, false, 1.0, 0.0, 0.0, 0.0)

  datatype Bounds = Bounds(minimum: real, maximum: real)

  /** An ordered range of physical values. */
  type Range = r: Bounds | r.minimum <= r.maximum
    witness Bounds(0.0, 0.0)

  datatype Interval = Interval(lower: int, upper: int)

  datatype Optional = NoInterval | Found(interval: Interval)

  function Pow2(n: nat): (r: nat)
    ensures 0 < r
  {
    if n == 0 then 1 else 2 * Pow2(n - 1)
  }

  function RawMinimum(field: Field): int {
    if field.signed then 0 - Pow2(field.length - 1) else 0
  }

  function RawMaximum(field: Field): int {
    if field.signed then Pow2(field.length - 1) - 1 else Pow2(field.length) - 1
  }

  predicate InLimits(field: Field, raw: int) {
    RawMinimum(field) <= raw <= RawMaximum(field)
  }

  function Physical(field: Field, raw: int): real {
    raw as real * field.scale + field.offset
  }

  // ---------------------------------------------------------------- inverting one range

  function Ceil(value: real): int {
    -((-value).Floor)
  }

  function Min(x: int, y: int): int { if y < x then y else x }
  function Max(x: int, y: int): int { if y > x then y else x }

  function RawInterval(field: Field, minimum: real, maximum: real): Optional {
    var first, second := (minimum - field.offset) / field.scale, (maximum - field.offset) / field.scale;
    var low, high := if second < first then second else first, if second > first then second else first;
    var lower := Max(Ceil(low), RawMinimum(field));
    var upper := Min(high.Floor, RawMaximum(field));
    if lower <= upper then Found(Interval(lower, upper)) else NoInterval
  }

  predicate Holds(found: Optional, raw: int) {
    found.Found? && found.interval.lower <= raw <= found.interval.upper
  }

  lemma CeilFloor(value: real, n: int)
    ensures Ceil(value) <= n <==> value <= n as real
    ensures n <= value.Floor <==> n as real <= value
  {
  }

  /** Dividing a bound by the scale keeps its side for a positive scale and swaps it for a negative one. */
  lemma BoundDividesThrough(field: Field, bound: real, raw: int)
    ensures field.scale > 0.0 ==> ((bound - field.offset) / field.scale <= raw as real <==> bound <= Physical(field, raw))
    ensures field.scale > 0.0 ==> (raw as real <= (bound - field.offset) / field.scale <==> Physical(field, raw) <= bound)
    ensures field.scale < 0.0 ==> ((bound - field.offset) / field.scale <= raw as real <==> Physical(field, raw) <= bound)
    ensures field.scale < 0.0 ==> (raw as real <= (bound - field.offset) / field.scale <==> bound <= Physical(field, raw))
  {
    var quotient := (bound - field.offset) / field.scale;
    assert bound == quotient * field.scale + field.offset;
    assert bound - Physical(field, raw) == (quotient - raw as real) * field.scale;
    ProductSign(quotient - raw as real, field.scale);
  }

  lemma ProductSign(x: real, y: real)
    ensures y > 0.0 ==> (x * y >= 0.0 <==> x >= 0.0) && (x * y <= 0.0 <==> x <= 0.0)
    ensures y < 0.0 ==> (x * y >= 0.0 <==> x <= 0.0) && (x * y <= 0.0 <==> x >= 0.0)
  {
  }

  /** A raw value lies in the inverted interval exactly when it fits the field and its physical value lies in the range. */
  lemma RawIntervalInverts(field: Field, range: Range, raw: int)
    ensures Holds(RawInterval(field, range.minimum, range.maximum), raw) <==>
            InLimits(field, raw) && range.minimum <= Physical(field, raw) <= range.maximum
  {
    var first, second := (range.minimum - field.offset) / field.scale, (range.maximum - field.offset) / field.scale;
    BoundDividesThrough(field, range.minimum, raw);
    BoundDividesThrough(field, range.maximum, raw);
    EndpointOrder(field, range);
    CeilFloor(first, raw);
    CeilFloor(second, raw);
  }

  lemma EndpointOrder(field: Field, range: Range)
    ensures var first, second := (range.minimum - field.offset) / field.scale, (range.maximum - field.offset) / field.scale;
            (field.scale > 0.0 ==> first <= second) && (field.scale < 0.0 ==> second <= first)
  {
    var first, second := (range.minimum - field.offset) / field.scale, (range.maximum - field.offset) / field.scale;
    assert (second - first) * field.scale == range.maximum - range.minimum;
    ProductSign(second - first, field.scale);
  }

  // ---------------------------------------------------------------- merging

  predicate Contains(interval: Interval, raw: int) {
    interval.lower <= raw <= interval.upper
  }

  predicate Covered(intervals: seq<Interval>, raw: int) {
    exists i :: 0 <= i < |intervals| && Contains(intervals[i], raw)
  }

  predicate Proper(intervals: seq<Interval>) {
    forall i :: 0 <= i < |intervals| ==> intervals[i].lower <= intervals[i].upper
  }

  /** Sorted, disjoint and not even touching: at least one raw value separates neighbours. */
  predicate Canonical(intervals: seq<Interval>) {
    Proper(intervals) && forall i, j :: 0 <= i < j < |intervals| ==> intervals[i].upper + 1 < intervals[j].lower
  }

  /** Tuple order: by lower end, then by upper end. */
  predicate Before(x: Interval, y: Interval) {
    x.lower < y.lower || (x.lower == y.lower && x.upper <= y.upper)
  }

  predicate Ordered(intervals: seq<Interval>) {
    forall i, j :: 0 <= i < j < |intervals| ==> Before(intervals[i], intervals[j])
  }

  function InsertSorted(sorted: seq<Interval>, x: Interval): seq<Interval> {
    if sorted == [] then [x]
    else if Before(x, sorted[0]) then [x] + sorted
    else [sorted[0]] + InsertSorted(sorted[1..], x)
  }

  function Sorted(intervals: seq<Interval>): seq<Interval> {
    if intervals == [] then [] else InsertSorted(Sorted(intervals[1..]), intervals[0])
  }

  lemma {:induction false} InsertSortedMembers(sorted: seq<Interval>, x: Interval)
    ensures multiset(InsertSorted(sorted, x)) == multiset(sorted) + multiset{x}
  {
    if sorted != [] && !Before(x, sorted[0]) {
      InsertSortedMembers(sorted[1..], x);
      assert sorted == [sorted[0]] + sorted[1..];
    }
  }

  predicate Follows(first: Interval, rest: seq<Interval>) {
    forall i :: 0 <= i < |rest| ==> Before(first, rest[i])
  }

  lemma {:induction false} InsertSortedOrders(sorted: seq<Interval>, x: Interval)
    requires Ordered(sorted)
    ensures Ordered(InsertSorted(sorted, x))
    ensures forall y :: Follows(y, sorted) && Before(y, x) ==> Follows(y, InsertSorted(sorted, x))
  {
    if sorted != [] && !Before(x, sorted[0]) {
      InsertSortedOrders(sorted[1..], x);
      assert Follows(sorted[0], sorted[1..]);
      assert Follows(sorted[0], InsertSorted(sorted[1..], x));
      forall y | Follows(y, sorted) && Before(y, x)
        ensures Follows(y, InsertSorted(sorted, x))
      {
        assert Follows(y, sorted[1..]);
      }
    }
  }

  lemma {:induction false} SortedIsOrdered(intervals: seq<Interval>)
    ensures Ordered(Sorted(intervals))
    ensures multiset(Sorted(intervals)) == multiset(intervals)
  {
    if intervals != [] {
      SortedIsOrdered(intervals[1..]);
      InsertSortedMembers(Sorted(intervals[1..]), intervals[0]);
      InsertSortedOrders(Sorted(intervals[1..]), intervals[0]);
      assert intervals == [intervals[0]] + intervals[1..];
    }
  }

  /** Reordering intervals changes no coverage. */
  lemma SameMembersCoverAlike(a: seq<Interval>, b: seq<Interval>, raw: int)
    requires multiset(a) == multiset(b)
    ensures Covered(a, raw) <==> Covered(b, raw)
  {
    forall x
      ensures x in a <==> x in b
    {
      assert x in multiset(a) <==> x in multiset(b);
    }
    if Covered(a, raw) {
      var i :| 0 <= i < |a| && Contains(a[i], raw);
      assert a[i] in b;
    }
    if Covered(b, raw) {
      var i :| 0 <= i < |b| && Contains(b[i], raw);
      assert b[i] in a;
    }
  }

  lemma SortedStaysProper(intervals: seq<Interval>)
    requires Proper(intervals)
    ensures Proper(Sorted(intervals))
  {
    var sorted := Sorted(intervals);
    SortedIsOrdered(intervals);
    forall i | 0 <= i < |sorted|
      ensures sorted[i].lower <= sorted[i].upper
    {
      assert sorted[i] in multiset(sorted);
      assert sorted[i] in intervals;
    }
  }

  ghost predicate CoversAlso(after: seq<Interval>, before: seq<Interval>, next: Interval) {
    forall raw :: Covered(after, raw) <==> Covered(before, raw) || Contains(next, raw)
  }

  lemma PrefixGrows(sorted: seq<Interval>, n: nat)
    requires n < |sorted|
    ensures CoversAlso(sorted[..n + 1], sorted[..n], sorted[n])
  {
    forall raw
      ensures Covered(sorted[..n + 1], raw) <==> Covered(sorted[..n], raw) || Contains(sorted[n], raw)
    {
      CoverageAfterAppend(sorted[..n], sorted[n], raw);
      assert sorted[..n + 1] == sorted[..n] + [sorted[n]];
    }
  }

  /** Merges overlapping and adjacent intervals without changing which raw values they cover. */
  method MergeIntervals(intervals: seq<Interval>) returns (merged: seq<Interval>)
    requires Proper(intervals)
    ensures Canonical(merged)
    ensures forall raw :: Covered(merged, raw) <==> Covered(intervals, raw)
  {
    var sorted := Sorted(intervals);
    SortedIsOrdered(intervals);
    SortedStaysProper(intervals);
    merged := [];
    var n := 0;
    while n < |sorted|
      invariant 0 <= n <= |sorted| && Canonical(merged)
      invariant forall raw :: Covered(merged, raw) <==> Covered(sorted[..n], raw)
      invariant merged != [] ==> n > 0 && merged[|merged| - 1].lower <= sorted[n - 1].lower
      invariant n > 0 ==> merged != []
    {
      var next := sorted[n];
      ghost var before := merged;
      assert n > 0 ==> Before(sorted[n - 1], next);
      var last := |merged| - 1;
      if merged != [] && next.lower <= merged[last].upper + 1 {
        merged := merged[last := merged[last].(upper := Max(merged[last].upper, next.upper))];
      } else {
        merged := merged + [next];
      }
      CoverageAfterMerge(before, merged, next);
      PrefixGrows(sorted, n);
      n := n + 1;
    }
    assert sorted[..n] == sorted;
    forall raw
      ensures Covered(sorted, raw) <==> Covered(intervals, raw)
    {
      SameMembersCoverAlike(sorted, intervals, raw);
    }
  }

  lemma CoverageAfterAppend(intervals: seq<Interval>, next: Interval, raw: int)
    ensures Covered(intervals + [next], raw) <==> Covered(intervals, raw) || Contains(next, raw)
  {
    var all := intervals + [next];
    if Covered(intervals, raw) {
      var i :| 0 <= i < |intervals| && Contains(intervals[i], raw);
      assert Contains(all[i], raw);
    }
    assert all[|intervals|] == next;
  }

  lemma CoverageAfterMerge(before: seq<Interval>, after: seq<Interval>, next: Interval)
    requires Merges(before, after, next)
    ensures CoversAlso(after, before, next)
  {
    forall raw
      ensures Covered(after, raw) <==> Covered(before, raw) || Contains(next, raw)
    {
      CoveredAfterMerge(before, after, next, raw);
    }
  }

  /** One pass: the next interval is appended, or widens the last one it overlaps or touches. */
  predicate Merges(before: seq<Interval>, after: seq<Interval>, next: Interval) {
    || after == before + [next]
    || (before != [] &&
        var last := |before| - 1;
        && before[last].lower <= next.lower <= before[last].upper + 1
        && after == before[last := before[last].(upper := Max(before[last].upper, next.upper))])
  }

  lemma CoveredAfterMerge(before: seq<Interval>, after: seq<Interval>, next: Interval, raw: int)
    requires Merges(before, after, next)
    ensures Covered(after, raw) <==> Covered(before, raw) || Contains(next, raw)
  {
    if after == before + [next] {
      CoverageAfterAppend(before, next, raw);
    } else {
      var last := |before| - 1;
      assert Contains(after[last], raw) <==> Contains(before[last], raw) || Contains(next, raw);
      if i :| 0 <= i < |before| && Contains(before[i], raw) {
        assert Contains(after[i], raw);
      }
      if i :| 0 <= i < |after| && Contains(after[i], raw) {
        assert i != last ==> Contains(before[i], raw);
      }
    }
  }

  /** The canonical form is unique: a set of raw values has one merged list, whatever ranges described it. */
  lemma {:induction false} CanonicalIsUnique(a: seq<Interval>, b: seq<Interval>)
    requires Canonical(a) && Canonical(b)
    requires forall raw :: Covered(a, raw) <==> Covered(b, raw)
    ensures a == b
  {
    if a == [] || b == [] {
      CoversItsFirst(a);
      CoversItsFirst(b);
    } else {
      FirstIsLeast(a, b);
      FirstIsLeast(b, a);
      FirstEndsAlike(a, b);
      FirstEndsAlike(b, a);
      forall raw
        ensures Covered(a[1..], raw) <==> Covered(b[1..], raw)
      {
        TailCoverage(a, raw);
        TailCoverage(b, raw);
      }
      CanonicalIsUnique(a[1..], b[1..]);
      assert a == [a[0]] + a[1..] && b == [b[0]] + b[1..];
    }
  }

  lemma CoversItsFirst(a: seq<Interval>)
    requires Canonical(a)
    ensures a != [] ==> Covered(a, a[0].lower)
  {
    assert a != [] ==> Contains(a[0], a[0].lower);
  }

  lemma FirstIsLeast(a: seq<Interval>, b: seq<Interval>)
    requires Canonical(a) && Canonical(b) && a != [] && b != []
    requires forall raw :: Covered(a, raw) <==> Covered(b, raw)
    ensures b[0].lower <= a[0].lower
  {
    assert Contains(a[0], a[0].lower) && Covered(b, a[0].lower);
    var i :| 0 <= i < |b| && Contains(b[i], a[0].lower);
    assert i > 0 ==> b[0].upper + 1 < b[i].lower;
  }

  lemma FirstStops(a: seq<Interval>)
    requires Canonical(a) && a != []
    ensures !Covered(a, a[0].upper + 1)
  {
    forall i | 0 <= i < |a|
      ensures !Contains(a[i], a[0].upper + 1)
    {
      assert i > 0 ==> a[0].upper + 1 < a[i].lower;
    }
  }

  lemma FirstEndsAlike(a: seq<Interval>, b: seq<Interval>)
    requires Canonical(a) && Canonical(b) && a != [] && b != [] && a[0].lower == b[0].lower
    requires forall raw :: Covered(a, raw) <==> Covered(b, raw)
    ensures a[0].upper <= b[0].upper
  {
    FirstStops(b);
    EndsBefore(a, b[0].upper + 1);
  }

  lemma EndsBefore(a: seq<Interval>, raw: int)
    requires a != [] && a[0].lower <= raw && !Covered(a, raw)
    ensures a[0].upper < raw
  {
    var inside := Contains(a[0], raw);
  }

  lemma TailCoverage(a: seq<Interval>, raw: int)
    requires Canonical(a) && a != []
    ensures Covered(a[1..], raw) <==> Covered(a, raw) && raw > a[0].upper
  {
    if Covered(a[1..], raw) {
      var i :| 0 <= i < |a[1..]| && Contains(a[1..][i], raw);
      assert Contains(a[i + 1], raw) && a[0].upper + 1 < a[i + 1].lower;
    }
    if Covered(a, raw) && raw > a[0].upper {
      var i :| 0 <= i < |a| && Contains(a[i], raw);
      assert Contains(a[1..][i - 1], raw);
    }
  }

  // ---------------------------------------------------------------- the generated ranges

  predicate InSomeRange(ranges: seq<Range>, value: real) {
    exists i :: 0 <= i < |ranges| && ranges[i].minimum <= value <= ranges[i].maximum
  }

  /** The raw values inside the declared bounds, or none when the field has no representable value there. */
  function PermittedInterval(field: Field): Optional {
    RawInterval(field, field.minimum, field.maximum)
  }

  /** The merged raw intervals of the invalid ranges, clipped to the permitted interval. */
  method InvalidIntervals(ranges: seq<Range>, field: Field, permitted: Interval) returns (merged: seq<Interval>)
    requires PermittedInterval(field) == Found(permitted)
    ensures Canonical(merged)
    ensures forall raw :: Covered(merged, raw) <==> Contains(permitted, raw) && InSomeRange(ranges, Physical(field, raw))
  {
    var intervals := [];
    var n := 0;
    while n < |ranges|
      invariant 0 <= n <= |ranges| && Proper(intervals)
      invariant forall raw :: Covered(intervals, raw) <==>
                  Contains(permitted, raw) && InSomeRange(ranges[..n], Physical(field, raw))
    {
      var range := ranges[n];
      var found := RawInterval(field, range.minimum, range.maximum);
      ghost var before := intervals;
      if found.Found? {
        var lower := Max(found.interval.lower, permitted.lower);
        var upper := Min(found.interval.upper, permitted.upper);
        if lower <= upper {
          intervals := intervals + [Interval(lower, upper)];
        }
      }
      forall raw
        ensures Covered(intervals, raw) <==>
                Contains(permitted, raw) && InSomeRange(ranges[..n + 1], Physical(field, raw))
      {
        ClippedRange(field, range, permitted, raw);
        RangesAfterAppend(ranges, n, Physical(field, raw));
        if intervals != before {
          CoverageAfterAppend(before, intervals[|before|], raw);
        }
      }
      n := n + 1;
    }
    assert ranges[..n] == ranges;
    merged := MergeIntervals(intervals);
  }

  lemma ClippedRange(field: Field, range: Range, permitted: Interval, raw: int)
    requires PermittedInterval(field) == Found(permitted)
    ensures Contains(permitted, raw) && Holds(RawInterval(field, range.minimum, range.maximum), raw) <==>
            Contains(permitted, raw) && range.minimum <= Physical(field, raw) <= range.maximum
  {
    RawIntervalInverts(field, range, raw);
    RawIntervalInverts(field, Bounds(field.minimum, field.maximum), raw);
  }

  lemma RangesAfterAppend(ranges: seq<Range>, n: nat, value: real)
    requires n < |ranges|
    ensures InSomeRange(ranges[..n + 1], value) <==>
            InSomeRange(ranges[..n], value) || ranges[n].minimum <= value <= ranges[n].maximum
  {
    var longer := ranges[..n + 1];
    assert longer[n] == ranges[n];
    if i :| 0 <= i < n && ranges[..n][i].minimum <= value <= ranges[..n][i].maximum {
      assert longer[i] == ranges[i];
    }
  }

  /** The raw values the generated decoder lets through. */
  predicate Accepted(permitted: Interval, invalid: seq<Interval>, raw: int) {
    Contains(permitted, raw) && !Covered(invalid, raw)
  }

  /** Raw acceptance is physical validity: in bounds, representable and in no invalid range. */
  lemma AcceptedIsPhysicallyValid(ranges: seq<Range>, field: Field, permitted: Interval, invalid: seq<Interval>, raw: int)
    requires PermittedInterval(field) == Found(permitted)
    requires forall r :: Covered(invalid, r) <==> Contains(permitted, r) && InSomeRange(ranges, Physical(field, r))
    ensures Accepted(permitted, invalid, raw) <==>
            && InLimits(field, raw)
            && field.minimum <= Physical(field, raw) <= field.maximum
            && !InSomeRange(ranges, Physical(field, raw))
  {
    RawIntervalInverts(field, Bounds(field.minimum, field.maximum), raw);
  }

  // ---------------------------------------------------------------- the conversion pivot

  datatype Affine = Affine(scale: real, offset: real)

  function Apply(f: Affine, x: real): real {
    x * f.scale + f.offset
  }

  /** The target scale, and the target value at the pivot. */
  function BindingConversion(policy: Affine, field: Field, pivot: int): Affine {
    var targetScale := field.scale * policy.scale;
    var targetOffset := field.offset * policy.scale + policy.offset;
    Affine(targetScale, pivot as real * targetScale + targetOffset)
  }

  /** Rounds to the nearest integer, ties to even. */
  function Round(value: real): int {
    var floor := value.Floor;
    var rest := value - floor as real;
    if rest < 0.5 then floor
    else if rest > 0.5 then floor + 1
    else if floor % 2 == 0 then floor
    else floor + 1
  }

  function ConversionPivot(policy: Affine, field: Field, permitted: Interval): int {
    var target := BindingConversion(policy, field, 0);
    if target.scale == 0.0 then permitted.lower
    else
      var zero := Round(-target.offset / target.scale);
      Min(permitted.upper, Max(permitted.lower, zero))
  }

  /** The pivot form is the unit conversion of the physical value, for every raw value and every pivot. */
  lemma PivotFormIsConversion(policy: Affine, field: Field, pivot: int, raw: int)
    ensures var conversion := BindingConversion(policy, field, pivot);
            Apply(conversion, (raw - pivot) as real) == Apply(policy, Physical(field, raw))
  {
    var s, p, x := field.scale, policy.scale, raw as real;
    assert (raw - pivot) as real == x - pivot as real;
    assert (x - pivot as real) * (s * p) + pivot as real * (s * p) == x * (s * p);
    assert x * (s * p) == (x * s) * p;
    assert (x * s + field.offset) * p == (x * s) * p + field.offset * p;
  }

  function Abs(x: real): real {
    if x < 0.0 then -x else x
  }

  /** No permitted raw value converts closer to zero than the pivot does. */
  lemma PivotIsNearestZero(policy: Affine, field: Field, permitted: Interval, raw: int)
    requires Contains(permitted, raw)
    ensures Contains(permitted, ConversionPivot(policy, field, permitted))
    ensures Abs(Apply(policy, Physical(field, ConversionPivot(policy, field, permitted)))) <=
            Abs(Apply(policy, Physical(field, raw)))
  {
    var pivot := ConversionPivot(policy, field, permitted);
    ConvertedIsAffine(policy, field, raw);
    ConvertedIsAffine(policy, field, pivot);
    NearestOfAffine(BindingConversion(policy, field, 0), permitted, pivot, raw);
  }

  lemma ConvertedIsAffine(policy: Affine, field: Field, raw: int)
    ensures Apply(policy, Physical(field, raw)) == Apply(BindingConversion(policy, field, 0), raw as real)
  {
    PivotFormIsConversion(policy, field, 0, raw);
    assert (raw - 0) as real == raw as real;
  }

  lemma NearestOfAffine(target: Affine, permitted: Interval, pivot: int, raw: int)
    requires Contains(permitted, raw)
    requires pivot == if target.scale == 0.0 then permitted.lower
                      else Min(permitted.upper, Max(permitted.lower, Round(-target.offset / target.scale)))
    ensures Contains(permitted, pivot)
    ensures Abs(Apply(target, pivot as real)) <= Abs(Apply(target, raw as real))
  {
    if target.scale != 0.0 {
      var zero := -target.offset / target.scale;
      assert zero * target.scale == -target.offset;
      RoundIsWithinHalf(zero);
      NearestInteger(Round(zero), zero, permitted, raw);
      NearerIsSmaller(target, zero, pivot, raw);
    }
  }

  /** A raw value nearer to the root of an affine map converts nearer to zero. */
  lemma NearerIsSmaller(target: Affine, zero: real, pivot: int, raw: int)
    requires target.scale != 0.0 && zero * target.scale == -target.offset
    requires Abs(pivot as real - zero) <= Abs(raw as real - zero)
    ensures Abs(Apply(target, pivot as real)) <= Abs(Apply(target, raw as real))
  {
    SameSlope(target, zero, pivot as real);
    SameSlope(target, zero, raw as real);
    SmallerProduct(pivot as real - zero, raw as real - zero, target.scale,
                   Apply(target, pivot as real), Apply(target, raw as real));
  }

  lemma SameSlope(target: Affine, zero: real, x: real)
    requires zero * target.scale == -target.offset
    ensures Apply(target, x) == (x - zero) * target.scale
  {
  }

  lemma SmallerProduct(a: real, b: real, factor: real, x: real, y: real)
    requires Abs(a) <= Abs(b) && x == a * factor && y == b * factor
    ensures Abs(x) <= Abs(y)
  {
    assert y - x == (b - a) * factor;
    assert y + x == (b + a) * factor;
    assert b >= 0.0 ==> b - a >= 0.0 && b + a >= 0.0;
    assert b < 0.0 ==> b - a <= 0.0 && b + a <= 0.0;
    if factor != 0.0 {
      ProductSign(b - a, factor);
      ProductSign(b + a, factor);
    }
  }

  lemma RoundIsWithinHalf(value: real)
    ensures -0.5 <= Round(value) as real - value <= 0.5
  {
  }

  /** Halfway between two integers the even one is taken. */
  lemma TiesGoToEven(n: int)
    ensures Round(n as real + 0.5) % 2 == 0 && Round(n as real) == n
  {
    assert (n as real + 0.5).Floor == n;
  }

  /** The pivot is the rounded root of the conversion where that is permitted, else the nearer end; without a slope the lower end. */
  lemma PivotChoice(policy: Affine, field: Field, permitted: Interval)
    requires permitted.lower <= permitted.upper
    ensures var slope, offset := field.scale * policy.scale, field.offset * policy.scale + policy.offset;
            var pivot := ConversionPivot(policy, field, permitted);
            && (slope == 0.0 ==> pivot == permitted.lower)
            && (slope != 0.0 && Contains(permitted, Round(-offset / slope)) ==> pivot == Round(-offset / slope))
            && (slope != 0.0 && Round(-offset / slope) < permitted.lower ==> pivot == permitted.lower)
            && (slope != 0.0 && Round(-offset / slope) > permitted.upper ==> pivot == permitted.upper)
  {
    var target := BindingConversion(policy, field, 0);
    assert target == Affine(field.scale * policy.scale, field.offset * policy.scale + policy.offset);
  }

  lemma NearestInteger(nearest: int, value: real, permitted: Interval, raw: int)
    requires Contains(permitted, raw) && -0.5 <= nearest as real - value <= 0.5
    ensures Abs(Min(permitted.upper, Max(permitted.lower, nearest)) as real - value) <= Abs(raw as real - value)
  {
    var chosen := Min(permitted.upper, Max(permitted.lower, nearest));
    if raw < chosen {
      assert raw as real + 1.0 <= chosen as real <= nearest as real;
    } else if raw > chosen {
      assert raw as real - 1.0 >= chosen as real >= nearest as real;
    }
  }
}
