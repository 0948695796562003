/**
  The firmware's exact raw domain: extracting a field from a frame, comparing
  raw values as signed magnitudes, and the pivot distance, joined with what the
  generator emitted for the same field.
 */
module RawValues {
  import opened BitCoordinates
  import opened RawIntervals

  /** Width-limited bits; `bits` is the unsigned 64-bit pattern. */
  datatype RawValue = RawValue(bits: nat, length: nat, signed: bool)

  datatype RawRange = RawRange(minimum: RawValue, maximum: RawValue)

  datatype SignedMagnitude = SignedMagnitude(magnitude: nat, negative: bool)

  datatype Possible<+T> = Nothing | Just(value: T)

  const UINT64_MAX: nat := 0xFFFF_FFFF_FFFF_FFFF

  // ---------------------------------------------------------------- extraction

  /** A received frame; `data` is the eight payload bytes. */
  datatype Frame = Frame(identifier: nat, standard: bool, remote: bool, dlc: nat, data: Payload)

  type byte = b: nat | b < 256

  type Payload = s: seq<byte> | |s| == 8
    witness [0, 0, 0, 0, 0, 0, 0, 0]

  type PayloadBit = p: int | 0 <= p < 64

  function ShiftRight(x: nat, n: nat): nat {
    if n == 0 then x else ShiftRight(x / 2, n - 1)
  }

  function ShiftLeft(x: nat, n: nat): nat {
    if n == 0 then x else 2 * ShiftLeft(x, n - 1)
  }

  function BitAt(data: Payload, position: PayloadBit): (r: nat)
    ensures r <= 1
  {
    ShiftRight(data[position / 8], position % 8) % 2
  }

  /** The number a list of bits writes, most significant first. */
  function Number(bits: seq<nat>): nat {
    if bits == [] then 0 else 2 * Number(bits[..|bits| - 1]) + bits[|bits| - 1]
  }

  predicate InPayload(positions: seq<int>) {
    forall i :: 0 <= i < |positions| ==> 0 <= positions[i] < 64
  }

  /** Motorola positions come most significant first, Intel ones last. */
  function MsbFirst<T>(positions: seq<T>, order: ByteOrder): (r: seq<T>)
    ensures |r| == |positions|
  {
    if order == Motorola then positions
    else seq(|positions|, i requires 0 <= i < |positions| => positions[|positions| - 1 - i])
  }

  function BitsAt(data: Payload, positions: seq<PayloadBit>): (r: seq<nat>)
    ensures |r| == |positions| && forall i :: 0 <= i < |r| ==> r[i] == BitAt(data, positions[i])
  {
    seq(|positions|, i requires 0 <= i < |positions| => BitAt(data, positions[i]))
  }

  /** The number the field's bits write, most significant first. */
  function FieldNumber(data: Payload, positions: seq<PayloadBit>, order: ByteOrder): nat {
    Number(BitsAt(data, MsbFirst(positions, order)))
  }

  lemma BitsAppend(data: Payload, positions: seq<PayloadBit>, position: PayloadBit)
    ensures BitsAt(data, positions + [position]) == BitsAt(data, positions) + [BitAt(data, position)]
  {
  }

  lemma BitsPrepend(data: Payload, positions: seq<PayloadBit>, position: PayloadBit)
    ensures BitsAt(data, [position] + positions) == [BitAt(data, position)] + BitsAt(data, positions)
  {
  }

  lemma NumberOfAppended(bits: seq<nat>, b: nat)
    ensures Number(bits + [b]) == 2 * Number(bits) + b
  {
    assert (bits + [b])[..|bits|] == bits;
  }

  /** Reading one more Motorola position appends its bit. */
  lemma OneMoreMotorola(data: Payload, positions: seq<PayloadBit>, position: PayloadBit)
    ensures FieldNumber(data, positions + [position], Motorola) ==
            2 * FieldNumber(data, positions, Motorola) + BitAt(data, position)
  {
    BitsAppend(data, positions, position);
    NumberOfAppended(BitsAt(data, positions), BitAt(data, position));
  }

  /** Reading one more Intel position puts its bit in front. */
  lemma OneMoreIntel(data: Payload, positions: seq<PayloadBit>, position: PayloadBit)
    ensures FieldNumber(data, positions + [position], Intel) ==
            FieldNumber(data, positions, Intel) + ShiftLeft(BitAt(data, position), |positions|)
  {
    var reversed := MsbFirst(positions, Intel);
    ReversedAppend(positions, position);
    BitsPrepend(data, reversed, position);
    NumberOfPrefixed(BitAt(data, position), BitsAt(data, reversed));
  }

  lemma ReversedAppend<T>(positions: seq<T>, position: T)
    ensures MsbFirst(positions + [position], Intel) == [position] + MsbFirst(positions, Intel)
  {
  }

  lemma {:induction false} NumberOfPrefixed(b: nat, bits: seq<nat>)
    ensures Number([b] + bits) == ShiftLeft(b, |bits|) + Number(bits)
  {
    var all := [b] + bits;
    if bits == [] {
      assert all[..0] == [];
    } else {
      NumberOfPrefixed(b, bits[..|bits| - 1]);
      assert all[..|bits|] == [b] + bits[..|bits| - 1];
    }
  }

  lemma {:induction false} NumberIsBounded(bits: seq<nat>)
    requires forall i :: 0 <= i < |bits| ==> bits[i] <= 1
    ensures Number(bits) < Pow2(|bits|)
  {
    if bits != [] {
      NumberIsBounded(bits[..|bits| - 1]);
    }
  }

  predicate Extractable(frame: Frame, start: nat, length: nat, order: ByteOrder) {
    && frame.dlc <= 8 && !frame.remote && frame.standard && frame.identifier <= 0x7FF
    && 0 < length <= 64 && start < 64 && order != OtherOrder
    && Offset(start, order) + length <= 8 * frame.dlc
  }

  /** Reads exactly the field's occupied bits, and fails exactly when one lies outside the payload. */
  method ExtractRawValue(frame: Frame, start: nat, length: nat, order: ByteOrder, signed: bool)
    returns (ok: bool, raw: RawValue)
    ensures ok <==> Extractable(frame, start, length, order)
    ensures ok ==> InPayload(Positions(start, length, order))
    ensures ok ==> raw == RawValue(FieldNumber(frame.data, Positions(start, length, order), order), length, signed)
    ensures ok ==> raw.bits < Pow2(length)
  {
    raw := RawValue(0, 0, false);
    if frame.dlc > 8 || frame.remote || !frame.standard || frame.identifier > 0x7FF || length == 0 || length > 64 ||
       start >= 64 || (order != Intel && order != Motorola) {
      return false, raw;
    }
    ghost var positions := Positions(start, length, order);
    PositionsAreAWalk(start, length, order);
    PositionsFit(start, length, order, frame.dlc);
    var bits;
    ok, bits := ReadBits(frame.data, start, length, order, frame.dlc * 8, positions);
    if ok {
      FieldNumberIsBounded(frame.data, positions, order);
      raw := RawValue(bits, length, signed);
    }
  }

  lemma PositionsFit(start: nat, length: nat, order: ByteOrder, dlc: nat)
    requires 0 < length
    ensures (forall i :: 0 <= i < length ==> Positions(start, length, order)[i] < dlc * 8) <==>
            Offset(start, order) + length <= 8 * dlc
  {
    FitsPayload(start, length, order, dlc);
    PositionsAreAWalk(start, length, order);
    assert forall i :: 0 <= i < length ==> Positions(start, length, order)[i] in Positions(start, length, order);
  }

  lemma FieldNumberIsBounded(data: Payload, positions: seq<PayloadBit>, order: ByteOrder)
    ensures FieldNumber(data, positions, order) < Pow2(|positions|)
  {
    NumberIsBounded(BitsAt(data, MsbFirst(positions, order)));
  }

  function Next(position: int, order: ByteOrder): int {
    if order == Motorola then Walk(position) else position + 1
  }

  /** Each position of a field follows from the one before it. */
  predicate IsWalk(positions: seq<int>, start: int, order: ByteOrder) {
    && (positions != [] ==> positions[0] == start)
    && forall i :: 0 < i < |positions| ==> positions[i] == Next(positions[i - 1], order)
  }

  lemma PositionsAreAWalk(start: nat, length: nat, order: ByteOrder)
    ensures IsWalk(Positions(start, length, order), start, order)
    ensures forall i :: 0 <= i < length ==> 0 <= Positions(start, length, order)[i]
  {
    SawtoothIsInvolution(start);
    forall i | 0 <= i < length
      ensures 0 <= Positions(start, length, order)[i]
      ensures 0 < i ==> PositionAt(start, i, order) == Next(PositionAt(start, i - 1, order), order)
    {
      PositionInPayload(start, i, order, 0);
      if 0 < i {
        PositionSteps(start, i - 1, order);
      }
    }
  }

  /** The loop over the field's positions: it stops at the first one outside the payload. */
  method ReadBits(data: Payload, start: nat, length: nat, order: ByteOrder, payloadBits: nat,
                  ghost positions: seq<int>) returns (ok: bool, bits: nat)
    requires payloadBits <= 64 && order != OtherOrder
    requires |positions| == length && IsWalk(positions, start, order)
    requires forall i :: 0 <= i < length ==> 0 <= positions[i]
    ensures ok <==> forall i :: 0 <= i < length ==> positions[i] < payloadBits
    ensures ok ==> InPayload(positions) && bits == FieldNumber(data, positions, order)
  {
    var position: int := start;
    bits := 0;
    var index := 0;
    while index < length
      invariant index <= length && (index < length ==> position == positions[index])
      invariant forall i :: 0 <= i < index ==> positions[i] < payloadBits
      invariant bits == FieldNumber(data, positions[..index], order)
    {
      if position >= payloadBits {
        return false, bits;
      }
      bits := AddBit(data, positions, position, order, index, bits);
      position := Next(position, order);
      index := index + 1;
    }
    assert positions[..index] == positions;
    return true, bits;
  }

  method AddBit(data: Payload, ghost positions: seq<int>, position: PayloadBit, order: ByteOrder, index: nat, bits: nat)
    returns (r: nat)
    requires index < |positions| && InPayload(positions[..index]) && position == positions[index]
    requires order != OtherOrder && bits == FieldNumber(data, positions[..index], order)
    ensures InPayload(positions[..index + 1]) && r == FieldNumber(data, positions[..index + 1], order)
  {
    var bit := BitAt(data, position);
    ghost var read: seq<PayloadBit> := positions[..index];
    BitsAppend(data, read, position);
    assert positions[..index + 1] == read + [position];
    if order == Intel {
      OneMoreIntel(data, read, position);
      r := bits + ShiftLeft(bit, index);
    } else {
      OneMoreMotorola(data, read, position);
      r := 2 * bits + bit;
    }
  }

  lemma PositionSteps(start: int, i: nat, order: ByteOrder)
    ensures PositionAt(start, i + 1, order) ==
            if order == Motorola then Walk(PositionAt(start, i, order)) else PositionAt(start, i, order) + 1
  {
    SawtoothIsInvolution(Sawtooth(start) + i);
    SawtoothIsInvolution(PositionAt(start, i, order));
    SawtoothIsInvolution(Walk(PositionAt(start, i, order)));
  }

  // ---------------------------------------------------------------- signed magnitudes

  predicate ValidRaw(raw: RawValue) {
    0 < raw.length <= 64 && raw.bits < Pow2(raw.length)
  }

  predicate SameShape(left: RawValue, right: RawValue) {
    && 0 < left.length <= 64 && left.length == right.length && left.signed == right.signed
    && left.bits < Pow2(left.length) && right.bits < Pow2(right.length)
  }

  /** The two's complement value the bits stand for. */
  function Value(raw: RawValue): int
    requires ValidRaw(raw)
  {
    if raw.signed && raw.bits >= Pow2(raw.length - 1) then raw.bits - Pow2(raw.length) else raw.bits
  }

  function MagnitudeOf(raw: RawValue): (r: Possible<SignedMagnitude>)
    ensures r.Just? <==> ValidRaw(raw)
    ensures r.Just? ==> SignedValue(r.value) == Value(raw) && (r.value.negative ==> 0 < r.value.magnitude)
    ensures r.Just? ==> r.value.magnitude <= UINT64_MAX
    ensures r.Just? && raw.signed ==> r.value.magnitude <= 0x8000_0000_0000_0000
    ensures r.Just? && raw.signed && !r.value.negative ==> r.value.magnitude < 0x8000_0000_0000_0000
    ensures r.Just? && !raw.signed ==> !r.value.negative
  {
    if !(0 < raw.length <= 64) || raw.bits >= Pow2(raw.length) then Nothing
    else
      Pow2Bounds(raw.length);
      if !raw.signed then Just(SignedMagnitude(raw.bits, false))
      else if raw.bits < Pow2(raw.length - 1) then Just(SignedMagnitude(raw.bits, false))
      else Just(SignedMagnitude(Pow2(raw.length) - 1 - raw.bits + 1, true))
  }

  function SignedValue(m: SignedMagnitude): int {
    if m.negative then 0 - m.magnitude else m.magnitude
  }

  lemma {:induction false} Pow2Bounds(n: nat)
    requires n <= 64
    ensures 0 < n ==> Pow2(n) == 2 * Pow2(n - 1)
    ensures Pow2(n) <= UINT64_MAX + 1
    ensures 0 < n ==> Pow2(n - 1) <= 0x8000_0000_0000_0000
  {
    Pow2Scales(n, 64 - n);
    Pow2Of64(n + (64 - n));
    if n > 0 {
      Pow2Scales(n - 1, 64 - n);
    }
  }

  lemma {:induction false} Pow2Scales(n: nat, more: nat)
    ensures Pow2(n) <= Pow2(n + more)
  {
    if more > 0 {
      Pow2Scales(n, more - 1);
    }
  }

  lemma Pow2Plus4(n: nat)
    ensures Pow2(n + 4) == 16 * Pow2(n)
  {
    assert Pow2(n + 1) == 2 * Pow2(n);
    assert Pow2(n + 2) == 2 * Pow2(n + 1);
    assert Pow2(n + 3) == 2 * Pow2(n + 2);
  }

  lemma Pow2Plus16(n: nat)
    ensures Pow2(n + 16) == 0x1_0000 * Pow2(n)
  {
    Pow2Plus4(n);
    Pow2Plus4(n + 4);
    Pow2Plus4(n + 8);
    Pow2Plus4(n + 12);
  }

  lemma Pow2Of64(n: nat)
    requires n == 64
    ensures Pow2(n) == UINT64_MAX + 1 && Pow2(n - 1) == 0x8000_0000_0000_0000
  {
    Pow2Plus16(n - 16);
    Pow2Plus16(n - 32);
    Pow2Plus16(n - 48);
    Pow2Plus16(n - 64);
  }

  function CompareMagnitudes(left: SignedMagnitude, right: SignedMagnitude): int {
    if left.negative != right.negative then (if left.negative then -1 else 1)
    else if left.magnitude == right.magnitude then 0
    else
      var leftIsLess := left.magnitude < right.magnitude;
      if left.negative then (if leftIsLess then 1 else -1) else (if leftIsLess then -1 else 1)
  }

  datatype Ordering = Incomparable | Ordering(sign: int)

  /** Comparing raw values compares the numbers they stand for. */
  function CompareRaw(left: RawValue, right: RawValue): (r: Ordering)
    ensures r.Ordering? <==> SameShape(left, right)
    ensures r.Ordering? ==>
              && (r.sign < 0 <==> Value(left) < Value(right))
              && (r.sign == 0 <==> Value(left) == Value(right))
              && (r.sign > 0 <==> Value(left) > Value(right))
  {
    if !SameShape(left, right) then Incomparable
    else Ordering(CompareMagnitudes(MagnitudeOf(left).value, MagnitudeOf(right).value))
  }

  datatype RangeTest = BadRange | RangeTest(inside: bool)

  function InRange(raw: RawValue, range: RawRange): (r: RangeTest)
    ensures r.RangeTest? <==>
            && SameShape(raw, range.minimum) && SameShape(raw, range.maximum)
            && Value(range.minimum) <= Value(range.maximum)
    ensures r.RangeTest? ==> (r.inside <==> Value(range.minimum) <= Value(raw) <= Value(range.maximum))
  {
    if !SameShape(raw, range.minimum) || !SameShape(raw, range.maximum) then BadRange
    else
      var order := CompareRaw(range.minimum, range.maximum);
      if order.Incomparable? || order.sign > 0 then BadRange
      else
        var lower, upper := CompareRaw(raw, range.minimum), CompareRaw(raw, range.maximum);
        RangeTest(lower.sign >= 0 && upper.sign <= 0)
  }

  /** The distance from the pivot; its 64-bit guard never fires for values of one shape. */
  function RawDelta(raw: RawValue, pivot: RawValue): (r: Possible<SignedMagnitude>)
    ensures r.Just? <==> SameShape(raw, pivot)
    ensures r.Just? ==> r.value.magnitude <= UINT64_MAX
    ensures r.Just? ==> SignedValue(r.value) == Value(raw) - Value(pivot)
  {
    if !SameShape(raw, pivot) then Nothing
    else
      var r, p := MagnitudeOf(raw).value, MagnitudeOf(pivot).value;
      var order := CompareMagnitudes(r, p);
      if r.negative == p.negative then
        var magnitude :=
          if r.negative then (if order >= 0 then p.magnitude - r.magnitude else r.magnitude - p.magnitude)
          else (if order >= 0 then r.magnitude - p.magnitude else p.magnitude - r.magnitude);
        Just(SignedMagnitude(magnitude, order < 0))
      else if r.magnitude > UINT64_MAX - p.magnitude then Nothing
      else Just(SignedMagnitude(r.magnitude + p.magnitude, r.negative))
  }

  // ---------------------------------------------------------------- the generated tables

  /** Python's `raw & mask`, for negative values too. */
  function Bits(raw: int, width: nat): nat {
    raw % Pow2(width)
  }

  function RawOf(raw: int, field: Field): RawValue {
    RawValue(Bits(raw, field.length), field.length, field.signed)
  }

  /** The emitted bits stand for the value they were made from. */
  lemma RawOfRoundTrips(raw: int, field: Field)
    requires InLimits(field, raw)
    ensures ValidRaw(RawOf(raw, field)) && Value(RawOf(raw, field)) == raw
  {
    var size, half := Pow2(field.length), Pow2(field.length - 1);
    assert size == 2 * half;
    if raw < 0 {
      ModOfNegative(raw, size);
    } else {
      ModOfSmall(raw, size);
    }
  }

  lemma ModOfSmall(x: int, m: int)
    requires 0 <= x < m
    ensures x % m == x
  {
  }

  lemma ModOfNegative(x: int, m: int)
    requires -m <= x < 0
    ensures x % m == x + m
  {
    ModOfSmall(x + m, m);
    assert x == (x + m) + m * -1;
    ShiftedMod(x + m, m);
  }

  lemma ShiftedMod(x: int, m: int)
    requires 0 <= x < m
    ensures (x - m) % m == x
  {
    var q, r := (x - m) / m, (x - m) % m;
    assert x - m == q * m + r && 0 <= r < m;
    assert (q + 1) * m == x - r;
    SmallMultiple(q + 1, m);
  }

  lemma SmallMultiple(k: int, m: int)
    requires 0 < m
    ensures k > 0 ==> k * m >= m
    ensures k < 0 ==> k * m <= -m
  {
  }

  /** Every raw pattern of the field's width stands for a value within the field's limits. */
  lemma ValueInLimits(raw: RawValue, field: Field)
    requires ValidRaw(raw) && raw.length == field.length && raw.signed == field.signed
    ensures InLimits(field, Value(raw))
  {
    assert Pow2(field.length) == 2 * Pow2(field.length - 1);
  }

  function RangeOf(interval: Interval, field: Field): RawRange {
    RawRange(RawOf(interval.lower, field), RawOf(interval.upper, field))
  }

  /** A two-limb constant of the firmware; a limb may be infinite or not a number. */
  datatype Extended = NotFinite | Finite(high: real, low: real)

  datatype NumberConversion = NumberConversion(pivot: RawValue, scale: Extended, targetAtPivot: Extended)

  /** The constants are finite and the scale is not zero in both limbs. */
  predicate Usable(conversion: NumberConversion) {
    conversion.scale.Finite? && conversion.targetAtPivot.Finite? &&
    !(conversion.scale.high == 0.0 && conversion.scale.low == 0.0)
  }

  /** The checks of the number conversion on its constants and on the raw value, before any arithmetic. */
  method PassesRawChecks(raw: RawValue, conversion: NumberConversion, permitted: RawRange, invalid: seq<RawRange>)
    returns (ok: bool)
    ensures ok <==>
            && SameShape(raw, conversion.pivot) && Usable(conversion)
            && InRange(raw, permitted) == RangeTest(true) && InRange(conversion.pivot, permitted) == RangeTest(true)
            && forall i :: 0 <= i < |invalid| ==> InRange(raw, invalid[i]) == RangeTest(false)
  {
    if !(0 < raw.length <= 64) || !SameShape(raw, conversion.pivot) || conversion.scale.NotFinite? ||
       conversion.targetAtPivot.NotFinite? || (conversion.scale.high == 0.0 && conversion.scale.low == 0.0) ||
       InRange(raw, permitted) != RangeTest(true) || InRange(conversion.pivot, permitted) != RangeTest(true) {
      return false;
    }
    var index := 0;
    while index < |invalid|
      invariant 0 <= index <= |invalid|
      invariant forall i :: 0 <= i < index ==> InRange(raw, invalid[i]) == RangeTest(false)
    {
      var test := InRange(raw, invalid[index]);
      if test.BadRange? || test.inside {
        return false;
      }
      index := index + 1;
    }
    return true;
  }

  /**
    Generator and firmware agree: on the tables generated for a field, the
    firmware's raw checks pass exactly when its constants are usable and the
    physical value is in bounds and in no invalid range. The emitted limbs of
    the scale and the target are rounded constants, so they are parameters.
   */
  method DecodeWithGeneratedTables(raw: RawValue, field: Field, ranges: seq<Range>, policy: Affine,
                                   scale: Extended, target: Extended) returns (ok: bool)
    requires ValidRaw(raw) && raw.length == field.length && raw.signed == field.signed
    ensures ok <==>
            && PermittedInterval(field).Found?
            && scale.Finite? && target.Finite? && (scale.high != 0.0 || scale.low != 0.0)
            && field.minimum <= Physical(field, Value(raw)) <= field.maximum
            && !InSomeRange(ranges, Physical(field, Value(raw)))
  {
    if PermittedInterval(field).NoInterval? {
      return false;
    }
    var permitted := PermittedInterval(field).interval;
    var invalid := InvalidIntervals(ranges, field, permitted);
    var pivot := ConversionPivot(policy, field, permitted);
    PivotIsNearestZero(policy, field, permitted, permitted.lower);
    var rawRanges := seq(|invalid|, i requires 0 <= i < |invalid| => RangeOf(invalid[i], field));
    var conversion := NumberConversion(RawOf(pivot, field), scale, target);
    ok := PassesRawChecks(raw, conversion, RangeOf(permitted, field), rawRanges);
    ghost var value := Value(raw);
    AcceptedIsPhysicallyValid(ranges, field, permitted, invalid, value);
    ValueInLimits(raw, field);
    RangeMatches(raw, permitted, field);
    PermittedInLimits(field, permitted, pivot);
    RawOfRoundTrips(pivot, field);
    RangeMatches(RawOf(pivot, field), permitted, field);
    forall i | 0 <= i < |invalid|
      ensures InRange(raw, rawRanges[i]) == RangeTest(Contains(invalid[i], value))
    {
      assert Contains(invalid[i], invalid[i].lower) && Covered(invalid, invalid[i].lower);
      assert Contains(invalid[i], invalid[i].upper) && Covered(invalid, invalid[i].upper);
      PermittedInLimits(field, permitted, invalid[i].lower);
      PermittedInLimits(field, permitted, invalid[i].upper);
      RangeMatches(raw, invalid[i], field);
    }
  }

  lemma PermittedInLimits(field: Field, permitted: Interval, raw: int)
    requires PermittedInterval(field) == Found(permitted) && Contains(permitted, raw)
    ensures InLimits(field, raw)
    ensures InLimits(field, permitted.lower) && InLimits(field, permitted.upper)
  {
  }

  lemma RangeMatches(raw: RawValue, interval: Interval, field: Field)
    requires interval.lower <= interval.upper
    requires InLimits(field, interval.lower) && InLimits(field, interval.upper)
    requires ValidRaw(raw) && raw.length == field.length && raw.signed == field.signed
    ensures InRange(raw, RangeOf(interval, field)) == RangeTest(Contains(interval, Value(raw)))
  {
    RawOfRoundTrips(interval.lower, field);
    RawOfRoundTrips(interval.upper, field);
  }

  /** The firmware's exact pivot form of a value is the converted physical value. */
  lemma PivotDeltaConverts(raw: RawValue, field: Field, policy: Affine, pivot: int)
    requires InLimits(field, pivot)
    requires ValidRaw(raw) && raw.length == field.length && raw.signed == field.signed
    ensures var delta := RawDelta(raw, RawOf(pivot, field));
            && delta.Just?
            && Apply(BindingConversion(policy, field, pivot), SignedValue(delta.value) as real) ==
               Apply(policy, Physical(field, Value(raw)))
  {
    RawOfRoundTrips(pivot, field);
    PivotFormIsConversion(policy, field, pivot, Value(raw));
  }
}
