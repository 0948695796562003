/** The payload bits a DBC field occupies, in significance order. */
module BitCoordinates {
  datatype ByteOrder = Intel | Motorola | OtherOrder

  datatype Bits = BadCoordinates | Bits(positions: seq<int>)

  /** One Motorola step toward the least significant bit: down the byte, then to bit 7 of the next byte. */
  function Walk(bit: int): int {
    if bit % 8 != 0 then bit - 1 else bit + 15
  }

  /** The payload counted from the first byte's most significant bit: its own inverse. */
  function Sawtooth(bit: int): int {
    8 * (bit / 8) + 7 - bit % 8
  }

  /** The position of the `i`-th most (Motorola) or least (Intel) significant bit. */
  function PositionAt(start: int, i: nat, order: ByteOrder): int {
    if order == Motorola then Sawtooth(Sawtooth(start) + i) else start + i
  }

  function Positions(start: int, length: nat, order: ByteOrder): (r: seq<int>)
    ensures |r| == length
    ensures forall i :: 0 <= i < length ==> r[i] == PositionAt(start, i, order)
  {
    seq(length, i requires 0 <= i => PositionAt(start, i, order))
  }

  lemma SawtoothIsInvolution(bit: int)
    ensures Sawtooth(Sawtooth(bit)) == bit
    ensures Sawtooth(Walk(bit)) == Sawtooth(bit) + 1
    ensures Sawtooth(bit) / 8 == bit / 8
  {
  }

  lemma OneMorePosition(start: int, length: nat, order: ByteOrder)
    ensures Positions(start, length + 1, order) == Positions(start, length, order) + [PositionAt(start, length, order)]
  {
  }

  function WalkFrom(start: int, i: nat): int {
    if i == 0 then start else Walk(WalkFrom(start, i - 1))
  }

  /** The bits visited by walking step by step. */
  function Walked(start: int, length: nat): seq<int> {
    if length == 0 then [] else Walked(start, length - 1) + [WalkFrom(start, length - 1)]
  }

  /** Walking visits the counted positions. */
  lemma {:induction false} WalkIsCounted(start: int, i: nat)
    ensures WalkFrom(start, i) == PositionAt(start, i, Motorola)
  {
    SawtoothIsInvolution(start);
    if i > 0 {
      WalkIsCounted(start, i - 1);
      WalkStep(WalkFrom(start, i - 1), Sawtooth(start) + i - 1);
    }
  }

  lemma WalkStep(bit: int, counted: int)
    requires bit == Sawtooth(counted)
    ensures Walk(bit) == Sawtooth(counted + 1)
  {
    SawtoothIsInvolution(counted);
    SawtoothIsInvolution(bit);
    SawtoothIsInvolution(Walk(bit));
  }

  lemma {:induction false} WalkedPositions(start: int, length: nat)
    ensures Walked(start, length) == Positions(start, length, Motorola)
  {
    if length > 0 {
      WalkedPositions(start, length - 1);
      WalkIsCounted(start, length - 1);
      OneMorePosition(start, length - 1, Motorola);
    }
  }

  /** The field coordinates are rejected exactly when a bound or the byte order is bad. */
  method OccupiedBits(start: int, length: int, order: ByteOrder) returns (r: Bits)
    ensures r.BadCoordinates? <==> start < 0 || length < 1 || length > 64 || order == OtherOrder
    ensures r.Bits? ==> r.positions == Positions(start, length, order)
  {
    if start < 0 || !(1 <= length <= 64) {
      return BadCoordinates;
    }
    if order == Intel {
      return Bits(seq(length, i requires 0 <= i => start + i));
    }
    if order != Motorola {
      return BadCoordinates;
    }
    var result := [];
    var bit := start;
    for i := 0 to length
      invariant result == Walked(start, i) && bit == WalkFrom(start, i)
    {
      result := result + [bit];
      bit := if bit % 8 != 0 then bit - 1 else bit + 15;
    }
    WalkedPositions(start, length);
    return Bits(result);
  }

  /** A field's bits are distinct. */
  lemma PositionsAreDistinct(start: int, length: nat, order: ByteOrder, i: nat, j: nat)
    requires i < j < length
    ensures Positions(start, length, order)[i] != Positions(start, length, order)[j]
  {
    SawtoothIsInvolution(Sawtooth(start) + i);
    SawtoothIsInvolution(Sawtooth(start) + j);
  }

  /** The field's position in its own counting order, from its first bit. */
  function Offset(start: int, order: ByteOrder): int {
    if order == Motorola then Sawtooth(start) else start
  }

  lemma PositionInPayload(start: int, i: nat, order: ByteOrder, dlc: nat)
    requires 0 <= start
    ensures 0 <= PositionAt(start, i, order)
    ensures PositionAt(start, i, order) < 8 * dlc <==> Offset(start, order) + i < 8 * dlc
  {
    if order == Motorola {
      SameByte(start, Sawtooth(start), start / 8, dlc);
      var counted := Sawtooth(start) + i;
      SameByte(counted, PositionAt(start, i, order), counted / 8, dlc);
    }
  }

  /** A coordinate and its sawtooth image lie in the same byte. */
  lemma SameByte(x: int, y: int, whole: int, dlc: nat)
    requires y == Sawtooth(x) && whole == x / 8
    ensures x < 8 * dlc <==> y < 8 * dlc
    ensures 0 <= x <==> 0 <= y
  {
    assert 8 * whole <= x < 8 * (whole + 1) && 8 * whole <= y < 8 * (whole + 1);
    ByteBounds(x, whole, dlc);
    ByteBounds(y, whole, dlc);
  }

  lemma ByteBounds(x: int, whole: int, dlc: nat)
    requires 8 * whole <= x < 8 * (whole + 1)
    ensures x < 8 * dlc <==> whole < dlc
    ensures 0 <= x <==> 0 <= whole
  {
  }

  /** The bits stay inside a payload of whole bytes exactly when the last counted one does. */
  lemma FitsPayload(start: int, length: nat, order: ByteOrder, dlc: nat)
    requires 0 <= start && 0 < length
    ensures (forall p :: p in Positions(start, length, order) ==> 0 <= p < 8 * dlc) <==>
            Offset(start, order) + length <= 8 * dlc
  {
    forall i | 0 <= i < length
      ensures 0 <= Positions(start, length, order)[i]
      ensures Positions(start, length, order)[i] < 8 * dlc <==> Offset(start, order) + i < 8 * dlc
    {
      PositionInPayload(start, i, order, dlc);
    }
    assert Positions(start, length, order)[length - 1] in Positions(start, length, order);
  }

  predicate IsLowest(lowest: int, positions: seq<int>) {
    lowest in positions && forall p :: p in positions ==> lowest <= p
  }

  lemma LowestOfMore(lowest: int, positions: seq<int>, next: int)
    requires IsLowest(lowest, positions)
    ensures IsLowest(if next < lowest then next else lowest, positions + [next])
  {
    assert (positions + [next])[|positions|] == next;
  }

  /** An Intel field's lowest coordinate is where it starts. */
  lemma IntelStartIsLowest(start: int, length: nat)
    requires 0 < length
    ensures IsLowest(start, Positions(start, length, Intel))
  {
    assert Positions(start, length, Intel)[0] == start;
  }

  /** The lowest covered coordinate, found by walking from the start bit. */
  method DecoderStartBit(start: int, length: int, order: ByteOrder) returns (ok: bool, lowest: int)
    ensures ok <==> 0 < length && order != OtherOrder
    ensures ok ==> IsLowest(lowest, Positions(start, length, order))
  {
    if length <= 0 || order == OtherOrder {
      return false, 0;
    }
    if order == Intel {
      IntelStartIsLowest(start, length);
      return true, start;
    }
    var coordinate := start;
    ok, lowest := true, coordinate;
    for i := 1 to length
      invariant coordinate == WalkFrom(start, i - 1) && IsLowest(lowest, Walked(start, i))
    {
      coordinate := if coordinate % 8 != 0 then coordinate - 1 else coordinate + 15;
      LowestOfMore(lowest, Walked(start, i), coordinate);
      lowest := if coordinate < lowest then coordinate else lowest;
    }
    WalkedPositions(start, length);
  }
}
