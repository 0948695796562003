/** What a field's bits are in the payload read as one number, little or big endian. */
module PayloadNumbers {
  import opened BitCoordinates
  import opened RawIntervals
  import opened RawValues

  /** The number the bytes write, least significant byte first. */
  function Little(bytes: seq<byte>): nat {
    if bytes == [] then 0 else bytes[0] + 256 * Little(bytes[1..])
  }

  /** The number the bytes write, most significant byte first. */
  function Big(bytes: seq<byte>): nat {
    if bytes == [] then 0 else 256 * Big(bytes[..|bytes| - 1]) + bytes[|bytes| - 1]
  }

  // ---------------------------------------------------------------- one byte

  function BitOf(x: nat, k: nat): (r: nat)
    ensures r <= 1
  {
    ShiftRight(x, k) % 2
  }

  /** The lowest `n` bits of a number, most significant first. */
  function LowBits(x: nat, n: nat): (r: seq<nat>)
    ensures |r| == n
    ensures forall i :: 0 <= i < n ==> r[i] == BitOf(x, n - 1 - i)
  {
    seq(n, i requires 0 <= i < n => BitOf(x, n - 1 - i))
  }

  lemma {:induction false} LowBitsWrite(x: nat, n: nat)
    requires x < Pow2(n)
    ensures Number(LowBits(x, n)) == x
  {
    if n > 0 {
      LowBitsWrite(x / 2, n - 1);
      assert LowBits(x, n) == LowBits(x / 2, n - 1) + [x % 2];
      NumberOfAppended(LowBits(x / 2, n - 1), x % 2);
    }
  }

  lemma Pow2Of8(n: nat)
    requires n == 8
    ensures Pow2(n) == 256
  {
    Pow2Plus4(4);
    Pow2Plus4(0);
  }

  /** The eight bits of a byte write it. */
  lemma ByteWrites(x: byte)
    ensures Number(LowBits(x, 8)) == x
  {
    Pow2Of8(8);
    LowBitsWrite(x, 8);
  }

  // ---------------------------------------------------------------- all the bytes

  /** The bits of little-endian bytes, most significant first. */
  function LittleBits(bytes: seq<byte>): (r: seq<nat>)
    ensures |r| == 8 * |bytes|
  {
    if bytes == [] then [] else LittleBits(bytes[1..]) + LowBits(bytes[0], 8)
  }

  function BigBits(bytes: seq<byte>): (r: seq<nat>)
    ensures |r| == 8 * |bytes|
  {
    if bytes == [] then [] else BigBits(bytes[..|bytes| - 1]) + LowBits(bytes[|bytes| - 1], 8)
  }

  lemma {:induction false} NumberSplits(a: seq<nat>, b: seq<nat>)
    ensures Number(a + b) == Number(a) * Pow2(|b|) + Number(b)
  {
    if b == [] {
      assert a + b == a;
    } else {
      var n := |b| - 1;
      NumberSplits(a, b[..n]);
      assert (a + b)[..|a + b| - 1] == a + b[..n];
      Doubled(Number(a), Pow2(n));
    }
  }

  lemma Doubled(a: nat, p: nat)
    ensures 2 * (a * p) == a * (2 * p)
  {
  }

  lemma {:induction false} LittleBitsWrite(bytes: seq<byte>)
    ensures Number(LittleBits(bytes)) == Little(bytes)
  {
    if bytes != [] {
      LittleBitsWrite(bytes[1..]);
      ByteWrites(bytes[0]);
      Pow2Of8(8);
      NumberSplits(LittleBits(bytes[1..]), LowBits(bytes[0], 8));
    }
  }

  lemma {:induction false} BigBitsWrite(bytes: seq<byte>)
    ensures Number(BigBits(bytes)) == Big(bytes)
  {
    if bytes != [] {
      var n := |bytes| - 1;
      BigBitsWrite(bytes[..n]);
      ByteWrites(bytes[n]);
      Pow2Of8(8);
      NumberSplits(BigBits(bytes[..n]), LowBits(bytes[n], 8));
    }
  }

  /** Bit `k` of byte `b`, counted from its least significant bit. */
  lemma {:induction false} LittleBitAt(bytes: seq<byte>, b: nat, k: nat)
    requires b < |bytes| && k < 8
    ensures LittleBits(bytes)[8 * (|bytes| - b) - 1 - k] == BitOf(bytes[b], k)
  {
    if b > 0 {
      LittleBitAt(bytes[1..], b - 1, k);
    }
  }

  lemma {:induction false} BigBitAt(bytes: seq<byte>, b: nat, k: nat)
    requires b < |bytes| && k < 8
    ensures BigBits(bytes)[8 * b + 7 - k] == BitOf(bytes[b], k)
  {
    if b < |bytes| - 1 {
      BigBitAt(bytes[..|bytes| - 1], b, k);
    }
  }

  lemma {:induction false} LittleOfSum(a: seq<byte>, b: seq<byte>)
    ensures LittleBits(a + b) == LittleBits(b) + LittleBits(a)
  {
    if a == [] {
      assert a + b == b;
    } else {
      LittleOfSum(a[1..], b);
      assert (a + b)[1..] == a[1..] + b;
    }
  }

  lemma {:induction false} BigOfSum(a: seq<byte>, b: seq<byte>)
    ensures BigBits(a + b) == BigBits(a) + BigBits(b)
  {
    if b == [] {
      assert a + b == a;
    } else {
      BigOfSum(a, b[..|b| - 1]);
      assert (a + b)[..|a + b| - 1] == a + b[..|b| - 1];
    }
  }

  lemma Middle<T>(all: seq<T>, a: seq<T>, b: seq<T>, c: seq<T>, from: nat, upTo: nat)
    requires all == a + b + c && from == |a| && upTo == |a| + |b|
    ensures all[from..upTo] == b
  {
  }

  /** The bits of some neighbouring bytes are neighbours. */
  lemma BytesAreSlices(data: Payload, j: nat, n: nat)
    requires j + n <= 8
    ensures LittleBits(data)[64 - (8 * j + 8 * n)..64 - 8 * j] == LittleBits(data[j..j + n])
    ensures BigBits(data)[8 * j..8 * j + 8 * n] == BigBits(data[j..j + n])
  {
    var front, mid, back := data[..j], data[j..j + n], data[j + n..];
    assert data == front + (mid + back);
    LittleOfSum(front, mid + back);
    LittleOfSum(mid, back);
    BigOfSum(front, mid + back);
    BigOfSum(mid, back);
    Middle(LittleBits(data), LittleBits(back), LittleBits(mid), LittleBits(front), 64 - (8 * j + 8 * n), 64 - 8 * j);
    assert BigBits(data) == BigBits(front) + BigBits(mid) + BigBits(back);
    Middle(BigBits(data), BigBits(front), BigBits(mid), BigBits(back), 8 * j, 8 * j + 8 * n);
  }

  // ---------------------------------------------------------------- one field

  lemma BitOfByte(data: Payload, b: nat, k: nat)
    requires b < 8 && k < 8
    ensures BitAt(data, 8 * b + k) == BitOf(data[b], k)
    ensures Sawtooth(8 * b + 7 - k) == 8 * b + k
  {
    assert (8 * b + k) / 8 == b && (8 * b + k) % 8 == k;
  }

  lemma ByteAndBit(p: PayloadBit) returns (b: nat, k: nat)
    ensures b < 8 && k < 8 && p == 8 * b + k
  {
    b, k := p / 8, p % 8;
  }

  lemma IntelBit(data: Payload, position: PayloadBit)
    ensures BitAt(data, position) == LittleBits(data)[63 - position]
  {
    var b, k := ByteAndBit(position);
    LittleBitAt(data, b, k);
    BitOfByte(data, b, k);
  }

  lemma MotorolaBit(data: Payload, c: PayloadBit, position: PayloadBit)
    requires position == Sawtooth(c)
    ensures BitAt(data, position) == BigBits(data)[c]
  {
    var b, k := ByteAndBit(c);
    BigBitAt(data, b, 7 - k);
    BitOfByte(data, b, 7 - k);
  }

  /** The bits of an Intel field are consecutive ones of the little-endian payload. */
  lemma IntelBits(data: Payload, start: nat, length: nat, positions: seq<PayloadBit>)
    requires start + length <= 64 && positions == Positions(start, length, Intel)
    ensures BitsAt(data, MsbFirst(positions, Intel)) == LittleBits(data)[64 - start - length..64 - start]
  {
    forall i | 0 <= i < length
      ensures BitsAt(data, MsbFirst(positions, Intel))[i] == LittleBits(data)[64 - start - length + i]
    {
      IntelBit(data, positions[length - 1 - i]);
    }
  }

  /** The bits of a Motorola field are consecutive ones of the big-endian payload. */
  lemma MotorolaBits(data: Payload, start: nat, counted: nat, length: nat, positions: seq<PayloadBit>)
    requires counted + length <= 64 && Sawtooth(start) == counted && positions == Positions(start, length, Motorola)
    ensures BitsAt(data, MsbFirst(positions, Motorola)) == BigBits(data)[counted..counted + length]
  {
    forall i | 0 <= i < length
      ensures BitsAt(data, MsbFirst(positions, Motorola))[i] == BigBits(data)[counted + i]
    {
      assert positions[i] == PositionAt(start, i, Motorola);
      MotorolaBit(data, counted + i, positions[i]);
    }
  }

  /** In `whole`, the `length` bits above the lowest `start` ones write `field`. */
  predicate IsSlice(whole: nat, high: nat, field: nat, length: nat, low: nat, start: nat) {
    whole == (high * Pow2(length) + field) * Pow2(start) + low && field < Pow2(length) && low < Pow2(start)
  }

  lemma SliceOfBits(bits: seq<nat>, from: nat, upTo: nat) returns (high: nat, low: nat)
    requires from <= upTo <= |bits| && forall i :: 0 <= i < |bits| ==> bits[i] <= 1
    ensures IsSlice(Number(bits), high, Number(bits[from..upTo]), upTo - from, low, |bits| - upTo)
  {
    high, low := Number(bits[..from]), Number(bits[upTo..]);
    assert bits[..upTo] == bits[..from] + bits[from..upTo];
    assert bits == bits[..upTo] + bits[upTo..];
    NumberSplits(bits[..from], bits[from..upTo]);
    NumberSplits(bits[..upTo], bits[upTo..]);
    NumberIsBounded(bits[from..upTo]);
    NumberIsBounded(bits[upTo..]);
  }

  lemma {:induction false} LittleBitsAreBits(bytes: seq<byte>)
    ensures forall i :: 0 <= i < |LittleBits(bytes)| ==> LittleBits(bytes)[i] <= 1
  {
    if bytes != [] {
      LittleBitsAreBits(bytes[1..]);
    }
  }

  lemma {:induction false} BigBitsAreBits(bytes: seq<byte>)
    ensures forall i :: 0 <= i < |BigBits(bytes)| ==> BigBits(bytes)[i] <= 1
  {
    if bytes != [] {
      BigBitsAreBits(bytes[..|bytes| - 1]);
    }
  }

  lemma FieldFits(start: nat, length: nat, order: ByteOrder)
    requires Offset(start, order) + length <= 64
    ensures InPayload(Positions(start, length, order))
  {
    forall i | 0 <= i < length
      ensures 0 <= Positions(start, length, order)[i] < 64
    {
      PositionInPayload(start, i, order, 8);
    }
  }

  /** The number of an Intel field is cut out of the payload's little-endian number, above its start bit. */
  lemma IntelFieldIsSlice(data: Payload, start: nat, length: nat) returns (high: nat, low: nat)
    requires start + length <= 64
    ensures InPayload(Positions(start, length, Intel))
    ensures IsSlice(Little(data), high, FieldNumber(data, Positions(start, length, Intel), Intel), length, low, start)
  {
    FieldFits(start, length, Intel);
    IntelBits(data, start, length, Positions(start, length, Intel));
    LittleBitsAreBits(data);
    LittleBitsWrite(data);
    high, low := SliceOfBits(LittleBits(data), 64 - start - length, 64 - start);
  }

  /** That of a Motorola field out of the big-endian number, behind the `counted` bits in front of it. */
  lemma MotorolaFieldIsSlice(data: Payload, start: nat, length: nat, counted: nat) returns (high: nat, low: nat)
    requires counted == 8 * (start / 8) + 7 - start % 8 && counted + length <= 64
    ensures InPayload(Positions(start, length, Motorola))
    ensures IsSlice(Big(data), high, FieldNumber(data, Positions(start, length, Motorola), Motorola), length, low,
                    64 - counted - length)
  {
    FieldFits(start, length, Motorola);
    MotorolaBits(data, start, counted, length, Positions(start, length, Motorola));
    BigBitsAreBits(data);
    BigBitsWrite(data);
    high, low := SliceOfBits(BigBits(data), counted, counted + length);
  }

  lemma LittleBytes(data: Payload, j: nat, n: nat, start: nat, length: nat)
    requires j + n <= 8 && start == 8 * j && length == 8 * n
    ensures InPayload(Positions(start, length, Intel))
    ensures FieldNumber(data, Positions(start, length, Intel), Intel) == Little(data[j..j + n])
  {
    FieldFits(start, length, Intel);
    IntelBits(data, start, length, Positions(start, length, Intel));
    BytesAreSlices(data, j, n);
    LittleBitsWrite(data[j..j + n]);
    assert 64 - start - length == 64 - (8 * j + 8 * n);
  }

  lemma BigBytes(data: Payload, j: nat, n: nat, start: nat, length: nat)
    requires j + n <= 8 && start == 8 * j + 7 && length == 8 * n
    ensures InPayload(Positions(start, length, Motorola))
    ensures FieldNumber(data, Positions(start, length, Motorola), Motorola) == Big(data[j..j + n])
  {
    assert Sawtooth(start) == 8 * j;
    FieldFits(start, length, Motorola);
    MotorolaBits(data, start, 8 * j, length, Positions(start, length, Motorola));
    BytesAreSlices(data, j, n);
    BigBitsWrite(data[j..j + n]);
  }

  /** A field of whole bytes is the number those bytes write. */
  lemma WholeBytesAreRead(data: Payload, j: nat, n: nat)
    requires j + n <= 8
    ensures InPayload(Positions(8 * j, 8 * n, Intel)) && InPayload(Positions(8 * j + 7, 8 * n, Motorola))
    ensures FieldNumber(data, Positions(8 * j, 8 * n, Intel), Intel) == Little(data[j..j + n])
    ensures FieldNumber(data, Positions(8 * j + 7, 8 * n, Motorola), Motorola) == Big(data[j..j + n])
  {
    LittleBytes(data, j, n, 8 * j, 8 * n);
    BigBytes(data, j, n, 8 * j + 7, 8 * n);
  }
}
