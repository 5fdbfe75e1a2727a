/**
 The 16-bit checksum of the serial protocol (uiCrc16Cal in
 cc2530/Programador Arduino/programador_C/src/Comunicacao.h) and the errors it is sure to detect.
*/
module Crc16 {
  type octet = bv8

  const PRESET_VALUE: bv16 := 0xFFFF

  /** One turn of the inner loop; 0x8408 is the source's POLYNOMIAL. */
  function Shift(c: bv16): bv16 {
    if c & 1 == 1 then (c >> 1) ^ 0x8408 else c >> 1
  }

  function Shifts(c: bv16, n: nat): bv16
    decreases n
  {
    if n == 0 then c else Shifts(Shift(c), n - 1)
  }

  function Xor(c: bv16, d: bv16): bv16 {
    c ^ d
  }

  /** The checksum register after the message, starting from c. */
  function Update(c: bv16, message: seq<octet>): bv16
    decreases |message|
  {
    if message == [] then c else Update(Shifts(Xor(c, message[0] as bv16), 8), message[1..])
  }

  function Crc(message: seq<octet>): bv16 {
    Update(PRESET_VALUE, message)
  }

  function LowByte(w: bv16): octet {
    (w & 0xFF) as bv8
  }

  function HighByte(w: bv16): octet {
    (w >> 8) as bv8
  }

  /** The inner loop of uiCrc16Cal: the eight shifts of one byte. */
  method ShiftByte(start: bv16) returns (crc: bv16)
    ensures crc == Shifts(start, 8)
  {
    crc := start;
    for j := 0 to 8
      invariant Shifts(crc, 8 - j) == Shifts(start, 8)
    {
      crc := ShiftOnce(crc);
    }
  }

  method ShiftOnce(c: bv16) returns (crc: bv16)
    ensures crc == Shift(c)
  {
    if c & 1 == 1 {
      crc := (c >> 1) ^ 0x8408;
    } else {
      crc := c >> 1;
    }
  }

  /** uiCrc16Cal */
  method Crc16Cal(buffer: array<octet>, len: nat) returns (crc: bv16)
    requires len <= buffer.Length && len < 0x1_0000
    ensures crc == Crc(buffer[..len])
  {
    hide Shifts, Xor;
    crc := PRESET_VALUE;
    assert buffer[..len] == buffer[0..len];
    for i := 0 to len
      invariant Update(crc, buffer[i..len]) == Crc(buffer[..len])
    {
      assert buffer[i..len][1..] == buffer[i + 1..len];
      crc := ShiftByte(Xor(crc, buffer[i] as bv16));
    }
  }

  // ---------------------------------------------------------------- the shift is linear and can be undone

  lemma OddOrEven(c: bv16)
    ensures c & 1 == 0 || c & 1 == 1
  {
  }

  lemma BothEven(c: bv16, d: bv16)
    requires c & 1 == 0 && d & 1 == 0
    ensures (c ^ d) & 1 == 0 && (c ^ d) >> 1 == (c >> 1) ^ (d >> 1)
  {
  }

  lemma BothOdd(c: bv16, d: bv16)
    requires c & 1 == 1 && d & 1 == 1
    ensures (c ^ d) & 1 == 0 && (c ^ d) >> 1 == ((c >> 1) ^ 0x8408) ^ ((d >> 1) ^ 0x8408)
  {
  }

  lemma OddEven(c: bv16, d: bv16)
    requires c & 1 == 1 && d & 1 == 0
    ensures (c ^ d) & 1 == 1 && ((c ^ d) >> 1) ^ 0x8408 == ((c >> 1) ^ 0x8408) ^ (d >> 1)
  {
  }

  lemma EvenOdd(c: bv16, d: bv16)
    requires c & 1 == 0 && d & 1 == 1
    ensures (c ^ d) & 1 == 1 && ((c ^ d) >> 1) ^ 0x8408 == (c >> 1) ^ ((d >> 1) ^ 0x8408)
  {
  }

  lemma ShiftOfXor(c: bv16, d: bv16)
    ensures Shift(c ^ d) == Shift(c) ^ Shift(d)
  {
    OddOrEven(c);
    OddOrEven(d);
    if c & 1 == 1 {
      if d & 1 == 1 {
        BothOdd(c, d);
      } else {
        OddEven(c, d);
      }
    } else if d & 1 == 1 {
      EvenOdd(c, d);
    } else {
      BothEven(c, d);
    }
  }

  lemma ShiftLinear(c: bv16, d: bv16)
    ensures Shift(Xor(c, d)) == Xor(Shift(c), Shift(d))
  {
    hide Shift;
    ShiftOfXor(c, d);
  }

  function Unshift(c: bv16): bv16 {
    if c & 0x8000 != 0 then ((c ^ 0x8408) << 1) | 1 else c << 1
  }

  lemma UnshiftOdd(c: bv16)
    requires c & 1 == 1
    ensures ((c >> 1) ^ 0x8408) & 0x8000 != 0 && (((((c >> 1) ^ 0x8408) ^ 0x8408) << 1) | 1) == c
  {
  }

  lemma UnshiftEven(c: bv16)
    requires c & 1 == 0
    ensures (c >> 1) & 0x8000 == 0 && (c >> 1) << 1 == c
  {
  }

  lemma ShiftUndone(c: bv16)
    ensures Unshift(Shift(c)) == c
  {
    OddOrEven(c);
    if c & 1 == 1 {
      UnshiftOdd(c);
    } else {
      UnshiftEven(c);
    }
  }

  lemma {:induction false} ShiftsInjective(c: bv16, d: bv16, n: nat)
    requires Shifts(c, n) == Shifts(d, n)
    ensures c == d
    decreases n
  {
    hide Shift, Unshift;
    if n > 0 {
      ShiftsInjective(Shift(c), Shift(d), n - 1);
      ShiftUndone(c);
      ShiftUndone(d);
    }
  }

  lemma {:induction false} ShiftsLinear(c: bv16, d: bv16, n: nat)
    ensures Shifts(Xor(c, d), n) == Xor(Shifts(c, n), Shifts(d, n))
    decreases n
  {
    hide Shift, Xor;
    if n > 0 {
      ShiftLinear(c, d);
      ShiftsLinear(Shift(c), Shift(d), n - 1);
    }
  }

  lemma {:induction false} UpdateConcat(c: bv16, x: seq<octet>, y: seq<octet>)
    ensures Update(c, x + y) == Update(Update(c, x), y)
    decreases |x|
  {
    hide Shifts, Xor;
    if x == [] {
      assert x + y == y;
    } else {
      UpdateConcat(Shifts(Xor(c, x[0] as bv16), 8), x[1..], y);
      assert (x + y)[1..] == x[1..] + y;
    }
  }

  // ---------------------------------------------------------------- bits

  function Odd(r: bv16): bool {
    r & 1 == 1
  }

  function Half(r: bv16): bv16 {
    r >> 1
  }

  function EvenPart(r: bv16): bv16 {
    (r >> 1) << 1
  }

  function Bit(b: bool): bv16 {
    if b then 1 else 0
  }

  /** The register after single bits. */
  function Feed(c: bv16, bits: seq<bool>): bv16
    decreases |bits|
  {
    if bits == [] then c else Feed(Shift(Xor(c, Bit(bits[0]))), bits[1..])
  }

  /** The n lowest bits, lowest first: the order in which a byte is shifted in. */
  function LowBits(r: bv16, n: nat): (bits: seq<bool>)
    ensures |bits| == n
    decreases n
  {
    if n == 0 then [] else [Odd(r)] + LowBits(Half(r), n - 1)
  }

  function Halved(r: bv16, n: nat): bv16
    decreases n
  {
    if n == 0 then r else Halved(Half(r), n - 1)
  }

  function AllBits(message: seq<octet>): (bits: seq<bool>)
    ensures |bits| == 8 * |message|
  {
    if message == [] then [] else LowBits(message[0] as bv16, 8) + AllBits(message[1..])
  }

  lemma Peel(c: bv16, r: bv16)
    ensures Xor(c, r) == Xor(Xor(c, Bit(Odd(r))), EvenPart(r))
  {
    OddOrEven(r);
    if r & 1 == 1 {
      PeelOdd(c, r);
    } else {
      UnshiftEven(r);
      XorZero(c);
    }
  }

  lemma PeelOdd(c: bv16, r: bv16)
    requires r & 1 == 1
    ensures c ^ r == (c ^ 1) ^ ((r >> 1) << 1)
  {
  }

  lemma XorZero(c: bv16)
    ensures Xor(c, 0) == c
  {
  }

  lemma ShiftEven(r: bv16)
    ensures Shift(EvenPart(r)) == Half(r)
  {
    EvenPartShifted(r);
  }

  lemma EvenPartShifted(r: bv16)
    ensures ((r >> 1) << 1) & 1 == 0 && ((r >> 1) << 1) >> 1 == r >> 1
  {
  }

  /** Shifting a word in at once or bit by bit is the same. */
  lemma {:induction false} ShiftsFeed(c: bv16, r: bv16, n: nat)
    ensures Shifts(Xor(c, r), n) == Xor(Feed(c, LowBits(r, n)), Halved(r, n))
    decreases n
  {
    hide Shift, Bit, Xor, Odd, Half, EvenPart;
    if n > 0 {
      var fed := Xor(c, Bit(Odd(r)));
      Peel(c, r);
      ShiftLinear(fed, EvenPart(r));
      ShiftEven(r);
      ShiftsFeed(Shift(fed), Half(r), n - 1);
      assert LowBits(r, n)[1..] == LowBits(Half(r), n - 1);
    }
  }

  lemma OctetHalved(b: octet)
    ensures Halved(b as bv16, 8) == 0
  {
  }

  lemma {:induction false} FeedConcat(c: bv16, x: seq<bool>, y: seq<bool>)
    ensures Feed(c, x + y) == Feed(Feed(c, x), y)
    decreases |x|
  {
    hide Shift, Bit, Xor;
    if x == [] {
      assert x + y == y;
    } else {
      FeedConcat(Shift(Xor(c, Bit(x[0]))), x[1..], y);
      assert (x + y)[1..] == x[1..] + y;
    }
  }

  /** The register after a message is the register after its bits. */
  lemma {:induction false} UpdateBits(c: bv16, message: seq<octet>)
    ensures Update(c, message) == Feed(c, AllBits(message))
    decreases |message|
  {
    hide Shifts, LowBits, Halved, Feed, Xor;
    EmptyFeed(c);
    if message != [] {
      var b := message[0] as bv16;
      ShiftsFeed(c, b, 8);
      OctetHalved(message[0]);
      XorZero(Feed(c, LowBits(b, 8)));
      FeedConcat(c, LowBits(b, 8), AllBits(message[1..]));
      UpdateBits(Shifts(Xor(c, b), 8), message[1..]);
    }
  }

  lemma EmptyFeed(c: bv16)
    ensures Feed(c, []) == c
  {
  }
}
