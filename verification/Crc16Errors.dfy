/** Which transmission errors the checksum is sure to detect, and what it is after a message with its checksum. */
module Crc16Errors {
  import opened Crc16

  // ---------------------------------------------------------------- exclusive or

  lemma XorSame(c: bv16)
    ensures Xor(c, c) == 0
  {
  }

  lemma XorEqual(c: bv16, d: bv16)
    ensures Xor(c, d) == 0 ==> c == d
  {
  }

  lemma XorCancel(c: bv16, d: bv16, e: bv16)
    ensures Xor(c, e) == Xor(d, e) ==> c == d
  {
  }

  lemma XorAssociates(a: bv16, b: bv16, c: bv16)
    ensures Xor(Xor(a, b), c) == Xor(a, Xor(b, c))
  {
  }

  lemma XorCommutes(a: bv16, b: bv16)
    ensures Xor(a, b) == Xor(b, a)
  {
  }

  lemma XorInterchange(a: bv16, b: bv16, c: bv16, d: bv16)
    ensures Xor(Xor(a, b), Xor(c, d)) == Xor(Xor(a, c), Xor(b, d))
  {
    hide Xor;
    XorAssociates(a, b, Xor(c, d));
    XorAssociates(b, c, d);
    XorCommutes(b, c);
    XorAssociates(c, b, d);
    XorAssociates(a, c, Xor(b, d));
  }

  lemma XorBit(a: bool, b: bool)
    ensures Bit(a != b) == Xor(Bit(a), Bit(b))
  {
  }

  // ---------------------------------------------------------------- linearity over messages

  function XorBits(x: seq<bool>, y: seq<bool>): (r: seq<bool>)
    requires |x| == |y|
    ensures |r| == |x| && forall i | 0 <= i < |x| :: r[i] == (x[i] != y[i])
  {
    if x == [] then [] else [x[0] != y[0]] + XorBits(x[1..], y[1..])
  }

  /** The register is linear in its start and the bits together. */
  lemma {:induction false} FeedLinear(c: bv16, d: bv16, x: seq<bool>, y: seq<bool>)
    requires |x| == |y|
    ensures Feed(Xor(c, d), XorBits(x, y)) == Xor(Feed(c, x), Feed(d, y))
    decreases |x|
  {
    hide Shift, Xor, Bit;
    if x != [] {
      var p, q := Xor(c, Bit(x[0])), Xor(d, Bit(y[0]));
      XorBit(x[0], y[0]);
      XorInterchange(c, d, Bit(x[0]), Bit(y[0]));
      ShiftLinear(p, q);
      FeedLinear(Shift(p), Shift(q), x[1..], y[1..]);
      assert XorBits(x, y)[1..] == XorBits(x[1..], y[1..]);
    }
  }

  lemma {:induction false} FeedInjective(c: bv16, d: bv16, bits: seq<bool>)
    requires Feed(c, bits) == Feed(d, bits)
    ensures c == d
    decreases |bits|
  {
    hide Shift, Unshift, Xor, Bit;
    if bits != [] {
      var p, q := Xor(c, Bit(bits[0])), Xor(d, Bit(bits[0]));
      FeedInjective(Shift(p), Shift(q), bits[1..]);
      ShiftUndone(p);
      ShiftUndone(q);
      XorCancel(c, d, Bit(bits[0]));
    }
  }

  // ---------------------------------------------------------------- bursts

  lemma HalfZero()
    ensures Half(0) == 0
  {
  }

  lemma {:induction false} HalvedMore(r: bv16, n: nat)
    requires Halved(r, n) == 0
    ensures Halved(r, n + 1) == 0
    decreases n
  {
    hide Half;
    HalfZero();
    if n > 0 {
      HalvedMore(Half(r), n - 1);
    }
  }

  lemma {:induction false} HalvedFifteen(r: bv16, n: nat)
    requires n <= 15 && Halved(r, n) == 0
    ensures Halved(r, 15) == 0
    decreases 15 - n
  {
    hide Half;
    if n < 15 {
      HalvedMore(r, n);
      HalvedFifteen(r, n + 1);
    }
  }

  lemma {:induction false} HalvedSum(r: bv16, m: nat, n: nat)
    ensures Halved(r, m + n) == Halved(Halved(r, m), n)
    decreases m
  {
    hide Half;
    if m > 0 {
      HalvedSum(Half(r), m - 1, n);
    }
  }

  lemma HalvedFive(r: bv16)
    ensures Halved(r, 5) == r >> 5
  {
  }

  lemma TopBitRaw(r: bv16)
    requires ((r >> 5) >> 5) >> 5 == 0
    ensures r & 0x8000 == 0
  {
  }

  lemma TopBit(r: bv16)
    requires Halved(r, 15) == 0
    ensures r & 0x8000 == 0
  {
    hide Half, Halved;
    HalvedSum(r, 5, 10);
    HalvedSum(r >> 5, 5, 5);
    HalvedFive(r);
    HalvedFive(r >> 5);
    HalvedFive((r >> 5) >> 5);
    TopBitRaw(r);
  }

  /** A result without its top bit comes from an even word. */
  lemma ShiftBack(t: bv16)
    requires Shift(t) & 0x8000 == 0
    ensures !Odd(t) && Half(t) == Shift(t)
  {
    OddOrEven(t);
    if t & 1 == 1 {
      UnshiftOdd(t);
    }
  }

  lemma HalfOfXorBit(c: bv16, b: bool)
    ensures Half(Xor(c, Bit(b))) == Half(c)
  {
  }

  lemma ZeroXorBit(b: bool)
    ensures Odd(Xor(0, Bit(b))) == b && (!b ==> Xor(0, Bit(b)) == 0)
  {
  }

  ghost predicate AllFalse(bits: seq<bool>) {
    forall i | 0 <= i < |bits| :: !bits[i]
  }

  /** Sixteen bits or fewer that take the empty register back to zero are all zero. */
  lemma {:induction false} ShortFeed(c: bv16, bits: seq<bool>)
    requires |bits| <= 16 && Feed(c, bits) == 0
    ensures Halved(c, |bits|) == 0 && (c == 0 ==> AllFalse(bits))
    decreases |bits|
  {
    hide Shift, Xor, Bit, Half, Odd;
    if bits != [] {
      var t := Xor(c, Bit(bits[0]));
      var s := Shift(t);
      ShortFeed(s, bits[1..]);
      HalvedFifteen(s, |bits| - 1);
      TopBit(s);
      ShiftBack(t);
      HalfOfXorBit(c, bits[0]);
      ZeroXorBit(bits[0]);
      HalfZero();
    }
  }

  /** From the same start, different strings of at most sixteen bits lead to different registers. */
  lemma ShortInjective(c: bv16, u: seq<bool>, v: seq<bool>)
    requires |u| == |v| <= 16 && Feed(c, u) == Feed(c, v)
    ensures u == v
  {
    hide Feed, Xor;
    FeedLinear(c, c, u, v);
    XorSame(c);
    XorSame(Feed(c, u));
    ShortFeed(0, XorBits(u, v));
    forall i | 0 <= i < |u|
      ensures u[i] == v[i]
    {
      assert !XorBits(u, v)[i];
    }
  }

  lemma BurstInBits(c: bv16, p: seq<bool>, u: seq<bool>, v: seq<bool>, q: seq<bool>)
    requires |u| == |v| <= 16 && Feed(c, p + u + q) == Feed(c, p + v + q)
    ensures u == v
  {
    hide Feed, Xor;
    var d := Feed(c, p);
    FeedConcat(c, p + u, q);
    FeedConcat(c, p + v, q);
    FeedConcat(c, p, u);
    FeedConcat(c, p, v);
    FeedInjective(Feed(d, u), Feed(d, v), q);
    ShortInjective(d, u, v);
  }

  lemma HalfAndBit(a: bv16, b: bv16)
    requires Odd(a) == Odd(b) && Half(a) == Half(b)
    ensures a == b
  {
    OddOrEven(a);
    OddOrEven(b);
    HalfAndBitRaw(a, b);
  }

  lemma HalfAndBitRaw(a: bv16, b: bv16)
    ensures a & 1 == b & 1 && a >> 1 == b >> 1 ==> a == b
  {
  }

  lemma {:induction false} LowBitsInjective(a: bv16, b: bv16, n: nat)
    requires LowBits(a, n) == LowBits(b, n) && Halved(a, n) == Halved(b, n)
    ensures a == b
    decreases n
  {
    hide Odd, Half;
    if n > 0 {
      assert LowBits(a, n)[0] == Odd(a) && LowBits(b, n)[0] == Odd(b);
      assert LowBits(a, n)[1..] == LowBits(Half(a), n - 1) && LowBits(b, n)[1..] == LowBits(Half(b), n - 1);
      LowBitsInjective(Half(a), Half(b), n - 1);
      HalfAndBit(a, b);
    }
  }

  lemma Widened(a: octet, b: octet)
    ensures a as bv16 == b as bv16 ==> a == b
  {
  }

  lemma {:induction false} AllBitsInjective(x: seq<octet>, y: seq<octet>)
    requires |x| == |y| && AllBits(x) == AllBits(y)
    ensures x == y
    decreases |x|
  {
    hide LowBits, Halved;
    if x != [] {
      assert AllBits(x)[..8] == LowBits(x[0] as bv16, 8) && AllBits(y)[..8] == LowBits(y[0] as bv16, 8);
      assert AllBits(x)[8..] == AllBits(x[1..]) && AllBits(y)[8..] == AllBits(y[1..]);
      OctetHalved(x[0]);
      OctetHalved(y[0]);
      LowBitsInjective(x[0] as bv16, y[0] as bv16, 8);
      Widened(x[0], y[0]);
      AllBitsInjective(x[1..], y[1..]);
    }
  }

  /** The bits of the two messages agree but for at most sixteen consecutive ones, from bit i on. */
  ghost predicate DifferInBurst(x: seq<octet>, y: seq<octet>, i: nat) {
    && |x| == |y| && i <= 8 * |x|
    && forall k | 0 <= k < 8 * |x| && !(i <= k < i + 16) :: AllBits(x)[k] == AllBits(y)[k]
  }

  /**
   Two different messages that differ in a burst of at most sixteen bits, wherever it is, have different checksums.
  */
  lemma BurstDetected(c: bv16, x: seq<octet>, y: seq<octet>, i: nat)
    requires DifferInBurst(x, y, i) && x != y
    ensures Update(c, x) != Update(c, y)
  {
    hide Feed, Shifts, Update, DifferInBurst, AllBits;
    var j := if i + 16 <= 8 * |x| then i + 16 else 8 * |x|;
    BurstParts(x, y, i, j);
    UpdateBits(c, x);
    UpdateBits(c, y);
    if Update(c, x) == Update(c, y) {
      var a, b := AllBits(x), AllBits(y);
      BurstInBits(c, a[..i], a[i..j], b[i..j], a[j..]);
      AllBitsInjective(x, y);
    }
  }

  /** The bits of the messages in front of the burst, in it and behind it. */
  lemma BurstParts(x: seq<octet>, y: seq<octet>, i: nat, j: nat)
    requires DifferInBurst(x, y, i) && j == if i + 16 <= 8 * |x| then i + 16 else 8 * |x|
    ensures |x| == |y| && i <= j <= i + 16 && j <= 8 * |x|
    ensures AllBits(x) == AllBits(x)[..i] + AllBits(x)[i..j] + AllBits(x)[j..]
    ensures AllBits(y) == AllBits(x)[..i] + AllBits(y)[i..j] + AllBits(x)[j..]
  {
    hide AllBits;
    var a, b := AllBits(x), AllBits(y);
    assert a[..i] == b[..i] && a[j..] == b[j..];
  }

  lemma {:induction false} BitAt(m: seq<octet>, k: nat)
    requires k < 8 * |m|
    ensures AllBits(m)[k] == LowBits(m[k / 8] as bv16, 8)[k % 8]
    decreases |m|
  {
    hide LowBits;
    if k >= 8 {
      BitAt(m[1..], k - 8);
      assert AllBits(m)[k] == AllBits(m[1..])[k - 8];
    }
  }

  lemma AdjacentBurst(x: seq<octet>, y: seq<octet>, j: nat)
    requires |x| == |y| && j <= |x|
    requires forall k | 0 <= k < |x| && k != j && k != j + 1 :: x[k] == y[k]
    ensures DifferInBurst(x, y, 8 * j)
  {
    hide LowBits, AllBits;
    forall k | 0 <= k < 8 * |x| && !(8 * j <= k < 8 * j + 16)
      ensures AllBits(x)[k] == AllBits(y)[k]
    {
      BitAt(x, k);
      BitAt(y, k);
    }
  }

  /** Two messages that differ only inside two adjacent bytes. */
  lemma AdjacentBytes(x: seq<octet>, y: seq<octet>, j: nat)
    requires |x| == |y| && j <= |x| && x != y
    requires forall k | 0 <= k < |x| && k != j && k != j + 1 :: x[k] == y[k]
    ensures Crc(x) != Crc(y)
  {
    hide Update, DifferInBurst;
    AdjacentBurst(x, y, j);
    BurstDetected(PRESET_VALUE, x, y, 8 * j);
  }

  /** The register behind a message tells where it started. */
  lemma UpdateInjective(c: bv16, d: bv16, message: seq<octet>)
    requires Update(c, message) == Update(d, message)
    ensures c == d
  {
    hide Feed, Update;
    UpdateBits(c, message);
    UpdateBits(d, message);
    FeedInjective(c, d, AllBits(message));
  }

  lemma PresetMoves()
    ensures Shifts(PRESET_VALUE, 8) == 0x0f87
  {
  }

  /** A zero byte in front of a message changes its checksum: the register does not start at zero. */
  lemma LeadingZeroDetected(message: seq<octet>)
    ensures Crc([0] + message) != Crc(message)
  {
    hide Shifts, Update;
    PresetMoves();
    XorZero(PRESET_VALUE);
    FrontByte(PRESET_VALUE, 0, message);
    if Crc([0] + message) == Crc(message) {
      UpdateInjective(Shifts(PRESET_VALUE, 8), PRESET_VALUE, message);
    }
  }

  lemma FrontByte(c: bv16, b: octet, message: seq<octet>)
    ensures Update(c, [b] + message) == Update(Shifts(Xor(c, b as bv16), 8), message)
  {
    hide Shifts, Xor;
    assert ([b] + message)[1..] == message;
  }

  // ---------------------------------------------------------------- odd numbers of errors

  /** Whether the number of ones among the n lowest bits is odd. */
  function LowParity(c: bv16, n: nat): bool
    decreases n
  {
    n > 0 && Odd(c) != LowParity(Half(c), n - 1)
  }

  function Parity(c: bv16): bool {
    LowParity(c, 16)
  }

  function OddOnes(bits: seq<bool>): bool {
    if bits == [] then false else bits[0] != OddOnes(bits[1..])
  }

  lemma HalfOfXor(c: bv16, d: bv16)
    ensures Half(Xor(c, d)) == Xor(Half(c), Half(d))
  {
  }

  lemma LowBitOfXor(c: bv16, d: bv16)
    ensures (c ^ d) & 1 == (c & 1) ^ (d & 1)
  {
  }

  lemma OddOfXor(c: bv16, d: bv16)
    ensures Odd(Xor(c, d)) == (Odd(c) != Odd(d))
  {
    LowBitOfXor(c, d);
    LowBitCases(c & 1, d & 1, (c ^ d) & 1);
    OddOrEven(c);
    OddOrEven(d);
  }

  lemma LowBitCases(a: bv16, b: bv16, r: bv16)
    requires (a == 0 || a == 1) && (b == 0 || b == 1) && r == a ^ b
    ensures r == 1 <==> a != b
  {
  }

  lemma {:induction false} XorParity(c: bv16, d: bv16, n: nat)
    ensures LowParity(Xor(c, d), n) == (LowParity(c, n) != LowParity(d, n))
    decreases n
  {
    hide Odd, Half, Xor;
    if n > 0 {
      OddOfXor(c, d);
      HalfOfXor(c, d);
      XorParity(Half(c), Half(d), n - 1);
    }
  }

  lemma {:induction false} ParityMore(c: bv16, n: nat)
    ensures LowParity(c, n + 1) == (LowParity(c, n) != Odd(Halved(c, n)))
    decreases n
  {
    hide Odd, Half;
    if n > 0 {
      ParityMore(Half(c), n - 1);
    }
  }

  lemma {:induction false} ZeroParity(n: nat)
    ensures !LowParity(0, n)
    decreases n
  {
    hide Half;
    HalfZero();
    ZeroOdd();
    if n > 0 {
      ZeroParity(n - 1);
    }
  }

  lemma ZeroOdd()
    ensures !Odd(0)
  {
  }

  lemma HalvedEight(r: bv16)
    ensures Halved(r, 8) == r >> 8
  {
  }

  lemma EightTwice(r: bv16)
    ensures (r >> 8) >> 8 == 0
  {
  }

  lemma HalvedSixteen(r: bv16)
    ensures Halved(r, 16) == 0
  {
    hide Halved;
    HalvedSum(r, 8, 8);
    HalvedEight(r);
    HalvedEight(r >> 8);
    EightTwice(r);
  }

  /** Halving an even word keeps its parity, halving an odd one changes it. */
  lemma HalfParity(c: bv16)
    ensures Parity(Half(c)) == (Parity(c) != Odd(c))
  {
    hide Odd, Half;
    HalvedSixteen(c);
    assert Halved(Half(c), 15) == 0;
    ParityMore(Half(c), 15);
    ZeroOdd();
  }

  function Terms(odd: bool): bv16 {
    if odd then 0x8408 else 0
  }

  lemma ShiftIsXor(c: bv16)
    ensures Shift(c) == Xor(Half(c), Terms(Odd(c)))
  {
    XorZero(c >> 1);
  }

  /** The polynomial without its highest term has three. */
  lemma PolynomialParity()
    ensures Parity(0x8408)
  {
    assert LowParity(0x8408, 16);
  }

  /** The polynomial has an even number of terms, so a shift keeps the parity. */
  lemma ShiftParity(c: bv16)
    ensures Parity(Shift(c)) == Parity(c)
  {
    hide Shift, Odd, Half, Xor, LowParity;
    ShiftIsXor(c);
    XorParity(Half(c), Terms(Odd(c)), 16);
    HalfParity(c);
    PolynomialParity();
    ZeroParity(16);
  }

  lemma BitWord(b: bool)
    ensures Odd(Bit(b)) == b && Half(Bit(b)) == 0
  {
  }

  lemma BitParity(c: bv16, b: bool)
    ensures Parity(Xor(c, Bit(b))) == (Parity(c) != b)
  {
    hide Odd, Half, Xor, Bit;
    XorParity(c, Bit(b), 16);
    BitWord(b);
    ZeroParity(15);
  }

  lemma {:induction false} FeedParity(c: bv16, bits: seq<bool>)
    ensures Parity(Feed(c, bits)) == (Parity(c) != OddOnes(bits))
    decreases |bits|
  {
    hide Shift, Xor, Bit, Parity;
    if bits != [] {
      var t := Xor(c, Bit(bits[0]));
      BitParity(c, bits[0]);
      ShiftParity(t);
      FeedParity(Shift(t), bits[1..]);
    }
  }

  lemma {:induction false} OddOnesXor(x: seq<bool>, y: seq<bool>)
    requires |x| == |y|
    ensures OddOnes(XorBits(x, y)) == (OddOnes(x) != OddOnes(y))
    decreases |x|
  {
    if x != [] {
      OddOnesXor(x[1..], y[1..]);
      assert XorBits(x, y)[1..] == XorBits(x[1..], y[1..]);
    }
  }

  /** An odd number of wrong bits, anywhere, changes the checksum. */
  lemma OddErrorsDetected(c: bv16, x: seq<octet>, y: seq<octet>)
    requires |x| == |y| && OddOnes(XorBits(AllBits(x), AllBits(y)))
    ensures Update(c, x) != Update(c, y)
  {
    hide Feed, Update, Parity;
    UpdateBits(c, x);
    UpdateBits(c, y);
    FeedParity(c, AllBits(x));
    FeedParity(c, AllBits(y));
    OddOnesXor(AllBits(x), AllBits(y));
  }

  // ---------------------------------------------------------------- the residue

  function Raised(b: octet): bv16 {
    (b as bv16) << 8
  }

  lemma {:induction false} FalseFeed(bits: seq<bool>)
    requires AllFalse(bits)
    ensures Feed(0, bits) == 0
    decreases |bits|
  {
    hide Shift, Xor, Bit;
    if bits != [] {
      ZeroXorBit(bits[0]);
      ShiftZero();
      FalseFeed(bits[1..]);
    }
  }

  lemma ShiftZero()
    ensures Shift(0) == 0
  {
  }

  lemma RaisedBits(b: octet)
    ensures AllFalse(LowBits(Raised(b), 8)) && Halved(Raised(b), 8) == b as bv16
  {
  }

  lemma ZeroXor(c: bv16)
    ensures Xor(0, c) == c
  {
  }

  lemma RaisedShifts(b: octet)
    ensures Shifts(Raised(b), 8) == b as bv16
  {
    hide Shifts, Feed, LowBits, Halved, Raised, Xor;
    ShiftsFeed(0, Raised(b), 8);
    RaisedBits(b);
    FalseFeed(LowBits(Raised(b), 8));
    ZeroXor(Raised(b));
    ZeroXor(b as bv16);
  }

  lemma ZeroShifts(n: nat)
    ensures Shifts(0, n) == 0
    decreases n
  {
    hide Shift;
    ShiftZero();
    if n > 0 {
      ZeroShifts(n - 1);
    }
  }

  lemma Halves(c: bv16, low: octet, high: octet)
    ensures Xor(c, low as bv16) == Raised(high) <==> low == LowByte(c) && high == HighByte(c)
  {
  }

  /**
   Running the checksum over a message and two more bytes gives zero exactly if they are its checksum, low byte
   first.
  */
  lemma ResidueExact(c: bv16, data: seq<octet>, low: octet, high: octet)
    ensures Update(c, data + [low, high]) == 0
       <==> low == LowByte(Update(c, data)) && high == HighByte(Update(c, data))
  {
    hide Shifts, Xor, Raised, LowByte, HighByte;
    var d := Update(c, data);
    UpdateConcat(c, data, [low, high]);
    var e := Shifts(Xor(d, low as bv16), 8);
    TwoUpdates(d, low, high);
    ZeroShifts(8);
    if Shifts(Xor(e, high as bv16), 8) == 0 {
      ShiftsInjective(Xor(e, high as bv16), 0, 8);
      XorEqual(e, high as bv16);
    }
    XorSame(high as bv16);
    RaisedShifts(high);
    if e == high as bv16 {
      ShiftsInjective(Xor(d, low as bv16), Raised(high), 8);
    }
    Halves(d, low, high);
  }

  lemma TwoUpdates(d: bv16, low: octet, high: octet)
    ensures Update(d, [low, high]) == Shifts(Xor(Shifts(Xor(d, low as bv16), 8), high as bv16), 8)
  {
    hide Shifts, Xor;
    var e := Shifts(Xor(d, low as bv16), 8);
    assert [low, high][1..] == [high];
    assert Update(e, [high]) == Update(Shifts(Xor(e, high as bv16), 8), []);
  }
}
