/** Two wrong bits: the checksum misses them exactly when their distance is a multiple of 32767. */
module Crc16Period {
  import opened Numbers
  import opened Crc16
  import opened Crc16Errors

  const TOP: bv16 := 0x8000
  const PERIOD: nat := 32767

  // ---------------------------------------------------------------- squares

  /** The register after n shifts of its top bit. */
  function Power(n: nat): bv16 {
    Shifts(TOP, n)
  }

  lemma {:induction false} ShiftsSum(c: bv16, m: nat, n: nat)
    ensures Shifts(c, m + n) == Shifts(Shifts(c, m), n)
    decreases m
  {
    hide Shift;
    if m > 0 {
      ShiftsSum(Shift(c), m - 1, n);
    }
  }

  lemma OneShift(w: bv16)
    ensures Shifts(w, 1) == Shift(w)
  {
  }

  lemma PowerShifted(m: nat, n: nat)
    ensures Power(m + n) == Shifts(Power(m), n)
  {
    ShiftsSum(TOP, m, n);
  }

  /** The word w if the bit of c is set. */
  function Term(c: bv16, bit: bv16, w: bv16): bv16 {
    if c & bit != 0 then w else 0
  }

  // The four digits of a word, squared: the bit that is k places below the top gives the word after 2 * k shifts.

  function Square0(c: bv16): bv16 {
    (Term(c, 0x8000, 0x8000) ^ Term(c, 0x4000, 0x2000)) ^ (Term(c, 0x2000, 0x0800) ^ Term(c, 0x1000, 0x0200))
  }

  function Square1(c: bv16): bv16 {
    (Term(c, 0x0800, 0x0080) ^ Term(c, 0x0400, 0x0020)) ^ (Term(c, 0x0200, 0x0008) ^ Term(c, 0x0100, 0x0002))
  }

  function Square2(c: bv16): bv16 {
    (Term(c, 0x0080, 0x8408) ^ Term(c, 0x0040, 0x2102)) ^ (Term(c, 0x0020, 0x8c48) ^ Term(c, 0x0010, 0x2312))
  }

  function Square3(c: bv16): bv16 {
    (Term(c, 0x0008, 0x8ccc) ^ Term(c, 0x0004, 0x2333)) ^ (Term(c, 0x0002, 0xcec0) ^ Term(c, 0x0001, 0x33b0))
  }

  /** Words are polynomials and shifting is multiplication; this is the square. */
  function Square(c: bv16): bv16 {
    (Square0(c) ^ Square1(c)) ^ (Square2(c) ^ Square3(c))
  }

  lemma MaskedXor(c: bv16, d: bv16, bit: bv16)
    ensures Xor(c, d) & bit == Xor(c & bit, d & bit)
  {
  }

  lemma TermAdds(c: bv16, d: bv16, bit: bv16, w: bv16)
    requires (c & bit == 0 || c & bit == bit) && (d & bit == 0 || d & bit == bit) && bit != 0
    ensures Term(Xor(c, d), bit, w) == Xor(Term(c, bit, w), Term(d, bit, w))
  {
    hide Xor;
    MaskedXor(c, d, bit);
    XorSame(bit);
    XorSame(w);
    XorSame(0);
    XorZero(bit);
    XorZero(w);
    ZeroXor(bit);
    ZeroXor(w);
  }

  lemma XorPairs(a: bv16, b: bv16, c: bv16, d: bv16, e: bv16, f: bv16, g: bv16, h: bv16)
    ensures Xor(Xor(Xor(a, b), Xor(c, d)), Xor(Xor(e, f), Xor(g, h)))
         == Xor(Xor(Xor(a, e), Xor(b, f)), Xor(Xor(c, g), Xor(d, h)))
  {
    hide Xor;
    XorInterchange(a, b, e, f);
    XorInterchange(c, d, g, h);
    XorInterchange(Xor(a, b), Xor(c, d), Xor(e, f), Xor(g, h));
  }

  lemma Digit0Terms(c: bv16)
    ensures Square0(c) == Xor(Xor(Term(c, 0x8000, 0x8000), Term(c, 0x4000, 0x2000)),
                            Xor(Term(c, 0x2000, 0x0800), Term(c, 0x1000, 0x0200)))
  {
    hide Term;
  }

  lemma Digit0Adds(c: bv16, d: bv16)
    ensures Square0(Xor(c, d)) == Xor(Square0(c), Square0(d))
  {
    hide Xor, Term, Square0;
    Digit0Terms(c);
    Digit0Terms(d);
    Digit0Terms(Xor(c, d));
    TermAdds(c, d, 0x8000, 0x8000);
    TermAdds(c, d, 0x4000, 0x2000);
    TermAdds(c, d, 0x2000, 0x0800);
    TermAdds(c, d, 0x1000, 0x0200);
    XorPairs(Term(c, 0x8000, 0x8000), Term(c, 0x4000, 0x2000),
             Term(c, 0x2000, 0x0800), Term(c, 0x1000, 0x0200),
             Term(d, 0x8000, 0x8000), Term(d, 0x4000, 0x2000),
             Term(d, 0x2000, 0x0800), Term(d, 0x1000, 0x0200));
  }

  lemma Digit1Terms(c: bv16)
    ensures Square1(c) == Xor(Xor(Term(c, 0x0800, 0x0080), Term(c, 0x0400, 0x0020)),
                            Xor(Term(c, 0x0200, 0x0008), Term(c, 0x0100, 0x0002)))
  {
    hide Term;
  }

  lemma Digit1Adds(c: bv16, d: bv16)
    ensures Square1(Xor(c, d)) == Xor(Square1(c), Square1(d))
  {
    hide Xor, Term, Square1;
    Digit1Terms(c);
    Digit1Terms(d);
    Digit1Terms(Xor(c, d));
    TermAdds(c, d, 0x0800, 0x0080);
    TermAdds(c, d, 0x0400, 0x0020);
    TermAdds(c, d, 0x0200, 0x0008);
    TermAdds(c, d, 0x0100, 0x0002);
    XorPairs(Term(c, 0x0800, 0x0080), Term(c, 0x0400, 0x0020),
             Term(c, 0x0200, 0x0008), Term(c, 0x0100, 0x0002),
             Term(d, 0x0800, 0x0080), Term(d, 0x0400, 0x0020),
             Term(d, 0x0200, 0x0008), Term(d, 0x0100, 0x0002));
  }

  lemma Digit2Terms(c: bv16)
    ensures Square2(c) == Xor(Xor(Term(c, 0x0080, 0x8408), Term(c, 0x0040, 0x2102)),
                            Xor(Term(c, 0x0020, 0x8c48), Term(c, 0x0010, 0x2312)))
  {
    hide Term;
  }

  lemma Digit2Adds(c: bv16, d: bv16)
    ensures Square2(Xor(c, d)) == Xor(Square2(c), Square2(d))
  {
    hide Xor, Term, Square2;
    Digit2Terms(c);
    Digit2Terms(d);
    Digit2Terms(Xor(c, d));
    TermAdds(c, d, 0x0080, 0x8408);
    TermAdds(c, d, 0x0040, 0x2102);
    TermAdds(c, d, 0x0020, 0x8c48);
    TermAdds(c, d, 0x0010, 0x2312);
    XorPairs(Term(c, 0x0080, 0x8408), Term(c, 0x0040, 0x2102),
             Term(c, 0x0020, 0x8c48), Term(c, 0x0010, 0x2312),
             Term(d, 0x0080, 0x8408), Term(d, 0x0040, 0x2102),
             Term(d, 0x0020, 0x8c48), Term(d, 0x0010, 0x2312));
  }

  lemma Digit3Terms(c: bv16)
    ensures Square3(c) == Xor(Xor(Term(c, 0x0008, 0x8ccc), Term(c, 0x0004, 0x2333)),
                            Xor(Term(c, 0x0002, 0xcec0), Term(c, 0x0001, 0x33b0)))
  {
    hide Term;
  }

  lemma Digit3Adds(c: bv16, d: bv16)
    ensures Square3(Xor(c, d)) == Xor(Square3(c), Square3(d))
  {
    hide Xor, Term, Square3;
    Digit3Terms(c);
    Digit3Terms(d);
    Digit3Terms(Xor(c, d));
    TermAdds(c, d, 0x0008, 0x8ccc);
    TermAdds(c, d, 0x0004, 0x2333);
    TermAdds(c, d, 0x0002, 0xcec0);
    TermAdds(c, d, 0x0001, 0x33b0);
    XorPairs(Term(c, 0x0008, 0x8ccc), Term(c, 0x0004, 0x2333),
             Term(c, 0x0002, 0xcec0), Term(c, 0x0001, 0x33b0),
             Term(d, 0x0008, 0x8ccc), Term(d, 0x0004, 0x2333),
             Term(d, 0x0002, 0xcec0), Term(d, 0x0001, 0x33b0));
  }

  lemma SquareDigits(c: bv16)
    ensures Square(c) == Xor(Xor(Square0(c), Square1(c)), Xor(Square2(c), Square3(c)))
  {
    hide Square0, Square1, Square2, Square3;
  }

  lemma SquareAdds(c: bv16, d: bv16)
    ensures Square(Xor(c, d)) == Xor(Square(c), Square(d))
  {
    hide Xor, Square, Square0, Square1, Square2, Square3;
    SquareDigits(c);
    SquareDigits(d);
    SquareDigits(Xor(c, d));
    Digit0Adds(c, d);
    Digit1Adds(c, d);
    Digit2Adds(c, d);
    Digit3Adds(c, d);
    XorPairs(Square0(c), Square1(c), Square2(c), Square3(c), Square0(d), Square1(d), Square2(d), Square3(d));
  }

  /** One shift of the word is two of its square. */
  predicate SquareShifts(c: bv16) {
    Square(Shift(c)) == Shift(Shift(Square(c)))
  }

  lemma Digit0Shift(c: bv16)
    requires c & 0x0fff == 0
    ensures SquareShifts(c)
  {
  }

  lemma Digit1Shift(c: bv16)
    requires c & 0xf0ff == 0
    ensures SquareShifts(c)
  {
  }

  lemma Digit2Shift(c: bv16)
    requires c & 0xff0f == 0
    ensures SquareShifts(c)
  {
  }

  lemma Digit3Shift(c: bv16)
    requires c & 0xfff0 == 0
    ensures SquareShifts(c)
  {
  }

  lemma SquareShiftsXor(c: bv16, d: bv16)
    requires SquareShifts(c) && SquareShifts(d)
    ensures SquareShifts(Xor(c, d))
  {
    hide Xor, Shift, Square;
    SquareAdds(c, d);
    ShiftLinear(c, d);
    SquareAdds(Shift(c), Shift(d));
    ShiftLinear(Square(c), Square(d));
    ShiftLinear(Shift(Square(c)), Shift(Square(d)));
  }

  lemma Digits(c: bv16)
    ensures Xor(Xor(c & 0xF000, c & 0x0F00), Xor(c & 0x00F0, c & 0x000F)) == c
  {
  }

  lemma SquareShift(c: bv16)
    ensures SquareShifts(c)
  {
    hide Xor, SquareShifts;
    Digits(c);
    Digit0Shift(c & 0xF000);
    Digit1Shift(c & 0x0F00);
    Digit2Shift(c & 0x00F0);
    Digit3Shift(c & 0x000F);
    SquareShiftsXor(c & 0xF000, c & 0x0F00);
    SquareShiftsXor(c & 0x00F0, c & 0x000F);
    SquareShiftsXor(Xor(c & 0xF000, c & 0x0F00), Xor(c & 0x00F0, c & 0x000F));
  }

  lemma TopSquare()
    ensures Square(TOP) == TOP
  {
  }

  /** Squaring doubles the number of shifts. */
  lemma {:induction false} PowerDoubled(n: nat)
    ensures Power(2 * n) == Square(Power(n))
    decreases n
  {
    hide Shifts, Shift, Square;
    if n == 0 {
      NoShift(TOP);
      TopSquare();
    } else {
      PowerDoubled(n - 1);
      PowerNext(n - 1);
      SquareShift(Power(n - 1));
      PowerNext(2 * n - 2);
      PowerNext(2 * n - 1);
    }
  }

  lemma NoShift(c: bv16)
    ensures Shifts(c, 0) == c
  {
  }

  lemma PowerNext(n: nat)
    ensures Power(n + 1) == Shift(Power(n))
  {
    hide Shift;
    PowerShifted(n, 1);
    OneShift(Power(n));
  }

  // ---------------------------------------------------------------- the order of the polynomial

  lemma Doubled(n: nat, p: bv16, q: bv16)
    requires Power(n) == p && Square(p) == q
    ensures Power(2 * n) == q
  {
    hide Power, Square;
    PowerDoubled(n);
  }

  lemma Next(n: nat, p: bv16, q: bv16)
    requires Power(n) == p && Shift(p) == q
    ensures Power(n + 1) == q
  {
    hide Power, Shift;
    PowerNext(n);
  }

  lemma FirstPowers()
    ensures Power(0) == TOP && Power(1) == 0x4000
  {
  }

  /** Fifteen squares. */
  lemma Power32768()
    ensures Power(32) == 0x0cec && Power(32768) == 0x4000
  {
    hide Power;
    FirstPowers();
    Doubled(1, 0x4000, 0x2000);
    Doubled(2, 0x2000, 0x0800);
    Doubled(4, 0x0800, 0x0080);
    Doubled(8, 0x0080, 0x8408);
    Doubled(16, 0x8408, 0x0cec);
    Doubled(32, 0x0cec, 0x861d);
    Doubled(64, 0x861d, 0x3f75);
    Doubled(128, 0x3f75, 0x9471);
    Doubled(256, 0x9471, 0x3fc8);
    Doubled(512, 0x3fc8, 0x236c);
    Doubled(1024, 0x236c, 0x0abf);
    Doubled(2048, 0x0abf, 0x7955);
    Doubled(4096, 0x7955, 0x3811);
    Doubled(8192, 0x3811, 0x1a22);
    Doubled(16384, 0x1a22, 0x4000);
  }

  /** 4681 = 8 * (8 * (8 * (8 + 1) + 1) + 1) + 1 */
  lemma Power4681()
    ensures Power(4681) == 0x4234
  {
    hide Power;
    FirstPowers();
    Doubled(1, 0x4000, 0x2000);
    Doubled(2, 0x2000, 0x0800);
    Doubled(4, 0x0800, 0x0080);
    Next(8, 0x0080, 0x0040);
    Doubled(9, 0x0040, 0x2102);
    Doubled(18, 0x2102, 0xc6c2);
    Doubled(36, 0xc6c2, 0xcbe2);
    Next(72, 0xcbe2, 0x65f1);
    Doubled(73, 0x65f1, 0x11c2);
    Doubled(146, 0x11c2, 0x69c8);
    Doubled(292, 0x69c8, 0x0144);
    Next(584, 0x0144, 0x00a2);
    Doubled(585, 0x00a2, 0xc680);
    Doubled(1170, 0xc680, 0x2420);
    Doubled(2340, 0x2420, 0x8468);
    Next(4680, 0x8468, 0x4234);
  }

  /** 1057 = 32 * 33 + 1 */
  lemma Power1057()
    ensures Power(1057) == 0xf54f
  {
    hide Power;
    Power32768();
    Next(32, 0x0cec, 0x0676);
    Doubled(33, 0x0676, 0x6383);
    Doubled(66, 0x6383, 0x5172);
    Doubled(132, 0x5172, 0x629a);
    Doubled(264, 0x629a, 0xcd1e);
    Doubled(528, 0xcd1e, 0xe28f);
    Next(1056, 0xe28f, 0xf54f);
  }

  /** 217 = 8 * (2 * (4 * (2 + 1) + 1) + 1) + 1 */
  lemma Power217()
    ensures Power(217) == 0xc712
  {
    hide Power;
    FirstPowers();
    Doubled(1, 0x4000, 0x2000);
    Next(2, 0x2000, 0x1000);
    Doubled(3, 0x1000, 0x0200);
    Doubled(6, 0x0200, 0x0008);
    Next(12, 0x0008, 0x0004);
    Doubled(13, 0x0004, 0x2333);
    Next(26, 0x2333, 0x9591);
    Doubled(27, 0x9591, 0x1688);
    Doubled(54, 0x1688, 0x0aec);
    Doubled(108, 0x0aec, 0x8635);
    Next(216, 0x8635, 0xc712);
  }

  /** 32767 shifts bring the register back; 217, 1057 and 4681 do not. */
  lemma Periods()
    ensures Power(PERIOD) == TOP && Power(217) != TOP && Power(1057) != TOP && Power(4681) != TOP
  {
    hide Shifts;
    FirstPowers();
    Power32768();
    PowerShifted(PERIOD, 1);
    PowerShifted(0, 1);
    ShiftsInjective(Power(PERIOD), TOP, 1);
    Power4681();
    Power1057();
    Power217();
  }

  predicate Period(n: nat) {
    Power(n) == TOP
  }

  lemma {:induction false} PeriodTimes(n: nat, k: nat)
    requires Period(n)
    ensures Period(k * n)
    decreases k
  {
    hide Shifts;
    if k == 0 {
      FirstPowers();
    } else {
      PeriodTimes(n, k - 1);
      PowerShifted((k - 1) * n, n);
      assert (k - 1) * n + n == k * n;
    }
  }

  lemma PeriodRest(m: nat, n: nat)
    requires n > 0 && Period(n)
    ensures Period(m % n) <==> Period(m)
  {
    hide Shifts;
    PeriodTimes(n, m / n);
    PowerShifted(m / n * n, m % n);
    assert m / n * n + m % n == m;
  }

  /** Among the multiples of a number, two periods have a common divisor that is a period. */
  lemma {:induction false} CommonPeriod(scale: nat, m: nat, n: nat) returns (g: nat, j: nat, k: nat)
    requires m > 0 && scale > 0 && Period(scale * m) && Period(scale * n)
    ensures g > 0 && Period(scale * g) && m == j * g && n == k * g
    decreases n
  {
    hide Period;
    if n == 0 {
      g, j, k := m, 1, 0;
    } else {
      ScaledRest(scale, m, n);
      PeriodRest(scale * m, scale * n);
      var i;
      g, k, i := CommonPeriod(scale, n, m % n);
      j := m / n * k + i;
      assert m == m / n * n + m % n;
      assert m / n * (k * g) == (m / n * k) * g;
    }
  }

  lemma ScaledRest(scale: nat, m: nat, n: nat)
    requires scale > 0 && n > 0
    ensures scale * n > 0 && (scale * m) % (scale * n) == scale * (m % n)
  {
    var q, r := m / n, m % n;
    assert m == q * n + r;
    assert scale * m == (scale * n) * q + scale * r;
    assert scale * r < scale * n;
    QuotientRest(scale * m, scale * n, q, scale * r);
  }

  predicate NoneDivides(p: nat, from: nat, to: nat)
    decreases to - from
  {
    from >= to || from == 0 || (p % from != 0 && NoneDivides(p, from + 1, to))
  }

  lemma {:induction false} DividesNot(p: nat, from: nat, to: nat, n: nat)
    requires 0 < from <= n < to && NoneDivides(p, from, to)
    ensures p % n != 0
    decreases n - from
  {
    if n > from {
      DividesNot(p, from + 1, to, n);
    }
  }

  lemma NoSmallDivisors()
    ensures NoneDivides(7, 2, 7) && NoneDivides(31, 2, 13) && NoneDivides(151, 2, 13)
  {
  }

  lemma SmallDivisor(p: nat, d: nat, e: nat)
    requires (p == 7 || p == 31 || p == 151) && d * e == p && d <= 12
    ensures d == 1 || d == p
  {
    hide NoneDivides;
    NoSmallDivisors();
    DivisorBound(p, d, e);
    QuotientRest(p, d, e, 0);
    if d >= 2 && d != p {
      DividesNot(p, 2, if p == 7 then 7 else 13, d);
    }
  }

  lemma DivisorBound(p: nat, d: nat, e: nat)
    requires d * e == p > 0
    ensures 0 < d <= p && 0 < e
    ensures d > 12 && e > 12 ==> p >= 169
  {
    if d > 12 && e > 12 {
      assert d * e >= 13 * e;
    }
    assert e >= 1;
    assert d * e >= d;
  }

  /** 7, 31 and 151 are prime. */
  lemma PrimeDivisor(p: nat, d: nat, e: nat)
    requires (p == 7 || p == 31 || p == 151) && d * e == p
    ensures d == 1 || d == p
  {
    DivisorBound(p, d, e);
    if d <= 12 {
      SmallDivisor(p, d, e);
    } else {
      SmallDivisor(p, e, d);
      assert e == 1 || e == p;
    }
  }

  /** If 32767 / p is not a period, every period is divisible by p. */
  lemma PrimeInPeriod(p: nat, n: nat) returns (k: nat)
    requires (p == 7 || p == 31 || p == 151) && Period(n) && Period(PERIOD) && !Period(PERIOD / p)
    ensures n == k * p
  {
    hide Period;
    var scale := PERIOD / p;
    PeriodTimes(n, scale);
    var g, j, i := CommonPeriod(scale, p, n);
    PrimeDivisor(p, g, j);
    k := i;
  }

  /** A multiple of 7, 31 and 151 is a multiple of 32767. */
  lemma Coprime(n: nat, a: nat, b: nat, c: nat)
    requires n == a * 7 && n == b * 31 && n == c * 151
    ensures n % PERIOD == 0
  {
    var d := 9 * b - 2 * a;
    assert n == 217 * d;
    assert n == PERIOD * (23 * d - 16 * c);
  }

  /** The order of the polynomial is 32767. */
  lemma PeriodExact(n: nat)
    ensures Period(n) <==> n % PERIOD == 0
  {
    hide Power;
    Periods();
    if Period(n) {
      var a := PrimeInPeriod(7, n);
      var b := PrimeInPeriod(31, n);
      var c := PrimeInPeriod(151, n);
      Coprime(n, a, b, c);
    }
    if n % PERIOD == 0 {
      PeriodTimes(PERIOD, n / PERIOD);
    }
  }

  // ---------------------------------------------------------------- two wrong bits

  /** The bits of the two messages differ at i and at j and nowhere else. */
  ghost predicate DifferAt(x: seq<bool>, y: seq<bool>, i: nat, j: nat) {
    && |x| == |y| && i < j < |x|
    && forall k | 0 <= k < |x| :: (x[k] != y[k]) == (k == i || k == j)
  }

  lemma {:induction false} FalseShifts(c: bv16, bits: seq<bool>)
    requires AllFalse(bits)
    ensures Feed(c, bits) == Shifts(c, |bits|)
    decreases |bits|
  {
    hide Shift, Xor, Bit;
    if bits != [] {
      NoBit(c);
      FalseShifts(Shift(c), bits[1..]);
    }
  }

  lemma NoBit(c: bv16)
    ensures Xor(c, Bit(false)) == c
  {
  }

  /** From the empty register, a one, then zeros, then a one, and zeros again. */
  lemma TwoOnes(bits: seq<bool>, i: nat, j: nat)
    requires i < j < |bits| && forall k | 0 <= k < |bits| :: bits[k] == (k == i || k == j)
    ensures Feed(0, bits) == 0 <==> Shifts(1, j - i) == 1
  {
    hide Shift, Xor, Bit, Shifts, Feed;
    var a, b, c := bits[..i], bits[i + 1..j], bits[j + 1..];
    TwoOnesParts(bits, i, j);
    FeedConcat(0, a, [true] + (b + ([true] + c)));
    FalseFeed(a);
    OneFed(b + ([true] + c));
    var d := Shift(1);
    FeedConcat(d, b, [true] + c);
    FalseShifts(d, b);
    ShiftsSum(1, 1, j - i - 1);
    OneShift(1);
    var e := Shifts(1, j - i);
    assert 1 + (j - i - 1) == j - i;
    LastOne(e, c);
  }

  lemma TwoOnesParts(bits: seq<bool>, i: nat, j: nat)
    requires i < j < |bits| && forall k | 0 <= k < |bits| :: bits[k] == (k == i || k == j)
    ensures var a, b, c := bits[..i], bits[i + 1..j], bits[j + 1..];
            bits == a + ([true] + (b + ([true] + c))) && AllFalse(a) && AllFalse(b) && AllFalse(c)
  {
  }

  lemma OneFed(rest: seq<bool>)
    ensures Feed(0, [true] + rest) == Feed(Shift(1), rest)
  {
    hide Shift, Xor, Bit;
    assert ([true] + rest)[1..] == rest;
    SingleBit();
  }

  lemma SingleBit()
    ensures Xor(0, Bit(true)) == 1
  {
  }

  lemma LastOne(e: bv16, rest: seq<bool>)
    requires AllFalse(rest)
    ensures Feed(e, [true] + rest) == 0 <==> e == 1
  {
    hide Shift, Xor, Bit, Shifts;
    assert ([true] + rest)[1..] == rest;
    var t := Xor(e, Bit(true));
    FalseShifts(Shift(t), rest);
    ShiftsSum(t, 1, |rest|);
    OneShift(t);
    ZeroShifts(1 + |rest|);
    if Shifts(t, 1 + |rest|) == 0 {
      ShiftsInjective(t, 0, 1 + |rest|);
    }
    OneIsBit(e);
  }

  lemma OneIsBit(e: bv16)
    ensures Xor(e, Bit(true)) == 0 <==> e == 1
  {
  }

  lemma OneReturns(n: nat)
    ensures Shifts(1, n) == 1 <==> n % PERIOD == 0
  {
    hide Shifts;
    TopToOne();
    ShiftsSum(TOP, 15, n);
    ShiftsSum(TOP, n, 15);
    PeriodExact(n);
    if Shifts(1, n) == 1 {
      ShiftsInjective(Power(n), TOP, 15);
    }
  }

  lemma TopToOne()
    ensures Shifts(TOP, 15) == 1
  {
    ShiftsSum(TOP, 8, 7);
    assert Shifts(TOP, 8) == 0x80;
    assert Shifts(0x80, 7) == 1;
  }

  /** Two wrong bits are missed exactly if their distance is a multiple of 32767. */
  lemma TwoErrorsExact(c: bv16, x: seq<octet>, y: seq<octet>, i: nat, j: nat)
    requires DifferAt(AllBits(x), AllBits(y), i, j) && |x| == |y|
    ensures Update(c, x) == Update(c, y) <==> (j - i) % PERIOD == 0
  {
    hide Feed, Update, Shifts, Xor, AllBits;
    var a, b := AllBits(x), AllBits(y);
    UpdateBits(c, x);
    UpdateBits(c, y);
    FeedLinear(c, c, a, b);
    XorSame(c);
    TwoOnes(XorBits(a, b), i, j);
    OneReturns(j - i);
    XorEqual(Feed(c, a), Feed(c, b));
    XorSame(Feed(c, a));
  }

  /** So in messages of at most 4095 bytes any two wrong bits are noticed. */
  lemma TwoErrorsDetected(c: bv16, x: seq<octet>, y: seq<octet>, i: nat, j: nat)
    requires DifferAt(AllBits(x), AllBits(y), i, j) && |x| == |y| <= 4095
    ensures Update(c, x) != Update(c, y)
  {
    hide Update, AllBits;
    TwoErrorsExact(c, x, y, i, j);
  }
}
