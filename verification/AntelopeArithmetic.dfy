/**
 The laws of the machine's arithmetic and comparisons, and what a condition with an operator means in terms of the
 numbers it is about.
*/
module AntelopeArithmetic {
  import opened Numbers
  import opened AntelopeLogic
  import opened AntelopeBytecode
  import opened AntelopeVm
  import opened AntelopeParser

  const WORD := 0x1_0000_0000

  /** The result of an operation that is not a division by zero. */
  function Result(op: ArithOp, a: int, b: int): (r: int)
    requires op == Div ==> b != 0
    ensures IsLong(r)
  {
    ApplyArith(op, a, b).v
  }

  // ---------------------------------------------------------------- wrapping

  /** Wrapping adds a multiple of 2^32. */
  lemma WrapMultiple(x: int) returns (k: int)
    ensures Wrap(x) == x + k * WORD
  {
    k := -((x + 0x8000_0000) / WORD);
  }

  lemma WrapSame(x: int, k: int)
    ensures Wrap(x + k * WORD) == Wrap(x)
  {
    var q := (x + 0x8000_0000) / WORD;
    var r := (x + 0x8000_0000) % WORD;
    assert x + 0x8000_0000 == q * WORD + r;
    assert x + k * WORD + 0x8000_0000 == (q + k) * WORD + r;
  }

  lemma WrapSum(x: int, y: int)
    ensures Wrap(Wrap(x) + y) == Wrap(x + y)
  {
    hide Wrap;
    var k := WrapMultiple(x);
    WrapSame(x + y, k);
    assert Wrap(x) + y == x + y + k * WORD;
  }

  lemma WrapProduct(x: int, y: int)
    ensures Wrap(Wrap(x) * y) == Wrap(x * y)
  {
    hide Wrap;
    var k := WrapMultiple(x);
    Distributes(x, k * WORD, y);
    Associates(k, WORD, y);
    WrapSame(x * y, k * y);
  }

  lemma Distributes(a: int, b: int, c: int)
    ensures (a + b) * c == a * c + b * c
  {
  }

  lemma Associates(a: int, b: int, c: int)
    ensures (a * b) * c == (a * c) * b
  {
  }

  // ---------------------------------------------------------------- the laws

  /** Adding the right side back to a difference gives the left side, and taking it from a sum does. */
  lemma DifferenceLaw(a: int, b: int)
    requires IsLong(a)
    ensures Result(Add, Result(Sub, a, b), b) == a && Result(Sub, Result(Add, a, b), b) == a
  {
    hide Wrap;
    WrapSum(a - b, b);
    WrapSum(a + b, -b);
  }

  lemma CommuteLaw(a: int, b: int)
    ensures Result(Add, a, b) == Result(Add, b, a) && Result(Mul, a, b) == Result(Mul, b, a)
  {
  }

  lemma NeutralLaw(a: int)
    requires IsLong(a)
    ensures Result(Add, a, 0) == Result(Sub, a, 0) == Result(Mul, a, 1) == Result(Div, a, 1) == a
  {
  }

  /** A sum grows by one with its right side; after the highest number comes the lowest. */
  lemma SumLaw(a: int, b: int)
    ensures Result(Add, a, b + 1) == if Result(Add, a, b) == LONG_MAX then LONG_MIN else Result(Add, a, b) + 1
  {
    hide Wrap;
    WrapSum(a + b, 1);
    AfterHighest();
  }

  lemma AfterHighest()
    ensures Wrap(LONG_MAX + 1) == LONG_MIN
  {
  }

  /** A product grows by the left side when the right side grows by one. */
  lemma ProductLaw(a: int, b: int)
    ensures Result(Mul, a, b + 1) == Result(Add, Result(Mul, a, b), a) && Result(Mul, a, 0) == 0
  {
    hide Wrap;
    Distributes(b, 1, a);
    WrapSum(a * b, a);
  }

  /** A remainder is smaller than the divisor and on the dividend's side of zero. */
  predicate IsRemainder(r: int, a: int, b: int) {
    Abs(r) < Abs(b) && (r == 0 || (r < 0) == (a < 0))
  }

  lemma NaturalParts(m: nat, n: nat)
    requires n > 0
    ensures m == (m / n) * n + m % n && m % n < n
  {
  }

  /** The quotient times the divisor, with the sign of the dividend. */
  lemma QuotientProduct(a: int, b: int)
    requires b != 0
    ensures var p: int := (Abs(a) / Abs(b)) * Abs(b);
            Quotient(a, b) * b == if a < 0 then -p else p
  {
    Signs(Abs(a) / Abs(b), b);
    Signs(Abs(a) / Abs(b), -b);
  }

  lemma SignedSum(a: int, p: int, rest: nat, product: int) returns (r: int)
    requires Abs(a) == p + rest && product == if a < 0 then -p else p
    ensures a == product + r && Abs(r) == rest && (r == 0 || (r < 0) == (a < 0))
  {
    r := rest;
    if a < 0 {
      r := -r;
    }
  }

  lemma QuotientParts(a: int, b: int) returns (r: int)
    requires b != 0
    ensures a == Quotient(a, b) * b + r && IsRemainder(r, a, b)
  {
    hide Quotient;
    NaturalParts(Abs(a), Abs(b));
    QuotientProduct(a, b);
    r := SignedSum(a, (Abs(a) / Abs(b)) * Abs(b), Abs(a) % Abs(b), Quotient(a, b) * b);
  }

  lemma Signs(q: int, n: int)
    ensures (-q) * n == -(q * n) && q * (-n) == -(q * n) && (-q) * (-n) == q * n
  {
  }

  /** Quotient times divisor plus a remainder is the dividend. */
  lemma QuotientLaw(a: int, b: int) returns (r: int)
    requires IsLong(a) && b != 0
    ensures IsRemainder(r, a, b) && Result(Add, Result(Mul, Result(Div, a, b), b), r) == a
  {
    hide Wrap, Quotient;
    r := QuotientParts(a, b);
    WrapProduct(Quotient(a, b), b);
    WrapSum(Quotient(a, b) * b, r);
  }

  lemma Large(d: int, b: int)
    requires d != 0
    ensures d * b >= Abs(b) || d * b + Abs(b) <= 0
  {
    if b > 0 {
      AtLeastOnce(b, d);
    } else if b < 0 {
      AtLeastOnce(-b, d);
      assert (-b) * d == -(d * b);
    }
  }

  /** The quotient is the only number with which a remainder gives the dividend. */
  lemma QuotientUnique(a: int, b: int, q: int, r: int)
    requires b != 0 && a == q * b + r && IsRemainder(r, a, b)
    ensures Quotient(a, b) == q
  {
    hide Quotient;
    var r2 := QuotientParts(a, b);
    var d := Quotient(a, b) - q;
    Distributes(Quotient(a, b), -q, b);
    Signs(q, b);
    assert d * b == r - r2;
    if d != 0 {
      Large(d, b);
    }
  }

  // ---------------------------------------------------------------- comparisons

  /** The six comparisons say where two numbers stand to each other. */
  lemma ComparisonLaws(a: int, b: int)
    ensures Holds(Eq, a, b) <==> !Holds(Neq, a, b)
    ensures Holds(Geq, a, b) <==> !Holds(Lt, a, b)
    ensures Holds(Leq, a, b) <==> !Holds(Gt, a, b)
    ensures Holds(Lt, a, b) <==> Holds(Gt, b, a)
    ensures Holds(Leq, a, b) && Holds(Leq, b, a) <==> Holds(Eq, a, b)
    ensures Holds(Eq, a, a) && Holds(Lt, a, a + 1)
  {
  }

  // ---------------------------------------------------------------- conditions

  /** The numbers for which `x op y = c` is true, said without the operator. */
  predicate Solves(op: ArithOp, x: int, y: int, c: int)
    requires op == Div ==> y != 0
  {
    match op
    case Add => x == c - y
    case Sub => x == c + y
    case Mul => Multiple(x, y, c)
    case Div => exists r: int {:trigger IsRemainder(r, x, y)} :: IsRemainder(r, x, y) && x == c * y + r
  }

  /** c is y, taken x times. */
  predicate Multiple(x: int, y: int, c: int)
    decreases Abs(x)
  {
    if x == 0 then c == 0 else if x > 0 then Multiple(x - 1, y, c - y) else Multiple(x + 1, y, c + y)
  }

  lemma {:induction false} MultipleExact(x: int, y: int, c: int)
    ensures Multiple(x, y, c) <==> x * y == c
    decreases Abs(x)
  {
    if x > 0 {
      MultipleExact(x - 1, y, c - y);
      Distributes(x, -1, y);
    } else if x < 0 {
      MultipleExact(x + 1, y, c + y);
      Distributes(x, 1, y);
    }
  }

  /** The result of the operation on whole numbers, which need not be a long. */
  function Exactly(op: ArithOp, x: int, y: int): int
    requires op == Div ==> y != 0
  {
    match op
    case Add => x + y
    case Sub => x - y
    case Mul => x * y
    case Div => Quotient(x, y)
  }

  function Equation(op: ArithOp, c: int): Chain {
    Last(Comparison(Eq, Two(op, Variable(0), Variable(1)), One(Literal(c))))
  }

  /** Two operators of two bytes and three operands, each behind its type. */
  const EQUATION_SIZE := 2 * 2 + 3 * (1 + OPERAND_SIZE)

  lemma EquationEncodable(op: ArithOp, c: int)
    requires IsLong(c)
    ensures EncodableChain(Equation(op, c)) && |ChainBytes(Equation(op, c))| == EQUATION_SIZE
  {
  }

  lemma ResultSolves(op: ArithOp, x: int, y: int, c: int)
    requires (op == Div ==> y != 0) && IsLong(Exactly(op, x, y))
    ensures Result(op, x, y) == c <==> Solves(op, x, y, c)
  {
    hide Wrap, Quotient;
    match op
    case Add =>
    case Sub =>
    case Mul => MultipleExact(x, y, c);
    case Div =>
      var r := QuotientParts(x, y);
      if r2: int :| IsRemainder(r2, x, y) && x == c * y + r2 {
        QuotientUnique(x, y, c, r2);
      }
  }

  /**
   Compiling and executing `x op y = c` for values that do not overflow: true exactly when the numbers solve the
   equation, an error exactly when it divides by zero.
  */
  method EvaluateEquation(op: ArithOp, x: int, y: int, c: int, size: nat) returns (status: Status)
    requires IsLong(x) && IsLong(y) && IsLong(c) && size > EQUATION_SIZE
    requires op != Div || y != 0 ==> IsLong(Exactly(op, x, y))
    ensures status == MATH_ERROR <==> op == Div && y == 0
    ensures status != MATH_ERROR ==> (status == TRUE <==> Solves(op, x, y, c)) && (status == TRUE || status == FALSE)
  {
    hide ChainBytes, EncodableChain, ApplyArith, Solves;
    var e := Equation(op, c);
    EquationEncodable(op, c);
    status := EvaluateWhere(ChainTokens(e), [x, y], size, e);
    EquationValue(op, x, y, c);
    if op != Div || y != 0 {
      ResultSolves(op, x, y, c);
    }
  }

  lemma EquationValue(op: ArithOp, x: int, y: int, c: int)
    ensures FormulaValue(RightNested(Equation(op, c)), EnvOf([x, y]))
         == match ApplyArith(op, x, y)
            case MathError => Error
            case Value(v) => FromBool(v == c)
  {
    hide ApplyArith;
  }
}
