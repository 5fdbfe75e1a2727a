/**
 WHERE conditions and their meaning (cc2530/contiki_os/apps/antelope/lvm.h and lvm.c): formulas over
 comparisons of long expressions, evaluated in 32-bit arithmetic.
*/
module AntelopeLogic {
  const LONG_MIN := -0x8000_0000
  const LONG_MAX := 0x7FFF_FFFF

  predicate IsLong(x: int) {
    LONG_MIN <= x <= LONG_MAX
  }

  /** Two's complement wrap-around. */
  function Wrap(x: int): (r: int)
    ensures IsLong(r)
    ensures IsLong(x) ==> r == x
  {
    (x + 0x8000_0000) % 0x1_0000_0000 - 0x8000_0000
  }

  function Abs(x: int): nat { if x < 0 then -x else x }

  /** Division truncates toward zero. */
  function Quotient(a: int, b: int): int
    requires b != 0
  {
    var q := Abs(a) / Abs(b);
    if (a < 0) == (b < 0) then q else -q
  }

  datatype Operand = Variable(id: nat) | Literal(value: int)

  datatype ArithOp = Add | Sub | Mul | Div

  datatype Expr = Leaf(operand: Operand) | Binary(op: ArithOp, left: Expr, right: Expr)

  datatype CmpOp = Eq | Neq | Gt | Geq | Lt | Leq

  datatype Formula =
    | Compare(op: CmpOp, left: Expr, right: Expr)
    | And(f: Formula, g: Formula)
    | Or(f: Formula, g: Formula)
    | Not(f: Formula)

  /** The values of the registered variables. */
  type Env = nat -> int

  datatype Number = Value(v: int) | MathError

  datatype Truth = True | False | Error

  function OperandValue(o: Operand, env: Env): int {
    match o
    case Variable(id) => env(id)
    case Literal(v) => v
  }

  function ApplyArith(op: ArithOp, a: int, b: int): Number {
    match op
    case Add => Value(Wrap(a + b))
    case Sub => Value(Wrap(a - b))
    case Mul => Value(Wrap(a * b))
    case Div => if b == 0 then MathError else Value(Wrap(Quotient(a, b)))
  }

  function ExprValue(e: Expr, env: Env): Number {
    match e
    case Leaf(o) => Value(OperandValue(o, env))
    case Binary(op, l, r) =>
      match ExprValue(l, env)
      case MathError => MathError
      case Value(a) =>
        match ExprValue(r, env)
        case MathError => MathError
        case Value(b) => ApplyArith(op, a, b)
  }

  predicate Holds(op: CmpOp, a: int, b: int) {
    match op
    case Eq => a == b
    case Neq => a != b
    case Gt => a > b
    case Geq => a >= b
    case Lt => a < b
    case Leq => a <= b
  }

  function FromBool(b: bool): Truth {
    if b then True else False
  }

  /** Both operands of a connective are always evaluated; an error in either wins. */
  function FormulaValue(f: Formula, env: Env): Truth {
    match f
    case Compare(op, l, r) =>
      (match ExprValue(l, env)
       case MathError => Error
       case Value(a) =>
         match ExprValue(r, env)
         case MathError => Error
         case Value(b) => FromBool(Holds(op, a, b)))
    case And(g, h) =>
      (match (FormulaValue(g, env), FormulaValue(h, env))
       case (Error, _) => Error
       case (_, Error) => Error
       case (a, b) => FromBool(a == True && b == True))
    case Or(g, h) =>
      (match (FormulaValue(g, env), FormulaValue(h, env))
       case (Error, _) => Error
       case (_, Error) => Error
       case (a, b) => FromBool(a == True || b == True))
    case Not(g) =>
      (match FormulaValue(g, env)
       case Error => Error
       case a => FromBool(a == False))
  }

  /** Some division in the expression divides by zero (with everything below it defined). */
  predicate DividesByZero(e: Expr, env: Env) {
    match e
    case Leaf(_) => false
    case Binary(op, l, r) =>
      DividesByZero(l, env) || DividesByZero(r, env) || (op == Div && ExprValue(r, env) == Value(0))
  }

  predicate SomeDivisionByZero(f: Formula, env: Env) {
    match f
    case Compare(_, l, r) => DividesByZero(l, env) || DividesByZero(r, env)
    case And(g, h) => SomeDivisionByZero(g, env) || SomeDivisionByZero(h, env)
    case Or(g, h) => SomeDivisionByZero(g, env) || SomeDivisionByZero(h, env)
    case Not(g) => SomeDivisionByZero(g, env)
  }

  lemma {:induction false} ExprErrorExact(e: Expr, env: Env)
    ensures ExprValue(e, env).MathError? <==> DividesByZero(e, env)
  {
    match e
    case Leaf(_) =>
    case Binary(_, l, r) =>
      ExprErrorExact(l, env);
      ExprErrorExact(r, env);
  }

  /** MATH_ERROR exactly when some division is by zero, wherever it stands: the connectives do not short-circuit. */
  lemma {:induction false} ErrorExact(f: Formula, env: Env)
    ensures FormulaValue(f, env) == Error <==> SomeDivisionByZero(f, env)
  {
    match f
    case Compare(_, l, r) =>
      ExprErrorExact(l, env);
      ExprErrorExact(r, env);
    case And(g, h) =>
      ErrorExact(g, env);
      ErrorExact(h, env);
    case Or(g, h) =>
      ErrorExact(g, env);
      ErrorExact(h, env);
    case Not(g) =>
      ErrorExact(g, env);
  }
}
