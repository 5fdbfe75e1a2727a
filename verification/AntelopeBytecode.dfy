/**
 The prefix bytecode of the logic engine. Sizes are those of the CC2530 target: one byte for a node type
 and an operator, five for an operand.
*/
module AntelopeBytecode {
  import opened Bytes
  import opened AntelopeLogic

  const LVM_ARITH_OP: byte := 0x10
  const LVM_OPERAND: byte := 0x20
  const LVM_CMP_OP: byte := 0x40

  const LVM_AND: byte := 0x81
  const LVM_OR: byte := 0x82
  const LVM_NOT: byte := 0x83

  const LVM_VARIABLE: byte := 0
  const LVM_LONG: byte := 2

  const OPERAND_SIZE := 5

  function ArithCode(op: ArithOp): byte {
    match op
    case Add => 0x11
    case Sub => 0x12
    case Mul => 0x13
    case Div => 0x14
  }

  function CmpCode(op: CmpOp): byte {
    match op
    case Eq => 0x41
    case Neq => 0x42
    case Gt => 0x43
    case Geq => 0x44
    case Lt => 0x45
    case Leq => 0x46
  }

  /** A long, low byte first. */
  function LongBytes(v: int): (b: seq<byte>)
    ensures |b| == 4
  {
    var u := v % 0x1_0000_0000;
    [u % 256, u / 256 % 256, u / 0x1_0000 % 256, u / 0x100_0000 % 256]
  }

  function LongOf(b: seq<byte>): int
    requires |b| == 4
  {
    Wrap(b[0] as int + 0x100 * (b[1] as int) + 0x1_0000 * (b[2] as int) + 0x100_0000 * (b[3] as int))
  }

  lemma LongRoundTrip(v: int)
    requires IsLong(v)
    ensures LongOf(LongBytes(v)) == v
    ensures LongBytes(v)[0] == v % 256
  {
    var u := v % 0x1_0000_0000;
    BytesOf(u);
    WrapModulo(v);
    LowByte(v);
    hide Wrap;
    var b := LongBytes(v);
    assert b[0] as int + 0x100 * (b[1] as int) + 0x1_0000 * (b[2] as int) + 0x100_0000 * (b[3] as int) == u;
  }

  lemma WrapModulo(v: int)
    requires IsLong(v)
    ensures Wrap(v % 0x1_0000_0000) == v
  {
  }

  lemma LowByte(v: int)
    requires IsLong(v)
    ensures v % 0x1_0000_0000 % 256 == v % 256
  {
  }

  lemma BytesOf(u: int)
    requires 0 <= u < 0x1_0000_0000
    ensures u % 256 + 0x100 * (u / 256 % 256)
            + 0x1_0000 * (u / 0x1_0000 % 256) + 0x100_0000 * (u / 0x100_0000 % 256) == u
  {
    assert u / 0x1_0000 == u / 256 / 256;
    assert u / 0x100_0000 == u / 256 / 256 / 256;
    assert u / 256 / 256 / 256 < 256;
  }

  predicate EncodableOperand(o: Operand) {
    match o
    case Variable(id) => id < 256
    case Literal(v) => IsLong(v)
  }

  /** Type byte and value union. */
  function OperandBytes(o: Operand): (b: seq<byte>)
    requires EncodableOperand(o)
    ensures |b| == OPERAND_SIZE
  {
    match o
    case Variable(id) => [LVM_VARIABLE, id, 0, 0, 0]
    case Literal(v) => [LVM_LONG] + LongBytes(v)
  }

  predicate EncodableExpr(e: Expr) {
    match e
    case Leaf(o) => EncodableOperand(o)
    case Binary(_, l, r) => EncodableExpr(l) && EncodableExpr(r)
  }

  predicate Encodable(f: Formula) {
    match f
    case Compare(_, l, r) => EncodableExpr(l) && EncodableExpr(r)
    case And(g, h) => Encodable(g) && Encodable(h)
    case Or(g, h) => Encodable(g) && Encodable(h)
    case Not(g) => Encodable(g)
  }

  function EncodeExpr(e: Expr): (b: seq<byte>)
    requires EncodableExpr(e)
    ensures |b| > OPERAND_SIZE
  {
    match e
    case Leaf(o) => [LVM_OPERAND] + OperandBytes(o)
    case Binary(op, l, r) => [LVM_ARITH_OP, ArithCode(op)] + EncodeExpr(l) + EncodeExpr(r)
  }

  function Encode(f: Formula): (b: seq<byte>)
    requires Encodable(f)
    ensures |b| > 2 && b[0] == LVM_CMP_OP
  {
    match f
    case Compare(op, l, r) => [LVM_CMP_OP, CmpCode(op)] + EncodeExpr(l) + EncodeExpr(r)
    case And(g, h) => [LVM_CMP_OP, LVM_AND] + Encode(g) + Encode(h)
    case Or(g, h) => [LVM_CMP_OP, LVM_OR] + Encode(g) + Encode(h)
    case Not(g) => [LVM_CMP_OP, LVM_NOT] + Encode(g)
  }
}
