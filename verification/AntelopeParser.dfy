/**
 Compiling a WHERE clause: recursive descent over the tokens, with operators put in front of their
 arguments by shifting the bytes already emitted (cc2530/contiki_os/apps/antelope/aql-parser.c).
*/
module AntelopeParser {
  import opened Numbers
  import opened Bytes
  import opened Slices
  import opened AntelopeLogic
  import opened AntelopeBytecode
  import opened AntelopeVm

  /** An identifier token carries the slot that lvm_register_variable gives its name. */
  datatype Token =
    | Identifier(id: nat)
    | Integer(value: int)
    | Arith(op: ArithOp)
    | Cmp(cmp: CmpOp)
    | AndToken
    | OrToken
    | LeftParen
    | Other

  // ---------------------------------------------------------------- flat conditions

  /** A side of a comparison: one operand, or two with an operator between them. */
  datatype Side = One(o: Operand) | Two(op: ArithOp, o1: Operand, o2: Operand)

  datatype Comparison = Comparison(op: CmpOp, left: Side, right: Side)

  datatype Connective = Conj | Disj

  /** c1 op1 c2 op2 ... cn */
  datatype Chain = Last(c: Comparison) | Link(c: Comparison, connective: Connective, rest: Chain)

  function OperandToken(o: Operand): Token {
    match o
    case Variable(id) => Identifier(id)
    case Literal(v) => Integer(v)
  }

  function SideTokens(s: Side): seq<Token> {
    match s
    case One(o) => [OperandToken(o)]
    case Two(op, o1, o2) => [OperandToken(o1), Arith(op), OperandToken(o2)]
  }

  function ComparisonTokens(c: Comparison): seq<Token> {
    SideTokens(c.left) + [Cmp(c.op)] + SideTokens(c.right)
  }

  function ConnectiveToken(c: Connective): Token {
    match c
    case Conj => AndToken
    case Disj => OrToken
  }

  /** A type byte and an operator byte. */
  function Node(nodeType: byte, op: byte): (b: seq<byte>)
    ensures |b| == 2
  {
    [nodeType, op]
  }

  /** The source text of the chain, as tokens. */
  function ChainTokens(c: Chain): seq<Token> {
    match c
    case Last(k) => ComparisonTokens(k)
    case Link(k, connective, rest) => ComparisonTokens(k) + [ConnectiveToken(connective)] + ChainTokens(rest)
  }

  function SideExpr(s: Side): Expr {
    match s
    case One(o) => Leaf(o)
    case Two(op, o1, o2) => Binary(op, Leaf(o1), Leaf(o2))
  }

  function ComparisonFormula(c: Comparison): Formula {
    Compare(c.op, SideExpr(c.left), SideExpr(c.right))
  }

  /** The meaning of the chain: connectives group to the right, whatever they are. */
  function RightNested(c: Chain): Formula {
    match c
    case Last(k) => ComparisonFormula(k)
    case Link(k, connective, rest) =>
      match connective
      case Conj => And(ComparisonFormula(k), RightNested(rest))
      case Disj => Or(ComparisonFormula(k), RightNested(rest))
  }

  predicate EncodableSide(s: Side) {
    EncodableExpr(SideExpr(s))
  }

  predicate EncodableComparison(c: Comparison) {
    EncodableSide(c.left) && EncodableSide(c.right)
  }

  predicate EncodableChain(c: Chain) {
    match c
    case Last(k) => EncodableComparison(k)
    case Link(k, _, rest) => EncodableComparison(k) && EncodableChain(rest)
  }

  lemma {:induction false} ChainEncodable(c: Chain)
    requires EncodableChain(c)
    ensures Encodable(RightNested(c))
  {
    if c.Link? {
      ChainEncodable(c.rest);
    }
  }

  function OperandCode(o: Operand): (b: seq<byte>)
    requires EncodableOperand(o)
    ensures |b| == 1 + OPERAND_SIZE
  {
    EncodeExpr(Leaf(o))
  }

  function SideBytes(s: Side): (b: seq<byte>)
    requires EncodableSide(s)
    ensures |b| > OPERAND_SIZE
  {
    EncodeExpr(SideExpr(s))
  }

  function ComparisonBytes(c: Comparison): (b: seq<byte>)
    requires EncodableComparison(c)
    ensures |b| > 2
  {
    Encode(ComparisonFormula(c))
  }

  function ConnectiveCode(c: Connective): byte {
    match c
    case Conj => LVM_AND
    case Disj => LVM_OR
  }

  function ChainBytes(c: Chain): (b: seq<byte>)
    requires EncodableChain(c)
    ensures |b| > 2
  {
    ChainEncodable(c);
    Encode(RightNested(c))
  }

  lemma LinkBytes(c: Chain)
    requires c.Link? && EncodableChain(c)
    ensures ChainBytes(c) == Node(LVM_CMP_OP, ConnectiveCode(c.connective)) + ComparisonBytes(c.c) + ChainBytes(c.rest)
  {
  }

  lemma ComparisonParts(c: Comparison)
    requires EncodableComparison(c)
    ensures EncodableSide(c.left) && EncodableSide(c.right)
    ensures ComparisonTokens(c) == SideTokens(c.left) + [Cmp(c.op)] + SideTokens(c.right)
    ensures ComparisonBytes(c) == Node(LVM_CMP_OP, CmpCode(c.op)) + SideBytes(c.left) + SideBytes(c.right)
  {
  }

  /** No arithmetic operator stands at position pos. */
  predicate SideEnds(tokens: seq<Token>, pos: nat) {
    pos < |tokens| ==> !tokens[pos].Arith?
  }

  /** Neither an arithmetic operator nor a connective stands at position pos. */
  predicate ChainEnds(tokens: seq<Token>, pos: nat) {
    pos < |tokens| ==> !tokens[pos].Arith? && !tokens[pos].AndToken? && !tokens[pos].OrToken?
  }

  function FirstComparison(c: Chain): Comparison {
    match c
    case Last(k) => k
    case Link(k, _, _) => k
  }

  /** The tokens of a chain behind its first comparison. */
  function AfterFirst(c: Chain): seq<Token> {
    match c
    case Last(_) => []
    case Link(_, connective, rest) => [ConnectiveToken(connective)] + ChainTokens(rest)
  }

  lemma ChainSplits(c: Chain)
    ensures ChainTokens(c) == ComparisonTokens(FirstComparison(c)) + AfterFirst(c)
    ensures EncodableChain(c) ==>
              EncodableComparison(FirstComparison(c)) && |ComparisonBytes(FirstComparison(c))| <= |ChainBytes(c)|
  {
    if c.Link? {
      assert ComparisonTokens(c.c) + [ConnectiveToken(c.connective)] + ChainTokens(c.rest)
          == ComparisonTokens(c.c) + ([ConnectiveToken(c.connective)] + ChainTokens(c.rest));
      if EncodableChain(c) {
        LinkBytes(c);
      }
    }
  }

  function FirstOperand(s: Side): Operand {
    match s
    case One(o) => o
    case Two(_, o1, _) => o1
  }

  /** The tokens of a side behind its first operand. */
  function RestOfSide(s: Side): seq<Token> {
    match s
    case One(_) => []
    case Two(op, _, o2) => [Arith(op), OperandToken(o2)]
  }

  lemma SideParts(s: Side)
    requires EncodableSide(s)
    ensures SideTokens(s) == [OperandToken(FirstOperand(s))] + RestOfSide(s)
    ensures s.Two? ==> RestOfSide(s) == [Arith(s.op)] + [OperandToken(s.o2)]
    ensures EncodableOperand(FirstOperand(s)) && (s.Two? ==> EncodableOperand(s.o2))
    ensures s.One? ==> FirstOperand(s) == s.o && RestOfSide(s) == [] && SideBytes(s) == OperandCode(s.o)
    ensures s.Two? ==> FirstOperand(s) == s.o1
    ensures OperandToken(FirstOperand(s)) != LeftParen
    ensures s.Two? ==> SideBytes(s) == Node(LVM_ARITH_OP, ArithCode(s.op)) + (OperandCode(s.o1) + OperandCode(s.o2))
  {
    if s.Two? {
      assert EncodableExpr(Leaf(s.o1)) && EncodableExpr(Leaf(s.o2));
      ExprParts(SideExpr(s));
    } else {
      assert EncodableExpr(Leaf(s.o));
    }
  }

  lemma LastBytes(c: Chain)
    requires c.Last? && EncodableChain(c)
    ensures ChainBytes(c) == ComparisonBytes(FirstComparison(c))
  {
  }

  /** The first comparison of a chain is not followed by an arithmetic operator. */
  lemma FirstEnds(tokens: seq<Token>, pos: nat, c: Chain)
    requires HasAt(tokens, pos, AfterFirst(c)) && ChainEnds(tokens, pos + |AfterFirst(c)|)
    ensures SideEnds(tokens, pos)
  {
    if c.Link? {
      HasFirst(tokens, pos, AfterFirst(c));
    }
  }

  /** The finished code once a link has been dealt with. */
  function Finished(done: seq<byte>, connective: byte, comparison: seq<byte>): (b: seq<byte>)
    ensures |b| == |done| + 2 + |comparison|
  {
    done + Node(LVM_CMP_OP, connective) + comparison
  }

  lemma FinishedLink(done: seq<byte>, c: Chain)
    requires c.Link? && EncodableChain(c)
    ensures Finished(done, ConnectiveCode(c.connective), ComparisonBytes(c.c)) + ChainBytes(c.rest)
              == done + ChainBytes(c)
  {
    LinkBytes(c);
  }

  /** A chain does not start with a parenthesis. */
  lemma RestStart(tokens: seq<Token>, pos: nat, c: Chain)
    requires HasAt(tokens, pos, ChainTokens(c))
    ensures pos < |tokens| && tokens[pos] != LeftParen
  {
    ChainSplits(c);
    HasFirst(tokens, pos, ChainTokens(c));
  }

  /** The token behind a comparison tells whether the chain goes on. */
  lemma Continues(tokens: seq<Token>, pos: nat, c: Chain)
    requires EncodableChain(c) && HasAt(tokens, pos, AfterFirst(c)) && ChainEnds(tokens, pos + |AfterFirst(c)|)
    ensures c.Link? <==> pos < |tokens| && (tokens[pos] == AndToken || tokens[pos] == OrToken)
    ensures c.Last? ==> AfterFirst(c) == [] && ChainBytes(c) == ComparisonBytes(FirstComparison(c))
    ensures c.Link? ==> ConnectiveCode(c.connective) == if tokens[pos] == AndToken then LVM_AND else LVM_OR
    ensures c.Link? ==> EncodableChain(c.rest) && FirstComparison(c) == c.c
                        && tokens[pos] == ConnectiveToken(c.connective) && HasAt(tokens, pos + 1, ChainTokens(c.rest))
                        && |AfterFirst(c)| == 1 + |ChainTokens(c.rest)|
    ensures c.Link? ==>
              ChainBytes(c)
              == Node(LVM_CMP_OP, ConnectiveCode(c.connective)) + ComparisonBytes(c.c) + ChainBytes(c.rest)
  {
    if c.Link? {
      HasParts(tokens, pos, [ConnectiveToken(c.connective)], ChainTokens(c.rest));
      HasFirst(tokens, pos, [ConnectiveToken(c.connective)]);
      LinkBytes(c);
    } else {
      LastBytes(c);
    }
  }

  lemma RegroupFour(x: seq<byte>, y: seq<byte>, z: seq<byte>, w: seq<byte>)
    ensures x + y + z + w == x + (y + z + w)
  {
  }

  class WhereParser {
    const tokens: seq<Token>
    const vm: LogicVm
    /** The lexer: next token, and the one before it for a rewind. */
    var pos: nat
    var prev: nat
    var token: Token

    constructor (tokens: seq<Token>, vm: LogicVm)
      ensures this.tokens == tokens && this.vm == vm && pos == 0
    {
      this.tokens, this.vm, pos, prev, token := tokens, vm, 0, 0, Other;
    }

    method Next()
      modifies this`pos, this`prev, this`token
      ensures prev == old(pos)
      ensures old(pos) < |tokens| ==> token == tokens[old(pos)] && pos == old(pos) + 1
      ensures old(pos) >= |tokens| ==> token == Other && pos == old(pos)
    {
      prev := pos;
      if pos < |tokens| {
        token := tokens[pos];
        pos := pos + 1;
      } else {
        token := Other;
      }
    }

    method Rewind()
      modifies this`pos
      ensures pos == prev
    {
      pos := prev;
    }

    /** The code emitted so far. */
    ghost predicate Emitted(b: seq<byte>)
      reads vm`end, vm.code
    {
      vm.end == |b| < vm.code.Length && vm.code[..vm.end] == b
    }

    method ParseOperand(ghost o: Operand, ghost before: seq<byte>) returns (ok: bool)
      requires EncodableOperand(o) && HasAt(tokens, pos, [OperandToken(o)])
      requires Emitted(before) && |before| + 1 + OPERAND_SIZE < vm.code.Length
      modifies this`pos, this`prev, this`token, vm`end, vm.code
      ensures ok && pos == old(pos) + 1 && Emitted(before + OperandCode(o))
    {
      HasFirst(tokens, pos, [OperandToken(o)]);
      Next();
      match token {
        case Identifier(id) => vm.SetOperand(Variable(id));
        case Integer(v) => vm.SetOperand(Literal(v));
        case _ => return false;
      }
      ok := true;
    }

    /** The shift, the operator and the return to the end of the code, as both users of the shift do it. */
    method InsertOperator(at: nat, nodeType: byte, op: byte, ghost before: seq<byte>, ghost moved: seq<byte>)
      returns (newEnd: nat)
      requires Emitted(before + moved) && at == |before| && moved != [] && |before + moved| + 2 < vm.code.Length
      modifies vm`end, vm`error, vm.code
      ensures newEnd == |before| + 2 + |moved| && vm.error == old(vm.error)
      ensures Emitted(before + Node(nodeType, op) + moved)
    {
      assert vm.code[at..vm.end] == moved && vm.code[..at] == before;
      newEnd := vm.ShiftForOperator(at);
      vm.SetOperator(nodeType, op);
      var _ := vm.SetEnd(newEnd);
    }

    /** An operand, or an operand, an operator and another operand. */
    method ParseExpr(ghost s: Side, ghost before: seq<byte>) returns (ok: bool)
      requires EncodableSide(s) && HasAt(tokens, pos, SideTokens(s)) && SideEnds(tokens, pos + |SideTokens(s)|)
      requires Emitted(before) && |before| + |SideBytes(s)| < vm.code.Length
      modifies this`pos, this`prev, this`token, vm`end, vm`error, vm.code
      ensures ok && pos == old(pos) + |SideTokens(s)| && vm.error == old(vm.error)
      ensures Emitted(before + SideBytes(s))
    {
      hide HasAt, EncodableSide, EncodableOperand, SideBytes, OperandCode;
      hide Emitted, Node, SideTokens, FirstOperand, RestOfSide, OperandToken;
      SideParts(s);
      var savedEnd := GetEnd(before);
      ghost var first := FirstOperand(s);
      HasParts(tokens, pos, [OperandToken(first)], RestOfSide(s));
      HasFirst(tokens, pos, [OperandToken(first)]);
      Next();
      if token == LeftParen {
        return false;
      }
      Rewind();
      ok := ParseOperand(first, before);
      if !ok {
        return;
      }
      if s.Two? {
        HasParts(tokens, pos, [Arith(s.op)], [OperandToken(s.o2)]);
        HasFirst(tokens, pos, [Arith(s.op)]);
      }
      Next();
      if token.Arith? {
        ok := ParseRight(token.op, savedEnd, s.o2, before, OperandCode(first));
        if !ok {
          return;
        }
        Next();
      }
      Rewind();
    }

    /** The second operand of an expression; the operator goes in front of the first. */
    method ParseRight(op: ArithOp, at: nat, ghost o: Operand, ghost before: seq<byte>, ghost left: seq<byte>)
      returns (ok: bool)
      requires EncodableOperand(o) && HasAt(tokens, pos, [OperandToken(o)]) && left != []
      requires Emitted(before + left) && at == |before| && |before| + |left| + |OperandCode(o)| + 2 < vm.code.Length
      modifies this`pos, this`prev, this`token, vm`end, vm`error, vm.code
      ensures ok && pos == old(pos) + 1 && vm.error == old(vm.error)
      ensures Emitted(before + (Node(LVM_ARITH_OP, ArithCode(op)) + (left + OperandCode(o))))
    {
      hide HasAt, EncodableOperand, OperandCode, Emitted, Node;
      ok := ParseOperand(o, before + left);
      if !ok {
        return;
      }
      ghost var moved := left + OperandCode(o);
      assert before + left + OperandCode(o) == before + moved;
      var savedEnd := InsertOperator(at, LVM_ARITH_OP, ArithCode(op), before, moved);
      assert before + Node(LVM_ARITH_OP, ArithCode(op)) + moved == before + (Node(LVM_ARITH_OP, ArithCode(op)) + moved);
    }

    /** lvm_get_end */
    method GetEnd(ghost before: seq<byte>) returns (end: nat)
      requires Emitted(before)
      ensures end == |before|
    {
      end := vm.end;
    }

    /** lvm_jump_to_operand in front of an argument. */
    method LeaveGap(ghost before: seq<byte>) returns (at: nat, ghost gap: seq<byte>)
      requires Emitted(before) && |before| + 2 < vm.code.Length
      modifies vm`end, vm`error
      ensures at == |before| && |gap| == 2 && Emitted(before + gap) && vm.error == old(vm.error)
    {
      at := vm.JumpToOperand();
      gap := vm.code[at..at + 2];
      assert vm.code[..vm.end] == before + gap;
    }

    /** The comparison operator goes into the gap. */
    method FillGap(cmp: byte, savedEnd: nat, ghost before: seq<byte>, ghost gap: seq<byte>, ghost left: seq<byte>)
      requires vm.end == |before| && savedEnd == |before| + 2 + |left| < vm.code.Length && |gap| == 2
      requires vm.code[..savedEnd] == before + gap + left
      modifies vm`end, vm`error, vm.code
      ensures Emitted(before + Node(LVM_CMP_OP, cmp) + left) && vm.error == old(vm.error)
    {
      ghost var code := vm.code[..savedEnd];
      assert code[..|before|] == before && code[|before| + 2..] == left;
      vm.SetOperator(LVM_CMP_OP, cmp);
      var _ := vm.SetEnd(savedEnd);
    }

    /** Back to the gap once its argument stands. */
    method ReturnToGap(at: nat, ghost before: seq<byte>, ghost after: seq<byte>) returns (savedEnd: nat)
      requires Emitted(before + after) && at == |before|
      modifies vm`end, vm`error
      ensures vm.end == |before| && savedEnd == |before + after| < vm.code.Length && vm.error == old(vm.error)
      ensures vm.code[..savedEnd] == before + after
    {
      savedEnd := vm.SetEnd(at);
    }

    method ParseComparison(ghost c: Comparison, ghost before: seq<byte>) returns (ok: bool)
      requires EncodableComparison(c) && HasAt(tokens, pos, ComparisonTokens(c))
      requires SideEnds(tokens, pos + |ComparisonTokens(c)|)
      requires Emitted(before) && |before| + |ComparisonBytes(c)| < vm.code.Length
      modifies this`pos, this`prev, this`token, vm`end, vm`error, vm.code
      ensures ok && pos == old(pos) + |ComparisonTokens(c)| && vm.error == old(vm.error)
      ensures Emitted(before + ComparisonBytes(c))
    {
      hide HasAt, SideBytes, ComparisonBytes, Emitted;
      hide Node, EncodableComparison, SideTokens, EncodableSide, ComparisonTokens;
      ComparisonParts(c);
      HasParts(tokens, pos, SideTokens(c.left) + [Cmp(c.op)], SideTokens(c.right));
      HasParts(tokens, pos, SideTokens(c.left), [Cmp(c.op)]);
      HasFirst(tokens, pos + |SideTokens(c.left)|, [Cmp(c.op)]);
      ghost var left := SideBytes(c.left);
      var savedEnd;
      ghost var gap;
      savedEnd, gap := LeaveGap(before);
      ok := ParseExpr(c.left, before + gap);
      if !ok {
        return;
      }
      assert before + gap + left == before + (gap + left);
      savedEnd := ReturnToGap(savedEnd, before, gap + left);
      Next();
      if !token.Cmp? {
        return false;
      }
      FillGap(CmpCode(token.cmp), savedEnd, before, gap, left);
      RegroupFour(before, Node(LVM_CMP_OP, CmpCode(c.op)), left, SideBytes(c.right));
      ok := ParseExpr(c.right, before + Node(LVM_CMP_OP, CmpCode(c.op)) + left);
    }

    /**
     Between two comparisons of chain c, which ends at token position stop: the finished code, then the first
     comparison of what is left, whose connective is the next token.
    */
    ghost predicate Between(c: Chain, stop: nat, done: seq<byte>, left: Chain)
      reads this`pos, vm`end, vm.code
    {
      && EncodableChain(c) && EncodableChain(left) && EncodableComparison(FirstComparison(left))
      && done + ChainBytes(left) == ChainBytes(c)
      && Emitted(done + ComparisonBytes(FirstComparison(left)))
      && HasAt(tokens, pos, AfterFirst(left)) && pos + |AfterFirst(left)| == stop
    }

    lemma Unpack(c: Chain, stop: nat, done: seq<byte>, left: Chain)
      requires Between(c, stop, done, left)
      ensures EncodableChain(left) && done + ChainBytes(left) == ChainBytes(c)
      ensures left.Last? ==> Emitted(ChainBytes(c))
      ensures left.Link? ==> EncodableComparison(left.c) && Emitted(done + ComparisonBytes(left.c))
    {
      if left.Last? {
        LastBytes(left);
      }
    }

    /** The first comparison of what is left of a chain. */
    method ParseFirst(ghost c: Chain, ghost stop: nat, ghost done: seq<byte>, ghost left: Chain) returns (ok: bool)
      requires EncodableChain(c) && EncodableChain(left) && done + ChainBytes(left) == ChainBytes(c)
      requires HasAt(tokens, pos, ChainTokens(left)) && ChainEnds(tokens, stop) && stop == pos + |ChainTokens(left)|
      requires Emitted(done) && |ChainBytes(c)| < vm.code.Length
      modifies this`pos, this`prev, this`token, vm`end, vm`error, vm.code
      ensures ok && vm.error == old(vm.error) && Between(c, stop, done, left)
    {
      assert |done| + |ChainBytes(left)| == |ChainBytes(c)|;
      hide HasAt, ComparisonBytes, ChainBytes, ComparisonTokens;
      hide EncodableComparison, Emitted, FirstComparison, AfterFirst, ChainTokens;
      ChainSplits(left);
      HasParts(tokens, pos, ComparisonTokens(FirstComparison(left)), AfterFirst(left));
      FirstEnds(tokens, pos + |ComparisonTokens(FirstComparison(left))|, left);
      ok := ParseComparison(FirstComparison(left), done);
    }

    /** The next token, if it is a connective. */
    method ParseConnective(ghost c: Chain, ghost stop: nat, ghost done: seq<byte>, ghost left: Chain)
      returns (more: bool, code: byte)
      requires Between(c, stop, done, left) && ChainEnds(tokens, stop)
      modifies this`pos, this`prev, this`token
      ensures more == left.Link?
      ensures if more then pos == old(pos) + 1 && code == ConnectiveCode(left.connective)
                           && HasAt(tokens, pos, ChainTokens(left.rest)) && stop == pos + |ChainTokens(left.rest)|
              else pos == old(pos) == stop
    {
      hide HasAt, ComparisonBytes, ChainBytes, ComparisonTokens, EncodableComparison;
      hide EncodableChain, Emitted, FirstComparison, ChainTokens, Node, AfterFirst;
      Continues(tokens, pos, left);
      Next();
      if token != AndToken && token != OrToken {
        Rewind();
        return false, 0;
      }
      more, code := true, if token == AndToken then LVM_AND else LVM_OR;
    }

    /**
     One round of the loop below: the operator of a link goes in front of its comparison, and the next one follows.
    */
    method ParseLink(connective: byte, at: nat, ghost c: Chain, ghost stop: nat, ghost done: seq<byte>,
        ghost left: Chain)
      returns (ok: bool, newEnd: nat)
      requires left.Link? && EncodableChain(left) && EncodableComparison(left.c)
      requires connective == ConnectiveCode(left.connective)
      requires EncodableChain(c) && done + ChainBytes(left) == ChainBytes(c)
      requires Emitted(done + ComparisonBytes(left.c)) && at == |done| && |ChainBytes(c)| < vm.code.Length
      requires HasAt(tokens, pos, ChainTokens(left.rest)) && ChainEnds(tokens, stop)
      requires stop == pos + |ChainTokens(left.rest)|
      modifies this`pos, this`prev, this`token, vm`end, vm`error, vm.code
      ensures ok && vm.error == old(vm.error)
      ensures newEnd == |Finished(done, connective, ComparisonBytes(left.c))|
      ensures Between(c, stop, Finished(done, connective, ComparisonBytes(left.c)), left.rest)
    {
      assert |done| + |ChainBytes(left)| == |ChainBytes(c)|;
      LinkBytes(left);
      FinishedLink(done, left);
      RestStart(tokens, pos, left.rest);
      hide HasAt, ComparisonBytes, ChainBytes, EncodableComparison, Emitted;
      hide FirstComparison, AfterFirst, ChainTokens, Node, Between;
      newEnd := InsertOperator(at, LVM_CMP_OP, connective, done, ComparisonBytes(left.c));
      Next();
      if token == LeftParen {
        ok := false;
        return;
      }
      Rewind();
      ok := ParseFirst(c, stop, Finished(done, connective, ComparisonBytes(left.c)), left.rest);
    }

    /**
     Compiles a flat chain: every connective is put in front of the comparison that precedes it, so the result is
     the prefix encoding of the right-nested formula.
    */
    method ParseWhere(ghost c: Chain) returns (ok: bool)
      requires EncodableChain(c) && HasAt(tokens, pos, ChainTokens(c)) && ChainEnds(tokens, pos + |ChainTokens(c)|)
      requires vm.end == 0 && |ChainBytes(c)| < vm.code.Length
      modifies this`pos, this`prev, this`token, vm`end, vm`error, vm.code
      ensures ok && pos == old(pos) + |ChainTokens(c)| && vm.error == old(vm.error)
      ensures Emitted(ChainBytes(c))
    {
      assert Emitted([]);
      assert [] + ChainBytes(c) == ChainBytes(c);
      hide HasAt, ComparisonBytes, ChainBytes, Emitted, Between;
      hide Finished, ChainTokens, AfterFirst, ChainEnds, EncodableChain;
      ghost var stop := pos + |ChainTokens(c)|;
      ghost var left: Chain, done: seq<byte> := c, [];
      ok := ParseFirst(c, stop, done, left);
      var savedEnd := 0;
      while ok
        invariant ok && vm.error == old(vm.error) && savedEnd == |done|
        invariant Between(c, stop, done, left)
        decreases left
      {
        Unpack(c, stop, done, left);
        var more, connective := ParseConnective(c, stop, done, left);
        if !more {
          break;
        }
        ok, savedEnd := ParseLink(connective, savedEnd, c, stop, done, left);
        done := Finished(done, connective, ComparisonBytes(left.c));
        left := left.rest;
      }
    }
  }

  /**
   A condition from its tokens to its value: whatever the values of its variables, executing what the parser emits gives
   the meaning of the right-nested formula, and MATH_ERROR exactly when one of its divisions is by zero.
  */
  method EvaluateWhere(tokens: seq<Token>, values: seq<int>, size: nat, ghost c: Chain) returns (status: Status)
    requires tokens == ChainTokens(c) && EncodableChain(c) && |ChainBytes(c)| < size
    requires ChainVariables(c) <= |values|
    ensures status == StatusOf(FormulaValue(RightNested(c), EnvOf(values)))
    ensures status == MATH_ERROR <==> SomeDivisionByZero(RightNested(c), EnvOf(values))
  {
    hide ChainTokens, EncodableChain, RightNested, FormulaValue, SomeDivisionByZero;
    ErrorExact(RightNested(c), EnvOf(values));
    var vm := new LogicVm(size);
    var parser := new WhereParser(tokens, vm);
    assert tokens[0..|tokens|] == tokens;
    var ok := parser.ParseWhere(c);
    vm.variables := values;
    ChainEncodable(c);
    ChainKnown(vm, c);
    status := vm.Execute(RightNested(c));
    assert vm.Values() == EnvOf(values);
  }

  function EnvOf(values: seq<int>): Env {
    (i: nat) => if i < |values| then values[i] else 0
  }

  /** One more than the highest variable of a side. */
  function OperandVariables(o: Operand): nat {
    if o.Variable? then o.id + 1 else 0
  }

  function SideVariables(s: Side): nat {
    match s
    case One(o) => OperandVariables(o)
    case Two(_, o1, o2) => Max(OperandVariables(o1), OperandVariables(o2))
  }

  function ChainVariables(c: Chain): nat {
    var first := Max(SideVariables(FirstComparison(c).left), SideVariables(FirstComparison(c).right));
    match c
    case Last(_) => first
    case Link(_, _, rest) => Max(first, ChainVariables(rest))
  }

  lemma {:induction false} ChainKnown(vm: LogicVm, c: Chain)
    requires ChainVariables(c) <= |vm.variables|
    ensures vm.Known(RightNested(c))
  {
    var first := FirstComparison(c);
    SideKnown(vm, first.left);
    SideKnown(vm, first.right);
    if c.Link? {
      ChainKnown(vm, c.rest);
    }
  }

  lemma SideKnown(vm: LogicVm, s: Side)
    requires SideVariables(s) <= |vm.variables|
    ensures vm.KnownExpr(SideExpr(s))
  {
    match s
    case One(o) => OperandKnown(vm, o);
    case Two(_, o1, o2) =>
      OperandKnown(vm, o1);
      OperandKnown(vm, o2);
  }

  lemma OperandKnown(vm: LogicVm, o: Operand)
    requires OperandVariables(o) <= |vm.variables|
    ensures vm.KnownExpr(Leaf(o))
  {
  }

  // ---------------------------------------------------------------- what a chain means

  function Length(c: Chain): nat {
    match c
    case Last(_) => 1
    case Link(_, _, rest) => 1 + Length(rest)
  }

  function ComparisonAt(c: Chain, k: nat): Comparison
    requires k < Length(c)
  {
    if k == 0 then FirstComparison(c) else ComparisonAt(c.rest, k - 1)
  }

  /** The value of comparison k settles the chain: a true one before OR, a false one before AND, or the last one. */
  predicate Settles(c: Chain, env: Env, k: nat)
    requires k < Length(c)
  {
    if k > 0 then Settles(c.rest, env, k - 1)
    else
      match c
      case Last(_) => true
      case Link(first, Conj, _) => FormulaValue(ComparisonFormula(first), env) == False
      case Link(first, Disj, _) => FormulaValue(ComparisonFormula(first), env) == True
  }

  /**
   Reading from the left, the first comparison that settles the chain gives its value: AND does not bind tighter
   than OR.
  */
  lemma {:induction false} ChainDecision(c: Chain, env: Env, k: nat)
    requires !SomeDivisionByZero(RightNested(c), env)
    requires k < Length(c) && Settles(c, env, k) && forall j | 0 <= j < k :: !Settles(c, env, j)
    ensures FormulaValue(RightNested(c), env) == FormulaValue(ComparisonFormula(ComparisonAt(c, k)), env)
  {
    ErrorExact(RightNested(c), env);
    if c.Link? {
      ErrorExact(RightNested(c.rest), env);
      ErrorExact(ComparisonFormula(c.c), env);
      if k > 0 {
        assert !Settles(c, env, 0);
        forall j | 0 <= j < k - 1
          ensures !Settles(c.rest, env, j)
        {
          assert !Settles(c, env, j + 1);
        }
        ChainDecision(c.rest, env, k - 1);
      }
    }
  }
}
