/** The logic engine: emitting bytecode by shifting, executing it, and deriving ranges from it. */
module AntelopeVm {
  import opened Bytes
  import opened Slices
  import opened AntelopeLogic
  import opened AntelopeBytecode
  import opened AntelopeRanges

  datatype Status = TRUE | FALSE | SEMANTIC_ERROR | MATH_ERROR | EXECUTION_ERROR

  function StatusOf(t: Truth): Status {
    match t
    case True => TRUE
    case False => FALSE
    case Error => MATH_ERROR
  }

  lemma ExprParts(e: Expr)
    requires EncodableExpr(e)
    ensures e.Leaf? ==> EncodeExpr(e) == [LVM_OPERAND] + OperandBytes(e.operand)
    ensures e.Binary? ==>
              EncodeExpr(e) == [LVM_ARITH_OP, ArithCode(e.op)] + (EncodeExpr(e.left) + EncodeExpr(e.right))
  {
    hide OperandBytes;
  }

  /** The bytes of an expression, taken apart. */
  lemma ExprAt(code: seq<byte>, ip: nat, e: Expr)
    requires EncodableExpr(e) && HasAt(code, ip, EncodeExpr(e))
    ensures ip + 2 < |code|
    ensures e.Leaf? ==> code[ip] == LVM_OPERAND && HasAt(code, ip + 1, OperandBytes(e.operand))
                        && |EncodeExpr(e)| == 1 + OPERAND_SIZE
    ensures e.Binary? ==> code[ip] == LVM_ARITH_OP && code[ip + 1] == ArithCode(e.op)
                          && HasAt(code, ip + 2, EncodeExpr(e.left) + EncodeExpr(e.right))
                          && |EncodeExpr(e)| == 2 + |EncodeExpr(e.left)| + |EncodeExpr(e.right)|
  {
    ExprParts(e);
    hide EncodeExpr, OperandBytes;
    if e.Leaf? {
      HasParts(code, ip, [LVM_OPERAND], OperandBytes(e.operand));
      assert code[ip] == code[ip..ip + 1][0];
    } else {
      HasParts(code, ip, [LVM_ARITH_OP, ArithCode(e.op)], EncodeExpr(e.left) + EncodeExpr(e.right));
      var head := code[ip..ip + 2];
      assert code[ip] == head[0] && code[ip + 1] == head[1];
    }
  }

  function OpCode(f: Formula): byte {
    match f
    case Compare(op, _, _) => CmpCode(op)
    case And(_, _) => LVM_AND
    case Or(_, _) => LVM_OR
    case Not(_) => LVM_NOT
  }

  /** The arguments of a relation or connective. */
  function Arguments(f: Formula): seq<byte>
    requires Encodable(f)
  {
    match f
    case Compare(_, l, r) => EncodeExpr(l) + EncodeExpr(r)
    case And(g, h) => Encode(g) + Encode(h)
    case Or(g, h) => Encode(g) + Encode(h)
    case Not(g) => Encode(g)
  }

  lemma EncodeParts(f: Formula)
    requires Encodable(f)
    ensures Encode(f) == [LVM_CMP_OP, OpCode(f)] + Arguments(f)
  {
    hide EncodeExpr;
    match f
    case Compare(op, l, r) => Regroup([LVM_CMP_OP, CmpCode(op)], EncodeExpr(l), EncodeExpr(r));
    case And(g, h) => Regroup([LVM_CMP_OP, LVM_AND], Encode(g), Encode(h));
    case Or(g, h) => Regroup([LVM_CMP_OP, LVM_OR], Encode(g), Encode(h));
    case Not(_) =>
  }

  lemma FormulaAt(code: seq<byte>, ip: nat, f: Formula)
    requires Encodable(f) && HasAt(code, ip, Encode(f))
    ensures ip + 2 < |code| && code[ip] == LVM_CMP_OP && code[ip + 1] == OpCode(f)
    ensures HasAt(code, ip + 2, Arguments(f)) && |Encode(f)| == 2 + |Arguments(f)|
  {
    EncodeParts(f);
    hide Encode, Arguments;
    HasParts(code, ip, [LVM_CMP_OP, OpCode(f)], Arguments(f));
    var head := code[ip..ip + 2];
    assert code[ip] == head[0] && code[ip + 1] == head[1];
  }

  class LogicVm {
    const code: array<byte>
    var end: nat
    var ip: nat
    var error: bool
    var variables: seq<int>

    constructor (size: nat)
      ensures code.Length == size && fresh(code) && end == 0 && !error && variables == []
    {
      code := new byte[size](i => 0);
      end, ip, error, variables := 0, 0, false, [];
    }

    /** lvm_set_variable_value */
    method SetVariableValue(id: nat, value: int)
      requires id < |variables|
      modifies this`variables
      ensures variables == old(variables)[id := value]
    {
      variables := variables[id := value];
    }

    ghost function Values(): Env
      reads this`variables
    {
      var vs := variables;
      (i: nat) => if i < |vs| then vs[i] else 0
    }

    // -------------------------------------------------------------- execution

    method GetType() returns (t: byte)
      requires ip < code.Length
      modifies this`ip
      ensures t == code[old(ip)] && ip == old(ip) + 1
    {
      t := code[ip];
      ip := ip + 1;
    }

    method GetOperator() returns (op: byte)
      requires ip < code.Length
      modifies this`ip
      ensures op == code[old(ip)] && ip == old(ip) + 1
    {
      op := code[ip];
      ip := ip + 1;
    }

    /** get_operand, in the source as a copy of the operand structure. */
    method GetOperand(ghost o: Operand) returns (r: Operand)
      requires EncodableOperand(o) && HasAt(code[..], ip, OperandBytes(o))
      modifies this`ip
      ensures r == o && ip == old(ip) + OPERAND_SIZE
    {
      ghost var bytes := OperandBytes(o);
      assert forall k :: 0 <= k < OPERAND_SIZE ==> code[ip + k] == bytes[k];
      if code[ip] == LVM_VARIABLE {
        r := Variable(code[ip + 1]);
      } else {
        var raw := code[ip + 1..ip + 5];
        assert o.Literal? ==> raw == LongBytes(o.value);
        if o.Literal? {
          LongRoundTrip(o.value);
        }
        r := Literal(LongOf(raw));
      }
      ip := ip + OPERAND_SIZE;
    }

    method OperandToLong(o: Operand) returns (v: int)
      requires o.Variable? ==> o.id < |variables|
      ensures v == OperandValue(o, Values())
    {
      match o
      case Variable(id) => v := variables[id];
      case Literal(c) => v := c;
    }

    ghost predicate KnownExpr(e: Expr)
      reads this`variables
    {
      match e
      case Leaf(o) => o.Variable? ==> o.id < |variables|
      case Binary(_, l, r) => KnownExpr(l) && KnownExpr(r)
    }

    ghost predicate Known(f: Formula)
      reads this`variables
    {
      match f
      case Compare(_, l, r) => KnownExpr(l) && KnownExpr(r)
      case And(g, h) => Known(g) && Known(h)
      case Or(g, h) => Known(g) && Known(h)
      case Not(g) => Known(g)
    }

    /** One argument of an operator: a nested expression or an operand. */
    method EvalArgument(ghost e: Expr) returns (ok: bool, value: int)
      requires EncodableExpr(e) && KnownExpr(e) && HasAt(code[..], ip, EncodeExpr(e))
      modifies this`ip
      ensures ExprValue(e, Values()) == if ok then Value(value) else MathError
      ensures ok ==> ip == old(ip) + |EncodeExpr(e)|
      decreases e, 1
    {
      hide HasAt, EncodeExpr, ExprValue;
      ExprAt(code[..], ip, e);
      LeafValue(e, Values());
      var t := GetType();
      if t == LVM_ARITH_OP {
        var op := GetOperator();
        ok, value := EvalExpr(op, e);
      } else {
        var o := GetOperand(e.operand);
        value := OperandToLong(o);
        ok := true;
      }
    }

    /** eval_expr: both arguments, then the operation. */
    method EvalExpr(op: byte, ghost e: Expr) returns (ok: bool, value: int)
      requires e.Binary? && EncodableExpr(e) && KnownExpr(e) && op == ArithCode(e.op)
      requires HasAt(code[..], ip, EncodeExpr(e.left) + EncodeExpr(e.right))
      modifies this`ip
      ensures ExprValue(e, Values()) == if ok then Value(value) else MathError
      ensures ok ==> ip == old(ip) + |EncodeExpr(e.left)| + |EncodeExpr(e.right)|
      decreases e, 0
    {
      HasParts(code[..], ip, EncodeExpr(e.left), EncodeExpr(e.right));
      var a, b;
      ok, a := EvalArgument(e.left);
      if !ok {
        return false, 0;
      }
      ok, b := EvalArgument(e.right);
      if !ok {
        return false, 0;
      }
      if op == ArithCode(Add) {
        value := Wrap(a + b);
      } else if op == ArithCode(Sub) {
        value := Wrap(a - b);
      } else if op == ArithCode(Mul) {
        value := Wrap(a * b);
      } else if b == 0 {
        return false, 0;
      } else {
        value := Wrap(Quotient(a, b));
      }
    }

    /** eval_logic behind the operator byte. */
    method EvalLogic(op: byte, ghost f: Formula) returns (status: Status)
      requires Encodable(f) && Known(f) && op == OpCode(f) && HasAt(code[..], ip, Arguments(f))
      modifies this`ip
      ensures status == StatusOf(FormulaValue(f, Values()))
      ensures status != MATH_ERROR ==> ip == old(ip) + |Arguments(f)|
      decreases f, 0
    {
      hide HasAt, EncodeExpr, Encode;
      if op == LVM_NOT {
        var a := EvalNested(f.f);
        if a != TRUE && a != FALSE {
          return a;
        }
        status := if a == FALSE then TRUE else FALSE;
      } else if op == LVM_AND || op == LVM_OR {
        HasParts(code[..], ip, Encode(f.f), Encode(f.g));
        var a := EvalNested(f.f);
        if a != TRUE && a != FALSE {
          return a;
        }
        var b := EvalNested(f.g);
        if b != TRUE && b != FALSE {
          return b;
        }
        if op == LVM_AND {
          status := if a == TRUE && b == TRUE then TRUE else FALSE;
        } else {
          status := if a == TRUE || b == TRUE then TRUE else FALSE;
        }
      } else {
        status := EvalComparison(op, f);
      }
    }

    /** The recursive case: a nested relation with its type and operator. */
    method EvalNested(ghost f: Formula) returns (status: Status)
      requires Encodable(f) && Known(f) && HasAt(code[..], ip, Encode(f))
      modifies this`ip
      ensures status == StatusOf(FormulaValue(f, Values()))
      ensures status != MATH_ERROR ==> ip == old(ip) + |Encode(f)|
      decreases f, 1
    {
      hide HasAt, Encode, Arguments, FormulaValue, EncodeExpr;
      FormulaAt(code[..], ip, f);
      var t := GetType();
      if t != LVM_CMP_OP {
        return SEMANTIC_ERROR;
      }
      var op := GetOperator();
      status := EvalLogic(op, f);
    }

    method EvalComparison(op: byte, ghost f: Formula) returns (status: Status)
      requires f.Compare? && Encodable(f) && Known(f) && op == CmpCode(f.op)
      requires HasAt(code[..], ip, EncodeExpr(f.left) + EncodeExpr(f.right))
      modifies this`ip
      ensures status == StatusOf(FormulaValue(f, Values()))
      ensures status != MATH_ERROR ==> ip == old(ip) + |EncodeExpr(f.left)| + |EncodeExpr(f.right)|
    {
      hide HasAt, EncodeExpr, ExprValue;
      HasParts(code[..], ip, EncodeExpr(f.left), EncodeExpr(f.right));
      var ok, a := EvalArgument(f.left);
      if !ok {
        return MATH_ERROR;
      }
      var b;
      ok, b := EvalArgument(f.right);
      if !ok {
        return MATH_ERROR;
      }
      var r := if op == 0x41 then a == b else if op == 0x42 then a != b else if op == 0x43 then a > b
               else if op == 0x44 then a >= b else if op == 0x45 then a < b else a <= b;
      status := if r then TRUE else FALSE;
    }

    /** lvm_execute on the bytecode of f: its value, and when there is one the code is consumed exactly. */
    method Execute(ghost f: Formula) returns (status: Status)
      requires Encodable(f) && Known(f) && end <= code.Length && code[..end] == Encode(f)
      modifies this`ip
      ensures status == StatusOf(FormulaValue(f, Values()))
      ensures status != MATH_ERROR ==> ip == end
    {
      assert code[..end] == code[..][..end];
      ip := 0;
      status := EvalNested(f);
    }

    // -------------------------------------------------------------- range derivation

    /** An argument that has to be a plain operand. */
    method PlainOperand(ghost e: Expr) returns (ok: bool, o: Operand)
      requires EncodableExpr(e) && HasAt(code[..], ip, EncodeExpr(e))
      modifies this`ip
      ensures ok == e.Leaf? && (ok ==> o == e.operand && ip == old(ip) + |EncodeExpr(e)|)
    {
      hide HasAt, EncodeExpr, OperandBytes;
      ExprAt(code[..], ip, e);
      var t := GetType();
      if t != LVM_OPERAND {
        return false, Literal(0);
      }
      o := GetOperand(e.operand);
      ok := true;
    }

    /** The two operands of a comparison become the range of one variable. */
    method DeriveOperands(op: byte, ghost f: Formula) returns (ok: bool, box: Box)
      requires f.Compare? && Encodable(f) && op == CmpCode(f.op)
      requires HasAt(code[..], ip, EncodeExpr(f.left) + EncodeExpr(f.right))
      modifies this`ip
      ensures Derive(f) == if ok then Derived(box) else Failed
      ensures ok ==> ip == old(ip) + |EncodeExpr(f.left)| + |EncodeExpr(f.right)|
    {
      hide HasAt, EncodeExpr;
      HasParts(code[..], ip, EncodeExpr(f.left), EncodeExpr(f.right));
      var l, r;
      ok, l := PlainOperand(f.left);
      if !ok {
        return false, map[];
      }
      ok, r := PlainOperand(f.right);
      if !ok || (l.Variable? && r.Variable?) {
        return false, map[];
      }
      var id: nat, c: int;
      if l.Variable? {
        id, c := l.id, ConstantOf(r);
      } else {
        id, c := IdOf(r), ConstantOf(l);
      }
      if id >= LVM_MAX_VARIABLE_ID {
        return false, map[];
      }
      var min, max := LONG_MIN, LONG_MAX;
      if op == 0x41 {
        min, max := c, c;
      } else if op == 0x43 {
        min := Wrap(c + 1);
      } else if op == 0x44 {
        min := c;
      } else if op == 0x45 {
        max := Wrap(c - 1);
      } else if op == 0x46 {
        max := c;
      } else {
        return false, map[];
      }
      box := map[id := Range(min, max)];
    }

    /** derive_relation: on failure the source abandons the derivation, so the position does not matter. */
    method DeriveRelation(ghost f: Formula) returns (ok: bool, box: Box)
      requires Encodable(f) && HasAt(code[..], ip, Encode(f))
      modifies this`ip
      ensures Derive(f) == if ok then Derived(box) else Failed
      ensures ok ==> ip == old(ip) + |Encode(f)|
      decreases f
    {
      hide HasAt, Encode, EncodeExpr, DeriveComparison;
      FormulaAt(code[..], ip, f);
      var t := GetType();
      var op := GetOperator();
      if op == LVM_NOT {
        return false, map[];
      }
      if op == LVM_AND || op == LVM_OR {
        HasParts(code[..], ip, Encode(f.f), Encode(f.g));
        var a, b;
        ok, a := DeriveRelation(f.f);
        if !ok {
          return false, map[];
        }
        ok, b := DeriveRelation(f.g);
        if !ok {
          return false, map[];
        }
        box := if op == LVM_AND then Intersection(a, b) else Union(a, b);
      } else {
        ok, box := DeriveOperands(op, f);
      }
    }

    // -------------------------------------------------------------- emission

    /** lvm_jump_to_operand: leaves room for an operator that is not known yet. */
    method JumpToOperand() returns (oldEnd: nat)
      modifies this`end, this`error
      ensures oldEnd == old(end)
      ensures error == (old(error) || old(end) + 2 >= code.Length)
      ensures end == if old(end) + 2 >= code.Length then old(end) else old(end) + 2
    {
      oldEnd := end;
      end := end + 2;
      if end >= code.Length {
        error := true;
        end := oldEnd;
      }
    }

    /**
     lvm_shift_for_operator: opens a gap of two bytes at `at` and makes it the write position. The check of the room
     counts the operator only, so callers must see to it that a gap of two bytes does not end one behind the code.
    */
    method ShiftForOperator(at: nat) returns (newEnd: nat)
      requires at < end ==> end + 1 != code.Length
      modifies this`end, this`error, code
      ensures var ok := at < old(end) && old(end) + 1 <= code.Length;
              if ok then
                && end == at && newEnd == old(end) + 2 && error == old(error)
                && newEnd <= code.Length && code[..] == Overwrite(old(code[..]), at + 2, old(code[at..end]))
              else end == old(end) && newEnd == 0 && error && code[..] == old(code[..])
    {
      var oldEnd := end;
      if oldEnd + 1 > code.Length || at >= oldEnd {
        error := true;
        return 0;
      }
      forall k | 0 <= k < oldEnd - at {
        code[at + 2 + k] := code[at + k];
      }
      end := at;
      newEnd := oldEnd + 2;
    }

    /** lvm_set_end */
    method SetEnd(newEnd: nat) returns (oldEnd: nat)
      modifies this`end, this`error
      ensures oldEnd == old(end)
      ensures if newEnd >= code.Length then error && end == old(end) else error == old(error) && end == newEnd
    {
      if newEnd >= code.Length {
        error := true;
        return end;
      }
      oldEnd := end;
      end := newEnd;
    }

    /** lvm_set_op and lvm_set_relation: a type byte and an operator byte. */
    method SetOperator(nodeType: byte, op: byte)
      requires end + 2 <= code.Length
      modifies this`end, code
      ensures end == old(end) + 2 && code[..] == Overwrite(old(code[..]), old(end), [nodeType, op])
    {
      code[end] := nodeType;
      code[end + 1] := op;
      end := end + 2;
    }

    /** lvm_set_operand */
    method SetOperand(o: Operand)
      requires EncodableOperand(o) && end + 1 + OPERAND_SIZE <= code.Length
      modifies this`end, code
      ensures end == old(end) + 1 + OPERAND_SIZE
      ensures code[..] == Overwrite(old(code[..]), old(end), EncodeExpr(Leaf(o)))
    {
      hide OperandBytes;
      var bytes := OperandBytes(o);
      code[end] := LVM_OPERAND;
      forall k | 0 <= k < OPERAND_SIZE {
        code[end + 1 + k] := bytes[k];
      }
      end := end + 1 + OPERAND_SIZE;
    }
  }

  lemma LeafValue(e: Expr, env: Env)
    ensures e.Leaf? ==> ExprValue(e, env) == Value(OperandValue(e.operand, env))
  {
  }
}
