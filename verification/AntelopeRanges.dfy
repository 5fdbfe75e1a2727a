/**
 Range derivation (lvm_derive): which values of each variable can satisfy a condition. The exact
 situations in which the derived ranges may be trusted.
*/
module AntelopeRanges {
  import opened Numbers
  import opened AntelopeLogic

  /** min > max is possible and stands for no value. */
  datatype Range = Range(min: int, max: int)

  predicate InRange(x: int, r: Range) {
    r.min <= x <= r.max
  }

  const FULL_RANGE := Range(LONG_MIN, LONG_MAX)

  /** The derived entries of the derivation array. */
  type Box = map<nat, Range>

  datatype Derivation = Derived(box: Box) | Failed

  const LVM_MAX_VARIABLE_ID := 4

  /** create_intersection */
  function Intersection(a: Box, b: Box): (r: Box)
    ensures r.Keys == a.Keys + b.Keys
    ensures forall i :: i in a && i in b ==> r[i] == Range(Max(a[i].min, b[i].min), Min(a[i].max, b[i].max))
    ensures forall i :: i in a && i !in b ==> r[i] == a[i]
    ensures forall i :: i !in a && i in b ==> r[i] == b[i]
  {
    map i | i in a.Keys + b.Keys ::
      if i in a && i in b then Range(Max(a[i].min, b[i].min), Min(a[i].max, b[i].max))
      else if i in a then a[i] else b[i]
  }

  /** create_union: where only one side is derived, its range is taken over. */
  function Union(a: Box, b: Box): (r: Box)
    ensures r.Keys == a.Keys + b.Keys
    ensures forall i :: i in a && i in b ==> r[i] == Range(Min(a[i].min, b[i].min), Max(a[i].max, b[i].max))
    ensures forall i :: i in a && i !in b ==> r[i] == a[i]
    ensures forall i :: i !in a && i in b ==> r[i] == b[i]
  {
    map i | i in a.Keys + b.Keys ::
      if i in a && i in b then Range(Min(a[i].min, b[i].min), Max(a[i].max, b[i].max))
      else if i in a then a[i] else b[i]
  }

  /** The range that a comparison with constant c gives; the source does not look on which side the variable is. */
  function ConstantRange(op: CmpOp, c: int): Derivation {
    match op
    case Eq => Derived(map[0 := Range(c, c)])
    case Gt => Derived(map[0 := Range(Wrap(c + 1), LONG_MAX)])
    case Geq => Derived(map[0 := Range(c, LONG_MAX)])
    case Lt => Derived(map[0 := Range(LONG_MIN, Wrap(c - 1))])
    case Leq => Derived(map[0 := Range(LONG_MIN, c)])
    case Neq => Failed
  }

  /** The union's identifier member: a variable's id, or the low byte of a constant. */
  function IdOf(o: Operand): nat {
    match o
    case Variable(id) => id
    case Literal(v) => v % 256
  }

  function ConstantOf(o: Operand): int {
    match o
    case Variable(id) => id
    case Literal(v) => v
  }

  function DeriveComparison(op: CmpOp, l: Operand, r: Operand): Derivation {
    if l.Variable? && r.Variable? then Failed
    else
      var id := if l.Variable? then l.id else IdOf(r);
      var c := if l.Variable? then ConstantOf(r) else ConstantOf(l);
      if id >= LVM_MAX_VARIABLE_ID then Failed
      else
        match ConstantRange(op, c)
        case Failed => Failed
        case Derived(b) => Derived(map[id := b[0]])
  }

  /** derive_relation */
  function Derive(f: Formula): Derivation {
    match f
    case Compare(op, l, r) => if l.Leaf? && r.Leaf? then DeriveComparison(op, l.operand, r.operand) else Failed
    case And(g, h) =>
      (match (Derive(g), Derive(h))
       case (Derived(a), Derived(b)) => Derived(Intersection(a, b))
       case _ => Failed)
    case Or(g, h) =>
      (match (Derive(g), Derive(h))
       case (Derived(a), Derived(b)) => Derived(Union(a, b))
       case _ => Failed)
    case Not(_) => Failed
  }

  ghost predicate InBox(env: Env, box: Box) {
    forall i :: i in box ==> InRange(env(i), box[i])
  }

  ghost predicate LongEnv(env: Env) {
    forall i: nat :: IsLong(env(i))
  }

  /** Every assignment that satisfies f lies in the derived box. */
  ghost predicate Sound(f: Formula, box: Box) {
    forall env: Env :: LongEnv(env) && FormulaValue(f, env) == True ==> InBox(env, box)
  }

  // ---------------------------------------------------------------- the trusted fragment

  /** The constants of a condition are longs. */
  predicate LongConstants(f: Formula) {
    match f
    case Compare(_, l, r) => LongOperand(l) && LongOperand(r)
    case And(g, h) => LongConstants(g) && LongConstants(h)
    case Or(g, h) => LongConstants(g) && LongConstants(h)
    case Not(g) => LongConstants(g)
  }

  predicate LongOperand(e: Expr) {
    e.Leaf? && e.operand.Literal? ==> IsLong(e.operand.value)
  }

  /** In every comparison the left operand is a variable. */
  predicate VariableLeft(f: Formula) {
    match f
    case Compare(_, l, _) => l.Leaf? && l.operand.Variable?
    case And(g, h) => VariableLeft(g) && VariableLeft(h)
    case Or(g, h) => VariableLeft(g) && VariableLeft(h)
    case Not(g) => VariableLeft(g)
  }

  /** The two sides of every OR constrain the same variables. */
  predicate OrAgrees(f: Formula) {
    match f
    case Compare(_, _, _) => true
    case And(g, h) => OrAgrees(g) && OrAgrees(h)
    case Or(g, h) =>
      OrAgrees(g) && OrAgrees(h)
      && (match (Derive(g), Derive(h))
          case (Derived(a), Derived(b)) => a.Keys == b.Keys
          case _ => true)
    case Not(g) => OrAgrees(g)
  }

  predicate Conjunctive(f: Formula) {
    match f
    case Compare(_, _, _) => true
    case And(g, h) => Conjunctive(g) && Conjunctive(h)
    case _ => false
  }

  /** No comparison has the form v > LONG_MAX or v < LONG_MIN. */
  predicate NoOverflow(f: Formula) {
    match f
    case Compare(op, _, r) =>
      r.Leaf? && r.operand.Literal? ==> (op == Gt ==> r.operand.value != LONG_MAX) && (op == Lt ==>
          r.operand.value != LONG_MIN)
    case And(g, h) => NoOverflow(g) && NoOverflow(h)
    case Or(g, h) => NoOverflow(g) && NoOverflow(h)
    case Not(g) => NoOverflow(g)
  }

  lemma {:induction false} DeriveSound(f: Formula, env: Env)
    requires Derive(f).Derived? && VariableLeft(f) && OrAgrees(f) && LongConstants(f) && LongEnv(env)
    requires FormulaValue(f, env) == True
    ensures InBox(env, Derive(f).box)
  {
    match f
    case Compare(op, l, r) =>
      assert IsLong(env(l.operand.id));
    case And(g, h) =>
      DeriveSound(g, env);
      DeriveSound(h, env);
    case Or(g, h) =>
      if FormulaValue(g, env) == True {
        DeriveSound(g, env);
      } else {
        DeriveSound(h, env);
      }
    case Not(_) =>
  }

  /** If derivation succeeds on the trusted fragment, every satisfying assignment lies in the box. */
  lemma RangesSound(f: Formula)
    requires Derive(f).Derived? && VariableLeft(f) && OrAgrees(f) && LongConstants(f)
    ensures Sound(f, Derive(f).box)
  {
    forall env: Env | LongEnv(env) && FormulaValue(f, env) == True
      ensures InBox(env, Derive(f).box)
    {
      DeriveSound(f, env);
    }
  }

  /** For a pure conjunction the box is exactly the satisfying set. */
  lemma {:induction false} ConjunctionExact(f: Formula, env: Env)
    requires Derive(f).Derived? && VariableLeft(f) && Conjunctive(f) && NoOverflow(f) && LongConstants(f)
    requires LongEnv(env)
    ensures FormulaValue(f, env) != Error
    ensures FormulaValue(f, env) == True <==> InBox(env, Derive(f).box)
  {
    match f
    case Compare(op, l, r) =>
      assert IsLong(env(l.operand.id));
    case And(g, h) =>
      ConjunctionExact(g, env);
      ConjunctionExact(h, env);
      IntersectionExact(Derive(g).box, Derive(h).box, env);
  }

  lemma IntersectionExact(a: Box, b: Box, env: Env)
    ensures InBox(env, Intersection(a, b)) <==> InBox(env, a) && InBox(env, b)
  {
    var r := Intersection(a, b);
    if InBox(env, r) {
      forall i | i in a
        ensures InRange(env(i), a[i])
      {
        assert i in r;
      }
      forall i | i in b
        ensures InRange(env(i), b[i])
      {
        assert i in r;
      }
    }
  }

  // ---------------------------------------------------------------- outside the trusted fragment

  function At(id: nat, x: int): Env {
    (i: nat) => if i == id then x else 0
  }

  /**
   When a comparison with the constant on the left can be trusted: equality, and constants that leave nothing or
   everything.
  */
  predicate MirrorHarmless(op: CmpOp, c: int) {
    match op
    case Eq => true
    case Gt => c == LONG_MIN || c == LONG_MAX
    case Geq => c == LONG_MIN
    case Lt => c == LONG_MIN || c == LONG_MAX
    case Leq => c == LONG_MAX
    case Neq => false
  }

  /** The source treats `c op v` like `v op c`, so the derived range is wrong but for the harmless cases. */
  lemma MirroredExact(op: CmpOp, c: int, id: nat)
    requires op != Neq && IsLong(c) && id < LVM_MAX_VARIABLE_ID
    ensures var f := Compare(op, Leaf(Literal(c)), Leaf(Variable(id)));
            Derive(f).Derived? && (Sound(f, Derive(f).box) <==> MirrorHarmless(op, c))
  {
    var f := Compare(op, Leaf(Literal(c)), Leaf(Variable(id)));
    var box := Derive(f).box;
    if MirrorHarmless(op, c) {
      forall env: Env | LongEnv(env) && FormulaValue(f, env) == True
        ensures InBox(env, box)
      {
        assert IsLong(env(id));
      }
    } else {
      var x := if op == Gt || op == Geq then LONG_MIN else LONG_MAX;
      var env := At(id, x);
      assert LongEnv(env) && FormulaValue(f, env) == True;
      assert id in box && !InRange(env(id), box[id]);
    }
  }

  /** Constants that leave a comparison with them no value to exclude. */
  predicate LeavesAll(op: CmpOp, c: int) {
    match op
    case Gt => c == LONG_MAX
    case Geq => c == LONG_MIN
    case Lt => c == LONG_MIN
    case Leq => c == LONG_MAX
    case _ => false
  }

  /**
   A comparison of two constants is read as one of the variable whose id is the low byte of the right constant. That is
   harmless exactly when the comparison is false, or its range excludes nothing.
  */
  lemma ConstantsExact(op: CmpOp, c: int, d: int)
    requires op != Neq && IsLong(c) && IsLong(d) && d % 256 < LVM_MAX_VARIABLE_ID
    ensures var f := Compare(op, Leaf(Literal(c)), Leaf(Literal(d)));
            Derive(f).Derived? && (Sound(f, Derive(f).box) <==> !Holds(op, c, d) || LeavesAll(op, c))
  {
    var f := Compare(op, Leaf(Literal(c)), Leaf(Literal(d)));
    var id := d % 256;
    var box := Derive(f).box;
    if LeavesAll(op, c) {
      forall env: Env | LongEnv(env)
        ensures InBox(env, box)
      {
        assert IsLong(env(id));
      }
    } else if Holds(op, c, d) {
      var env := At(id, if box[id].min > LONG_MIN then LONG_MIN else LONG_MAX);
      assert LongEnv(env) && FormulaValue(f, env) == True;
      assert id in box && !InRange(env(id), box[id]);
    }
  }

  ghost predicate NoAssignment(box: Box) {
    exists i :: i in box && box[i].min > box[i].max
  }

  /** Variables that only a derives are unconstrained by a, or b has no assignment. */
  ghost predicate OnlyFull(a: Box, b: Box) {
    NoAssignment(b) || forall i :: i in a && i !in b ==> a[i] == FULL_RANGE
  }

  ghost predicate LongBox(box: Box) {
    forall i :: i in box ==> IsLong(box[i].min) && IsLong(box[i].max)
  }

  lemma {:induction false} BoxIsLong(f: Formula)
    requires Derive(f).Derived? && VariableLeft(f) && Conjunctive(f) && LongConstants(f)
    ensures LongBox(Derive(f).box)
  {
    match f
    case Compare(_, _, _) =>
    case And(g, h) =>
      BoxIsLong(g);
      BoxIsLong(h);
  }

  /** An assignment in box b that gives variable x, free in b, the value v. */
  lemma Escape(a: Box, b: Box, x: nat) returns (env: Env)
    requires LongBox(a) && LongBox(b) && !NoAssignment(b) && x in a && x !in b && a[x] != FULL_RANGE
    ensures LongEnv(env) && InBox(env, b) && !InRange(env(x), a[x])
  {
    var v := if a[x].min > LONG_MIN then LONG_MIN else LONG_MAX;
    env := (i: nat) => if i == x then v else if i in b then b[i].min else 0;
    forall i | i in b
      ensures InRange(env(i), b[i])
    {
      assert !(b[i].min > b[i].max);
    }
  }

  lemma UnionCovers(a: Box, b: Box, env: Env)
    requires OnlyFull(b, a) && LongEnv(env) && InBox(env, a)
    ensures InBox(env, Union(a, b))
  {
    forall i | i in Union(a, b)
      ensures InRange(env(i), Union(a, b)[i])
    {
      assert IsLong(env(i));
      assert i in a ==> InRange(env(i), a[i]);
    }
  }

  lemma UnionSymmetric(a: Box, b: Box)
    ensures Union(a, b) == Union(b, a)
  {
  }

  /**
   The disjunction of two conjunctions: the derived ranges can be trusted if and only if each variable derived
   on one side alone is unconstrained there, or the other side cannot be satisfied.
  */
  lemma DisjunctionExact(g: Formula, h: Formula)
    requires Derive(g).Derived? && VariableLeft(g) && Conjunctive(g) && NoOverflow(g) && LongConstants(g)
    requires Derive(h).Derived? && VariableLeft(h) && Conjunctive(h) && NoOverflow(h) && LongConstants(h)
    ensures Sound(Or(g, h), Derive(Or(g, h)).box)
       <==> OnlyFull(Derive(g).box, Derive(h).box) && OnlyFull(Derive(h).box, Derive(g).box)
  {
    hide Derive, InBox, FormulaValue;
    var a, b := Derive(g).box, Derive(h).box;
    OrUnfolds(g, h);
    BoxIsLong(g);
    BoxIsLong(h);
    UnionSymmetric(a, b);
    forall env: Env | LongEnv(env)
      ensures FormulaValue(Or(g, h), env) == True <==> InBox(env, a) || InBox(env, b)
    {
      ConjunctionExact(g, env);
      ConjunctionExact(h, env);
      OrValue(g, h, env);
    }
    if OnlyFull(a, b) && OnlyFull(b, a) {
      forall env: Env | LongEnv(env) && FormulaValue(Or(g, h), env) == True
        ensures InBox(env, Union(a, b))
      {
        if InBox(env, a) {
          UnionCovers(a, b, env);
        } else {
          UnionCovers(b, a, env);
        }
      }
    } else {
      if !OnlyFull(a, b) {
        OneSided(a, b, Or(g, h));
      } else {
        OneSided(b, a, Or(g, h));
      }
    }
  }

  lemma OneSided(a: Box, b: Box, f: Formula)
    requires LongBox(a) && LongBox(b) && !OnlyFull(a, b)
    requires forall env: Env :: LongEnv(env) && InBox(env, b) ==> FormulaValue(f, env) == True
    ensures !Sound(f, Union(a, b))
  {
    hide FormulaValue;
    var x :| x in a && x !in b && a[x] != FULL_RANGE;
    var env := Escape(a, b, x);
    assert x in Union(a, b) && Union(a, b)[x] == a[x];
    assert !InBox(env, Union(a, b));
  }

  lemma OrUnfolds(g: Formula, h: Formula)
    requires Derive(g).Derived? && Derive(h).Derived?
    ensures Derive(Or(g, h)) == Derived(Union(Derive(g).box, Derive(h).box))
  {
  }

  lemma OrValue(g: Formula, h: Formula, env: Env)
    requires FormulaValue(g, env) != Error && FormulaValue(h, env) != Error
    ensures FormulaValue(Or(g, h), env) == True <==> FormulaValue(g, env) == True || FormulaValue(h, env) == True
  {
  }
}
