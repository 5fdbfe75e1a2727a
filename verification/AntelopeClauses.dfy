/**
 Range derivation for every condition on which it succeeds: the condition as a list of boxes, and exactly when the one
 derived box may stand for all of them.
*/
module AntelopeClauses {
  import opened AntelopeLogic
  import opened AntelopeRanges

  /** The operator read from the other side. */
  function Mirror(op: CmpOp): CmpOp {
    match op
    case Gt => Lt
    case Geq => Leq
    case Lt => Gt
    case Leq => Geq
    case _ => op
  }

  /** The values of a variable that satisfy a comparison with a constant on its right: one range, or none. */
  function Bounded(op: CmpOp, id: nat, c: int): seq<Box> {
    match op
    case Eq => [map[id := Range(c, c)]]
    case Gt => if c == LONG_MAX then [] else [map[id := Range(c + 1, LONG_MAX)]]
    case Geq => [map[id := Range(c, LONG_MAX)]]
    case Lt => if c == LONG_MIN then [] else [map[id := Range(LONG_MIN, c - 1)]]
    case Leq => [map[id := Range(LONG_MIN, c)]]
    case Neq => []
  }

  /** What a comparison on which derivation succeeds really says. */
  function ComparisonClauses(op: CmpOp, l: Operand, r: Operand): seq<Box> {
    match (l, r)
    case (Variable(id), Literal(c)) => Bounded(op, id, c)
    case (Literal(c), Variable(id)) => Bounded(Mirror(op), id, c)
    case (Literal(c), Literal(d)) => if Holds(op, c, d) then [map[]] else []
    case _ => []
  }

  function MeetOne(x: Box, ys: seq<Box>): (r: seq<Box>)
    ensures |r| == |ys| && forall i | 0 <= i < |ys| :: r[i] == Intersection(x, ys[i])
  {
    seq(|ys|, i requires 0 <= i < |ys| => Intersection(x, ys[i]))
  }

  /** All pairs of clauses, intersected. */
  function Meet(xs: seq<Box>, ys: seq<Box>): seq<Box> {
    if xs == [] then [] else MeetOne(xs[0], ys) + Meet(xs[1..], ys)
  }

  /** The disjunctive normal form of the condition, one box for each clause. */
  function Clauses(f: Formula): seq<Box>
    requires Derive(f).Derived?
  {
    match f
    case Compare(op, l, r) => ComparisonClauses(op, l.operand, r.operand)
    case And(g, h) => Meet(Clauses(g), Clauses(h))
    case Or(g, h) => Clauses(g) + Clauses(h)
  }

  ghost predicate InSome(env: Env, xs: seq<Box>) {
    exists k | 0 <= k < |xs| :: InBox(env, xs[k])
  }

  lemma InSomeConcat(env: Env, xs: seq<Box>, ys: seq<Box>)
    ensures InSome(env, xs + ys) <==> InSome(env, xs) || InSome(env, ys)
  {
    hide InBox;
    if InSome(env, xs) {
      var k :| 0 <= k < |xs| && InBox(env, xs[k]);
      assert (xs + ys)[k] == xs[k];
    }
    if InSome(env, ys) {
      var k :| 0 <= k < |ys| && InBox(env, ys[k]);
      assert (xs + ys)[|xs| + k] == ys[k];
    }
  }

  lemma InSomeMeetOne(env: Env, x: Box, ys: seq<Box>)
    ensures InSome(env, MeetOne(x, ys)) <==> InBox(env, x) && InSome(env, ys)
  {
    hide InBox, Intersection;
    forall k | 0 <= k < |ys|
      ensures InBox(env, MeetOne(x, ys)[k]) <==> InBox(env, x) && InBox(env, ys[k])
    {
      IntersectionExact(x, ys[k], env);
    }
    if InBox(env, x) && InSome(env, ys) {
      var k :| 0 <= k < |ys| && InBox(env, ys[k]);
      assert InBox(env, MeetOne(x, ys)[k]);
    }
  }

  lemma {:induction false} InSomeMeet(env: Env, xs: seq<Box>, ys: seq<Box>)
    ensures InSome(env, Meet(xs, ys)) <==> InSome(env, xs) && InSome(env, ys)
  {
    hide InBox;
    if xs != [] {
      InSomeMeetOne(env, xs[0], ys);
      InSomeMeet(env, xs[1..], ys);
      InSomeConcat(env, MeetOne(xs[0], ys), Meet(xs[1..], ys));
      InSomeConcat(env, [xs[0]], xs[1..]);
      assert xs == [xs[0]] + xs[1..];
      assert InSome(env, [xs[0]]) <==> InBox(env, [xs[0]][0]);
    }
  }

  lemma BoundedExact(op: CmpOp, id: nat, c: int, env: Env)
    requires op != Neq && IsLong(c) && IsLong(env(id))
    ensures InSome(env, Bounded(op, id, c)) <==> Holds(op, env(id), c)
  {
    var xs := Bounded(op, id, c);
    assert xs != [] ==> (InSome(env, xs) <==> InBox(env, xs[0]));
  }

  lemma ComparisonExact(op: CmpOp, l: Operand, r: Operand, env: Env)
    requires op != Neq && !(l.Variable? && r.Variable?) && LongEnv(env)
    requires LongOperand(Leaf(l)) && LongOperand(Leaf(r))
    ensures InSome(env, ComparisonClauses(op, l, r)) <==> Holds(op, OperandValue(l, env), OperandValue(r, env))
  {
    match (l, r)
    case (Variable(id), Literal(c)) => BoundedExact(op, id, c, env);
    case (Literal(c), Variable(id)) => BoundedExact(Mirror(op), id, c, env);
    case (Literal(c), Literal(d)) => EmptyBox(env);
  }

  lemma EmptyBox(env: Env)
    ensures InSome(env, [map[]]) && !InSome(env, [])
  {
    assert InBox(env, [map[]][0]);
  }

  /** The satisfying assignments are those of the clauses. */
  lemma {:induction false} ClausesExact(f: Formula, env: Env)
    requires Derive(f).Derived? && LongConstants(f) && LongEnv(env)
    ensures FormulaValue(f, env) != Error
    ensures FormulaValue(f, env) == True <==> InSome(env, Clauses(f))
  {
    match f
    case Compare(op, l, r) => ComparisonExact(op, l.operand, r.operand, env);
    case And(g, h) =>
      ClausesExact(g, env);
      ClausesExact(h, env);
      InSomeMeet(env, Clauses(g), Clauses(h));
    case Or(g, h) =>
      ClausesExact(g, env);
      ClausesExact(h, env);
      InSomeConcat(env, Clauses(g), Clauses(h));
  }

  ghost predicate AllLong(xs: seq<Box>) {
    forall k | 0 <= k < |xs| :: LongBox(xs[k])
  }

  lemma {:induction false} MeetLong(xs: seq<Box>, ys: seq<Box>)
    requires AllLong(xs) && AllLong(ys)
    ensures AllLong(Meet(xs, ys))
  {
    if xs != [] {
      MeetLong(xs[1..], ys);
      assert LongBox(xs[0]);
      forall k | 0 <= k < |ys|
        ensures LongBox(MeetOne(xs[0], ys)[k])
      {
        assert LongBox(ys[k]);
      }
    }
  }

  lemma ComparisonLong(op: CmpOp, l: Operand, r: Operand)
    requires LongOperand(Leaf(l)) && LongOperand(Leaf(r))
    ensures AllLong(ComparisonClauses(op, l, r))
  {
  }

  lemma LongConcat(xs: seq<Box>, ys: seq<Box>)
    requires AllLong(xs) && AllLong(ys)
    ensures AllLong(xs + ys)
  {
    hide LongBox;
  }

  lemma {:induction false} ClausesLong(f: Formula)
    requires Derive(f).Derived? && LongConstants(f)
    ensures AllLong(Clauses(f))
  {
    hide AllLong, ComparisonClauses, Meet, Intersection, Union, DeriveComparison;
    match f
    case Compare(op, l, r) => ComparisonLong(op, l.operand, r.operand);
    case And(g, h) =>
      ClausesLong(g);
      ClausesLong(h);
      MeetLong(Clauses(g), Clauses(h));
    case Or(g, h) =>
      ClausesLong(g);
      ClausesLong(h);
      LongConcat(Clauses(g), Clauses(h));
  }

  /** The range that a box leaves a variable. */
  function RangeIn(box: Box, i: nat): Range {
    if i in box then box[i] else FULL_RANGE
  }

  /** Every range of box b has that of a inside. */
  ghost predicate Inside(a: Box, b: Box) {
    forall i | i in b :: b[i].min <= RangeIn(a, i).min && RangeIn(a, i).max <= b[i].max
  }

  /** An assignment in a that lies outside of b. */
  lemma Outside(a: Box, b: Box) returns (env: Env)
    requires LongBox(a) && !NoAssignment(a) && !Inside(a, b)
    ensures LongEnv(env) && InBox(env, a) && !InBox(env, b)
  {
    var x :| x in b && !(b[x].min <= RangeIn(a, x).min && RangeIn(a, x).max <= b[x].max);
    var v := if b[x].min <= RangeIn(a, x).min then RangeIn(a, x).max else RangeIn(a, x).min;
    env := (i: nat) => if i == x then v else if i in a then a[i].min else 0;
    forall i | i in a
      ensures InRange(env(i), a[i])
    {
      assert !(a[i].min > a[i].max);
    }
    assert !InRange(env(x), b[x]);
  }

  lemma InsideCovers(a: Box, b: Box, env: Env)
    requires Inside(a, b) && LongEnv(env) && InBox(env, a)
    ensures InBox(env, b)
  {
    forall i | i in b
      ensures InRange(env(i), b[i])
    {
      assert IsLong(env(i));
    }
  }

  lemma NonemptyWhen(a: Box, env: Env)
    requires InBox(env, a)
    ensures !NoAssignment(a)
  {
  }

  ghost predicate ValueIs(f: Formula, xs: seq<Box>) {
    forall env: Env | LongEnv(env) :: FormulaValue(f, env) == True <==> InSome(env, xs)
  }

  /** A box is sound for a list of clauses exactly when each of them is empty or inside it. */
  ghost predicate Covers(xs: seq<Box>, b: Box) {
    forall k | 0 <= k < |xs| :: NoAssignment(xs[k]) || Inside(xs[k], b)
  }

  lemma CoversExactly(f: Formula, xs: seq<Box>, b: Box)
    requires AllLong(xs) && ValueIs(f, xs)
    ensures Sound(f, b) <==> Covers(xs, b)
  {
    if Covers(xs, b) {
      forall env: Env | LongEnv(env) && FormulaValue(f, env) == True
        ensures InBox(env, b)
      {
        assert InSome(env, xs);
        var k :| 0 <= k < |xs| && InBox(env, xs[k]);
        NonemptyWhen(xs[k], env);
        InsideCovers(xs[k], b, env);
      }
    } else {
      var k :| 0 <= k < |xs| && !NoAssignment(xs[k]) && !Inside(xs[k], b);
      assert LongBox(xs[k]);
      var env := Outside(xs[k], b);
      assert InSome(env, xs);
    }
  }

  /** For every condition on which derivation succeeds: the derived box is sound exactly when it covers the clauses. */
  lemma SoundExactly(f: Formula)
    requires Derive(f).Derived? && LongConstants(f)
    ensures Sound(f, Derive(f).box) <==> Covers(Clauses(f), Derive(f).box)
  {
    ClausesLong(f);
    forall env: Env | LongEnv(env)
      ensures FormulaValue(f, env) == True <==> InSome(env, Clauses(f))
    {
      ClausesExact(f, env);
    }
    CoversExactly(f, Clauses(f), Derive(f).box);
  }

  // ---------------------------------------------------------------- when derivation succeeds

  /** The comparisons of the condition. */
  function Comparisons(f: Formula): seq<Formula> {
    match f
    case Compare(_, _, _) => [f]
    case And(g, h) => Comparisons(g) + Comparisons(h)
    case Or(g, h) => Comparisons(g) + Comparisons(h)
    case Not(g) => Comparisons(g)
  }

  predicate Negates(f: Formula) {
    match f
    case Compare(_, _, _) => false
    case And(g, h) => Negates(g) || Negates(h)
    case Or(g, h) => Negates(g) || Negates(h)
    case Not(_) => true
  }

  /** Two plain operands, one of them a constant, not for inequality, and a variable number that there is room for. */
  predicate Rangeable(f: Formula) {
    && f.Compare? && f.op != Neq && f.left.Leaf? && f.right.Leaf?
    && match (f.left.operand, f.right.operand)
       case (Variable(_), Variable(_)) => false
       case (Variable(id), Literal(_)) => id < LVM_MAX_VARIABLE_ID
       case (Literal(_), Variable(id)) => id < LVM_MAX_VARIABLE_ID
       case (Literal(_), Literal(d)) => d % 256 < LVM_MAX_VARIABLE_ID
  }

  ghost predicate AllRangeable(fs: seq<Formula>) {
    forall k | 0 <= k < |fs| :: Rangeable(fs[k])
  }

  lemma AllRangeableConcat(x: seq<Formula>, y: seq<Formula>)
    ensures AllRangeable(x + y) <==> AllRangeable(x) && AllRangeable(y)
  {
    hide Rangeable;
    if AllRangeable(x + y) {
      forall k | 0 <= k < |x|
        ensures Rangeable(x[k])
      {
        assert (x + y)[k] == x[k];
      }
      forall k | 0 <= k < |y|
        ensures Rangeable(y[k])
      {
        assert (x + y)[|x| + k] == y[k];
      }
    }
  }

  /** Ranges are derived exactly for conditions of such comparisons without a negation. */
  lemma {:induction false} DerivedExactly(f: Formula)
    ensures Derive(f).Derived? <==> !Negates(f) && AllRangeable(Comparisons(f))
  {
    match f
    case Compare(op, l, r) =>
      assert AllRangeable([f]) <==> Rangeable([f][0]);
    case And(g, h) =>
      DerivedExactly(g);
      DerivedExactly(h);
      AllRangeableConcat(Comparisons(g), Comparisons(h));
    case Or(g, h) =>
      DerivedExactly(g);
      DerivedExactly(h);
      AllRangeableConcat(Comparisons(g), Comparisons(h));
    case Not(_) =>
  }
}
