/**
 How a WHERE clause groups its connectives, compared with the reading in which AND binds tighter than OR. The
 operands of a chain are a first truth value and one more behind each connective.
*/
module AntelopeGrouping {
  import opened AntelopeLogic
  import opened AntelopeParser

  /** Grouping to the right, as the code does. */
  function RightValue(first: bool, links: seq<Connective>, values: seq<bool>): bool
    requires |values| == |links|
    decreases |links|
  {
    if links == [] then first
    else
      var rest := RightValue(values[0], links[1..], values[1..]);
      if links[0] == Conj then first && rest else first || rest
  }

  /**
   AND binds tighter: the disjunction of the conjunctions between the ORs, of which `first` is the one read so far.
  */
  function TightValue(first: bool, links: seq<Connective>, values: seq<bool>): bool
    requires |values| == |links|
    decreases |links|
  {
    if links == [] then first
    else if links[0] == Conj then TightValue(first && values[0], links[1..], values[1..])
    else first || TightValue(values[0], links[1..], values[1..])
  }

  /** No AND stands in front of an OR, next to it or further on. */
  predicate OrsFirst(links: seq<Connective>) {
    forall i, j | 0 <= i < j < |links| :: !(links[i] == Conj && links[j] == Disj)
  }

  ghost predicate SameReading(links: seq<Connective>) {
    forall first, values: seq<bool> | |values| == |links| :: Agrees(first, links, values)
  }

  predicate Agrees(first: bool, links: seq<Connective>, values: seq<bool>) {
    |values| == |links| ==> RightValue(first, links, values) == TightValue(first, links, values)
  }

  lemma {:induction false} OnlyAnds(a: bool, b: bool, links: seq<Connective>, values: seq<bool>)
    requires |values| == |links| && forall i | 0 <= i < |links| :: links[i] == Conj
    ensures TightValue(a && b, links, values) == (a && RightValue(b, links, values))
    decreases |links|
  {
    if links != [] {
      OnlyAnds(a && b, values[0], links[1..], values[1..]);
    }
  }

  lemma {:induction false} SameWhenOrsFirst(first: bool, links: seq<Connective>, values: seq<bool>)
    requires |values| == |links| && OrsFirst(links)
    ensures RightValue(first, links, values) == TightValue(first, links, values)
    decreases |links|
  {
    if links != [] {
      if links[0] == Conj {
        forall i | 0 <= i < |links|
          ensures links[i] == Conj
        {
          assert i > 0 ==> !(links[0] == Conj && links[i] == Disj);
        }
        OnlyAnds(true, first, links, values);
      } else {
        SameWhenOrsFirst(values[0], links[1..], values[1..]);
      }
    }
  }

  /** Behind a false conjunction an OR can still make the condition true. */
  lemma {:induction false} TrueAfterOr(links: seq<Connective>, j: nat) returns (values: seq<bool>)
    requires j < |links| && links[j] == Disj
    ensures |values| == |links| && TightValue(false, links, values)
    decreases |links|
  {
    if links[0] == Disj {
      var rest := AllTrue(links[1..]);
      values := [true] + rest;
      assert values[1..] == rest;
    } else {
      var rest := TrueAfterOr(links[1..], j - 1);
      values := [false] + rest;
      assert values[1..] == rest;
    }
  }

  lemma {:induction false} AllTrue(links: seq<Connective>) returns (values: seq<bool>)
    ensures |values| == |links| && TightValue(true, links, values)
    decreases |links|
  {
    if links == [] {
      values := [];
    } else {
      var rest := AllTrue(links[1..]);
      values := [true] + rest;
      assert values[1..] == rest;
    }
  }

  /** With an AND in front of an OR there are truth values for which the two readings differ. */
  lemma {:induction false} Differs(links: seq<Connective>, i: nat, j: nat) returns (values: seq<bool>)
    requires i < j < |links| && links[i] == Conj && links[j] == Disj
    ensures |values| == |links| && !RightValue(false, links, values) && TightValue(false, links, values)
    decreases |links|
  {
    if links[0] == Conj {
      var rest := TrueAfterOr(links[1..], j - 1);
      values := [false] + rest;
      assert values[1..] == rest;
    } else {
      var rest := Differs(links[1..], i - 1, j - 1);
      values := [false] + rest;
      assert values[1..] == rest;
    }
  }

  /** The code's grouping is the usual one for all truth values if and only if no AND stands in front of an OR. */
  lemma GroupingExact(links: seq<Connective>)
    ensures SameReading(links) <==> OrsFirst(links)
  {
    hide RightValue, TightValue;
    if OrsFirst(links) {
      forall first: bool, values: seq<bool> | |values| == |links|
        ensures Agrees(first, links, values)
      {
        SameWhenOrsFirst(first, links, values);
      }
    } else {
      var i, j :| 0 <= i < j < |links| && links[i] == Conj && links[j] == Disj;
      var values := Differs(links, i, j);
      assert !Agrees(false, links, values);
    }
  }

  // ---------------------------------------------------------------- chains of comparisons

  function Links(c: Chain): seq<Connective> {
    match c
    case Last(_) => []
    case Link(_, connective, rest) => [connective] + Links(rest)
  }

  predicate IsTrue(c: Comparison, env: Env) {
    FormulaValue(ComparisonFormula(c), env) == True
  }

  /** The truth values of the comparisons behind the first. */
  function LaterTruths(c: Chain, env: Env): (r: seq<bool>)
    ensures |r| == |Links(c)|
  {
    match c
    case Last(_) => []
    case Link(_, _, rest) => [IsTrue(FirstComparison(rest), env)] + LaterTruths(rest, env)
  }

  /** What a condition without a division by zero evaluates to. */
  lemma {:induction false} ChainValue(c: Chain, env: Env)
    requires !SomeDivisionByZero(RightNested(c), env)
    ensures FormulaValue(RightNested(c), env)
              == FromBool(RightValue(IsTrue(FirstComparison(c), env), Links(c), LaterTruths(c, env)))
  {
    ErrorExact(ComparisonFormula(FirstComparison(c)), env);
    if c.Link? {
      ErrorExact(RightNested(c.rest), env);
      ChainValue(c.rest, env);
      assert Links(c)[1..] == Links(c.rest) && LaterTruths(c, env)[1..] == LaterTruths(c.rest, env);
    }
  }

  /** A condition in which no AND stands in front of an OR has its usual meaning. */
  lemma UsualMeaning(c: Chain, env: Env)
    requires !SomeDivisionByZero(RightNested(c), env) && OrsFirst(Links(c))
    ensures FormulaValue(RightNested(c), env)
              == FromBool(TightValue(IsTrue(FirstComparison(c), env), Links(c), LaterTruths(c, env)))
  {
    ChainValue(c, env);
    SameWhenOrsFirst(IsTrue(FirstComparison(c), env), Links(c), LaterTruths(c, env));
  }

  /** 0 = 1 AND 0 = 1 OR 0 = 0 is false. */
  lemma UnusualMeaning(env: Env)
    ensures var no, yes := Comparison(Eq, One(Literal(0)), One(Literal(1))), Comparison(Eq, One(Literal(0)),
              One(Literal(0)));
            var c := Link(no, Conj, Link(no, Disj, Last(yes)));
            FormulaValue(RightNested(c), env) == False && TightValue(false, [Conj, Disj], [false, true])
  {
    assert [Conj, Disj][1..] == [Disj] && [false, true][1..] == [true] && [Disj][1..] == [] && [true][1..] == [];
  }
}
