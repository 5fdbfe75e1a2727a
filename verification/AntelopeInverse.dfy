/** Inverse logic, as REMOVE uses it: which rows a scan gives, and which rows neither it nor its opposite gives. */
module AntelopeInverse {
  import opened AntelopeLogic
  import opened AntelopeSelect

  /** The condition cannot be evaluated on the row. */
  predicate Fails(c: Condition, row: Row) {
    c.Where? && SomeDivisionByZero(c.f, RowEnv(row, c.variables))
  }

  function FailingRows(rows: seq<Row>, c: Condition): seq<Row> {
    if rows == [] then []
    else
      var before := FailingRows(rows[..|rows| - 1], c);
      var row := rows[|rows| - 1];
      if Fails(c, row) then before + [row] else before
  }

  /** On every row a condition is true, or false, or divides by zero. */
  lemma OneOfThree(c: Condition, row: Row)
    requires c.Where?
    ensures Matches(c, False, row) <==> !Matches(c, True, row) && !Fails(c, row)
    ensures Matches(c, True, row) ==> !Fails(c, row)
  {
    hide FormulaValue, SomeDivisionByZero;
    ErrorExact(c.f, RowEnv(row, c.variables));
  }

  /** The rows of the scan, of the inverse scan, and those with a division by zero are all rows, each once. */
  lemma {:induction false} RowsDivided(rows: seq<Row>, c: Condition)
    requires c.Where?
    ensures multiset(rows)
         == multiset(Scan(rows, c, True)) + multiset(Scan(rows, c, False)) + multiset(FailingRows(rows, c))
    decreases |rows|
  {
    hide Matches, Fails;
    if rows != [] {
      var before, row := rows[..|rows| - 1], rows[|rows| - 1];
      RowsDivided(before, c);
      OneOfThree(c, row);
      assert rows == before + [row];
    }
  }

  /** The inverse scan gives the rows of a scan with the negated condition. */
  lemma {:induction false} InverseNegates(rows: seq<Row>, c: Condition)
    requires c.Where?
    ensures Scan(rows, c, False) == Scan(rows, Where(Not(c.f), c.variables), True)
    decreases |rows|
  {
    if rows != [] {
      InverseNegates(rows[..|rows| - 1], c);
    }
  }

  /** Without a condition every row is given, whatever the logic. */
  lemma {:induction false} NoCondition(rows: seq<Row>, wanted: Truth)
    ensures Scan(rows, All, wanted) == rows
    decreases |rows|
  {
    if rows != [] {
      NoCondition(rows[..|rows| - 1], wanted);
    }
  }
}
