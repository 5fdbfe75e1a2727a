/**
 SELECT through an inline index: binary search on a strictly increasing column, the iteration over a derived range, and
 the resumable selection, compared with a plain scan (cc2530/contiki_os/apps/antelope/index-inline.c, relation.c).
 Tuple identifiers are 32-bit unsigned numbers.
*/
module AntelopeSelect {
  import opened Numbers
  import opened AntelopeLogic
  import opened AntelopeRanges
  import opened AntelopeClauses

  const TUPLE_MODULUS := 0x1_0000_0000
  const INVALID_TUPLE := TUPLE_MODULUS - 1

  /** Fewer rows than a file offset can address. */
  const MAX_ROWS := 0x7FFF_FFFF

  predicate Increasing(values: seq<int>) {
    forall i, j :: 0 <= i < j < |values| ==> values[i] < values[j]
  }

  /** One less, modulo 2^32. */
  function Decremented(id: nat): nat {
    if id == 0 then INVALID_TUPLE else id - 1
  }

  // ---------------------------------------------------------------- binary search

  /**
   Escaped: the search asked for a row behind the last one. storage_get_row answers DB_FINISHED, which is not an
   error code, so the source goes on with a row buffer that was never written.
  */
  datatype Search = Found(center: nat) | Missing | Escaped

  /** Position c holds the target, or is the insertion point of the target or the position before it. */
  ghost predicate StopsAt(values: seq<int>, target: int, c: nat) {
    && c < |values|
    && (values[c] < target ==> c + 1 == |values| || target < values[c + 1])
    && (values[c] > target ==> c > 0 && values[c - 1] < target)
  }

  /** What the loop has found out so far; the second case is the upper end after it wrapped below zero. */
  ghost predicate Narrowed(values: seq<int>, target: int, min: nat, max: nat) {
    || (min <= max < |values| && (forall i | 0 <= i < min :: values[i] < target)
        && (forall i | max < i < |values| :: target < values[i])
        && target >= values[0])
    || (min == 0 && max < |values| && (forall i | max < i < |values| :: target < values[i]) && target < values[0])
    || (min == 0 && max == INVALID_TUPLE && (values == [] || target < values[0]))
  }

  method BinarySearch(values: seq<int>, target: int, exactMatch: bool) returns (r: Search)
    requires Increasing(values) && |values| <= MAX_ROWS
    ensures r.Escaped? <==> values == [] || target < values[0]
    ensures r.Missing? <==> !r.Escaped? && exactMatch && target !in values
    ensures r.Found? ==> StopsAt(values, target, r.center) && (target in values ==> values[r.center] == target)
  {
    var min: nat, max: nat, center: nat := 0, Decremented(|values|), 0;
    while true
      invariant Narrowed(values, target, min, max)
      decreases if max == INVALID_TUPLE then 0 else 1, max - min
    {
      center := min + (max - min) / 2;
      if center >= |values| {
        return Escaped;
      }
      if target > values[center] {
        min := center + 1;
      } else {
        max := Decremented(center);
      }
      if min > max || target == values[center] {
        break;
      }
    }
    if exactMatch && target != values[center] {
      return Missing;
    }
    r := Found(center);
  }

  /** Where the searches for the two ends of a range stop. */
  ghost predicate Bounds(values: seq<int>, low: int, high: int, start: nat, end: nat) {
    StopsAt(values, low, start) && StopsAt(values, high, end) && (low == high ==> start == end)
  }

  lemma BoundsInside(values: seq<int>, low: int, high: int, start: nat, end: nat)
    requires Bounds(values, low, high, start, end)
    ensures start < |values| && end < |values|
  {
  }

  /** The two searches together cover the range, with at most one extra row at each end. */
  lemma WindowCovers(values: seq<int>, low: int, high: int, start: nat, end: nat, i: nat)
    requires Increasing(values) && Bounds(values, low, high, start, end) && i < |values|
    ensures low <= values[i] <= high ==> start <= i <= end
    ensures start < i < end ==> low <= values[i] <= high
  {
  }

  // ---------------------------------------------------------------- relations and conditions

  /** The long values of the attributes. */
  type Row = seq<int>

  /** The attribute list says which attributes carry an inline index and which are flagged unique. */
  datatype Relation = Relation(rows: seq<Row>, indexed: seq<bool>, unique: seq<bool>)

  function Column(rel: Relation, col: nat): (v: seq<int>)
    requires forall i | 0 <= i < |rel.rows| :: col < |rel.rows[i]|
  {
    seq(|rel.rows|, i requires 0 <= i < |rel.rows| => rel.rows[i][col])
  }

  ghost predicate ValidRelation(rel: Relation) {
    && |rel.unique| == |rel.indexed| && |rel.rows| <= MAX_ROWS
    && (forall i | 0 <= i < |rel.rows| :: |rel.rows[i]| == |rel.indexed| && LongRow(rel.rows[i]))
    && (forall col: nat | col < |rel.indexed| && rel.indexed[col] :: Increasing(Column(rel, col)))
  }

  predicate LongRow(row: Row) {
    forall i | 0 <= i < |row| :: IsLong(row[i])
  }

  /** variables[i] is the attribute that variable i of the condition names. */
  datatype Condition = All | Where(f: Formula, variables: seq<nat>)

  predicate Distinct(s: seq<nat>) {
    forall i, j | 0 <= i < j < |s| :: s[i] != s[j]
  }

  predicate ValidCondition(c: Condition) {
    c.Where? ==> Distinct(c.variables)
  }

  function RowEnv(row: Row, variables: seq<nat>): Env {
    (i: nat) => if i < |variables| && variables[i] < |row| then row[variables[i]] else 0
  }

  /** wanted is False when the query runs with inverse logic, as REMOVE does. */
  predicate Matches(c: Condition, wanted: Truth, row: Row) {
    c.All? || FormulaValue(c.f, RowEnv(row, c.variables)) == wanted
  }

  /** The rows a plain scan returns. */
  function Scan(rows: seq<Row>, c: Condition, wanted: Truth): seq<Row> {
    if rows == [] then []
    else
      var before := Scan(rows[..|rows| - 1], c, wanted);
      var row := rows[|rows| - 1];
      if Matches(c, wanted, row) then before + [row] else before
  }

  lemma ScanStep(rows: seq<Row>, c: Condition, wanted: Truth, a: nat, b: nat)
    requires a <= b < |rows|
    ensures Scan(rows[a..b + 1], c, wanted)
         == if Matches(c, wanted, rows[b]) then Scan(rows[a..b], c, wanted) + [rows[b]] else Scan(rows[a..b], c, wanted)
  {
    assert rows[a..b + 1][..b - a] == rows[a..b];
  }

  lemma {:induction false} ScanConcat(x: seq<Row>, y: seq<Row>, c: Condition, wanted: Truth)
    ensures Scan(x + y, c, wanted) == Scan(x, c, wanted) + Scan(y, c, wanted)
  {
    hide Matches;
    if y == [] {
      assert x + y == x;
    } else {
      ScanConcat(x, y[..|y| - 1], c, wanted);
      assert (x + y)[..|x + y| - 1] == x + y[..|y| - 1];
    }
  }

  lemma {:induction false} ScanNone(rows: seq<Row>, c: Condition, wanted: Truth)
    requires forall i | 0 <= i < |rows| :: !Matches(c, wanted, rows[i])
    ensures Scan(rows, c, wanted) == []
  {
    if rows != [] {
      ScanNone(rows[..|rows| - 1], c, wanted);
    }
  }

  lemma EmptyScan(c: Condition, wanted: Truth)
    ensures Scan([], c, wanted) == []
  {
  }

  /** Rows outside a window that has all matches add nothing. */
  lemma ScanWindow(rows: seq<Row>, c: Condition, wanted: Truth, a: nat, b: nat)
    requires a <= b <= |rows|
    requires forall i | 0 <= i < |rows| && Matches(c, wanted, rows[i]) :: a <= i < b
    ensures Scan(rows, c, wanted) == Scan(rows[a..b], c, wanted)
  {
    hide Matches, Scan;
    assert rows == rows[..a] + rows[a..b] + rows[b..];
    ScanConcat(rows[..a] + rows[a..b], rows[b..], c, wanted);
    ScanConcat(rows[..a], rows[a..b], c, wanted);
    ScanNone(rows[..a], c, wanted);
    ScanNone(rows[b..], c, wanted);
  }

  /** The derived range of an attribute, if there is one. */
  ghost predicate HasRange(c: Condition, col: nat, r: Range) {
    c.Where? && Derive(c.f).Derived?
    && exists i | 0 <= i < |c.variables| :: c.variables[i] == col && i in Derive(c.f).box && Derive(c.f).box[i] == r
  }

  ghost predicate Usable(rel: Relation, c: Condition, col: nat) {
    col < |rel.indexed| && rel.indexed[col] && exists r :: HasRange(c, col, r)
  }

  /** Conditions whose derived ranges cover what satisfies them, selecting the rows where they are true. */
  ghost predicate Trusted(c: Condition, wanted: Truth) {
    wanted == True
    && (c.Where? && Derive(c.f).Derived? ==> LongConstants(c.f) && Covers(Clauses(c.f), Derive(c.f).box))
  }

  /** Variables on the left, and alternatives that constrain the same variables, are enough. */
  lemma SimplyTrusted(c: Condition)
    requires c.Where? ==> VariableLeft(c.f) && OrAgrees(c.f) && LongConstants(c.f)
    ensures Trusted(c, True)
  {
    if c.Where? && Derive(c.f).Derived? {
      RangesSound(c.f);
      SoundExactly(c.f);
    }
  }

  lemma InBoxOf(f: Formula, box: Box, env: Env)
    requires Sound(f, box) && LongEnv(env) && FormulaValue(f, env) == True
    ensures InBox(env, box)
  {
  }

  lemma MatchesInRange(rel: Relation, c: Condition, col: nat, r: Range, row: Row)
    requires Trusted(c, True) && HasRange(c, col, r) && LongRow(row) && col < |row| && Matches(c, True, row)
    ensures InRange(row[col], r)
  {
    var env := RowEnv(row, c.variables);
    assert LongEnv(env);
    SoundExactly(c.f);
    InBoxOf(c.f, Derive(c.f).box, env);
    var i :| 0 <= i < |c.variables| && c.variables[i] == col && i in Derive(c.f).box && Derive(c.f).box[i] == r;
    assert env(i) == row[col];
  }

  // ---------------------------------------------------------------- the resumable selection

  datatype Item = Tuple(id: nat) | Lost

  datatype Outcome = GotRow(row: Row) | Ok | Finished | IndexError | Undefined

  class Selection {
    const rel: Relation
    const condition: Condition
    const wanted: Truth
    /** The handle's flags and position. */
    var searchIndex: bool
    var tupleId: nat
    var currentRow: nat
    /** The index iterator. */
    var column: nat
    var low: int
    var high: int
    var nextItemNo: nat
    /** The static range cache of the inline index. */
    var cachedStart: nat
    var cachedEnd: nat

    ghost predicate Valid()
      reads this
    {
      && ValidRelation(rel) && ValidCondition(condition)
      && (if searchIndex then column < |rel.indexed| && rel.indexed[column] && (nextItemNo > 0 ==> InWindow())
          else tupleId <= |rel.rows|)
    }

    /** The range search is over and found something. */
    ghost predicate InWindow()
      requires ValidRelation(rel) && column < |rel.indexed|
      reads this
    {
      Bounds(Column(rel, column), low, high, cachedStart, cachedEnd) && cachedStart + nextItemNo <= Limit()
    }

    ghost function Limit(): nat
      reads this
    {
      if searchIndex then Max(cachedStart, cachedEnd) + 1 else |rel.rows|
    }

    /** The next row to be examined. */
    ghost function Position(): nat
      reads this
    {
      if searchIndex then cachedStart + nextItemNo else tupleId
    }

    /** The range search is still to come. */
    ghost predicate Unsearched()
      reads this`searchIndex, this`nextItemNo
    {
      searchIndex && nextItemNo == 0
    }

    ghost function Answer(k: nat): Outcome
      requires k < |rel.rows|
    {
      if Matches(condition, wanted, rel.rows[k]) then GotRow(rel.rows[k]) else Ok
    }

    /** lvm_get_derived_range */
    method GetDerivedRange(box: Box, variables: seq<nat>, col: nat) returns (ok: bool, r: Range)
      requires Distinct(variables)
      ensures ok <==> exists i | 0 <= i < |variables| :: variables[i] == col && i in box
      ensures ok ==> exists i | 0 <= i < |variables| :: variables[i] == col && i in box && box[i] == r
    {
      r := FULL_RANGE;
      for i := 0 to |variables|
        invariant forall j | 0 <= j < i :: variables[j] != col
      {
        if variables[i] == col {
          if i in box {
            return true, box[i];
          }
          return false, r;
        }
      }
      ok := false;
    }

    /** generate_selection_result and select_index */
    constructor (rel: Relation, condition: Condition, wanted: Truth)
      requires ValidRelation(rel) && ValidCondition(condition)
      ensures Valid() && this.rel == rel && this.condition == condition && this.wanted == wanted
      ensures Position() == 0 || Unsearched()
      ensures !searchIndex ==> tupleId == 0 && forall col :: !Usable(rel, condition, col)
      ensures searchIndex ==> nextItemNo == 0 && HasRange(condition, column, Range(low, high))
      ensures searchIndex ==> Usable(rel, condition, column)
      ensures searchIndex ==> forall col | col > column :: !Usable(rel, condition, col)
    {
      this.rel, this.condition, this.wanted := rel, condition, wanted;
      searchIndex, tupleId, currentRow, column, low, high, nextItemNo := false, 0, 0, 0, 0, 0, 0;
      cachedStart, cachedEnd := 0, 0;
      new;
      if condition.Where? {
        var d := Derive(condition.f);
        if d.Derived? {
          SelectIndex(d.box);
        }
      }
    }

    /** select_index: the smallest range found so far is never recorded, so the last usable attribute is taken. */
    method SelectIndex(box: Box)
      requires Valid() && condition.Where? && Derive(condition.f) == Derived(box)
      requires !searchIndex && nextItemNo == 0
      modifies this`searchIndex, this`column, this`low, this`high
      ensures Valid()
      ensures !searchIndex ==> forall col :: !Usable(rel, condition, col)
      ensures searchIndex ==> HasRange(condition, column, Range(low, high))
      ensures searchIndex ==> Usable(rel, condition, column)
      ensures searchIndex ==> forall col | col > column :: !Usable(rel, condition, col)
    {
      var found := false;
      var minRange := TUPLE_MODULUS - 1;
      for col := 0 to |rel.indexed|
        invariant !found ==> forall c: nat | c < col :: !Usable(rel, condition, c)
        invariant found ==> column < col && rel.indexed[column] && HasRange(condition, column, Range(low, high))
        invariant found ==> forall c: nat | column < c < col :: !Usable(rel, condition, c)
        invariant minRange == TUPLE_MODULUS - 1
      {
        if rel.indexed[col] {
          var ok, r := GetDerivedRange(box, condition.variables, col);
          if ok {
            var range := (r.max - r.min) % TUPLE_MODULUS;
            if range <= minRange {
              found, column, low, high := true, col, r.min, r.max;
            }
          }
        }
      }
      searchIndex := found;
    }

    /** range_search; its error code is lost in an unsigned result, so only the start tells a failure. */
    method RangeSearch() returns (lost: bool)
      requires Valid() && Unsearched()
      modifies this`cachedStart, this`cachedEnd
      ensures var v := Column(rel, column);
              && (lost <==> v == [] || Min(low, high) < v[0])
              && (!lost ==> (cachedStart == INVALID_TUPLE <==> low == high && low !in v))
              && (!lost && cachedStart != INVALID_TUPLE ==> Bounds(v, low, high, cachedStart, cachedEnd))
    {
      var v := Column(rel, column);
      var exactMatch := low == high;
      var s := BinarySearch(v, low, exactMatch);
      if s.Escaped? {
        return true;
      }
      if s.Missing? {
        cachedStart := INVALID_TUPLE;
        return false;
      }
      cachedStart := s.center;
      s := BinarySearch(v, high, exactMatch);
      if s.Escaped? {
        return true;
      }
      cachedEnd := INVALID_TUPLE;
      if s.Found? {
        cachedEnd := s.center;
      }
      lost := false;
    }

    lemma Inside()
      requires Valid() && searchIndex && nextItemNo > 0
      ensures cachedStart < |rel.rows| && cachedEnd < |rel.rows| <= MAX_ROWS
    {
      BoundsInside(Column(rel, column), low, high, cachedStart, cachedEnd);
    }

    lemma BoundsAhead()
      requires ValidRelation(rel) && column < |rel.indexed|
      requires Bounds(Column(rel, column), low, high, cachedStart, cachedEnd)
      ensures cachedStart < |rel.rows| && cachedEnd < |rel.rows| <= MAX_ROWS
      ensures (low == high ==> cachedStart == cachedEnd)
    {
      BoundsInside(Column(rel, column), low, high, cachedStart, cachedEnd);
    }

    /** The first call of get_next: the search, whose result is cached. */
    method FirstItem() returns (item: Item)
      requires Valid() && Unsearched()
      modifies this`cachedStart, this`cachedEnd, this`nextItemNo
      ensures FirstFound(item)
    {
      hide Bounds, Increasing, ValidCondition;
      var lost := RangeSearch();
      if lost {
        return Lost;
      }
      nextItemNo := nextItemNo + 1;
      if cachedStart != INVALID_TUPLE {
        BoundsAhead();
      }
      item := Tuple(cachedStart);
    }

    /** What the first item tells: outside the relation, no such value, or the start of the window. */
    ghost predicate FirstFound(item: Item)
      requires ValidRelation(rel) && column < |rel.indexed|
      reads this
    {
      var v := Column(rel, column);
      && (item.Lost? <==> v == [] || Min(low, high) < v[0])
      && (!item.Lost? ==> nextItemNo == 1 && item.id == cachedStart)
      && (!item.Lost? ==> (item.id == INVALID_TUPLE <==> low == high && low !in v))
      && (!item.Lost? && item.id != INVALID_TUPLE ==> Valid())
    }

    /** The items after the first, up to the limit. */
    twostate predicate NextFound(item: Item)
      reads this
    {
      && cachedStart == old(cachedStart) && cachedEnd == old(cachedEnd) && Valid()
      && (if old(Position()) < Limit() then item == Tuple(old(Position())) && nextItemNo == old(nextItemNo) + 1
          else item == Tuple(INVALID_TUPLE) && nextItemNo == old(nextItemNo))
    }

    /** get_next of the inline index */
    method GetNext() returns (item: Item)
      requires Valid() && searchIndex
      modifies this`cachedStart, this`cachedEnd, this`nextItemNo
      ensures old(nextItemNo) == 0 ==> FirstFound(item)
      ensures old(nextItemNo) > 0 ==> NextFound(item)
    {
      if nextItemNo > 0 {
        Inside();
      }
      hide Bounds, Increasing, ValidRelation, ValidCondition, FirstFound;
      if nextItemNo == 0 {
        item := FirstItem();
        return;
      } else if (cachedStart + nextItemNo) % TUPLE_MODULUS <= cachedEnd {
        nextItemNo := nextItemNo + 1;
        return Tuple(cachedStart + nextItemNo - 1);
      }
      item := Tuple(INVALID_TUPLE);
    }

    /**
     relation_process_select: one call examines one row. Undefined stands for a search that read behind the last row;
     IndexError for the source's check of an iterator that never started, which does not occur.
    */
    method Process() returns (r: Outcome)
      requires Valid()
      modifies this`tupleId, this`currentRow, this`nextItemNo, this`cachedStart, this`cachedEnd
      ensures r != IndexError
      ensures r == Ok || r.GotRow? ==> Valid() && !Unsearched()
      ensures r == Ok || r.GotRow? ==> 0 < Position() <= Limit() <= |rel.rows| && r == Answer(Position() - 1)
      ensures old(Unsearched()) ==>
                var v := Column(rel, column);
                && (r == Undefined <==> v == [] || Min(low, high) < v[0])
                && (r == Finished <==> v != [] && v[0] <= low == high && low !in v)
                && (r == Ok || r.GotRow? ==> Position() == cachedStart + 1)
      ensures !old(Unsearched()) ==>
                && Limit() == old(Limit()) && cachedStart == old(cachedStart) && cachedEnd == old(cachedEnd)
                && (if old(Position()) >= old(Limit()) then r == Finished
                    else Position() == old(Position()) + 1 && (r == Ok || r.GotRow?))
    {
      hide Bounds, Increasing, Matches, ValidRelation, ValidCondition, Answer;
      if searchIndex {
        var more;
        more, r := IndexTuple();
        if !more {
          return;
        }
      }
      r := Examine();
    }

    /** The part of relation_process_select that asks the index for the tuple. */
    method IndexTuple() returns (more: bool, r: Outcome)
      requires Valid() && searchIndex
      modifies this`tupleId, this`nextItemNo, this`cachedStart, this`cachedEnd
      ensures !more ==> r == Finished || r == Undefined
      ensures more ==> Valid() && nextItemNo > 0 && Position() == tupleId + 1 && Position() <= Limit() <= |rel.rows|
      ensures old(nextItemNo) == 0 ==>
                var v := Column(rel, column);
                && (more <==> !(v == [] || Min(low, high) < v[0]) && (low != high || low in v))
                && (!more ==> (r == Undefined <==> v == [] || Min(low, high) < v[0]))
                && (more ==> tupleId == cachedStart)
      ensures old(nextItemNo) > 0 ==>
                && Limit() == old(Limit()) && cachedStart == old(cachedStart) && cachedEnd == old(cachedEnd)
                && (more <==> old(Position()) < Limit()) && (if more then tupleId == old(Position()) else r == Finished)
    {
      hide Bounds, Increasing, ValidRelation, ValidCondition;
      if nextItemNo > 0 {
        Inside();
      }
      var item := GetNextTuple();
      if item.Lost? {
        return false, Undefined;
      }
      tupleId := item.id;
      if tupleId == INVALID_TUPLE {
        if nextItemNo == 0 {
          return false, IndexError;
        }
        return false, Finished;
      }
      Inside();
      more, r := true, Ok;
    }

    /** The part of relation_process_select behind the choice of the tuple. */
    method Examine() returns (r: Outcome)
      modifies this`tupleId, this`currentRow
      ensures tupleId == old(tupleId) + 1
      ensures if old(tupleId) < |rel.rows| then r == Answer(old(tupleId)) && (r == Ok || r.GotRow?) else r == Finished
    {
      if tupleId >= |rel.rows| {
        tupleId := tupleId + 1;
        return Finished;
      }
      var row := rel.rows[tupleId];
      tupleId := tupleId + 1;
      if Matches(condition, wanted, row) {
        currentRow := currentRow + 1;
        return GotRow(row);
      }
      r := Ok;
    }

    /** index_get_next: an equality search on a unique attribute ends after its first item. */
    method GetNextTuple() returns (item: Item)
      requires Valid() && searchIndex
      modifies this`cachedStart, this`cachedEnd, this`nextItemNo
      ensures old(nextItemNo) == 0 ==> FirstFound(item)
      ensures old(nextItemNo) > 0 ==> NextFound(item)
    {
      if rel.unique[column] && nextItemNo == 1 {
        if low == high {
          assert cachedStart == cachedEnd;
          return Tuple(INVALID_TUPLE);
        }
      }
      item := GetNext();
    }
  }

  /** The attribute whose index a selection uses: the last usable one, whatever the sizes of the ranges. */
  ghost predicate Chosen(rel: Relation, c: Condition, col: nat) {
    Usable(rel, c, col) && forall later | later > col :: !Usable(rel, c, later)
  }

  /** The derived range starts below the first value of the attribute. */
  ghost predicate StartsBelow(rel: Relation, c: Condition, col: nat) {
    exists r :: HasRange(c, col, r) && RangeStartsBelow(rel, col, r)
  }

  ghost predicate RangeStartsBelow(rel: Relation, col: nat, r: Range) {
    rel.rows == [] || (col < |rel.rows[0]| && Min(r.min, r.max) < rel.rows[0][col])
  }

  /** Two indexed attributes, of which the condition v0 = 5 AND v1 >= 0 leaves one value of the first. */
  function NarrowFirst(): (Relation, Condition) {
    (Relation([], [true, true], [false, false]),
     Where(And(Compare(Eq, Leaf(Variable(0)), Leaf(Literal(5))), Compare(Geq, Leaf(Variable(1)),
         Leaf(Literal(0)))), [0, 1]))
  }

  /**
   The index with the smallest range is not always chosen: here it is the one with half of all values in its range.
  */
  lemma WiderChosen()
    ensures var (rel, c) := NarrowFirst();
            && ValidRelation(rel) && ValidCondition(c) && Chosen(rel, c, 1)
            && HasRange(c, 0, Range(5, 5)) && HasRange(c, 1, Range(0, LONG_MAX)) && Usable(rel, c, 0)
  {
    var (rel, c) := NarrowFirst();
    var box := Derive(c.f).box;
    assert 0 in box && box[0] == Range(5, 5) && c.variables[0] == 0;
    assert 1 in box && box[1] == Range(0, LONG_MAX) && c.variables[1] == 1;
    assert HasRange(c, 0, Range(5, 5)) && HasRange(c, 1, Range(0, LONG_MAX));
  }

  lemma RangeUnique(c: Condition, col: nat, r: Range, s: Range)
    requires ValidCondition(c) && HasRange(c, col, r) && HasRange(c, col, s)
    ensures r == s
  {
  }

  /** The rows between the two stops have every match. */
  lemma WindowComplete(rel: Relation, c: Condition, col: nat, r: Range, start: nat, end: nat)
    requires ValidRelation(rel) && Trusted(c, True) && HasRange(c, col, r) && col < |rel.indexed| && rel.indexed[col]
    requires Bounds(Column(rel, col), r.min, r.max, start, end)
    ensures end < |rel.rows| && start < |rel.rows|
    ensures Scan(rel.rows, c, True) == Scan(rel.rows[start..Max(start, end) + 1], c, True)
  {
    var v := Column(rel, col);
    BoundsInside(v, r.min, r.max, start, end);
    hide *;
    forall i | 0 <= i < |rel.rows| && Matches(c, True, rel.rows[i])
      ensures start <= i < Max(start, end) + 1
    {
      MatchInWindow(rel, c, col, r, start, end, i);
    }
    ScanWindow(rel.rows, c, True, start, Max(start, end) + 1);
  }

  lemma MatchInWindow(rel: Relation, c: Condition, col: nat, r: Range, start: nat, end: nat, i: nat)
    requires ValidRelation(rel) && Trusted(c, True) && HasRange(c, col, r) && col < |rel.indexed| && rel.indexed[col]
    requires Bounds(Column(rel, col), r.min, r.max, start, end)
    requires i < |rel.rows| && Matches(c, True, rel.rows[i])
    ensures start <= i < Max(start, end) + 1
  {
    var v := Column(rel, col);
    BoundsInside(v, r.min, r.max, start, end);
    hide Bounds, HasRange, Matches, Trusted;
    MatchesInRange(rel, c, col, r, rel.rows[i]);
    WindowCovers(v, r.min, r.max, start, end, i);
  }

  /** A value that is searched for and does not occur: no row matches. */
  lemma AbsentValue(rel: Relation, c: Condition, col: nat, r: Range)
    requires ValidRelation(rel) && Trusted(c, True) && HasRange(c, col, r) && col < |rel.indexed|
    requires r.min == r.max && r.min !in Column(rel, col)
    ensures Scan(rel.rows, c, True) == []
  {
    hide HasRange, Matches, Trusted;
    forall i | 0 <= i < |rel.rows|
      ensures !Matches(c, True, rel.rows[i])
    {
      assert Column(rel, col)[i] == rel.rows[i][col];
      if Matches(c, True, rel.rows[i]) {
        MatchesInRange(rel, c, col, r, rel.rows[i]);
      }
    }
    ScanNone(rel.rows, c, True);
  }

  /** The calls after the first, until the selection is finished. */
  method SelectRest(s: Selection, before: seq<Row>, ghost a: nat) returns (rows: seq<Row>)
    requires s.Valid() && !s.Unsearched() && a <= s.Position() <= s.Limit() <= |s.rel.rows|
    requires before == Scan(s.rel.rows[a..s.Position()], s.condition, s.wanted)
    modifies s
    ensures rows == Scan(s.rel.rows[a..old(s.Limit())], s.condition, s.wanted)
  {
    hide Bounds, Increasing, Matches, Scan, ValidRelation, ValidCondition;
    ghost var end := s.Limit();
    rows := before;
    while true
      invariant s.Valid() && !s.Unsearched() && a <= s.Position() <= s.Limit() == end
      invariant rows == Scan(s.rel.rows[a..s.Position()], s.condition, s.wanted)
      decreases end - s.Position()
    {
      ghost var k := s.Position();
      var r := s.Process();
      if r == Finished {
        return;
      }
      ScanStep(s.rel.rows, s.condition, s.wanted, a, k);
      if r.GotRow? {
        rows := rows + [r.row];
      }
    }
  }

  /**
   A selection run to its end, one call after the other. It returns what a plain scan returns, unless the derived
   range of the chosen attribute starts below the first value, when the search leaves the relation.
  */
  method Select(rel: Relation, condition: Condition, wanted: Truth) returns (rows: seq<Row>, last: Outcome)
    requires ValidRelation(rel) && ValidCondition(condition)
    ensures last == Finished || last == Undefined
    ensures last == Undefined <==> exists col :: Chosen(rel, condition, col) && StartsBelow(rel, condition, col)
    ensures last == Finished && (Trusted(condition, wanted) || forall col :: !Usable(rel, condition, col)) ==>
              rows == Scan(rel.rows, condition, wanted)
  {
    hide Bounds, Increasing, Matches, HasRange, Usable, Trusted, Scan, ValidRelation, ValidCondition, StartsBelow;
    var s := new Selection(rel, condition, wanted);
    EmptyScan(condition, wanted);
    if !s.searchIndex {
      assert rel.rows[0..0] == [] && rel.rows[0..|rel.rows|] == rel.rows;
      rows := SelectRest(s, [], 0);
      return rows, Finished;
    }
    ghost var col, r := s.column, Range(s.low, s.high);
    assert Trusted(condition, wanted) ==> wanted == True by { TrustedWanted(condition, wanted); }
    ChosenUnique(rel, condition, col);
    Below(rel, condition, col, r);
    rows := [];
    last := s.Process();
    if last == Undefined {
      return;
    }
    if last == Finished {
      if Trusted(condition, wanted) {
        AbsentValue(rel, condition, col, r);
      }
      return;
    }
    ghost var start, end := s.cachedStart, s.cachedEnd;
    FirstRow(rel, condition, wanted, start);
    rows := if last.GotRow? then [last.row] else [];
    ghost var limit := s.Limit();
    if Trusted(condition, wanted) {
      WindowComplete(rel, condition, col, r, start, end);
    }
    rows := SelectRest(s, rows, start);
    last := Finished;
  }

  lemma TrustedWanted(c: Condition, wanted: Truth)
    ensures Trusted(c, wanted) ==> wanted == True
  {
  }

  lemma ChosenUnique(rel: Relation, c: Condition, col: nat)
    requires Chosen(rel, c, col)
    ensures forall other :: Chosen(rel, c, other) ==> other == col
  {
    hide Usable;
    forall other | Chosen(rel, c, other)
      ensures other == col
    {
      assert Usable(rel, c, other);
    }
  }

  lemma FirstRow(rel: Relation, c: Condition, wanted: Truth, k: nat)
    requires k < |rel.rows|
    ensures Scan(rel.rows[k..k + 1], c, wanted) == if Matches(c, wanted, rel.rows[k]) then [rel.rows[k]] else []
  {
    ScanStep(rel.rows, c, wanted, k, k);
    EmptyScan(c, wanted);
    assert rel.rows[k..k] == [];
  }

  lemma Below(rel: Relation, c: Condition, col: nat, r: Range)
    requires ValidRelation(rel) && ValidCondition(c) && HasRange(c, col, r) && col < |rel.indexed|
    ensures var v := Column(rel, col); StartsBelow(rel, c, col) <==> v == [] || Min(r.min, r.max) < v[0]
  {
    hide HasRange;
    forall s | HasRange(c, col, s)
      ensures s == r
    {
      RangeUnique(c, col, r, s);
    }
  }
}
