/**
 The resumable equi-join: one joined row for each call, with the loop position kept in the handle between calls
 (relation_process_join in cc2530/contiki_os/apps/antelope/relation.c).
*/
module AntelopeJoin {
  type Row = seq<int>

  /** Where an attribute of the result comes from. */
  datatype Source = FromLeft(col: nat) | FromRight(col: nat)

  datatype Outcome = GotRow(row: Row) | Finished | ImplementationError

  datatype Pair = Pair(left: nat, right: nat)

  /** The relations, the attributes to join on, the attributes of the result, and the index on the right one. */
  datatype Query = Query(
    left: seq<Row>,
    leftWidth: nat,
    right: seq<Row>,
    rightWidth: nat,
    leftAttr: nat,
    rightAttr: nat,
    sources: seq<Source>,
    index: int -> seq<nat>)

  predicate ValidSource(s: Source, l: nat, r: nat) {
    match s
    case FromLeft(c) => c < l
    case FromRight(c) => c < r
  }

  /** Rows are as long as the attribute lists, and the attributes exist. */
  ghost predicate ValidQuery(q: Query) {
    && (forall i | 0 <= i < |q.left| :: |q.left[i]| == q.leftWidth)
    && (forall i | 0 <= i < |q.right| :: |q.right[i]| == q.rightWidth)
    && q.leftAttr < q.leftWidth && q.rightAttr < q.rightWidth
    && forall i | 0 <= i < |q.sources| :: ValidSource(q.sources[i], q.leftWidth, q.rightWidth)
  }

  /** The joined row: its attributes in the order of the source map. */
  ghost predicate Joins(q: Query, p: Pair, row: Row)
    requires p.left < |q.left| && p.right < |q.right|
  {
    |row| == |q.sources| && forall i | 0 <= i < |row| ::
        Supplies(q.sources[i], q.left[p.left], q.right[p.right], row[i])
  }

  /** The answer to a call whose next pair is p; a right tuple that does not exist is an error. */
  ghost predicate Serves(q: Query, p: Pair, r: Outcome) {
    if p.right >= |q.right| then r == ImplementationError
    else r.GotRow? && p.left < |q.left| && Joins(q, p, r.row)
  }

  predicate Supplies(s: Source, leftRow: Row, rightRow: Row, value: int) {
    match s
    case FromLeft(c) => c < |leftRow| && leftRow[c] == value
    case FromRight(c) => c < |rightRow| && rightRow[c] == value
  }

  // ---------------------------------------------------------------- the pairs to come

  function WithLeft(left: nat, ids: seq<nat>): (ps: seq<Pair>)
    ensures |ps| == |ids| && forall i | 0 <= i < |ids| :: ps[i] == Pair(left, ids[i])
  {
    seq(|ids|, i requires 0 <= i < |ids| => Pair(left, ids[i]))
  }

  /** What the index gives for a left row. */
  function Matching(q: Query, i: nat): seq<nat>
    requires i < |q.left|
  {
    if q.leftAttr < |q.left[i]| then q.index(q.left[i][q.leftAttr]) else []
  }

  /** The pairs for the left rows from i on. */
  function PairsFrom(q: Query, i: nat): seq<Pair>
    decreases |q.left| - i
  {
    if i >= |q.left| then [] else WithLeft(i, Matching(q, i)) + PairsFrom(q, i + 1)
  }

  /** The pairs from item k of a left row on. */
  function Rest(q: Query, left: nat, items: seq<nat>, k: nat): seq<Pair>
    requires k <= |items|
  {
    WithLeft(left, items[k..]) + PairsFrom(q, left + 1)
  }

  lemma RestStep(q: Query, left: nat, items: seq<nat>, k: nat)
    requires k <= |items|
    ensures k < |items| ==> Rest(q, left, items, k) == [Pair(left, items[k])] + Rest(q, left, items, k + 1)
    ensures k == |items| ==> Rest(q, left, items, k) == PairsFrom(q, left + 1)
  {
  }

  class JoinHandle {
    const q: Query
    var indexStep: bool
    var tupleId: nat
    var currentRow: nat
    /** The row buffers and the index iterator. */
    var leftRow: Row
    var rightRow: Row
    var items: seq<nat>
    var nextItemNo: nat

    ghost predicate Valid()
      reads this
    {
      && ValidQuery(q)
      && (!indexStep ==> tupleId < |q.left| && leftRow == q.left[tupleId] && nextItemNo <= |items|)
    }

    /** The pairs that later calls will join: after the end, everything again. */
    ghost function Remaining(): seq<Pair>
      requires Valid()
      reads this
    {
      if indexStep then PairsFrom(q, 0)
      else Rest(q, tupleId, items, nextItemNo)
    }

    constructor (q: Query)
      requires ValidQuery(q)
      ensures this.q == q && Valid() && indexStep && Remaining() == PairsFrom(q, 0)
    {
      this.q := q;
      indexStep, tupleId, currentRow, leftRow, rightRow, items, nextItemNo := true, 0, 0, [], [], [], 0;
    }

    /**
     relation_process_join; a call after the end starts the join over. The outer loop goes over the left rows; the
     inner loop of the source is left after one item, so it is a step here.
    */
    method Process() returns (r: Outcome)
      requires Valid()
      modifies this
      ensures Valid()
      ensures r == Finished <==> old(Remaining()) == []
      ensures r == Finished ==> Remaining() == PairsFrom(q, 0) && currentRow == old(currentRow)
      ensures r != Finished ==> Serves(q, old(Remaining())[0], r)
      ensures r.GotRow? ==> Remaining() == old(Remaining())[1..] && currentRow == old(currentRow) + 1
    {
      hide Joins, Serves, WithLeft, Matching, Rest, PairsFrom, ValidQuery;
      ghost var todo := Remaining();
      var inner := !indexStep;
      if !inner {
        tupleId := 0;
      }
      while true
        invariant ValidQuery(q) && currentRow == old(currentRow)
        invariant inner ==> !indexStep && Valid() && Remaining() == todo
        invariant !inner ==> indexStep && tupleId <= |q.left| && PairsFrom(q, tupleId) == todo
        decreases |q.left| - tupleId
      {
        if !inner {
          PairsUnfold(q, tupleId);
          if tupleId >= |q.left| {
            return Finished;
          }
          StartInner();
        }
        inner := false;
        var more;
        more, r := InnerStep(todo);
        if !more {
          indexStep := true;
          tupleId := tupleId + 1;
        } else {
          return;
        }
      }
    }

    /** The next left row and an iterator for its value. */
    method StartInner()
      requires ValidQuery(q) && tupleId < |q.left|
      modifies this`leftRow, this`items, this`nextItemNo, this`indexStep
      ensures Valid() && !indexStep
      ensures Remaining() == WithLeft(tupleId, Matching(q, tupleId)) + PairsFrom(q, tupleId + 1)
    {
      leftRow := q.left[tupleId];
      items := q.index(leftRow[q.leftAttr]);
      nextItemNo := 0;
      indexStep := false;
      assert items[0..] == items;
    }

    /** One item of the iteration over the right tuples, if there is one. */
    method InnerStep(ghost todo: seq<Pair>) returns (more: bool, r: Outcome)
      requires Valid() && !indexStep && todo == Remaining()
      modifies this`nextItemNo, this`rightRow, this`currentRow
      ensures Valid()
      ensures !more ==> currentRow == old(currentRow) && todo == PairsFrom(q, tupleId + 1)
      ensures more ==> todo != [] && r != Finished && Serves(q, todo[0], r)
      ensures more && r.GotRow? ==> todo == [todo[0]] + Remaining() && currentRow == old(currentRow) + 1
    {
      hide ValidQuery, Joins, PairsFrom, Rest;
      RestStep(q, tupleId, items, nextItemNo);
      r := ImplementationError;
      more := nextItemNo < |items|;
      if more {
        var rightId := items[nextItemNo];
        nextItemNo := nextItemNo + 1;
        if rightId < |q.right| {
          rightRow := q.right[rightId];
          var row := JoinRow(Pair(tupleId, rightId));
          currentRow := currentRow + 1;
          r := GotRow(row);
        }
      }
    }

    /** Fills the result row from the two row buffers. */
    method JoinRow(ghost p: Pair) returns (row: Row)
      requires ValidQuery(q) && p.left < |q.left| && p.right < |q.right| && leftRow == q.left[p.left]
      requires rightRow == q.right[p.right]
      ensures Joins(q, p, row)
    {
      row := [];
      for i := 0 to |q.sources|
        invariant |row| == i && forall k | 0 <= k < i :: Supplies(q.sources[k], leftRow, rightRow, row[k])
      {
        match q.sources[i] {
          case FromLeft(c) => row := row + [leftRow[c]];
          case FromRight(c) => row := row + [rightRow[c]];
        }
      }
    }
  }

  lemma PairsUnfold(q: Query, i: nat)
    ensures PairsFrom(q, i) == if i >= |q.left| then [] else WithLeft(i, Matching(q, i)) + PairsFrom(q, i + 1)
  {
  }

  lemma ServedAt(q: Query, k: nat, r: Outcome)
    requires k < |PairsFrom(q, 0)| && Serves(q, PairsFrom(q, 0)[k], r)
    ensures r.GotRow? ==> JoinsAt(q, k, r.row) && PairsFrom(q, 0)[k].right < |q.right|
    ensures !r.GotRow? ==> r == ImplementationError && PairsFrom(q, 0)[k].right >= |q.right|
  {
  }

  /** A join run to its end: its rows, and the pairs of tuples that they join. */
  method Join(q: Query) returns (rows: seq<Row>, last: Outcome)
    requires ValidQuery(q)
    ensures last == Finished || last == ImplementationError
    ensures last == Finished <==> forall p <- PairsFrom(q, 0) :: p.right < |q.right|
    ensures last == Finished ==> |rows| == |PairsFrom(q, 0)|
    ensures |rows| <= |PairsFrom(q, 0)|
    ensures forall k | 0 <= k < |rows| :: JoinsAt(q, k, rows[k])
  {
    hide ValidQuery, Joins, PairsFrom, Serves, JoinsAt;
    var h := new JoinHandle(q);
    ghost var all := PairsFrom(q, 0);
    rows := [];
    while true
      invariant fresh(h) && h.q == q && h.Valid() && |rows| <= |all| && h.Remaining() == all[|rows|..]
      invariant forall k | 0 <= k < |rows| :: JoinsAt(q, k, rows[k])
      invariant forall k | 0 <= k < |rows| :: all[k].right < |q.right|
      decreases |all| - |rows|
    {
      last := h.Process();
      if last != Finished {
        assert all[|rows|..][0] == all[|rows|];
        ServedAt(q, |rows|, last);
      }
      if !last.GotRow? {
        return;
      }
      assert all[|rows|..][1..] == all[|rows| + 1..];
      rows := rows + [last.row];
    }
  }

  /** The k-th joined row belongs to the k-th pair. */
  ghost predicate JoinsAt(q: Query, k: nat, row: Row) {
    && k < |PairsFrom(q, 0)| && PairsFrom(q, 0)[k].left < |q.left| && PairsFrom(q, 0)[k].right < |q.right|
    && Joins(q, PairsFrom(q, 0)[k], row)
  }

  // ---------------------------------------------------------------- the nested-loop join

  predicate HasValue(q: Query, j: nat, v: int) {
    j < |q.right| && q.rightAttr < |q.right[j]| && q.right[j][q.rightAttr] == v
  }

  ghost predicate GivesExactly(q: Query, v: int) {
    && (forall i, j | 0 <= i < j < |q.index(v)| :: q.index(v)[i] != q.index(v)[j])
    && (forall j: nat :: j in q.index(v) <==> HasValue(q, j, v))
  }

  /** The index gives each right tuple with the value once, in any order. */
  ghost predicate ExactIndex(q: Query) {
    forall v :: GivesExactly(q, v)
  }

  ghost predicate Equal(q: Query, p: Pair) {
    p.left < |q.left| && q.leftAttr < |q.left[p.left]| && HasValue(q, p.right, q.left[p.left][q.leftAttr])
  }

  lemma MatchingExact(q: Query, i: nat)
    requires ExactIndex(q) && i < |q.left|
    ensures forall p: Pair :: p in WithLeft(i, Matching(q, i)) <==> p.left == i && Equal(q, p)
    ensures forall a, b | 0 <= a < b < |Matching(q, i)| :: Matching(q, i)[a] != Matching(q, i)[b]
  {
    var ids := Matching(q, i);
    var first := WithLeft(i, ids);
    if q.leftAttr < |q.left[i]| {
      var v := q.left[i][q.leftAttr];
      assert GivesExactly(q, v) && ids == q.index(v);
      hide Matching;
      forall p: Pair
        ensures p in first <==> p.left == i && HasValue(q, p.right, v)
      {
        if p.left == i && p.right in ids {
          var k :| 0 <= k < |ids| && ids[k] == p.right;
          assert first[k] == p;
        }
      }
    }
  }

  /** With an exact index the pairs are those of the nested-loop join. */
  lemma {:induction false} PairsExact(q: Query, i: nat, p: Pair)
    requires ExactIndex(q)
    ensures p in PairsFrom(q, i) <==> i <= p.left && Equal(q, p)
    decreases |q.left| - i
  {
    if i < |q.left| {
      PairsExact(q, i + 1, p);
      MatchingExact(q, i);
      PairsUnfold(q, i);
      hide *;
    }
  }

  /** Left rows come in order, and no pair comes twice. */
  lemma {:induction false} PairsOrdered(q: Query, i: nat)
    requires ExactIndex(q)
    ensures forall a, b | 0 <= a < b < |PairsFrom(q, i)| ::
              PairsFrom(q, i)[a].left <= PairsFrom(q, i)[b].left && PairsFrom(q, i)[a] != PairsFrom(q, i)[b]
    ensures forall a | 0 <= a < |PairsFrom(q, i)| :: PairsFrom(q, i)[a].left >= i
    decreases |q.left| - i
  {
    if i < |q.left| {
      PairsOrdered(q, i + 1);
      MatchingExact(q, i);
      PairsUnfold(q, i);
      hide PairsFrom, Matching, ExactIndex, Equal;
    }
  }

  // ---------------------------------------------------------------- joined rows

  /** All attributes of the left relation, and then all of the right one. */
  function AllColumns(l: nat, r: nat): (sources: seq<Source>)
    ensures |sources| == l + r
    ensures forall i | 0 <= i < l :: sources[i] == FromLeft(i)
    ensures forall i | l <= i < l + r :: sources[i] == FromRight(i - l)
  {
    seq(l + r, i requires 0 <= i < l + r => if i < l then FromLeft(i) else FromRight(i - l))
  }

  /** Joined on all attributes, a row is the left row followed by the right one. */
  lemma JoinedRow(q: Query, p: Pair, row: Row)
    requires ValidQuery(q) && q.sources == AllColumns(q.leftWidth, q.rightWidth)
    requires p.left < |q.left| && p.right < |q.right|
    ensures Joins(q, p, row) <==> row == q.left[p.left] + q.right[p.right]
  {
    var both := q.left[p.left] + q.right[p.right];
    if Joins(q, p, row) {
      forall i | 0 <= i < |row|
        ensures row[i] == both[i]
      {
        assert Supplies(q.sources[i], q.left[p.left], q.right[p.right], row[i]);
      }
    }
  }
}
