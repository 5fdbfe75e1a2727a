/** Walking and growing the tree of ranges; the shape that every insertion keeps. */
module MaxheapTree {
  import opened Numbers
  import opened Maxheap

  type Nodes = n: seq<HeapNode> | |n| == NODE_LIMIT witness seq(NODE_LIMIT, _ => EMPTY_NODE)

  /** The scan of heap_insert: the index that receives the range, or -1. */
  function InsertSlot(nodes: Nodes, min: nat, max: nat, i: nat): (slot: int)
    ensures slot == -1 || (i <= slot < NODE_LIMIT && nodes[slot].Empty())
    decreases if i < NODE_LIMIT then NODE_LIMIT - i else 0
  {
    if i >= NODE_LIMIT then -1
    else if nodes[i].Empty() then i
    else if nodes[i].Contains(min, max) then InsertSlot(nodes, min, max, 2 * i + 1)
    else InsertSlot(nodes, min, max, i + 1)
  }

  datatype Find = Found(bucket: nat, next: nat) | Missing

  /** heap_find from iterator i; `next` is the iterator it leaves behind. */
  function FindFrom(nodes: Nodes, hashed: nat, i: nat): (f: Find)
    ensures f.Found? ==> i <= f.bucket && f.next == 2 * f.bucket + 1 < NODE_LIMIT
    decreases if i < NODE_LIMIT then NODE_LIMIT - i else 0
  {
    if i >= NODE_LIMIT || nodes[i].Empty() then Missing
    else if nodes[i].Contains(hashed, hashed) then
      if 2 * i + 1 >= NODE_LIMIT then Missing else Found(i, 2 * i + 1)
    else FindFrom(nodes, hashed, i + 1)
  }

  /** The first n buckets that repeated heap_find calls visit from iterator i on. */
  function PathFrom(nodes: Nodes, hashed: nat, i: nat, n: nat): seq<nat>
    decreases n
  {
    if n == 0 then []
    else
      match FindFrom(nodes, hashed, i)
      case Missing => []
      case Found(b, next) => [b] + PathFrom(nodes, hashed, next, n - 1)
  }

  /** The last bucket that the insertion loop visits, `last` if there is none. */
  function Deepest(nodes: Nodes, hashed: nat, i: nat, last: int): int
    decreases if i < NODE_LIMIT then NODE_LIMIT - i else 0
  {
    match FindFrom(nodes, hashed, i)
    case Missing => last
    case Found(b, next) => Deepest(nodes, hashed, next, b)
  }

  // ---------------------------------------------------------------- the shape

  ghost predicate NodeShape(nodes: Nodes, i: nat)
    requires i < NODE_LIMIT
  {
    && (nodes[i] == EMPTY_NODE || nodes[i] == Range(i))
    && (2 * i + 2 < NODE_LIMIT ==>
          (nodes[2 * i + 1].Empty() <==> nodes[2 * i + 2].Empty()) && (nodes[i].Empty() ==> nodes[2 * i + 1].Empty()))
  }

  /** Every node is empty or holds the range of its index; siblings come and go together, below a present parent. */
  ghost predicate Shape(nodes: Nodes) {
    && nodes[0] == Range(0)
    && forall i: nat {:trigger NodeShape(nodes, i)} :: i < NODE_LIMIT ==> NodeShape(nodes, i)
  }

  /** The shape around one node. */
  lemma ShapeAt(nodes: Nodes, i: nat)
    requires Shape(nodes) && i < NODE_LIMIT
    ensures nodes[i].Empty() ==> nodes[i] == EMPTY_NODE
    ensures !nodes[i].Empty() ==> nodes[i] == Range(i)
    ensures 2 * i + 2 < NODE_LIMIT ==> (nodes[2 * i + 1].Empty() <==> nodes[2 * i + 2].Empty())
    ensures 2 * i + 2 < NODE_LIMIT && nodes[i].Empty() ==> nodes[2 * i + 1].Empty()
  {
    assert NodeShape(nodes, i);
    StoredNotEmpty(i);
  }

  predicate OnPath(hashed: nat, i: nat) {
    Range(i).min <= hashed <= Range(i).max
  }

  function ChildFor(hashed: nat, i: nat): nat {
    if hashed <= Middle(Range(i)) then 2 * i + 1 else 2 * i + 2
  }

  /** A stored range is never mistaken for an empty node. */
  lemma StoredNotEmpty(i: nat)
    requires i < NODE_LIMIT
    ensures !Range(i).Empty()
  {
    RangeWidth(i);
  }

  lemma ChildOnPath(hashed: nat, i: nat)
    requires OnPath(hashed, i) && 2 * i + 2 < NODE_LIMIT
    ensures OnPath(hashed, ChildFor(hashed, i))
    ensures forall c :: c == 2 * i + 1 || c == 2 * i + 2 ==> (OnPath(hashed, c) <==> c == ChildFor(hashed, i))
  {
    hide Range, Middle;
    ChildRanges(i);
  }

  lemma ParentOnPath(hashed: nat, i: nat)
    requires 0 < i < NODE_LIMIT && OnPath(hashed, i)
    ensures OnPath(hashed, Parent(i)) && ChildFor(hashed, Parent(i)) == i
  {
    hide Range, Middle;
    var p := Parent(i);
    assert i == 2 * p + 1 || i == 2 * p + 2;
    ChildRanges(p);
  }

  /** One heap_find below node p: the child on the key's path, unless it is missing or on the bottom level. */
  lemma FindBelow(nodes: Nodes, hashed: nat, p: nat)
    requires Shape(nodes) && OnPath(hashed, p) && 2 * p + 2 < NODE_LIMIT
    ensures FindFrom(nodes, hashed, 2 * p + 1)
         == if nodes[ChildFor(hashed, p)].Empty() || 2 * ChildFor(hashed, p) + 1 >= NODE_LIMIT then Missing
            else Found(ChildFor(hashed, p), 2 * ChildFor(hashed, p) + 1)
  {
    hide Range, Shape, Middle;
    ChildOnPath(hashed, p);
    assert OnPath(hashed, 2 * p + 1) <==> 2 * p + 1 == ChildFor(hashed, p);
    assert OnPath(hashed, 2 * p + 2) <==> 2 * p + 2 == ChildFor(hashed, p);
    ShapeAt(nodes, p);
    ShapeAt(nodes, 2 * p + 1);
    ShapeAt(nodes, 2 * p + 2);
  }

  lemma FindRoot(nodes: Nodes, hashed: nat)
    requires Shape(nodes) && hashed <= KEY_MAX
    ensures FindFrom(nodes, hashed, 0) == Found(0, 1) && OnPath(hashed, 0) && !nodes[0].Empty()
  {
  }

  // ---------------------------------------------------------------- paths

  lemma PathStep(nodes: Nodes, hashed: nat, i: nat, n: nat)
    ensures PathFrom(nodes, hashed, i, n)
         == if n == 0 then []
            else match FindFrom(nodes, hashed, i)
                 case Missing => []
                 case Found(b, next) => [b] + PathFrom(nodes, hashed, next, n - 1)
  {
  }

  function Depth(i: nat): nat {
    if i == 0 then 0 else 1 + Depth(Parent(i))
  }

  lemma {:induction false} DepthBound(i: nat, k: nat)
    requires i + 1 < Pow2(k)
    ensures Depth(i) < k
    decreases k
  {
    if i > 0 {
      DepthBound(Parent(i), k - 1);
    }
  }

  lemma DepthStep(i: nat)
    requires i < 255
    ensures Depth(i) <= 7 && (i == 0 ==> Depth(i) == 0) && (i > 0 ==> Depth(i) == 1 + Depth(Parent(i)))
    ensures i > 0 ==> Parent(i) < i && 2 * Parent(i) + 2 < NODE_LIMIT
  {
    LevelWidths();
    DepthBound(i, 8);
  }

  /** A bucket on the root path of the key, present and not on the bottom level, is visited. */
  lemma {:induction false} VisitedAtDepth(nodes: Nodes, hashed: nat, i: nat)
    requires Shape(nodes) && hashed <= KEY_MAX && i < 255 && OnPath(hashed, i) && !nodes[i].Empty()
    ensures var path := PathFrom(nodes, hashed, 0, 9);
            Depth(i) < |path| && path[Depth(i)] == i
            && path[Depth(i) + 1..] == PathFrom(nodes, hashed, 2 * i + 1, 8 - Depth(i)) && Depth(i) <= 7
    decreases i
  {
    hide Range, FindFrom, Shape, PathFrom, Depth, OnPath, ChildFor;
    DepthStep(i);
    var path := PathFrom(nodes, hashed, 0, 9);
    if i == 0 {
      FindRoot(nodes, hashed);
      PathStep(nodes, hashed, 0, 9);
    } else {
      var p := Parent(i);
      ParentOnPath(hashed, i);
      PresentParent(nodes, i);
      VisitedAtDepth(nodes, hashed, p);
      FindBelow(nodes, hashed, p);
      var rest := PathFrom(nodes, hashed, 2 * p + 1, 8 - Depth(p));
      PathStep(nodes, hashed, 2 * p + 1, 8 - Depth(p));
      assert rest == [i] + PathFrom(nodes, hashed, 2 * i + 1, 8 - Depth(i));
      assert path[Depth(i)..] == rest;
      assert path[Depth(i)] == rest[0];
      assert path[Depth(i) + 1..] == rest[1..];
    }
  }

  lemma PresentParent(nodes: Nodes, i: nat)
    requires Shape(nodes) && 0 < i < NODE_LIMIT && !nodes[i].Empty()
    ensures !nodes[Parent(i)].Empty()
  {
    hide Range, Shape;
    var p := Parent(i);
    assert i == 2 * p + 1 || i == 2 * p + 2;
    ShapeAt(nodes, p);
  }

  lemma ChildIndex(hashed: nat, p: nat)
    ensures ChildFor(hashed, p) == 2 * p + 1 || ChildFor(hashed, p) == 2 * p + 2
  {
  }

  /** Visited buckets are present, usable and on the key's path, each further down than the one before. */
  ghost predicate SoundPath(nodes: Nodes, hashed: nat, above: int, path: seq<nat>) {
    && (forall t :: 0 <= t < |path| ==> above < path[t] < 255 && OnPath(hashed, path[t]) && !nodes[path[t]].Empty())
    && (forall s, t :: 0 <= s < t < |path| ==> path[s] < path[t])
  }

  lemma SoundCons(nodes: Nodes, hashed: nat, above: int, c: nat, rest: seq<nat>)
    requires SoundPath(nodes, hashed, c, rest)
    requires above < c < 255 && OnPath(hashed, c) && !nodes[c].Empty()
    ensures SoundPath(nodes, hashed, above, [c] + rest)
  {
    hide OnPath;
  }

  lemma {:induction false} PathSound(nodes: Nodes, hashed: nat, p: nat, n: nat)
    requires Shape(nodes) && OnPath(hashed, p) && 2 * p + 2 < NODE_LIMIT
    ensures SoundPath(nodes, hashed, p, PathFrom(nodes, hashed, 2 * p + 1, n))
    decreases n
  {
    hide Range, Shape, FindFrom, ChildFor;
    if n > 0 {
      FindBelow(nodes, hashed, p);
      ChildOnPath(hashed, p);
      ChildIndex(hashed, p);
      var c := ChildFor(hashed, p);
      if !nodes[c].Empty() && 2 * c + 1 < NODE_LIMIT {
        PathSound(nodes, hashed, c, n - 1);
        SoundCons(nodes, hashed, p, c, PathFrom(nodes, hashed, 2 * c + 1, n - 1));
      }
    }
  }

  lemma RootPathSound(nodes: Nodes, hashed: nat)
    requires Shape(nodes) && hashed <= KEY_MAX
    ensures PathFrom(nodes, hashed, 0, 9) != [] && SoundPath(nodes, hashed, -1, PathFrom(nodes, hashed, 0, 9))
  {
    hide Range, Shape, FindFrom;
    FindRoot(nodes, hashed);
    PathSound(nodes, hashed, 0, 8);
    SoundCons(nodes, hashed, -1, 0, PathFrom(nodes, hashed, 1, 8));
  }

  /** The insertion loop ends at a present bucket on the key's path whose children are absent or on the bottom level. */
  lemma {:induction false} DeepestBelow(nodes: Nodes, hashed: nat, p: nat)
    requires Shape(nodes) && OnPath(hashed, p) && 2 * p + 2 < NODE_LIMIT && !nodes[p].Empty()
    ensures var b := Deepest(nodes, hashed, 2 * p + 1, p);
            p <= b < 255 && OnPath(hashed, b) && !nodes[b].Empty() && (nodes[2 * b + 1].Empty() || b >= 127)
    decreases NODE_LIMIT - p
  {
    hide Range, Shape, FindFrom, ChildFor;
    FindBelow(nodes, hashed, p);
    ChildOnPath(hashed, p);
    ChildIndex(hashed, p);
    var c := ChildFor(hashed, p);
    ShapeAt(nodes, p);
    if !nodes[c].Empty() && 2 * c + 1 < NODE_LIMIT {
      DeepestBelow(nodes, hashed, c);
    }
  }

  lemma DeepestFromRoot(nodes: Nodes, hashed: nat)
    requires Shape(nodes) && hashed <= KEY_MAX
    ensures var b := Deepest(nodes, hashed, 0, -1);
            0 <= b < 255 && OnPath(hashed, b) && !nodes[b].Empty() && (nodes[2 * b + 1].Empty() || b >= 127)
  {
    hide Range, Shape, FindFrom;
    FindRoot(nodes, hashed);
    DeepestBelow(nodes, hashed, 0);
  }

  // ---------------------------------------------------------------- growing

  /** Node b can be reached by the insertion scan: its ancestors are present, and so is a left sibling on the way. */
  ghost predicate Reachable(nodes: Nodes, b: nat)
    requires b < NODE_LIMIT
    decreases b
  {
    b == 0 || (nodes[Parent(b)] == Range(Parent(b)) && (b % 2 == 0 ==>
        nodes[b - 1] == Range(b - 1)) && Reachable(nodes, Parent(b)))
  }

  lemma {:induction false} PresentReachable(nodes: Nodes, b: nat)
    requires Shape(nodes) && b < NODE_LIMIT && !nodes[b].Empty()
    ensures Reachable(nodes, b)
    decreases b
  {
    hide Range, Shape;
    if b > 0 {
      var p := Parent(b);
      PresentParent(nodes, b);
      PresentReachable(nodes, p);
      ShapeAt(nodes, p);
      if b % 2 == 0 {
        assert b == 2 * p + 2;
        ShapeAt(nodes, b - 1);
      }
    }
  }

  lemma SubrangeOfParent(b: nat)
    requires 0 < b < NODE_LIMIT
    ensures Range(Parent(b)).Contains(Range(b).min, Range(b).max)
    ensures b % 2 == 0 ==> Range(b - 1).max < Range(b).min && b - 1 > 0
  {
    hide Range, Middle;
    ChildRanges(Parent(b));
  }

  /** The scan for a range inside that of b arrives at b. */
  lemma {:induction false} ScanReaches(nodes: Nodes, b: nat, min: nat, max: nat)
    requires b < NODE_LIMIT && Reachable(nodes, b) && min <= max && Range(b).Contains(min, max)
    ensures InsertSlot(nodes, min, max, 0) == InsertSlot(nodes, min, max, b)
    decreases b
  {
    hide Range, Middle, InsertSlot;
    if b > 0 {
      var p := Parent(b);
      SubrangeOfParent(b);
      StoredNotEmpty(p);
      ScanReaches(nodes, p, min, max);
      ScanStep(nodes, min, max, p);
      if b % 2 == 0 {
        StoredNotEmpty(b - 1);
        ScanStep(nodes, min, max, b - 1);
      }
    }
  }

  lemma ScanStep(nodes: Nodes, min: nat, max: nat, i: nat)
    requires i < NODE_LIMIT && !nodes[i].Empty()
    ensures InsertSlot(nodes, min, max, i)
              == InsertSlot(nodes, min, max, if nodes[i].Contains(min, max) then 2 * i + 1 else i + 1)
  {
  }

  lemma ScanEnd(nodes: Nodes, min: nat, max: nat, i: nat)
    requires i < NODE_LIMIT ==> nodes[i].Empty()
    ensures InsertSlot(nodes, min, max, i) == if i < NODE_LIMIT then i else -1
  {
  }

  /** The heap after bucket_split has stored both halves of node b. */
  function WithChildren(nodes: Nodes, b: nat): Nodes
    requires b < 255
  {
    nodes[2 * b + 1 := Range(2 * b + 1)][2 * b + 2 := Range(2 * b + 2)]
  }

  /** bucket_split of a present node without children stores exactly its two halves. */
  lemma SplitAddsChildren(nodes: Nodes, b: nat)
    requires Shape(nodes) && b < 255 && !nodes[b].Empty() && nodes[2 * b + 1].Empty()
    ensures InsertSlot(nodes, Range(2 * b + 1).min, Range(2 * b + 1).max, 0) == 2 * b + 1
    ensures InsertSlot(nodes[2 * b + 1 := Range(2 * b + 1)], Range(2 * b + 2).min, Range(2 * b + 2).max, 0) == 2 * b + 2
  {
    hide Range, Middle, InsertSlot, Shape;
    var l, h := 2 * b + 1, 2 * b + 2;
    ShapeAt(nodes, b);
    PresentReachable(nodes, b);
    ScanReaches(nodes, l, Range(l).min, Range(l).max);
    ScanEnd(nodes, Range(l).min, Range(l).max, l);
    var nodes1: Nodes := nodes[l := Range(l)];
    assert Parent(h) == b && Parent(l) == b;
    ReachableKept(nodes, nodes1, b);
    ScanReaches(nodes1, h, Range(h).min, Range(h).max);
    ScanEnd(nodes1, Range(h).min, Range(h).max, h);
  }

  lemma WithChildrenShape(nodes: Nodes, b: nat)
    requires Shape(nodes) && b < 255 && !nodes[b].Empty() && nodes[2 * b + 1].Empty()
    ensures Shape(WithChildren(nodes, b))
  {
    hide Range, Middle;
    var l, h := 2 * b + 1, 2 * b + 2;
    var nodes2 := WithChildren(nodes, b);
    ShapeAt(nodes, b);
    StoredNotEmpty(l);
    StoredNotEmpty(h);
    ShapeAt(nodes, l);
    ShapeAt(nodes, h);
    forall i: nat | i < NODE_LIMIT
      ensures NodeShape(nodes2, i)
    {
      assert NodeShape(nodes, i);
    }
  }

  lemma {:induction false} ReachableKept(nodes: Nodes, nodes1: Nodes, b: nat)
    requires b < NODE_LIMIT && Reachable(nodes, b)
    requires forall i :: 0 <= i < b ==> nodes1[i] == nodes[i]
    ensures Reachable(nodes1, b)
    decreases b
  {
    hide Range;
    if b > 0 {
      ReachableKept(nodes, nodes1, Parent(b));
    }
  }

  /** On the level above the bottom a second split finds no room. */
  lemma SplitWithoutRoom(nodes: Nodes, b: nat)
    requires Shape(nodes) && 127 <= b < 255 && !nodes[b].Empty() && !nodes[2 * b + 1].Empty()
    ensures InsertSlot(nodes, Range(2 * b + 1).min, Range(2 * b + 1).max, 0) == -1
  {
    hide Range, Middle, InsertSlot, Shape;
    var l := 2 * b + 1;
    PresentReachable(nodes, l);
    ShapeAt(nodes, l);
    ScanReaches(nodes, l, Range(l).min, Range(l).max);
    ScanStep(nodes, Range(l).min, Range(l).max, l);
    ScanEnd(nodes, Range(l).min, Range(l).max, 2 * l + 1);
  }
}
