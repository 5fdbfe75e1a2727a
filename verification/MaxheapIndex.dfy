/** Inserting into and looking up in the max-heap index, against a multimap. */
module MaxheapIndex {
  import opened Maxheap
  import opened MaxheapTree

  type Buckets = b: seq<seq<Pair>> | |b| == NODE_LIMIT witness seq(NODE_LIMIT, _ => [])

  /** The node file and, for each node, the pairs in the used slots of its bucket. */
  datatype Heap = Heap(nodes: Nodes, buckets: Buckets)

  /** The transformed key: any function into the 16-bit range (random_rand seeded with the key). */
  type Hash = h: nat -> nat | forall k :: h(k) <= KEY_MAX witness (k: nat) => 0

  /** create: an empty node file with the root range. */
  function EmptyHeap(): Heap {
    Heap(seq(NODE_LIMIT, i => if i == 0 then HeapNode(0, KEY_MAX) else EMPTY_NODE), seq(NODE_LIMIT, _ => []))
  }

  function Append(h: Heap, b: nat, pair: Pair): Heap
    requires b < NODE_LIMIT
  {
    h.(buckets := h.buckets[b := h.buckets[b] + [pair]])
  }

  datatype Split = Split(ok: bool, nodes: Nodes)

  /** bucket_split: both halves of node b through heap_insert. */
  function BucketSplit(nodes: Nodes, b: nat): Split
    requires b < NODE_LIMIT && nodes[b].min <= nodes[b].max
  {
    var node := nodes[b];
    var mean := Middle(node);
    var small := InsertSlot(nodes, node.min, mean, 0);
    if small < 0 then Split(false, nodes)
    else
      var nodes1: Nodes := nodes[small := HeapNode(node.min, mean)];
      var large := if mean + 1 <= node.max then InsertSlot(nodes1, mean + 1, node.max, 0) else -1;
      if large < 0 then Split(false, nodes1) else Split(true, nodes1[large := HeapNode(mean + 1, node.max)])
  }

  datatype Insertion = Insertion(ok: bool, heap: Heap)

  function InsertItem(h: Heap, hash: Hash, key: nat, value: nat): Insertion
    requires forall i :: 0 <= i < NODE_LIMIT ==> h.nodes[i].min <= h.nodes[i].max
  {
    var b := Deepest(h.nodes, hash(key), 0, -1);
    if !(0 <= b < NODE_LIMIT) then Insertion(false, h)
    else if |h.buckets[b]| == BUCKET_SIZE then
      var split := BucketSplit(h.nodes, b);
      var h1 := h.(nodes := split.nodes);
      if !split.ok then Insertion(false, h1)
      else
        match FindFrom(h1.nodes, hash(key), 2 * b + 1)
        case Missing => Insertion(false, h1)
        case Found(c, _) =>
          if |h1.buckets[c]| >= BUCKET_SIZE then Insertion(false, h1)
              else Insertion(true, Append(h1, c, Pair(key, value)))
    else if |h.buckets[b]| > BUCKET_SIZE then Insertion(false, h)
    else Insertion(true, Append(h, b, Pair(key, value)))
  }

  // ---------------------------------------------------------------- the invariant

  /** Every stored pair lies in a present bucket on the root path of its key's hash. */
  ghost predicate BucketPlaced(h: Heap, hash: Hash, i: nat)
    requires i < NODE_LIMIT
  {
    && |h.buckets[i]| <= BUCKET_SIZE
    && (h.buckets[i] != [] ==> i < 255 && !h.nodes[i].Empty())
    && forall s :: 0 <= s < |h.buckets[i]| ==> OnPath(hash(h.buckets[i][s].key), i)
  }

  ghost predicate HeapOk(h: Heap, hash: Hash) {
    && Shape(h.nodes)
    && forall i: nat {:trigger BucketPlaced(h, hash, i)} :: i < NODE_LIMIT ==> BucketPlaced(h, hash, i)
  }

  /** The pairs in the first n buckets. */
  function PairsIn(buckets: Buckets, n: nat): multiset<Pair>
    requires n <= NODE_LIMIT
  {
    if n == 0 then multiset{} else PairsIn(buckets, n - 1) + multiset(buckets[n - 1])
  }

  function Contents(h: Heap): multiset<Pair> {
    PairsIn(h.buckets, NODE_LIMIT)
  }

  lemma {:induction false} PairsAppend(buckets: Buckets, b: nat, pair: Pair, n: nat)
    requires b < NODE_LIMIT && n <= NODE_LIMIT
    ensures PairsIn(buckets[b := buckets[b] + [pair]], n)
              == PairsIn(buckets, n) + if b < n then multiset{pair} else multiset{}
    decreases n
  {
    if n > 0 {
      PairsAppend(buckets, b, pair, n - 1);
      assert multiset(buckets[b] + [pair]) == multiset(buckets[b]) + multiset{pair};
    }
  }

  lemma {:induction false} PairsMember(buckets: Buckets, n: nat, pair: Pair)
    requires n <= NODE_LIMIT
    ensures pair in PairsIn(buckets, n) <==> exists i :: 0 <= i < n && pair in buckets[i]
    decreases n
  {
    if n > 0 {
      PairsMember(buckets, n - 1, pair);
      if exists i :: 0 <= i < n && pair in buckets[i] {
        var i :| 0 <= i < n && pair in buckets[i];
        assert i == n - 1 ==> pair in multiset(buckets[n - 1]);
      }
    }
  }

  lemma {:induction false} NoPairs(buckets: Buckets, n: nat)
    requires n <= NODE_LIMIT && forall i :: 0 <= i < n ==> buckets[i] == []
    ensures PairsIn(buckets, n) == multiset{}
  {
    if n > 0 {
      NoPairs(buckets, n - 1);
    }
  }

  lemma EmptyHeapOk(hash: Hash)
    ensures HeapOk(EmptyHeap(), hash) && Contents(EmptyHeap()) == multiset{}
  {
    var h := EmptyHeap();
    assert Range(0) == HeapNode(0, KEY_MAX);
    forall i: nat | i < NODE_LIMIT
      ensures NodeShape(h.nodes, i) && BucketPlaced(h, hash, i)
    {
    }
    NoPairs(h.buckets, NODE_LIMIT);
  }

  lemma NodesOrdered(nodes: Nodes)
    requires Shape(nodes)
    ensures forall i :: 0 <= i < NODE_LIMIT ==> nodes[i].min <= nodes[i].max
  {
    hide Range;
    forall i | 0 <= i < NODE_LIMIT
      ensures nodes[i].min <= nodes[i].max
    {
      assert NodeShape(nodes, i);
    }
  }

  /** A split either stores both halves of a node without children, or finds no room and changes nothing. */
  lemma SplitOutcome(nodes: Nodes, b: nat)
    requires Shape(nodes) && b < 255 && !nodes[b].Empty() && (nodes[2 * b + 1].Empty() || b >= 127)
    requires nodes[b].min <= nodes[b].max
    ensures BucketSplit(nodes, b)
         == if nodes[2 * b + 1].Empty() then Split(true, WithChildren(nodes, b)) else Split(false, nodes)
  {
    hide Range, Shape, InsertSlot;
    ShapeAt(nodes, b);
    ChildRanges(b);
    if nodes[2 * b + 1].Empty() {
      SplitAddsChildren(nodes, b);
    } else {
      SplitWithoutRoom(nodes, b);
    }
  }

  lemma AppendOk(h: Heap, hash: Hash, b: nat, pair: Pair)
    requires HeapOk(h, hash) && b < 255 && !h.nodes[b].Empty() && OnPath(hash(pair.key), b)
    requires |h.buckets[b]| < BUCKET_SIZE
    ensures HeapOk(Append(h, b, pair), hash) && Contents(Append(h, b, pair)) == Contents(h) + multiset{pair}
  {
    hide Shape, OnPath;
    var h1 := Append(h, b, pair);
    forall i: nat | i < NODE_LIMIT
      ensures BucketPlaced(h1, hash, i)
    {
      assert BucketPlaced(h, hash, i);
    }
    PairsAppend(h.buckets, b, pair, NODE_LIMIT);
  }

  lemma GrownOk(h: Heap, hash: Hash, b: nat)
    requires HeapOk(h, hash) && b < 255 && !h.nodes[b].Empty() && h.nodes[2 * b + 1].Empty()
    ensures HeapOk(h.(nodes := WithChildren(h.nodes, b)), hash)
    ensures h.buckets[2 * b + 1] == h.buckets[2 * b + 2] == []
  {
    hide Range, OnPath;
    var h1 := h.(nodes := WithChildren(h.nodes, b));
    WithChildrenShape(h.nodes, b);
    ShapeAt(h.nodes, b);
    StoredNotEmpty(2 * b + 1);
    StoredNotEmpty(2 * b + 2);
    assert BucketPlaced(h, hash, 2 * b + 1) && BucketPlaced(h, hash, 2 * b + 2);
    forall i: nat | i < NODE_LIMIT
      ensures BucketPlaced(h1, hash, i)
    {
      assert BucketPlaced(h, hash, i);
    }
  }

  /** A full bucket without children is split and the pair goes to the child on its path. */
  lemma InsertAfterSplit(h: Heap, hash: Hash, b: nat, pair: Pair)
    requires HeapOk(h, hash) && b < 255 && OnPath(hash(pair.key), b) && !h.nodes[b].Empty()
    requires h.nodes[2 * b + 1].Empty()
    ensures var h1 := h.(nodes := WithChildren(h.nodes, b));
            var f := FindFrom(h1.nodes, hash(pair.key), 2 * b + 1);
            && HeapOk(h1, hash) && Contents(h1) == Contents(h)
            && (f.Found? ==> h1.buckets[f.bucket] == []
                             && HeapOk(Append(h1, f.bucket, pair), hash)
                             && Contents(Append(h1, f.bucket, pair)) == Contents(h) + multiset{pair})
  {
    hide Range, Shape, OnPath, FindFrom, WithChildren, Contents, Append;
    var hk := hash(pair.key);
    GrownOk(h, hash, b);
    var h1 := h.(nodes := WithChildren(h.nodes, b));
    SameBuckets(h, h1);
    FindBelow(h1.nodes, hk, b);
    ChildOnPath(hk, b);
    ChildIndex(hk, b);
    if FindFrom(h1.nodes, hk, 2 * b + 1).Found? {
      AppendOk(h1, hash, ChildFor(hk, b), pair);
    }
  }

  /** Insertion keeps the invariant; it adds exactly the pair or nothing, and says which. */
  lemma InsertKeeps(h: Heap, hash: Hash, key: nat, value: nat)
    requires HeapOk(h, hash)
    ensures forall i :: 0 <= i < NODE_LIMIT ==> h.nodes[i].min <= h.nodes[i].max
    ensures var r := InsertItem(h, hash, key, value);
            HeapOk(r.heap, hash) && Contents(r.heap)
                == Contents(h) + if r.ok then multiset{Pair(key, value)} else multiset{}
  {
    hide Range, Shape, OnPath, FindFrom, Deepest, BucketSplit, Append, Contents, WithChildren;
    NodesOrdered(h.nodes);
    var hk := hash(key);
    DeepestFromRoot(h.nodes, hk);
    var b := Deepest(h.nodes, hk, 0, -1);
    BucketAt(h, hash, b);
    hide HeapOk;
    if |h.buckets[b]| == BUCKET_SIZE {
      SplitOutcome(h.nodes, b);
      if h.nodes[2 * b + 1].Empty() {
        InsertAfterSplit(h, hash, b, Pair(key, value));
      } else {
        assert h.(nodes := h.nodes) == h;
      }
    } else {
      AppendOk(h, hash, b, Pair(key, value));
    }
  }

  /** insert_item on a heap in order. */
  function Insert(h: Heap, hash: Hash, key: nat, value: nat): Insertion
    requires HeapOk(h, hash)
  {
    NodesOrdered(h.nodes);
    InsertItem(h, hash, key, value)
  }

  lemma BucketAt(h: Heap, hash: Hash, b: nat)
    requires HeapOk(h, hash) && b < NODE_LIMIT
    ensures BucketPlaced(h, hash, b) && |h.buckets[b]| <= BUCKET_SIZE
  {
    hide Shape, OnPath;
    assert BucketPlaced(h, hash, b);
  }

  lemma SameBuckets(h: Heap, h1: Heap)
    requires h1.buckets == h.buckets
    ensures Contents(h1) == Contents(h)
  {
  }

  // ---------------------------------------------------------------- every reachable heap

  function InsertAll(h: Heap, hash: Hash, pairs: seq<Pair>): Heap
    requires HeapOk(h, hash)
    decreases pairs
  {
    if pairs == [] then h
    else
      InsertKeeps(h, hash, pairs[0].key, pairs[0].value);
      InsertAll(InsertItem(h, hash, pairs[0].key, pairs[0].value).heap, hash, pairs[1..])
  }

  function Accepted(h: Heap, hash: Hash, pairs: seq<Pair>): multiset<Pair>
    requires HeapOk(h, hash)
    decreases pairs
  {
    if pairs == [] then multiset{}
    else
      InsertKeeps(h, hash, pairs[0].key, pairs[0].value);
      var r := InsertItem(h, hash, pairs[0].key, pairs[0].value);
      (if r.ok then multiset{pairs[0]} else multiset{}) + Accepted(r.heap, hash, pairs[1..])
  }

  /**
   Whatever is inserted into a new index, the tree keeps its shape and the buckets hold exactly the accepted pairs.
  */
  lemma {:induction false} Reached(h: Heap, hash: Hash, pairs: seq<Pair>)
    requires HeapOk(h, hash)
    ensures HeapOk(InsertAll(h, hash, pairs), hash)
    ensures Contents(InsertAll(h, hash, pairs)) == Contents(h) + Accepted(h, hash, pairs)
    decreases pairs
  {
    hide HeapOk, InsertItem, Contents;
    if pairs != [] {
      InsertKeeps(h, hash, pairs[0].key, pairs[0].value);
      Reached(InsertItem(h, hash, pairs[0].key, pairs[0].value).heap, hash, pairs[1..]);
    }
  }

  // ---------------------------------------------------------------- lookup

  /** The first slot from `from` on that holds the key, |bucket| if none does. */
  function FirstMatch(bucket: seq<Pair>, key: nat, from: nat): (s: nat)
    ensures from <= |bucket| ==> from <= s <= |bucket|
    ensures s < |bucket| ==> from <= s && bucket[s].key == key
    ensures forall i :: from <= i < s && i < |bucket| ==> bucket[i].key != key
    ensures from > |bucket| ==> s == from
    decreases |bucket| - from
  {
    if from >= |bucket| || bucket[from].key == key then from else FirstMatch(bucket, key, from + 1)
  }

  datatype Hit = Hit(level: nat, slot: nat) | NoHit

  /** The search of get_next: upward from path level n - 1, in each bucket from slot `start` on. */
  function Search(buckets: Buckets, path: seq<nat>, key: nat, n: nat, start: nat): (r: Hit)
    requires n <= |path| && forall t :: 0 <= t < |path| ==> path[t] < NODE_LIMIT
    ensures r.Hit? ==>
              r.level < n && start <= r.slot < |buckets[path[r.level]]| && buckets[path[r.level]][r.slot].key == key
    ensures r.Hit? ==> forall i :: start <= i < r.slot ==> buckets[path[r.level]][i].key != key
    decreases n
  {
    if n == 0 then NoHit
    else
      var s := FirstMatch(buckets[path[n - 1]], key, start);
      if s < |buckets[path[n - 1]]| then Hit(n - 1, s) else Search(buckets, path, key, n - 1, start)
  }

  lemma {:induction false} SearchMisses(buckets: Buckets, path: seq<nat>, key: nat, n: nat)
    requires n <= |path| && forall t :: 0 <= t < |path| ==> path[t] < NODE_LIMIT
    requires Search(buckets, path, key, n, 0).NoHit?
    ensures forall t, i :: 0 <= t < n && 0 <= i < |buckets[path[t]]| ==> buckets[path[t]][i].key != key
    decreases n
  {
    if n > 0 {
      SearchMisses(buckets, path, key, n - 1);
    }
  }

  function VisitedPath(h: Heap, hash: Hash, key: nat): seq<nat> {
    PathFrom(h.nodes, hash(key), 0, 9)
  }

  /**
   The first lookup of a key succeeds exactly when some pair with that key has been accepted, and returns one of
   them.
  */
  lemma LookupExact(h: Heap, hash: Hash, key: nat)
    requires HeapOk(h, hash)
    ensures forall t :: 0 <= t < |VisitedPath(h, hash, key)| ==> VisitedPath(h, hash, key)[t] < NODE_LIMIT
    ensures var path := VisitedPath(h, hash, key);
            Search(h.buckets, path, key, |path|, 0).Hit? <==> exists pair :: pair in Contents(h) && pair.key == key
  {
    hide Range, Shape, OnPath, FindFrom;
    var path := VisitedPath(h, hash, key);
    RootPathSound(h.nodes, hash(key));
    assert forall t :: 0 <= t < |path| ==> path[t] < NODE_LIMIT;
    var r := Search(h.buckets, path, key, |path|, 0);
    if r.Hit? {
      HitInserted(h, path, key, |path|, 0);
    } else {
      SearchMisses(h.buckets, path, key, |path|);
      forall pair | pair in Contents(h) && pair.key == key
        ensures false
      {
        PairsMember(h.buckets, NODE_LIMIT, pair);
        var i :| 0 <= i < NODE_LIMIT && pair in h.buckets[i];
        var s :| 0 <= s < |h.buckets[i]| && h.buckets[i][s] == pair;
        assert BucketPlaced(h, hash, i);
        VisitedAtDepth(h.nodes, hash(key), i);
      }
    }
  }

  /** Whatever a search returns was inserted under the key. */
  lemma HitInserted(h: Heap, path: seq<nat>, key: nat, n: nat, start: nat)
    requires n <= |path| && forall t :: 0 <= t < |path| ==> path[t] < NODE_LIMIT
    requires Search(h.buckets, path, key, n, start).Hit?
    ensures var r := Search(h.buckets, path, key, n, start);
            h.buckets[path[r.level]][r.slot] in Contents(h) && h.buckets[path[r.level]][r.slot].key == key
  {
    var r := Search(h.buckets, path, key, n, start);
    PairsMember(h.buckets, NODE_LIMIT, h.buckets[path[r.level]][r.slot]);
  }

  /** The hits of successive get_next calls: each search resumes at the level and behind the slot of the last hit. */
  function Enumerate(buckets: Buckets, path: seq<nat>, key: nat, n: nat, start: nat): seq<Hit>
    requires n <= |path| && forall t :: 0 <= t < |path| ==> path[t] < NODE_LIMIT
    requires forall t :: 0 <= t < |path| ==> |buckets[path[t]]| <= BUCKET_SIZE
    decreases n, if start <= BUCKET_SIZE then BUCKET_SIZE + 1 - start else 0
  {
    match Search(buckets, path, key, n, start)
    case NoHit => []
    case Hit(level, slot) => [Hit(level, slot)] + Enumerate(buckets, path, key, level + 1, slot + 1)
  }

  /** Strictly upwards, or onwards within a bucket; never twice at one slot. */
  ghost predicate Before(a: Hit, b: Hit) {
    a.Hit? && b.Hit? && (b.level < a.level || (b.level == a.level && a.slot < b.slot))
  }

  ghost predicate Advancing(hits: seq<Hit>, n: nat, start: nat) {
    && (forall i :: 0 <= i < |hits| ==> hits[i].Hit? && hits[i].level < n && hits[i].slot >= start)
    && (forall i, j :: 0 <= i < j < |hits| ==> Before(hits[i], hits[j]))
  }

  lemma AdvancingCons(r: Hit, rest: seq<Hit>, n: nat, start: nat)
    requires r.Hit? && r.level < n && r.slot >= start && Advancing(rest, r.level + 1, r.slot + 1)
    ensures Advancing([r] + rest, n, start)
  {
  }

  lemma NothingAdvances(n: nat, start: nat)
    ensures Advancing([], n, start)
  {
  }

  /** Successive lookups never return a slot twice. */
  lemma {:induction false} NoSlotTwice(buckets: Buckets, path: seq<nat>, key: nat, n: nat, start: nat)
    requires n <= |path| && forall t :: 0 <= t < |path| ==> path[t] < NODE_LIMIT
    requires forall t :: 0 <= t < |path| ==> |buckets[path[t]]| <= BUCKET_SIZE
    ensures Advancing(Enumerate(buckets, path, key, n, start), n, start)
    decreases n, if start <= BUCKET_SIZE then BUCKET_SIZE + 1 - start else 0
  {
    hide Search, Advancing;
    var r := Search(buckets, path, key, n, start);
    if r.NoHit? {
      assert Advancing([], n, start) by { NothingAdvances(n, start); }
    } else {
      assert |buckets[path[r.level]]| <= BUCKET_SIZE;
      NoSlotTwice(buckets, path, key, r.level + 1, r.slot + 1);
      AdvancingCons(r, Enumerate(buckets, path, key, r.level + 1, r.slot + 1), n, start);
    }
  }
}
