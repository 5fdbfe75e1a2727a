/** When the index takes a pair: said of the deepest present bucket on the path of its key. */
module MaxheapAccept {
  import opened Maxheap
  import opened MaxheapTree
  import opened MaxheapIndex

  /** The last usable node on the path of a hash: present, and without a usable child. */
  ghost predicate EndOfPath(nodes: Nodes, hashed: nat, b: nat) {
    b < 255 && OnPath(hashed, b) && !nodes[b].Empty() && (b >= 127 || nodes[2 * b + 1].Empty())
  }

  /** The insertion loop comes past every present node of the path. */
  lemma {:induction false} DeepestPasses(nodes: Nodes, hashed: nat, i: nat)
    requires Shape(nodes) && hashed <= KEY_MAX && i < 255 && OnPath(hashed, i) && !nodes[i].Empty()
    ensures Deepest(nodes, hashed, 0, -1) == Deepest(nodes, hashed, 2 * i + 1, i)
    decreases i
  {
    hide Range, Shape, FindFrom, OnPath, ChildFor;
    if i == 0 {
      FindRoot(nodes, hashed);
    } else {
      var p := Parent(i);
      ParentOnPath(hashed, i);
      PresentParent(nodes, i);
      DeepestPasses(nodes, hashed, p);
      FindBelow(nodes, hashed, p);
    }
  }

  /** The insertion loop ends at the end of the path, and no other node is one. */
  lemma EndIsDeepest(nodes: Nodes, hashed: nat, b: nat)
    requires Shape(nodes) && hashed <= KEY_MAX && EndOfPath(nodes, hashed, b)
    ensures Deepest(nodes, hashed, 0, -1) == b
  {
    hide Range, Shape, FindFrom, OnPath, ChildFor;
    DeepestPasses(nodes, hashed, b);
    FindBelow(nodes, hashed, b);
    ChildIndex(hashed, b);
    ShapeAt(nodes, b);
  }

  lemma EndExists(nodes: Nodes, hashed: nat)
    requires Shape(nodes) && hashed <= KEY_MAX
    ensures var b := Deepest(nodes, hashed, 0, -1);
            b >= 0 && EndOfPath(nodes, hashed, b)
  {
    hide Range, Shape, OnPath;
    DeepestFromRoot(nodes, hashed);
  }

  lemma ShapeOf(h: Heap, hash: Hash)
    requires HeapOk(h, hash)
    ensures Shape(h.nodes)
  {
  }

  lemma FullInsert(h: Heap, hash: Hash, b: nat, key: nat, value: nat)
    requires HeapOk(h, hash) && b < NODE_LIMIT && Deepest(h.nodes, hash(key), 0, -1) == b
    requires |h.buckets[b]| == BUCKET_SIZE
    ensures h.nodes[b].min <= h.nodes[b].max
    ensures var split := BucketSplit(h.nodes, b);
            var f := FindFrom(split.nodes, hash(key), 2 * b + 1);
            Insert(h, hash, key, value).ok
            <==> split.ok && f.Found? && f.bucket < NODE_LIMIT && |h.buckets[f.bucket]| < BUCKET_SIZE
  {
    hide HeapOk, BucketSplit, Deepest, Append, FindFrom, Shape, Range;
    ShapeOf(h, hash);
    NodesOrdered(h.nodes);
  }

  /** A bucket that is not on the two lowest levels can be split, and the pair goes to a new child. */
  lemma SplitAccepts(h: Heap, hash: Hash, b: nat, key: nat, value: nat)
    requires HeapOk(h, hash) && EndOfPath(h.nodes, hash(key), b) && |h.buckets[b]| == BUCKET_SIZE
    ensures Insert(h, hash, key, value).ok <==> b < 127
  {
    hide HeapOk, Range, Shape, OnPath, FindFrom, Deepest, BucketSplit, Append, WithChildren, Contents, ChildFor;
    hide Insert;
    var hk := hash(key);
    ShapeOf(h, hash);
    EndIsDeepest(h.nodes, hk, b);
    FullInsert(h, hash, b, key, value);
    SplitOutcome(h.nodes, b);
    if h.nodes[2 * b + 1].Empty() {
      InsertAfterSplit(h, hash, b, Pair(key, value));
      GrownOk(h, hash, b);
      var h1 := h.(nodes := WithChildren(h.nodes, b));
      ShapeOf(h1, hash);
      FindBelow(h1.nodes, hk, b);
      ChildIndex(hk, b);
      ChildrenPresent(h.nodes, b);
    }
  }

  lemma ChildrenPresent(nodes: Nodes, b: nat)
    requires b < 255
    ensures !WithChildren(nodes, b)[2 * b + 1].Empty() && !WithChildren(nodes, b)[2 * b + 2].Empty()
  {
    hide Range;
    StoredNotEmpty(2 * b + 1);
    StoredNotEmpty(2 * b + 2);
  }

  /**
   A pair is accepted if and only if the last usable bucket on the path of its key has room, or is full and high enough
   in the tree to be split.
  */
  lemma AcceptedExactly(h: Heap, hash: Hash, key: nat, value: nat, b: nat)
    requires HeapOk(h, hash) && EndOfPath(h.nodes, hash(key), b)
    ensures Insert(h, hash, key, value).ok <==> |h.buckets[b]| < BUCKET_SIZE || b < 127
  {
    BucketAt(h, hash, b);
    hide HeapOk, Range, Shape, OnPath, FindFrom, Deepest, BucketSplit, Append, EndOfPath, BucketPlaced;
    ShapeOf(h, hash);
    NodesOrdered(h.nodes);
    EndIsDeepest(h.nodes, hash(key), b);
    if |h.buckets[b]| == BUCKET_SIZE {
      SplitAccepts(h, hash, b, key, value);
    }
  }

  /** There always is such a bucket, so whether a pair is accepted can be read from the tree. */
  lemma AcceptedSomewhere(h: Heap, hash: Hash, key: nat, value: nat)
    requires HeapOk(h, hash)
    ensures exists b: nat :: EndOfPath(h.nodes, hash(key), b)
                             && (Insert(h, hash, key, value).ok <==> |h.buckets[b]| < BUCKET_SIZE || b < 127)
  {
    hide HeapOk, Shape, EndOfPath;
    ShapeOf(h, hash);
    EndExists(h.nodes, hash(key));
    AcceptedExactly(h, hash, key, value, Deepest(h.nodes, hash(key), 0, -1));
  }
}
