/**
 The index operations as they run: loops over the node file, bucket slots, the bucket cache and the iteration cache.
*/
module MaxheapStore {
  import opened Maxheap
  import opened MaxheapTree
  import opened MaxheapIndex

  const EMPTY_PAIR := Pair(0, 0)

  class HeapIndex {
    const hash: Hash
    /** The heap file and the bucket file. */
    var heapFile: array<HeapNode>
    var bucketFile: array2<Pair>
    var nextFreeSlot: array<nat>
    /** The one-entry bucket cache; -1 when it is free. */
    var cachedBucket: int
    var cache: seq<Pair>
    /** The iteration state of get_next. */
    var nextItemNo: nat
    var heapIterator: int
    var foundItems: nat
    var start: nat
    var visited: seq<nat>

    /** The index that the files stand for. */
    ghost var model: Heap

    /** Slots from next_free_slot on still read as zeroes. */
    ghost predicate ValidBucket(i: nat)
      requires i < NODE_LIMIT && bucketFile.Length0 == NODE_LIMIT && bucketFile.Length1 == BUCKET_SIZE
      requires nextFreeSlot.Length == NODE_LIMIT
      reads this`model, this`bucketFile, this`nextFreeSlot, bucketFile, nextFreeSlot
    {
      && |model.buckets[i]| == nextFreeSlot[i] <= BUCKET_SIZE
      && (forall s :: 0 <= s < nextFreeSlot[i] ==> bucketFile[i, s] == model.buckets[i][s])
      && (forall s :: nextFreeSlot[i] <= s < BUCKET_SIZE ==> bucketFile[i, s] == EMPTY_PAIR)
    }

    ghost predicate Valid()
      reads this`model, this`heapFile, this`bucketFile, this`nextFreeSlot, heapFile, bucketFile, nextFreeSlot
    {
      && heapFile.Length == NODE_LIMIT && nextFreeSlot.Length == NODE_LIMIT
      && bucketFile.Length0 == NODE_LIMIT && bucketFile.Length1 == BUCKET_SIZE
      && heapFile[..] == model.nodes
      && forall i: nat {:trigger ValidBucket(i)} :: i < NODE_LIMIT ==> ValidBucket(i)
    }

    /** The cached copy of a bucket shows every pair that is in it. */
    ghost predicate CacheFresh()
      requires Valid()
      reads this`model, this`heapFile, this`bucketFile, this`nextFreeSlot, heapFile, bucketFile, nextFreeSlot
      reads this`cachedBucket, this`cache
    {
      cachedBucket >= 0 ==>
        cachedBucket < NODE_LIMIT && |cache| == BUCKET_SIZE && model.buckets[cachedBucket] <= cache
    }

    /** create */
    constructor (hash: Hash)
      ensures this.hash == hash && Valid() && model == EmptyHeap() && HeapOk(model, hash) && CacheFresh()
      ensures nextItemNo == 0 && fresh(heapFile) && fresh(bucketFile) && fresh(nextFreeSlot)
    {
      this.hash := hash;
      heapFile := new HeapNode[NODE_LIMIT](i => if i == 0 then HeapNode(0, KEY_MAX) else EMPTY_NODE);
      bucketFile := new Pair[NODE_LIMIT, BUCKET_SIZE]((i, s) => EMPTY_PAIR);
      nextFreeSlot := new nat[NODE_LIMIT](i => 0);
      cachedBucket, cache := -1, [];
      nextItemNo, heapIterator, foundItems, start, visited := 0, -1, 0, 0, [];
      model := EmptyHeap();
      new;
      EmptyHeapOk(hash);
      assert heapFile[..] == model.nodes;
      forall i: nat | i < NODE_LIMIT
        ensures ValidBucket(i)
      {
      }
    }

    /** heap_insert: the index that received the range, or -1. */
    method HeapInsert(min: nat, max: nat) returns (slot: int)
      requires Valid()
      modifies heapFile, this`model
      ensures Valid() && model.buckets == old(model.buckets)
      ensures slot == if min > max then -1 else InsertSlot(old(model.nodes), min, max, 0)
      ensures model.nodes == if slot < 0 then old(model.nodes) else old(model.nodes)[slot := HeapNode(min, max)]
    {
      if min > max {
        return -1;
      }
      var i: nat := 0;
      while i < NODE_LIMIT
        invariant InsertSlot(model.nodes, min, max, i) == InsertSlot(model.nodes, min, max, 0)
        invariant model == old(model) && Valid()
        decreases if i < NODE_LIMIT then NODE_LIMIT - i else 0
      {
        var node := heapFile[i];
        if node.Empty() {
          heapFile[i] := HeapNode(min, max);
          model := model.(nodes := model.nodes[i := HeapNode(min, max)]);
          BucketsKept();
          return i;
        } else if node.min <= min && max <= node.max {
          i := 2 * i + 1;
        } else {
          i := i + 1;
        }
      }
      return -1;
    }

    /** A change of the node file leaves the buckets as they are. */
    twostate lemma BucketsKept()
      requires old(Valid()) && bucketFile == old(bucketFile) && nextFreeSlot == old(nextFreeSlot)
      requires unchanged(bucketFile) && unchanged(nextFreeSlot) && model.buckets == old(model.buckets)
      ensures forall i: nat {:trigger ValidBucket(i)} :: i < NODE_LIMIT ==> ValidBucket(i)
    {
      forall i: nat | i < NODE_LIMIT
        ensures ValidBucket(i)
      {
        assert old(ValidBucket(i));
      }
    }

    /** heap_find: the next bucket on the key's path from the cursor on, or -1. */
    method HeapFind(key: nat, cursor: nat) returns (bucket: int, next: nat)
      requires Valid()
      ensures match FindFrom(model.nodes, hash(key), cursor)
              case Missing => bucket == -1 && next == cursor
              case Found(b, n) => bucket == b && next == n
    {
      var hashed := hash(key);
      var i := cursor;
      while i < NODE_LIMIT
        invariant cursor <= i
        invariant FindFrom(model.nodes, hashed, i) == FindFrom(model.nodes, hashed, cursor)
      {
        var node := heapFile[i];
        if node.Empty() {
          return -1, cursor;
        } else if node.min <= hashed && hashed <= node.max {
          if 2 * i + 1 >= NODE_LIMIT {
            return -1, cursor;
          }
          return i, 2 * i + 1;
        }
        i := i + 1;
      }
      return -1, cursor;
    }

    method BucketAppend(b: nat, pair: Pair) returns (ok: bool)
      requires Valid() && b < NODE_LIMIT
      modifies bucketFile, nextFreeSlot, this`model
      ensures Valid()
      ensures ok == (|old(model.buckets[b])| < BUCKET_SIZE)
      ensures model == if ok then Append(old(model), b, pair) else old(model)
    {
      assert ValidBucket(b);
      if nextFreeSlot[b] >= BUCKET_SIZE {
        return false;
      }
      bucketFile[b, nextFreeSlot[b]] := pair;
      nextFreeSlot[b] := nextFreeSlot[b] + 1;
      model := Append(model, b, pair);
      ok := true;
      forall i: nat | i < NODE_LIMIT
        ensures ValidBucket(i)
      {
        assert old(ValidBucket(i));
      }
    }

    method BucketSplit(b: nat) returns (ok: bool)
      requires Valid() && b < NODE_LIMIT && model.nodes[b].min <= model.nodes[b].max
      modifies heapFile, this`model
      ensures Valid() && model.buckets == old(model.buckets)
      ensures MaxheapIndex.BucketSplit(old(model.nodes), b) == Split(ok, model.nodes)
    {
      hide InsertSlot;
      var node := heapFile[b];
      var mean := node.min + (node.max - node.min) / 2;
      var small := HeapInsert(node.min, mean);
      if small < 0 {
        return false;
      }
      var large := HeapInsert(mean + 1, node.max);
      if large < 0 {
        return false;
      }
      return true;
    }

    /** The insertion loop: repeated heap_find until there is no further bucket on the path. */
    method DeepestBucket(key: nat) returns (last: int, cursor: nat)
      requires Valid()
      ensures last == Deepest(model.nodes, hash(key), 0, -1)
      ensures last == -1 || (0 <= last < NODE_LIMIT && cursor == 2 * last + 1)
    {
      hide FindFrom, Deepest;
      cursor, last := 0, -1;
      var more := true;
      while more
        invariant last == -1 || (0 <= last < NODE_LIMIT && cursor == 2 * last + 1)
        invariant (if more then Deepest(model.nodes, hash(key), cursor, last) else last)
               == Deepest(model.nodes, hash(key), 0, -1)
        decreases more, if cursor < NODE_LIMIT then NODE_LIMIT - cursor else 0
      {
        var bucket, next := HeapFind(key, cursor);
        DeepestStep(model.nodes, hash(key), cursor, last);
        if bucket < 0 {
          more := false;
        } else {
          last, cursor := bucket, next;
        }
      }
    }

    /** Splits a full bucket and finds the child for the key, or -1. */
    method MakeRoom(b: nat, key: nat, cursor: nat) returns (child: int)
      requires Valid() && b < NODE_LIMIT && model.nodes[b].min <= model.nodes[b].max
      modifies heapFile, this`model
      ensures Valid()
      ensures var split := MaxheapIndex.BucketSplit(old(model.nodes), b);
              && model == old(model).(nodes := split.nodes)
              && child == if split.ok then FoundBucket(FindFrom(split.nodes, hash(key), cursor)) else -1
    {
      hide Valid, InsertSlot, FindFrom, MaxheapIndex.BucketSplit;
      var split := BucketSplit(b);
      if !split {
        return -1;
      }
      var next;
      child, next := HeapFind(key, cursor);
    }

    method InsertItem(key: nat, value: nat) returns (ok: bool)
      requires Valid() && HeapOk(model, hash)
      modifies heapFile, bucketFile, nextFreeSlot, this`model
      ensures Valid() && HeapOk(model, hash)
      ensures Insert(old(model), hash, key, value) == Insertion(ok, model)
      ensures Contents(model) == old(Contents(model)) + if ok then multiset{Pair(key, value)} else multiset{}
    {
      hide *;
      InsertedPair(model, hash, key, value);
      var last, cursor := DeepestBucket(key);
      if last < 0 {
        return false;
      }
      ok := InsertBelow(last, cursor, key, value);
    }

    /** Stores a pair in the deepest bucket of its key, or in a child when that bucket is full. */
    method InsertBelow(last: nat, cursor: nat, key: nat, value: nat) returns (ok: bool)
      requires Valid() && HeapOk(model, hash) && last == Deepest(model.nodes, hash(key), 0, -1)
      requires last < NODE_LIMIT && cursor == 2 * last + 1
      modifies heapFile, bucketFile, nextFreeSlot, this`model
      ensures Valid() && Insert(old(model), hash, key, value) == Insertion(ok, model)
    {
      hide *;
      InsertedBelow(model, hash, key, value);
      var b := last;
      var full := BucketFull(b);
      if full {
        b := MakeRoom(b, key, cursor);
        if b < 0 {
          return false;
        }
      }
      ok := BucketAppend(b, Pair(key, value));
    }

    method BucketFull(b: nat) returns (full: bool)
      requires Valid() && b < NODE_LIMIT
      ensures full == (|model.buckets[b]| == BUCKET_SIZE) && |model.buckets[b]| <= BUCKET_SIZE
    {
      assert ValidBucket(b);
      full := nextFreeSlot[b] == BUCKET_SIZE;
    }

    /** The scan for the first empty pair. */
    static method FillLevel(bucket: seq<Pair>) returns (i: nat)
      ensures i <= |bucket| && (i < |bucket| ==> bucket[i] == EMPTY_PAIR)
      ensures forall k :: 0 <= k < i ==> bucket[k] != EMPTY_PAIR
    {
      i := 0;
      while i < |bucket| && bucket[i] != EMPTY_PAIR
        invariant i <= |bucket| && forall k :: 0 <= k < i ==> bucket[k] != EMPTY_PAIR
      {
        i := i + 1;
      }
    }

    /**
     bucket_load: the bucket is in the cache afterwards; an unknown fill level is found by scanning for an empty
     pair.
    */
    method BucketLoad(b: nat)
      requires Valid() && CacheFresh() && b < NODE_LIMIT
      modifies this`cachedBucket, this`cache, nextFreeSlot
      ensures Valid() && CacheFresh() && cachedBucket == b && model == old(model)
    {
      if cachedBucket == b {
        return;
      }
      cachedBucket := -1;
      assert ValidBucket(b);
      cache := seq(BUCKET_SIZE, s requires 0 <= s < BUCKET_SIZE reads this, bucketFile
                                  requires bucketFile.Length0 == NODE_LIMIT
                                  requires bucketFile.Length1 == BUCKET_SIZE => bucketFile[b, s]);
      cachedBucket := b;
      if nextFreeSlot[b] == 0 {
        var i := FillLevel(cache);
        assert cache[0] == EMPTY_PAIR;
        nextFreeSlot[b] := i;
        forall k: nat | k < NODE_LIMIT
          ensures ValidBucket(k)
        {
          assert old(ValidBucket(k));
        }
      }
    }

    /** The loop over the path at the start of a search; NODE_DEPTH is 9. */
    method VisitPath(key: nat) returns (path: seq<nat>)
      requires Valid()
      ensures path == VisitedPath(model, hash, key)
    {
      hide *;
      ghost var nodes, hashed := model.nodes, hash(key);
      ghost var all := PathFrom(nodes, hashed, 0, 9);
      var cursor: nat, i: nat := 0, 0;
      path := [];
      JoinsStart(all);
      while i < 9
        invariant i <= 9
        invariant Joins(path, PathFrom(nodes, hashed, cursor, 9 - i), all)
      {
        var bucket, next := HeapFind(key, cursor);
        PathStep(nodes, hashed, cursor, 9 - i);
        if bucket < 0 {
          JoinsEnd(path, all);
          VisitedIs(model, hash, key);
          return;
        }
        JoinsStep(path, bucket, PathFrom(nodes, hashed, next, 9 - i - 1), all);
        path, cursor, i := path + [bucket], next, i + 1;
      }
      PathStep(nodes, hashed, cursor, 0);
      JoinsEnd(path, all);
      VisitedIs(model, hash, key);
    }

    /** A search is under way, or nextItemNo is 0 and the next call starts one. */
    ghost predicate Searching(key: nat)
      reads this`model, this`nextItemNo, this`heapIterator, this`foundItems, this`visited
    {
      nextItemNo > 0 ==>
        visited == VisitedPath(model, hash, key) && foundItems == nextItemNo && 0 <= heapIterator < |visited|
    }

    /** Where the search of the next call begins: the number of path levels to go and the first slot. */
    ghost function ResumeLevels(key: nat): int
      reads this`model, this`nextItemNo, this`heapIterator
    {
      if nextItemNo == 0 then |VisitedPath(model, hash, key)| else heapIterator + 1
    }

    ghost function ResumeSlot(): nat
      reads this`nextItemNo, this`start
    {
      if nextItemNo == 0 then 0 else start
    }

    /** The slots of one cached bucket, from `start` on. */
    method ScanBucket(b: nat, key: nat) returns (found: bool, slot: nat, value: nat)
      requires Valid() && CacheFresh() && b < NODE_LIMIT && cachedBucket == b
      ensures slot == FirstMatch(model.buckets[b], key, start)
      ensures found == (slot < |model.buckets[b]|) && (found ==> value == model.buckets[b][slot].value)
    {
      assert ValidBucket(b);
      slot := start;
      while slot < nextFreeSlot[b] && cache[slot].key != key
        invariant start <= slot && (start <= nextFreeSlot[b] ==> slot <= nextFreeSlot[b])
        invariant FirstMatch(model.buckets[b], key, slot) == FirstMatch(model.buckets[b], key, start)
      {
        slot := slot + 1;
      }
      found := slot < nextFreeSlot[b];
      value := if found then cache[slot].value else 0;
    }

    method SearchBucket(b: nat, key: nat) returns (found: bool, slot: nat, value: nat)
      requires Valid() && CacheFresh() && b < NODE_LIMIT
      modifies this`cachedBucket, this`cache, nextFreeSlot
      ensures Valid() && CacheFresh() && model == old(model)
      ensures slot == FirstMatch(model.buckets[b], key, start)
      ensures found == (slot < |model.buckets[b]|) && (found ==> value == model.buckets[b][slot].value)
    {
      hide *;
      BucketLoad(b);
      found, slot, value := ScanBucket(b, key);
    }

    /** Notes the slot behind an item that was found. */
    method CountItem(slot: nat)
      requires Valid() && CacheFresh()
      modifies this`nextItemNo, this`foundItems, this`start
      ensures Valid() && CacheFresh()
      ensures foundItems == old(foundItems) + 1 && nextItemNo == old(nextItemNo) + 1 && start == slot + 1
    {
      hide *;
      foundItems := foundItems + 1;
      nextItemNo := nextItemNo + 1;
      start := slot + 1;
    }

    /**
     The loop of get_next over the visited buckets, bottom up. Since found_items equals next_item_no on entry,
     the first matching slot is the item to return.
    */
    method SearchUp(key: nat) returns (value: int)
      requires Valid() && CacheFresh() && foundItems == nextItemNo
      requires -1 <= heapIterator < |visited| && forall t :: 0 <= t < |visited| ==> visited[t] < NODE_LIMIT
      modifies this`nextItemNo, this`heapIterator, this`foundItems, this`start, this`cachedBucket, this`cache,
          nextFreeSlot
      ensures Valid() && CacheFresh() && model == old(model)
      ensures match Search(model.buckets, visited, key, old(heapIterator) + 1, old(start))
              case Hit(level, slot) =>
                && value == model.buckets[visited[level]][slot].value
                && foundItems == nextItemNo == old(nextItemNo) + 1 && heapIterator == level && start == slot + 1
              case NoHit => value == -1
    {
      hide *;
      ghost var wanted := Search(model.buckets, visited, key, heapIterator + 1, start);
      while heapIterator >= 0
        invariant Valid() && CacheFresh() && model == old(model)
        invariant -1 <= heapIterator < |visited| && foundItems == nextItemNo == old(nextItemNo) && start == old(start)
        invariant wanted == Search(model.buckets, visited, key, heapIterator + 1, start)
      {
        var b := visited[heapIterator];
        var found, slot, v := SearchBucket(b, key);
        SearchStep(model.buckets, visited, key, heapIterator + 1, start);
        if found {
          CountItem(slot);
          return v;
        }
        heapIterator := heapIterator - 1;
      }
      SearchStep(model.buckets, visited, key, 0, start);
      return -1;
    }

    /** The initialization of the iteration cache for a new search, nothing when a search is under way. */
    method BeginSearch(key: nat)
      requires Valid() && Searching(key)
      modifies this`heapIterator, this`foundItems, this`start, this`visited
      ensures visited == VisitedPath(model, hash, key) && foundItems == nextItemNo
      ensures heapIterator + 1 == old(ResumeLevels(key)) && start == old(ResumeSlot()) && -1 <= heapIterator < |visited|
    {
      hide VisitedPath, Valid;
      if nextItemNo == 0 {
        foundItems, start := 0, 0;
        visited := VisitPath(key);
        heapIterator := |visited| - 1;
      }
    }

    /** One call of get_next for an equality search; -1 is INVALID_TUPLE. */
    method GetNext(key: nat) returns (value: int)
      requires Valid() && HeapOk(model, hash) && CacheFresh() && Searching(key)
      modifies this`nextItemNo, this`heapIterator, this`foundItems, this`start, this`visited,
          this`cachedBucket, this`cache,
               nextFreeSlot
      ensures Valid() && CacheFresh() && model == old(model)
      ensures match NextHit(model, hash, key, old(ResumeLevels(key)), old(ResumeSlot()))
              case Hit(level, slot) =>
                && level < |VisitedPath(model, hash, key)| && VisitedPath(model, hash, key)[level] < NODE_LIMIT
                && slot < |model.buckets[VisitedPath(model, hash, key)[level]]|
                && value == model.buckets[VisitedPath(model, hash, key)[level]][slot].value
                && nextItemNo == old(nextItemNo) + 1 && Searching(key)
                && ResumeLevels(key) == level + 1 && ResumeSlot() == slot + 1
              case NoHit => value == -1
    {
      hide Shape, HeapOk, VisitedPath, Search, Valid, CacheFresh;
      PathInside(model, hash, key);
      BeginSearch(key);
      value := SearchUp(key);
    }
  }

  /** The slot that a get_next call finds when it resumes at the given level count and slot. */
  ghost function NextHit(h: Heap, hash: Hash, key: nat, levels: int, slot: nat): (r: Hit)
    requires HeapOk(h, hash)
    ensures r.Hit? ==> r.level < |VisitedPath(h, hash, key)| && VisitedPath(h, hash, key)[r.level] < NODE_LIMIT
    ensures r.Hit? ==> r.slot < |h.buckets[VisitedPath(h, hash, key)[r.level]]|
  {
    PathInside(h, hash, key);
    if 0 <= levels <= |VisitedPath(h, hash, key)| then Search(h.buckets, VisitedPath(h, hash, key), key,
        levels, slot) else NoHit
  }

  lemma SearchStep(buckets: Buckets, path: seq<nat>, key: nat, n: nat, start: nat)
    requires n <= |path| && forall t :: 0 <= t < |path| ==> path[t] < NODE_LIMIT
    ensures Search(buckets, path, key, n, start)
         == if n == 0 then NoHit
            else if FirstMatch(buckets[path[n - 1]], key, start) < |buckets[path[n - 1]]|
            then Hit(n - 1, FirstMatch(buckets[path[n - 1]], key, start))
            else Search(buckets, path, key, n - 1, start)
  {
  }

  /** The bucket of a find result as heap_find returns it. */
  function FoundBucket(f: Find): int {
    match f
    case Missing => -1
    case Found(b, _) => b
  }

  lemma InsertedPair(h: Heap, hash: Hash, key: nat, value: nat)
    requires HeapOk(h, hash)
    ensures var r := Insert(h, hash, key, value);
            HeapOk(r.heap, hash) && Contents(r.heap)
                == Contents(h) + if r.ok then multiset{Pair(key, value)} else multiset{}
    ensures Deepest(h.nodes, hash(key), 0, -1) < 0 ==> Insert(h, hash, key, value) == Insertion(false, h)
  {
    hide HeapOk, Deepest, Contents;
    InsertKeeps(h, hash, key, value);
  }

  lemma InsertedBelow(h: Heap, hash: Hash, key: nat, value: nat)
    requires HeapOk(h, hash) && 0 <= Deepest(h.nodes, hash(key), 0, -1) < NODE_LIMIT
    ensures var b := Deepest(h.nodes, hash(key), 0, -1);
            && h.nodes[b].min <= h.nodes[b].max
            && var split := MaxheapIndex.BucketSplit(h.nodes, b);
               var c := if split.ok then FoundBucket(FindFrom(split.nodes, hash(key), 2 * b + 1)) else -1;
               var h1 := h.(nodes := split.nodes);
               && c < NODE_LIMIT
               && Insert(h, hash, key, value)
                  == if |h.buckets[b]| == BUCKET_SIZE then
                       if c < 0 || |h1.buckets[c]| >= BUCKET_SIZE then Insertion(false, h1)
                       else Insertion(true, Append(h1, c, Pair(key, value)))
                     else if |h.buckets[b]| > BUCKET_SIZE then Insertion(false, h)
                     else Insertion(true, Append(h, b, Pair(key, value)))
  {
    hide HeapOk, Shape, InsertSlot, MaxheapIndex.BucketSplit, Deepest, Append, Contents;
    InsertKeeps(h, hash, key, value);
  }

  lemma PathInside(h: Heap, hash: Hash, key: nat)
    requires HeapOk(h, hash)
    ensures forall t :: 0 <= t < |VisitedPath(h, hash, key)| ==> VisitedPath(h, hash, key)[t] < NODE_LIMIT
  {
    hide Shape, OnPath;
    RootPathSound(h.nodes, hash(key));
  }

  lemma DeepestStep(nodes: Nodes, hashed: nat, i: nat, last: int)
    ensures Deepest(nodes, hashed, i, last)
         == match FindFrom(nodes, hashed, i)
            case Missing => last
            case Found(b, next) => Deepest(nodes, hashed, next, b)
  {
  }

  lemma VisitedIs(h: Heap, hash: Hash, key: nat)
    ensures PathFrom(h.nodes, hash(key), 0, 9) == VisitedPath(h, hash, key)
  {
  }

  predicate Joins(a: seq<nat>, b: seq<nat>, all: seq<nat>) {
    a + b == all
  }

  lemma JoinsStart(all: seq<nat>)
    ensures Joins([], all, all)
  {
  }

  lemma JoinsStep(a: seq<nat>, b: nat, c: seq<nat>, all: seq<nat>)
    requires Joins(a, [b] + c, all)
    ensures Joins(a + [b], c, all)
  {
    assert a + ([b] + c) == (a + [b]) + c;
  }

  lemma JoinsEnd(a: seq<nat>, all: seq<nat>)
    requires Joins(a, [], all)
    ensures a == all
  {
  }
}
