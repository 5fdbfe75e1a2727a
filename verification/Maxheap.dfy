/**
 The max-heap index (cc2530/contiki_os/apps/antelope/index-maxheap.c): a binary tree of hashed key
 ranges stored in an array, each node with a bucket of (key, value) pairs.
*/
module Maxheap {
  import opened Numbers

  const NODE_LIMIT := 511
  const BUCKET_SIZE := 128
  const KEY_MAX := 65535

  datatype HeapNode = HeapNode(min: nat, max: nat) {
    predicate Empty() {
      min == 0 && max == 0
    }

    predicate Contains(lo: nat, hi: nat) {
      min <= lo && hi <= max
    }
  }

  const EMPTY_NODE := HeapNode(0, 0)

  datatype Pair = Pair(key: nat, value: nat)

  // ---------------------------------------------------------------- the range of a node index

  function Parent(i: nat): nat
    requires i > 0
  {
    (i - 1) / 2
  }

  function Middle(n: HeapNode): nat
    requires n.min <= n.max
  {
    n.min + (n.max - n.min) / 2
  }

  /** The range that a bucket split assigns to index i. */
  function Range(i: nat): (r: HeapNode)
    ensures r.min <= r.max
  {
    if i == 0 then HeapNode(0, KEY_MAX)
    else
      var p := Range(Parent(i));
      if i % 2 == 1 then HeapNode(p.min, Middle(p))
      else if Middle(p) < p.max then HeapNode(Middle(p) + 1, p.max) else HeapNode(p.max, p.max)
  }

  lemma RangeStep(i: nat)
    requires i > 0 && Middle(Range(Parent(i))) < Range(Parent(i)).max
    ensures Range(i) == if i % 2 == 1 then HeapNode(Range(Parent(i)).min, Middle(Range(Parent(i))))
                        else HeapNode(Middle(Range(Parent(i))) + 1, Range(Parent(i)).max)
  {
  }

  /** The arithmetic of halving the h-th part of width 2w. */
  lemma Halving(h: nat, w: nat)
    requires w >= 1
    ensures h * (2 * w) == 2 * (h * w) && (h + 1) * (2 * w) == 2 * (h * w) + 2 * w
    ensures (2 * h) * w == 2 * (h * w) && (2 * h + 1) * w == 2 * (h * w) + w && (2 * h + 2) * w == 2 * (h * w) + 2 * w
    ensures Middle(HeapNode(h * (2 * w), (h + 1) * (2 * w) - 1)) == 2 * (h * w) + w - 1
  {
    assert (h + 1) * (2 * w) == h * (2 * w) + 2 * w;
  }

  /** Node 2^k - 1 + j covers the j-th of 2^k equal parts of the key space. */
  lemma {:induction false} RangeClosed(k: nat, j: nat)
    requires k <= 16 && j < Pow2(k)
    ensures Range(Pow2(k) - 1 + j) == HeapNode(j * Pow2(16 - k), (j + 1) * Pow2(16 - k) - 1)
    decreases k
  {
    hide Range, Middle, Pow2;
    if k == 0 {
      RootRange(j);
    } else {
      var i, w, h := Pow2(k) - 1 + j, Pow2(16 - k), j / 2;
      Indices(k, j);
      RangeClosed(k - 1, h);
      WidthDoubles(16 - k);
      Halving(h, w);
      RangeStep(i);
    }
  }

  lemma RootRange(j: nat)
    requires j < Pow2(0)
    ensures Range(Pow2(0) - 1 + j) == HeapNode(j * Pow2(16), (j + 1) * Pow2(16) - 1)
  {
    LevelWidths();
  }

  lemma WidthDoubles(k: nat)
    ensures Pow2(k + 1) == 2 * Pow2(k)
  {
  }

  lemma Indices(k: nat, j: nat)
    requires k >= 1 && j < Pow2(k)
    ensures Pow2(k) - 1 + j > 0 && Parent(Pow2(k) - 1 + j) == Pow2(k - 1) - 1 + j / 2
    ensures if (Pow2(k) - 1 + j) % 2 == 1 then j == 2 * (j / 2) else j == 2 * (j / 2) + 1
    ensures j / 2 < Pow2(k - 1)
  {
  }

  /** Within the heap the halves are proper, disjoint and far from looking empty. */
  lemma ChildRanges(i: nat)
    requires 2 * i + 2 < NODE_LIMIT
    ensures Range(2 * i + 1) == HeapNode(Range(i).min, Middle(Range(i)))
    ensures Range(2 * i + 2) == HeapNode(Middle(Range(i)) + 1, Range(i).max)
    ensures Middle(Range(i)) < Range(i).max
  {
    RangeWidth(i);
    assert Parent(2 * i + 1) == i && Parent(2 * i + 2) == i;
  }

  lemma {:induction false} RangeWidth(i: nat)
    requires i < NODE_LIMIT
    ensures Range(i).max <= KEY_MAX
    ensures Range(i).max - Range(i).min >= 255
    ensures i < 255 ==> Range(i).max - Range(i).min >= 511
    ensures !Range(i).Empty()
  {
    var k, j := Level(i);
    RangeClosed(k, j);
    WidthAt(k);
    RangeInside(i);
    assert (j + 1) * Pow2(16 - k) == j * Pow2(16 - k) + Pow2(16 - k) by { hide Pow2; }
  }

  lemma WidthAt(k: nat)
    requires k <= 8
    ensures Pow2(16 - k) >= 256 && (k <= 7 ==> Pow2(16 - k) >= 512)
  {
    LevelWidths();
    assert k == 0 || k == 1 || k == 2 || k == 3 || k == 4 || k == 5 || k == 6 || k == 7 || k == 8;
  }

  lemma {:induction false} RangeInside(i: nat)
    ensures Range(i).max <= KEY_MAX
  {
    if i > 0 {
      RangeInside(Parent(i));
    }
  }

  lemma LevelWidths()
    ensures Pow2(1) == 2 && Pow2(2) == 4 && Pow2(3) == 8 && Pow2(4) == 16 && Pow2(5) == 32 && Pow2(6) == 64
    ensures Pow2(7) == 128 && Pow2(8) == 256 && Pow2(9) == 512 && Pow2(10) == 1024 && Pow2(11) == 2048
    ensures Pow2(12) == 4096 && Pow2(13) == 8192 && Pow2(14) == 16384 && Pow2(15) == 32768 && Pow2(16) == 65536
  {
  }

  lemma Level(i: nat) returns (k: nat, j: nat)
    requires i < NODE_LIMIT
    ensures k <= 8 && j < Pow2(k) && i == Pow2(k) - 1 + j
    ensures i < 255 ==> k <= 7
  {
    LevelWidths();
    k := if i < 1 then 0 else if i < 3 then 1 else if i < 7 then 2 else if i < 15 then 3 else if i < 31 then 4
         else if i < 63 then 5 else if i < 127 then 6 else if i < 255 then 7 else 8;
    j := i + 1 - Pow2(k);
  }
}
