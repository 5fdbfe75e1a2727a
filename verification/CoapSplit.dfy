/**
 Splitting a path or query into options and merging the options back:
 exactly which strings survive.
*/
module CoapSplit {
  import opened Bytes
  import opened CoapPacket
  import opened CoapWire

  /** From index j on, every separator the splitter meets is followed by a byte that is kept. */
  predicate CutsKept(v: seq<byte>, sep: byte, j: nat)
    decreases |v| - j
  {
    if j >= |v| then true
    else if v[j] == sep then j + 1 < |v| && v[j + 1] != SLASH && CutsKept(v, sep, j + 2)
    else CutsKept(v, sep, j + 1)
  }

  /** No leading separator, and no separator in front of the end or of a '/'. */
  predicate Splittable(v: seq<byte>, sep: byte) {
    (v != [] ==> v[0] != sep) && CutsKept(v, sep, 0)
  }

  /** For paths the condition is the familiar one: no leading, trailing or doubled '/'. */
  lemma SplittablePath(v: seq<byte>)
    ensures Splittable(v, SLASH) <==>
            forall i :: 0 <= i < |v| && v[i] == SLASH ==> 0 < i && i + 1 < |v| && v[i + 1] != SLASH
  {
    CutsKeptPath(v, 0);
    if v != [] && v[0] == SLASH {
      assert !(0 < 0);
    }
  }

  lemma {:induction false} CutsKeptPath(v: seq<byte>, j: nat)
    ensures CutsKept(v, SLASH, j) <==>
            forall i :: j <= i < |v| && v[i] == SLASH ==> i + 1 < |v| && v[i + 1] != SLASH
    decreases |v| - j
  {
    if j < |v| {
      if v[j] == SLASH {
        if j + 1 < |v| && v[j + 1] != SLASH {
          CutsKeptPath(v, j + 2);
        }
      } else {
        CutsKeptPath(v, j + 1);
      }
    }
  }

  lemma SplitStep(v: seq<byte>, sep: byte, start: nat, j: nat)
    requires start <= j <= |v|
    ensures j < |v| && v[j] != sep ==> SplitFrom(v, sep, start, j) == SplitFrom(v, sep, start, j + 1)
    ensures j == |v| ==> SplitFrom(v, sep, start, j) == [v[start..]]
    ensures j < |v| && v[j] == sep ==>
              var next := SkipSlashes(v, j + 1);
              SplitFrom(v, sep, start, j) == [v[start..j]] + SplitFrom(v, sep, next, next + 1)
  {
    if j == |v| {
      var next := SkipSlashes(v, j + 1);
      assert SplitFrom(v, sep, next, next + 1) == [];
      assert v[start..j] == v[start..];
    }
  }

  /** Merging the remaining parts onto a nonempty prefix gives back the string. */
  lemma {:induction false} MergeRestores(v: seq<byte>, sep: byte, start: nat, j: nat)
    requires 2 <= start <= j <= |v| && v[start - 1] == sep
    requires CutsKept(v, sep, j)
    ensures MergeAll(v[..start - 1], SplitFrom(v, sep, start, j), sep) == v
    decreases |v| - j
  {
    SplitStep(v, sep, start, j);
    assert v[..start - 1] + [sep] == v[..start];
    if j == |v| {
      assert v[..start] + v[start..] == v;
      assert MergeAll(v[..start - 1], [v[start..]], sep) == Merge(v[..start - 1], v[start..], sep);
    } else if v[j] == sep {
      assert v[..start] + v[start..j] == v[..j];
      MergeRestores(v, sep, j + 1, j + 2);
    } else {
      MergeRestores(v, sep, start, j + 1);
    }
  }

  lemma NoSplit(v: seq<byte>, sep: byte, start: nat, j: nat)
    requires start <= j && j > |v|
    ensures SplitFrom(v, sep, start, j) == []
  {
  }

  /** The merged length never exceeds what was split, and falls short as soon as one cut is not kept. */
  lemma {:induction false} MergeLength(dst: seq<byte>, v: seq<byte>, sep: byte, start: nat, j: nat)
    requires start <= j <= |v| + 1
    requires start == j ==> start == 0 || start == |v|
    ensures |MergeAll(dst, SplitFrom(v, sep, start, j), sep)| <= |dst| + if start <= |v| then 1 + |v| - start else 0
    ensures dst == [] && start <= |v| ==> |MergeAll(dst, SplitFrom(v, sep, start, j), sep)| <= |v| - start
    ensures j <= |v| && !CutsKept(v, sep, j) ==>
              |MergeAll(dst, SplitFrom(v, sep, start, j), sep)|
              < |dst| + if dst == [] then |v| - start else 1 + |v| - start
    decreases |v| + 1 - j
  {
    hide SplitFrom;
    if j > |v| {
      NoSplit(v, sep, start, j);
    } else {
      SplitStep(v, sep, start, j);
      if j == |v| {
        assert MergeAll(dst, [v[start..]], sep) == Merge(dst, v[start..], sep);
      } else if v[j] == sep {
        var next := SkipSlashes(v, j + 1);
        MergeLength(Merge(dst, v[start..j], sep), v, sep, next, next + 1);
        if next >= |v| {
          NoSplit(v, sep, next, next + 1);
        }
      } else {
        MergeLength(dst, v, sep, start, j + 1);
      }
    }
  }

  /** Split-then-merge is the identity on exactly the splittable strings. */
  lemma SplitMergeExact(v: seq<byte>, sep: byte)
    ensures MergeAll([], Split(v, sep), sep) == v <==> Splittable(v, sep)
    ensures |MergeAll([], Split(v, sep), sep)| <= |v|
  {
    MergeLength([], v, sep, 0, 0);
    if v != [] && v[0] == sep {
      SplitStep(v, sep, 0, 0);
      var next := SkipSlashes(v, 1);
      MergeLength([], v, sep, next, next + 1);
      assert Split(v, sep) == [v[0..0]] + SplitFrom(v, sep, next, next + 1);
    } else if CutsKept(v, sep, 0) {
      FirstPart(v, sep, 0);
    }
  }

  lemma {:induction false} FirstPart(v: seq<byte>, sep: byte, j: nat)
    requires j <= |v| && CutsKept(v, sep, j)
    requires v != [] ==> v[0] != sep
    ensures MergeAll([], SplitFrom(v, sep, 0, j), sep) == v
    decreases |v| - j
  {
    SplitStep(v, sep, 0, j);
    if j == |v| {
      assert v[0..] == v;
      assert MergeAll([], [v], sep) == v;
    } else if v[j] == sep {
      assert v[0..j] == v[..j];
      MergeRestores(v, sep, j + 1, j + 2);
    } else {
      FirstPart(v, sep, j + 1);
    }
  }

  /** Only the first part can be empty, so the parser keeps every later one. */
  lemma {:induction false} LaterPartsNonempty(v: seq<byte>, sep: byte, start: nat, j: nat)
    requires start < j
    ensures forall i :: 0 <= i < |SplitFrom(v, sep, start, j)| ==> SplitFrom(v, sep, start, j)[i] != []
    decreases |v| + 1 - j
  {
    if j <= |v| {
      var next := SkipSlashes(v, j + 1);
      if j == |v| || v[j] == sep {
        LaterPartsNonempty(v, sep, next, next + 1);
      } else {
        LaterPartsNonempty(v, sep, start, j + 1);
      }
    }
  }

  lemma {:induction false} SplitHead(v: seq<byte>, sep: byte, j: nat)
    requires j <= |v|
    ensures SplitFrom(v, sep, 0, j) != []
    ensures forall i :: 1 <= i < |SplitFrom(v, sep, 0, j)| ==> SplitFrom(v, sep, 0, j)[i] != []
    decreases |v| - j
  {
    if j == |v| || v[j] == sep {
      var next := SkipSlashes(v, j + 1);
      LaterPartsNonempty(v, sep, next, next + 1);
    } else {
      SplitHead(v, sep, j + 1);
    }
  }
}
