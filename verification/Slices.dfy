/** Where a text or a piece of code stands inside a longer one. */
module Slices {
  /** The elements of x stand at position p. */
  predicate HasAt<T(==)>(s: seq<T>, p: nat, x: seq<T>) {
    p + |x| <= |s| && s[p..p + |x|] == x
  }

  lemma HasParts<T>(s: seq<T>, p: nat, x: seq<T>, y: seq<T>)
    requires HasAt(s, p, x + y)
    ensures HasAt(s, p, x) && HasAt(s, p + |x|, y)
  {
    assert (x + y)[..|x|] == x && (x + y)[|x|..] == y;
    var t := s[p..p + |x + y|];
    assert s[p..p + |x|] == t[..|x|];
    assert s[p + |x|..p + |x| + |y|] == t[|x|..];
  }

  lemma HasFirst<T>(s: seq<T>, p: nat, x: seq<T>)
    requires HasAt(s, p, x) && x != []
    ensures p < |s| && s[p] == x[0]
  {
    assert s[p] == s[p..p + |x|][0];
  }

  lemma HasTwo<T>(s: seq<T>, p: nat, x: seq<T>)
    requires HasAt(s, p, x) && |x| == 2
    ensures p + 1 < |s| && s[p] == x[0] && s[p + 1] == x[1]
  {
    assert s[p] == s[p..p + 2][0] && s[p + 1] == s[p..p + 2][1];
  }

  lemma Regroup<T>(x: seq<T>, y: seq<T>, z: seq<T>)
    ensures x + y + z == x + (y + z)
  {
  }

  lemma SliceOfSlice<T>(s: seq<T>, a: nat, b: nat, i: nat, j: nat)
    requires a <= b <= |s| && i <= j <= b - a
    ensures s[a..b][i..j] == s[a + i..a + j]
  {
    var t := s[a..b];
    forall k | 0 <= k < j - i
      ensures t[i..j][k] == s[a + i..a + j][k]
    {
      assert t[i + k] == s[a + i + k];
    }
  }
}
