// Sizes of finite sets, and sequences as sets.
module Sets {
  ghost function Members<T>(s: seq<T>): set<T> { set x | x in s }

  lemma UnionSize<T>(a: set<T>, b: set<T>)
    requires a !! b
    ensures |a + b| == |a| + |b|
  {
  }

  lemma SubsetSize<T>(a: set<T>, b: set<T>)
    requires a <= b
    ensures |a| <= |b| && (a != b ==> |a| < |b|)
  {
    assert b == a + (b - a);
    UnionSize(a, b - a);
  }

  lemma AtLeastTwo<T>(s: set<T>, x: T, y: T)
    requires x in s && y in s && x != y
    ensures |s| >= 2
  {
    SubsetSize({x, y}, s);
  }

  lemma {:induction false} DistinctMembers<T>(s: seq<T>)
    requires forall i, j :: 0 <= i < j < |s| ==> s[i] != s[j]
    ensures |Members(s)| == |s|
  {
    if s != [] {
      var n := |s| - 1;
      DistinctMembers(s[..n]);
      assert Members(s) == Members(s[..n]) + {s[n]};
    }
  }

  function RemoveAt<T>(s: seq<T>, j: int): seq<T>
    requires 0 <= j < |s|
  {
    s[..j] + s[j + 1..]
  }
}
