/** What several components share: optional values, error codes and finite sets of numbers. */
module Common {

  datatype Option<+T> = None | Some(value: T)

  datatype ErrorCode = Ok | InvalidArgument | NotFound | NotImplemented | Unavailable | InternalError

  function Below(n: nat): (s: set<nat>)
    ensures |s| == n && forall p: nat :: p in s <==> p < n
  {
    if n == 0 then {} else Below(n - 1) + {n - 1}
  }

  /** The elements of a duplicate-free sequence. */
  lemma {:induction false} DistinctSize(s: seq<nat>, elements: set<nat>)
    requires forall j, k :: 0 <= j < k < |s| ==> s[j] != s[k]
    requires forall p: nat :: p in elements <==> p in s
    ensures |elements| == |s|
  {
    if s == [] {
      assert elements == {};
    } else {
      var front, last := s[..|s| - 1], s[|s| - 1];
      assert s == front + [last];
      assert last !in front;
      DistinctSize(front, elements - {last});
    }
  }

  lemma SubsetSize(a: set<nat>, b: set<nat>)
    requires a <= b
    ensures |a| <= |b| && (|a| == |b| ==> a == b)
  {
    assert b == a + (b - a);
  }

  lemma UnionSize(a: set<nat>, b: set<nat>)
    ensures |a + b| <= |a| + |b|
  {
    assert a + b == a + (b - a);
    SubsetSize(b - a, b);
  }
}
