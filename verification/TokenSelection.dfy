/** Keeping some positions of a token sequence, in order. */
module TokenSelection {
  import opened Common

  /** The kept positions below n, in increasing order. */
  function Positions(n: nat, keep: set<nat>): (ps: seq<nat>) {
    if n == 0 then []
    else if n - 1 in keep then Positions(n - 1, keep) + [n - 1]
    else Positions(n - 1, keep)
  }

  function Pick<T>(s: seq<T>, ps: seq<nat>): (r: seq<T>)
    requires forall j :: 0 <= j < |ps| ==> ps[j] < |s|
    ensures |r| == |ps| && forall j :: 0 <= j < |r| ==> r[j] == s[ps[j]]
  {
    seq(|ps|, j requires 0 <= j < |ps| => s[ps[j]])
  }

  /** `ps` names a subsequence of a sequence of length n. */
  predicate Subsequence(ps: seq<nat>, n: nat) {
    && (forall j :: 0 <= j < |ps| ==> ps[j] < n)
    && (forall j, k :: 0 <= j < k < |ps| ==> ps[j] < ps[k])
  }

  /** Exactly the kept positions, each once and in order. */
  lemma {:induction false} PositionsExact(n: nat, keep: set<nat>)
    ensures Subsequence(Positions(n, keep), n)
    ensures forall p: nat :: p in Positions(n, keep) <==> p in keep && p < n
    ensures |Positions(n, keep)| == |keep * Below(n)|
  {
    hide *;
    PositionsMembers(n, keep);
    PositionsSize(n, keep);
  }

  lemma {:induction false} PositionsMembers(n: nat, keep: set<nat>)
    ensures Subsequence(Positions(n, keep), n)
    ensures forall p: nat :: p in Positions(n, keep) <==> p in keep && p < n
  {
    if n > 0 {
      hide Subsequence;
      PositionsMembers(n - 1, keep);
      AppendLast(Positions(n - 1, keep), n - 1);
    }
  }

  lemma AppendLast(ps: seq<nat>, n: nat)
    requires Subsequence(ps, n)
    ensures Subsequence(ps, n + 1) && Subsequence(ps + [n], n + 1)
    ensures forall p: nat :: p in ps + [n] <==> p in ps || p == n
  {
  }

  lemma {:induction false} PositionsSize(n: nat, keep: set<nat>)
    ensures |Positions(n, keep)| == |keep * Below(n)|
  {
    hide Below, Positions;
    if n == 0 {
      NothingBelow(keep);
    } else {
      PositionsSize(n - 1, keep);
      PositionsStep(n, keep);
      BelowStep(n, keep);
    }
  }

  lemma NothingBelow(keep: set<nat>)
    ensures Positions(0, keep) == [] && keep * Below(0) == {}
  {
  }

  lemma PositionsStep(n: nat, keep: set<nat>)
    requires n > 0
    ensures |Positions(n, keep)| == |Positions(n - 1, keep)| + if n - 1 in keep then 1 else 0
  {
  }

  lemma BelowStep(n: nat, keep: set<nat>)
    requires n > 0
    ensures |keep * Below(n)| == |keep * Below(n - 1)| + if n - 1 in keep then 1 else 0
  {
    var before := keep * Below(n - 1);
    assert n - 1 !in before;
    assert keep * Below(n) == if n - 1 in keep then before + {n - 1} else before;
  }

  /** The elements at the kept positions. */
  function Choose<T>(s: seq<T>, keep: set<nat>): (r: seq<T>)
    ensures |r| == |keep * Below(|s|)|
  {
    PositionsExact(|s|, keep);
    Pick(s, Positions(|s|, keep))
  }

  /** When the first position is kept it comes first. */
  lemma FirstKept(n: nat, keep: set<nat>)
    requires 0 < n && 0 in keep
    ensures Positions(n, keep) != [] && Positions(n, keep)[0] == 0
  {
    PositionsExact(n, keep);
    var ps := Positions(n, keep);
    assert 0 in ps;
    assert forall j :: 0 < j < |ps| ==> ps[0] < ps[j];
  }

  /** A selection out of a selection is a selection. */
  lemma PickOfPick<T>(s: seq<T>, ps: seq<nat>, qs: seq<nat>)
    requires Subsequence(ps, |s|) && Subsequence(qs, |ps|)
    ensures Subsequence(Pick(ps, qs), |s|) && Pick(Pick(s, ps), qs) == Pick(s, Pick(ps, qs))
  {
  }

  lemma ChooseAll<T>(s: seq<T>)
    ensures Choose(s, Below(|s|)) == s
  {
    PositionsOfAll(|s|, |s|);
  }

  lemma {:induction false} PositionsOfAll(n: nat, m: nat)
    requires n <= m
    ensures |Positions(n, Below(m))| == n && forall j :: 0 <= j < n ==> Positions(n, Below(m))[j] == j
  {
    if n > 0 {
      PositionsOfAll(n - 1, m);
    }
  }
}
