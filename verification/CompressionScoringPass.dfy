/** Prompt compression: similarity merging (ToMe), then importance pruning (Presis). Scores and
    similarities are real-valued functions of whatever the caches hold. */
module Compression {
  import opened Common
  import opened TokenSelection

  type Token = int

  // ---- ToMe: the reference ----

  type Similarity = (nat, nat) -> real

  /** The most similar odd position not yet removed, from b on; ties go to the lower position.
      `best` is the best so far, -1 for none. */
  function BestMatch(sim: Similarity, a: nat, removed: set<nat>, n: nat, b: nat, best: int): int
    decreases n - b
  {
    if b >= n then best
    else if b in removed then BestMatch(sim, a, removed, n, b + 2, best)
    else BestMatch(sim, a, removed, n, b + 2,
                   if sim(a, b) > (if best < 0 then -2.0 else sim(a, best)) then b else best)
  }

  /** Which even position, from a on, took which odd one. */
  function Matching(sim: Similarity, r: int, n: nat, a: nat, removed: set<nat>): (matching: map<nat, nat>)
    ensures forall e :: e in matching ==> a <= e
    decreases n - a
  {
    if a + 1 >= n || |removed| >= r then map[]
    else
      var b := BestMatch(sim, a, removed, n, 1, -1);
      if b >= 0 && sim(a, b) > 0.0 then Matching(sim, r, n, a + 2, removed + {b})[a := b]
      else Matching(sim, r, n, a + 2, removed)
  }

  /** The positions merged away, for the even positions from a on. */
  function Merged(sim: Similarity, r: int, n: nat, a: nat, removed: set<nat>): set<nat> {
    removed + Matching(sim, r, n, a, removed).Values
  }

  predicate OddBelow(removed: set<nat>, n: nat) {
    forall b :: b in removed ==> b < n && b % 2 == 1
  }

  predicate Candidate(b: int, removed: set<nat>, n: nat) {
    0 <= b < n && b % 2 == 1 && b !in removed
  }

  /** BestMatch finds a candidate that no other candidate beats; -1 only when none exceeds -2. */
  lemma {:induction false} BestMatchIsBest(sim: Similarity, a: nat, removed: set<nat>, n: nat, b: nat, best: int)
    requires b % 2 == 1 && (best == -1 || (Candidate(best, removed, n) && sim(a, best) > -2.0))
    ensures var m := BestMatch(sim, a, removed, n, b, best);
      && (m == -1 || (Candidate(m, removed, n) && sim(a, m) > -2.0))
      && (best >= 0 ==> m >= 0 && sim(a, m) >= sim(a, best))
      && (forall c: nat :: b <= c && Candidate(c, removed, n) ==>
            if m == -1 then sim(a, c) <= -2.0 else sim(a, c) <= sim(a, m))
      && (m == best || (b <= m && (best >= 0 ==> sim(a, m) > sim(a, best))))
      && (forall c: nat :: b <= c < m && Candidate(c, removed, n) && m != best ==> sim(a, c) < sim(a, m))
    decreases n - b
  {
    if b < n {
      var next := if b in removed then best
                  else if sim(a, b) > (if best < 0 then -2.0 else sim(a, best)) then b else best;
      BestMatchIsBest(sim, a, removed, n, b + 2, next);
      var m := BestMatch(sim, a, removed, n, b, best);
      assert m == BestMatch(sim, a, removed, n, b + 2, next);
      forall c: nat | b <= c && Candidate(c, removed, n)
        ensures if m == -1 then sim(a, c) <= -2.0 else sim(a, c) <= sim(a, m)
      {
        assert c == b || b + 2 <= c;
      }
    }
  }

  /** One round of merging. */
  lemma MergedStep(sim: Similarity, r: int, n: nat, a: nat, removed: set<nat>)
    requires a + 1 < n && |removed| < r
    ensures var b := BestMatch(sim, a, removed, n, 1, -1);
      Merged(sim, r, n, a, removed) ==
      if b >= 0 && sim(a, b) > 0.0 then Merged(sim, r, n, a + 2, removed + {b}) else Merged(sim, r, n, a + 2, removed)
  {
    var b := BestMatch(sim, a, removed, n, 1, -1);
    if b >= 0 && sim(a, b) > 0.0 {
      var rest := Matching(sim, r, n, a + 2, removed + {b});
      assert rest[a := b][a] == b;
      assert forall v :: v in rest.Values ==> v in rest[a := b].Values by {
        forall v | v in rest.Values ensures v in rest[a := b].Values {
          var e :| e in rest && rest[e] == v;
          assert rest[a := b][e] == v;
        }
      }
    }
  }

  /** At most r positions go, at most one for each even position, all of them odd: so the first
      position never goes. */
  lemma {:induction false} MergedBounds(sim: Similarity, r: int, n: nat, a: nat, removed: set<nat>)
    requires OddBelow(removed, n) && (|removed| <= r || removed == {})
    ensures var m := Merged(sim, r, n, a, removed);
      OddBelow(m, n) && (|m| <= r || m == {}) && 2 * |m| <= 2 * |removed| + (if a < n then n - a else 0)
    decreases n - a
  {
    hide BestMatch, Merged;
    if a + 1 >= n || |removed| >= r {
      MergedEnds(sim, r, n, a, removed);
    } else {
      var b := BestMatch(sim, a, removed, n, 1, -1);
      MergeRound(sim, r, n, a, removed, b);
      if b >= 0 && sim(a, b) > 0.0 {
        var next: set<nat> := removed + {b};
        assert OddBelow(next, n);
        MergedBounds(sim, r, n, a + 2, next);
      } else {
        MergedBounds(sim, r, n, a + 2, removed);
      }
    }
  }

  /** e took b: positively similar, and no less similar than anything that was left in the end. */
  ghost predicate GoodMatch(sim: Similarity, n: nat, left: set<nat>, e: nat, b: nat) {
    && e % 2 == 0 && e + 1 < n && sim(e, b) > 0.0
    && forall c :: c in left ==> sim(e, c) <= sim(e, b)
  }

  /** The positions that survive merging and could have been merged. */
  function Left(n: nat, merged: set<nat>): (left: set<nat>)
    ensures forall c: nat :: c in left <==> Candidate(c, merged, n)
  {
    set c | c in Below(n) && Candidate(c, merged, n)
  }

  ghost predicate Greedy(sim: Similarity, r: int, n: nat, a: nat, removed: set<nat>,
                         matching: map<nat, nat>, merged: set<nat>) {
    && (forall e :: e in matching ==> matching[e] !in removed && GoodMatch(sim, n, Left(n, merged), e, matching[e]))
    && (forall e, f :: e in matching && f in matching && e != f ==> matching[e] != matching[f])
    && (|merged| < r ==> forall e: nat, c :: Unmatched(n, a, matching, e) && c in Left(n, merged) ==> sim(e, c) <= 0.0)
  }

  predicate Unmatched(n: nat, a: nat, matching: map<nat, nat>, e: nat) {
    a <= e && e + 1 < n && e % 2 == 0 && e !in matching
  }

  /** The matching is greedy and complete: nothing is taken twice, every match is a good one, and
      while fewer than r went, an even position without a match is similar to nothing left. */
  lemma {:induction false} MatchingIsGreedy(sim: Similarity, r: int, n: nat, a: nat, removed: set<nat>)
    requires a % 2 == 0 && OddBelow(removed, n)
    ensures Greedy(sim, r, n, a, removed, Matching(sim, r, n, a, removed), Merged(sim, r, n, a, removed))
    decreases n - a
  {
    hide Greedy, BestMatch, Left, Merged;
    var m := Merged(sim, r, n, a, removed);
    var matching := Matching(sim, r, n, a, removed);
    if a + 1 >= n || |removed| >= r {
      NoMoreMatches(sim, r, n, a, removed);
    } else {
      BestMatchIsBest(sim, a, removed, n, 1, -1);
      MergedStep(sim, r, n, a, removed);
      MergedGrows(sim, r, n, a, removed);
      var b := BestMatch(sim, a, removed, n, 1, -1);
      if b >= 0 && sim(a, b) > 0.0 {
        MatchingIsGreedy(sim, r, n, a + 2, removed + {b});
        MergedGrows(sim, r, n, a + 2, removed + {b});
        OneMoreMatch(sim, r, n, a, removed, b, Matching(sim, r, n, a + 2, removed + {b}), m);
      } else {
        MatchingIsGreedy(sim, r, n, a + 2, removed);
        OneWithoutMatch(sim, r, n, a, removed, matching, m);
      }
    }
  }

  lemma MergedGrows(sim: Similarity, r: int, n: nat, a: nat, removed: set<nat>)
    ensures removed <= Merged(sim, r, n, a, removed)
  {
  }

  lemma NoMoreMatches(sim: Similarity, r: int, n: nat, a: nat, removed: set<nat>)
    requires a + 1 >= n || |removed| >= r
    ensures Greedy(sim, r, n, a, removed, Matching(sim, r, n, a, removed), Merged(sim, r, n, a, removed))
  {
    assert Matching(sim, r, n, a, removed) == map[];
    assert Merged(sim, r, n, a, removed) == removed;
  }

  lemma OneMoreMatch(sim: Similarity, r: int, n: nat, a: nat, removed: set<nat>, b: nat,
                     rest: map<nat, nat>, m: set<nat>)
    requires a % 2 == 0 && a + 1 < n && b !in removed && removed + {b} <= m && sim(a, b) > 0.0
    requires forall c: nat :: Candidate(c, removed, n) ==> sim(a, c) <= sim(a, b)
    requires (forall e :: e in rest ==> a + 2 <= e) && Greedy(sim, r, n, a + 2, removed + {b}, rest, m)
    ensures Greedy(sim, r, n, a, removed, rest[a := b], m)
  {
    var matching := rest[a := b];
    assert forall c: nat :: Candidate(c, m, n) ==> Candidate(c, removed, n);
    assert GoodMatch(sim, n, Left(n, m), a, b);
    assert forall e: nat :: Unmatched(n, a, matching, e) ==> Unmatched(n, a + 2, rest, e);
  }

  lemma OneWithoutMatch(sim: Similarity, r: int, n: nat, a: nat, removed: set<nat>, rest: map<nat, nat>, m: set<nat>)
    requires a % 2 == 0 && a + 1 < n && removed <= m
    requires forall c: nat :: Candidate(c, removed, n) ==> sim(a, c) <= 0.0
    requires Greedy(sim, r, n, a + 2, removed, rest, m)
    ensures Greedy(sim, r, n, a, removed, rest, m)
  {
    assert forall c: nat :: Candidate(c, m, n) ==> Candidate(c, removed, n);
    assert forall e: nat :: Unmatched(n, a, rest, e) && e != a ==> Unmatched(n, a + 2, rest, e);
  }

  /** The last position can be merged away exactly when there are an even number of positions and
      something may be merged: whether the last token survives compression is up to the
      similarities, not guaranteed. */
  lemma LastSurvivesIff(r: int, n: nat)
    requires n > 0
    ensures (forall sim: Similarity :: n - 1 !in Merged(sim, r, n, 0, {})) <==> n % 2 == 1 || r <= 0
  {
    hide Merged;
    if n % 2 == 1 || r <= 0 {
      forall sim: Similarity ensures n - 1 !in Merged(sim, r, n, 0, {}) {
        MergedBounds(sim, r, n, 0, {});
      }
    } else {
      LastCanGo((a, b) => if b == n - 1 then 1.0 else 0.0, r, n);
    }
  }

  lemma LastCanGo(sim: Similarity, r: int, n: nat)
    requires n > 0 && n % 2 == 0 && r > 0
    requires forall a, b :: sim(a, b) == if b == n - 1 then 1.0 else 0.0
    ensures n - 1 in Merged(sim, r, n, 0, {})
  {
    hide Merged, BestMatch;
    BestMatchIsBest(sim, 0, {}, n, 1, -1);
    assert Candidate(n - 1, {}, n);
    var m := BestMatch(sim, 0, {}, n, 1, -1);
    assert sim(0, n - 1) == 1.0;
    assert m >= 0 && sim(0, m) == 1.0;
    MergedStep(sim, r, n, 0, {});
    MergedGrows(sim, r, n, 2, {} + {m});
  }

  // ---- Presis: the reference ----

  /** The k positions kept for their scores: nothing left out scores higher. Which of several
      equally scored positions are taken is open. */
  ghost predicate TopScored(scores: seq<real>, chosen: set<nat>, k: nat) {
    && |chosen| == k && chosen <= Below(|scores|)
    && forall c, p: nat :: c in chosen && p < |scores| && p !in chosen ==> scores[c] >= scores[p]
  }

  const TAIL: nat := 8

  /** The chosen positions, the first one, and the last eight. */
  function Kept(n: nat, chosen: set<nat>): (kept: set<nat>)
    ensures forall p: nat :: p in kept <==> p < n && (p in chosen || p == 0 || p + TAIL >= n)
  {
    set p | p in Below(n) && (p in chosen || p == 0 || p + TAIL >= n)
  }

  /** At least the chosen number survive, and at most nine more; no more exactly when the first
      and the last eight were chosen anyway. */
  lemma KeptSize(n: nat, chosen: set<nat>)
    requires chosen <= Below(n)
    ensures |chosen| <= |Kept(n, chosen)| <= |chosen| + TAIL + 1 && |Kept(n, chosen)| <= n
    ensures |Kept(n, chosen)| == |chosen| <==>
      forall p: nat :: p < n && (p == 0 || p + TAIL >= n) ==> p in chosen
  {
    var kept := Kept(n, chosen);
    SubsetSize(chosen, kept);
    SubsetSize(kept, Below(n));
    TailSize(n, chosen);
    if forall p: nat :: p < n && (p == 0 || p + TAIL >= n) ==> p in chosen {
      assert kept == chosen;
    }
  }

  lemma TailSize(n: nat, chosen: set<nat>)
    ensures |Kept(n, chosen)| <= |chosen| + TAIL + 1
  {
    var tail := Last(n, if n >= TAIL then n - TAIL else 0);
    var bound := chosen + {0} + tail;
    assert Kept(n, chosen) <= bound;
    hide Kept;
    UnionSize(chosen, {0});
    UnionSize(chosen + {0}, tail);
    SubsetSize(Kept(n, chosen), bound);
  }

  /** The positions from `from` on. */
  function Last(n: nat, from: nat): (s: set<nat>)
    requires from <= n
    ensures |s| == n - from && forall p: nat :: p in s <==> from <= p < n
  {
    if n == from then {} else Last(n - 1, from) + {n - 1}
  }

  /** Nothing pruned scores above anything that was chosen. */
  lemma PrunedScoreLow(scores: seq<real>, chosen: set<nat>, k: nat, p: nat, c: nat)
    requires TopScored(scores, chosen, k) && p < |scores| && p !in Kept(|scores|, chosen) && c in chosen
    ensures scores[p] <= scores[c]
  {
  }

  // ---- the pass ----

  /** std::partial_sort of the index array, highest score first. */
  method PartialSort(idx: array<nat>, scores: seq<real>, k: nat)
    requires idx.Length == |scores| && k <= |scores|
    requires forall i :: 0 <= i < idx.Length ==> idx[i] == i
    modifies idx
    ensures forall i :: 0 <= i < idx.Length ==> idx[i] < |scores|
    ensures forall i, j :: 0 <= i < j < idx.Length ==> idx[i] != idx[j]
    ensures forall i, j :: 0 <= i < j < idx.Length && i < k ==> scores[idx[i]] >= scores[idx[j]]
  {
    for i := 0 to k
      invariant forall p :: 0 <= p < idx.Length ==> idx[p] < |scores|
      invariant forall p, q :: 0 <= p < q < idx.Length ==> idx[p] != idx[q]
      invariant forall p, q :: 0 <= p < q < idx.Length && p < i ==> scores[idx[p]] >= scores[idx[q]]
    {
      var best := i;
      for j := i + 1 to idx.Length
        invariant i <= best < idx.Length
        invariant forall q :: i <= q < j ==> scores[idx[best]] >= scores[idx[q]]
      {
        if scores[idx[j]] > scores[idx[best]] {
          best := j;
        }
      }
      idx[i], idx[best] := idx[best], idx[i];
    }
  }

  ghost predicate IndicesOf(idx: seq<nat>, n: nat) {
    && |idx| == n && (forall i :: 0 <= i < n ==> idx[i] < n)
    && forall i, j :: 0 <= i < j < n ==> idx[i] != idx[j]
  }

  /** A permutation of the indices reaches every position. */
  lemma ReachesEvery(idx: seq<nat>, n: nat, p: nat) returns (j: nat)
    requires IndicesOf(idx, n) && p < n
    ensures j < n && idx[j] == p
  {
    var all := set i | 0 <= i < n :: idx[i];
    DistinctSize(idx, all);
    assert all <= Below(n);
    SubsetSize(all, Below(n));
    assert p in all;
    j :| 0 <= j < n && idx[j] == p;
  }

  /** The first k of the sorted indices are a top-scored set. */
  lemma SortedPrefixIsTop(idx: seq<nat>, scores: seq<real>, k: nat, chosen: set<nat>)
    requires IndicesOf(idx, |scores|) && k <= |scores|
    requires forall i, j :: 0 <= i < j < |idx| && i < k ==> scores[idx[i]] >= scores[idx[j]]
    requires forall p: nat :: p in chosen <==> p in idx[..k]
    ensures TopScored(scores, chosen, k)
  {
    DistinctSize(idx[..k], chosen);
    forall c, p: nat | c in chosen && p < |scores| && p !in chosen ensures scores[c] >= scores[p] {
      var i :| 0 <= i < k && idx[..k][i] == c;
      assert forall q :: 0 <= q < k ==> idx[q] == idx[..k][q];
      var j := ReachesEvery(idx, |scores|, p);
    }
  }

  function Ceil(x: real): int {
    -((-x).Floor)
  }

  class CompressionScoringPass {
    const presisEnabled: bool
    const keepFraction: real
    const maxSeqlenForAttn: int
    const tomeEnabled: bool
    const r: int
    var cachedSeqLen: int
    var haveAttention: bool
    var haveHidden: bool
    /** score_attention on the cached weights, and the cosine of two cached hidden states. */
    var attention: nat -> seq<real>
    var similarity: Similarity
    /** score_tfidf. */
    const tfidf: seq<Token> -> seq<real>

    constructor (presisEnabled: bool, keepFraction: real, maxSeqlenForAttn: int, tomeEnabled: bool, r: int,
                 tfidf: seq<Token> -> seq<real>)
      ensures cachedSeqLen == 0 && !haveAttention && !haveHidden
    {
      this.presisEnabled, this.keepFraction, this.maxSeqlenForAttn := presisEnabled, keepFraction, maxSeqlenForAttn;
      this.tomeEnabled, this.r, this.tfidf := tomeEnabled, r, tfidf;
      cachedSeqLen, haveAttention, haveHidden := 0, false, false;
      attention, similarity := n => [], (a, b) => 0.0;
    }

    /** How many positions scores alone should keep. */
    function KeepN(n: nat): (k: int)
      requires n > 0
      ensures 1 <= k <= n
      ensures 0.0 < keepFraction <= 1.0 ==> n as real * keepFraction <= k as real < n as real * keepFraction + 1.0
      ensures keepFraction <= 0.0 ==> k == 1
      ensures keepFraction > 1.0 ==> k == n
    {
      var want := Ceil(n as real * keepFraction);
      if want < 1 then 1 else if want > n then n else want
    }

    method ApplyPresis(tokens: seq<Token>, scores: seq<real>) returns (result: seq<Token>, ghost chosen: set<nat>)
      ensures tokens == [] || |scores| != |tokens| ==> result == tokens
      ensures tokens != [] && |scores| == |tokens| ==>
        TopScored(scores, chosen, KeepN(|tokens|)) && result == Choose(tokens, Kept(|tokens|, chosen))
    {
      hide TopScored, Choose, KeepN;
      var n := |tokens|;
      chosen := {};
      if n == 0 || |scores| != n {
        return tokens, chosen;
      }
      var keepN := KeepN(n);
      var idx := new nat[n](i => i);
      PartialSort(idx, scores, keepN);
      ghost var sorted := idx[..];
      assert IndicesOf(sorted, n);
      chosen := set i | 0 <= i < keepN :: sorted[i];
      assert forall p: nat :: p in chosen <==> p in sorted[..keepN];
      SortedPrefixIsTop(sorted, scores, keepN, chosen);
      var keep := MarkKept(idx, keepN, chosen);
      result := PickMarked(tokens, keep, Kept(n, chosen));
    }

    /** The keep marks: the chosen positions, the first one and the last eight. */
    method MarkKept(idx: array<nat>, keepN: nat, ghost chosen: set<nat>) returns (keep: array<bool>)
      requires 0 < idx.Length && keepN <= idx.Length && forall i :: 0 <= i < idx.Length ==> idx[i] < idx.Length
      requires forall p: nat :: p in chosen <==> p in idx[..keepN]
      ensures fresh(keep) && keep.Length == idx.Length
      ensures forall p :: 0 <= p < keep.Length ==> (keep[p] <==> p in Kept(keep.Length, chosen))
    {
      hide Kept;
      var n := idx.Length;
      ghost var sorted := idx[..];
      keep := new bool[n](_ => false);
      for i := 0 to keepN
        invariant idx[..] == sorted
        invariant forall p :: 0 <= p < n ==> (keep[p] <==> p in sorted[..i])
      {
        assert idx[i] == sorted[i] && sorted[..i + 1] == sorted[..i] + [sorted[i]];
        keep[idx[i]] := true;
      }
      keep[0] := true;
      for i := (if n > TAIL then n - TAIL else 0) to n
        invariant forall p :: 0 <= p < n ==> (keep[p] <==> p in chosen || p == 0 || (p + TAIL >= n && p < i))
      {
        keep[i] := true;
      }
    }

    /** The surviving tokens, pushed back one by one. */
    method PickMarked(tokens: seq<Token>, keep: array<bool>, ghost kept: set<nat>) returns (result: seq<Token>)
      requires keep.Length == |tokens|
      requires forall p :: 0 <= p < |tokens| ==> (keep[p] <==> p in kept)
      ensures result == Choose(tokens, kept)
    {
      hide Below;
      result := [];
      PositionsMembers(0, kept);
      for i := 0 to |tokens|
        invariant Subsequence(Positions(i, kept), i)
        invariant result == Pick(tokens, Positions(i, kept))
      {
        PositionsMembers(i + 1, kept);
        if keep[i] {
          result := result + [tokens[i]];
        }
      }
    }

    /** How many positions merging looks at. */
    function UseSeq(n: nat): (use: int)
      reads this
      ensures use <= n && use <= cachedSeqLen
    {
      if cachedSeqLen < n then cachedSeqLen else n
    }

    function MergedOf(n: nat): (m: set<nat>)
      reads this
    {
      if r <= 0 || !haveHidden || UseSeq(n) < 2 then {} else Merged(similarity, r, UseSeq(n), 0, {})
    }

    method ApplyTome(tokens: seq<Token>) returns (result: seq<Token>)
      ensures result == Choose(tokens, Below(|tokens|) - MergedOf(|tokens|))
    {
      hide Choose, Merged, Below;
      var seqLen := |tokens|;
      ChooseAll(tokens);
      assert Below(seqLen) - {} == Below(seqLen);
      if r <= 0 || !haveHidden {
        return tokens;
      }
      var useSeq := UseSeq(seqLen);
      if useSeq < 2 {
        return tokens;
      }
      var removed := MergeLoop(useSeq);
      ghost var merged := Merged(similarity, r, useSeq, 0, {});
      MergedBounds(similarity, r, useSeq, 0, {});
      result := PushUnmerged(tokens, removed, merged);
    }

    /** The tokens that were not merged away, pushed back one by one. */
    method PushUnmerged(tokens: seq<Token>, removed: array<bool>, ghost merged: set<nat>) returns (result: seq<Token>)
      requires removed.Length <= |tokens|
      requires forall p: nat :: p < removed.Length ==> (removed[p] <==> p in merged)
      requires forall p :: p in merged ==> p < removed.Length
      ensures result == Choose(tokens, Below(|tokens|) - merged)
    {
      ghost var kept := Below(|tokens|) - merged;
      result := [];
      PositionsMembers(0, kept);
      for i := 0 to |tokens|
        invariant Subsequence(Positions(i, kept), i)
        invariant result == Pick(tokens, Positions(i, kept))
      {
        hide Below;
        PositionsMembers(i + 1, kept);
        assert i in kept <==> i !in merged;
        if !(i < removed.Length && removed[i]) {
          result := result + [tokens[i]];
        }
      }
    }

    /** The greedy loops of apply_tome. */
    method MergeLoop(useSeq: nat) returns (removed: array<bool>)
      ensures fresh(removed) && removed.Length == useSeq
      ensures forall p: nat :: p < useSeq ==> (removed[p] <==> p in Merged(similarity, r, useSeq, 0, {}))
    {
      hide BestMatch, Merged;
      removed := new bool[useSeq](_ => false);
      ghost var gone: set<nat> := {};
      var merges := 0;
      var a: nat := 0;
      while a < useSeq - 1 && merges < r
        invariant merges == |gone|
        invariant forall p: nat :: p < useSeq ==> (removed[p] <==> p in gone)
        invariant Merged(similarity, r, useSeq, a, gone) == Merged(similarity, r, useSeq, 0, {})
        decreases useSeq - a
      {
        var bBest := Closest(a, useSeq, removed, gone);
        MergeRound(similarity, r, useSeq, a, gone, bBest);
        if bBest >= 0 && similarity(a, bBest) > 0.0 {
          removed[bBest] := true;
          gone := gone + {bBest};
          merges := merges + 1;
        }
        a := a + 2;
      }
      MergedEnds(similarity, r, useSeq, a, gone);
    }

    method Closest(a: nat, useSeq: nat, removed: array<bool>, ghost gone: set<nat>) returns (bBest: int)
      requires removed.Length == useSeq && forall p: nat :: p < useSeq ==> (removed[p] <==> p in gone)
      ensures bBest == BestMatch(similarity, a, gone, useSeq, 1, -1)
    {
      bBest := -1;
      var bestSim := -2.0;
      var b: nat := 1;
      while b < useSeq
        invariant bBest >= -1 && bestSim == if bBest < 0 then -2.0 else similarity(a, bBest)
        invariant BestMatch(similarity, a, gone, useSeq, b, bBest) == BestMatch(similarity, a, gone, useSeq, 1, -1)
        decreases useSeq - b
      {
        if !removed[b] {
          var sim := similarity(a, b);
          if sim > bestSim {
            bestSim, bBest := sim, b;
          }
        }
        b := b + 2;
      }
    }

    predicate TomeApplies(seqLen: int)
      reads this
    {
      tomeEnabled && cachedSeqLen > 0 && haveHidden && cachedSeqLen == seqLen
    }

    /** The scores pruning uses: attention when the cache fits and says something, else TF-IDF. */
    function Scores(tokens: seq<Token>, seqLen: int): seq<real>
      reads this
    {
      if haveAttention && cachedSeqLen > 0 && cachedSeqLen == |tokens| && seqLen <= maxSeqlenForAttn
         && exists k :: 0 <= k < |attention(|tokens|)| && attention(|tokens|)[k] > 0.0
      then attention(|tokens|)
      else tfidf(tokens)
    }

    /** The tokens after merging. */
    function Middle(tokens: seq<Token>, seqLen: int): seq<Token>
      reads this
    {
      if TomeApplies(seqLen) then Choose(tokens, Below(|tokens|) - MergedOf(|tokens|)) else tokens
    }

    predicate PresisApplies(middle: seq<Token>, seqLen: int)
      reads this
    {
      presisEnabled && |Scores(middle, seqLen)| == |middle|
    }

    /** What compression does, on the fields of the pass.  Merging happens when the hidden states are
        there and as many as the request's length; pruning keeps the positions that score highest, the
        first one and the last eight.  The scores are the attention scores when the cache is there, is as
        long as what merging has left, the request is not too long and some score is positive, else the
        TF-IDF scores; pruning does nothing when they are not one for each token. */
    ghost predicate CompressedTo(tokens: seq<Token>, seqLen: int, middle: seq<Token>, chosen: set<nat>,
                                 result: seq<Token>)
      reads this
    {
      var n := |middle|;
      var scores :=
        if haveAttention && cachedSeqLen > 0 && cachedSeqLen == n && seqLen <= maxSeqlenForAttn
           && exists k :: 0 <= k < |attention(n)| && attention(n)[k] > 0.0
        then attention(n) else tfidf(middle);
      && middle == (if tomeEnabled && cachedSeqLen > 0 && haveHidden && cachedSeqLen == seqLen
                    then Choose(tokens, Below(|tokens|) - Merged(similarity, r, Smaller(cachedSeqLen, |tokens|), 0, {}))
                    else tokens)
      && if presisEnabled && |scores| == n != 0 then PrunedTo(scores, middle, chosen, KeepN(n), result)
         else result == middle
    }

    /** The k chosen positions score highest; they stay, and so do the first one and the last eight. */
    static ghost predicate PrunedTo(scores: seq<real>, middle: seq<Token>, chosen: set<nat>, k: int,
                                    result: seq<Token>)
      requires |scores| == |middle|
    {
      var n := |middle|;
      && |chosen| == k && (forall p :: p in chosen ==> p < n)
      && (forall c, p: nat :: c in chosen && p < n && p !in chosen ==> scores[c] >= scores[p])
      && result == Choose(middle, set p | p in Below(n) && (p in chosen || p == 0 || p + 8 >= n))
    }

    static function Smaller(a: nat, b: nat): nat {
      if a < b then a else b
    }

    /** compress_tokens: merging, then pruning by score. */
    method CompressTokens(tokens: seq<Token>, seqLen: int)
      returns (result: seq<Token>, ghost chosen: set<nat>, ghost middle: seq<Token>)
      ensures tokens != [] ==> CompressedTo(tokens, seqLen, middle, chosen, result)
      ensures tokens == [] ==> result == []
      ensures tokens != [] ==> var middle := Middle(tokens, seqLen);
        if middle != [] && PresisApplies(middle, seqLen) then
          TopScored(Scores(middle, seqLen), chosen, KeepN(|middle|)) && result == Choose(middle, Kept(|middle|, chosen))
        else result == middle
    {
      hide Choose, TopScored, KeepN, MergedOf, CompressedTo;
      chosen, middle := {}, tokens;
      if tokens == [] {
        return tokens, chosen, middle;
      }
      result := tokens;
      if tomeEnabled && cachedSeqLen > 0 && haveHidden {
        if cachedSeqLen == seqLen {
          result := ApplyTome(result);
        }
      }
      middle := result;
      if presisEnabled {
        var scores := Scores(result, seqLen);
        result, chosen := ApplyPresis(result, scores);
      }
      CompressedOnFields(tokens, seqLen, chosen, result);
    }

    lemma CompressedOnFields(tokens: seq<Token>, seqLen: int, chosen: set<nat>, result: seq<Token>)
      requires tokens != []
      requires var middle := Middle(tokens, seqLen);
        if middle != [] && PresisApplies(middle, seqLen) then
          TopScored(Scores(middle, seqLen), chosen, KeepN(|middle|)) && result == Choose(middle, Kept(|middle|, chosen))
        else result == middle
      ensures CompressedTo(tokens, seqLen, Middle(tokens, seqLen), chosen, result)
    {
      hide Choose, KeepN, Merged, TopScored, Kept, PrunedTo;
      NothingMerged(tokens);
      var middle := Middle(tokens, seqLen);
      if middle != [] && PresisApplies(middle, seqLen) {
        Pruned(Scores(middle, seqLen), middle, chosen, KeepN(|middle|), result);
      }
    }

    static lemma Pruned(scores: seq<real>, middle: seq<Token>, chosen: set<nat>, k: nat, result: seq<Token>)
      requires middle != [] && |scores| == |middle| && TopScored(scores, chosen, k)
      requires result == Choose(middle, Kept(|middle|, chosen))
      ensures PrunedTo(scores, middle, chosen, k, result)
    {
      hide Choose;
      assert Kept(|middle|, chosen) == set p | p in Below(|middle|) && (p in chosen || p == 0 || p + 8 >= |middle|);
    }

    /** Without room for a merge nothing is merged. */
    lemma NothingMerged(tokens: seq<Token>)
      ensures MergedOf(|tokens|) == if haveHidden && cachedSeqLen > 0
        then Merged(similarity, r, Smaller(cachedSeqLen, |tokens|), 0, {}) else {}
    {
      if haveHidden && cachedSeqLen > 0 && (r <= 0 || UseSeq(|tokens|) < 2) {
        MergedEnds(similarity, r, Smaller(cachedSeqLen, |tokens|), 0, {});
      }
      hide Merged;
    }

    /** Whatever the similarities and scores: the result is a subsequence that begins with the first
        token; merging takes at most r positions and at most every second one, and pruning leaves
        between KeepN and KeepN + 9 of what merging left. */
    lemma CompressedShape(tokens: seq<Token>, seqLen: int, chosen: set<nat>, result: seq<Token>)
      requires tokens != []
      requires var middle := Middle(tokens, seqLen);
        if middle != [] && PresisApplies(middle, seqLen) then
          TopScored(Scores(middle, seqLen), chosen, KeepN(|middle|)) && result == Choose(middle, Kept(|middle|, chosen))
        else result == middle
      ensures exists ps :: Subsequence(ps, |tokens|) && ps != [] && ps[0] == 0 && result == Pick(tokens, ps)
      ensures var middle := Middle(tokens, seqLen);
        && |tokens| - (if r > 0 then r else 0) <= |middle| <= |tokens| && 2 * |middle| >= |tokens| && middle != []
        && (if PresisApplies(middle, seqLen) then KeepN(|middle|) <= |result| <= KeepN(|middle|) + TAIL + 1
            else result == middle)
    {
      hide Positions, KeepN, MergedOf, Kept, TopScored;
      var n := |tokens|;
      var keep := if TomeApplies(seqLen) then Below(n) - MergedOf(n) else Below(n);
      TomeSurvivors(n);
      FirstKept(n, Below(n));
      ChooseAll(tokens);
      var ps := Positions(n, keep);
      PositionsExact(n, keep);
      var middle := Middle(tokens, seqLen);
      assert middle == Pick(tokens, ps) == Choose(tokens, keep);
      if PresisApplies(middle, seqLen) {
        var m, kept := |middle|, Kept(|middle|, chosen);
        PresisSurvivors(Scores(middle, seqLen), chosen);
        PositionsExact(m, kept);
        PickOfPick(tokens, ps, Positions(m, kept));
        assert result == Pick(tokens, Pick(ps, Positions(m, kept)));
      }
    }

    lemma TomeSurvivors(n: nat)
      requires n > 0
      ensures var keep := Below(n) - MergedOf(n);
        && n - (if r > 0 then r else 0) <= |keep * Below(n)| <= n && 2 * |keep * Below(n)| >= n
        && Positions(n, keep) != [] && Positions(n, keep)[0] == 0
    {
      hide *;
      var gone := MergedOf(n);
      MergedOfBounds(n);
      Remaining(n, gone);
      FirstKept(n, Below(n) - gone);
    }

    lemma MergedOfBounds(n: nat)
      ensures var gone := MergedOf(n);
        |gone| <= (if r > 0 then r else 0) && 2 * |gone| <= n && gone <= Below(n) && 0 !in gone
    {
      hide Merged;
      if !(r <= 0 || !haveHidden || UseSeq(n) < 2) {
        MergedBounds(similarity, r, UseSeq(n), 0, {});
      }
    }

    lemma PresisSurvivors(scores: seq<real>, chosen: set<nat>)
      requires scores != [] && TopScored(scores, chosen, KeepN(|scores|))
      ensures var n := |scores|; var kept := Kept(n, chosen);
        && Positions(n, kept) != [] && Positions(n, kept)[0] == 0
        && KeepN(n) <= |kept * Below(n)| <= KeepN(n) + TAIL + 1
    {
      hide Positions, KeepN;
      var n := |scores|;
      KeptSize(n, chosen);
      FirstKept(n, Kept(n, chosen));
      assert Kept(n, chosen) * Below(n) == Kept(n, chosen);
    }
  }

  lemma Remaining(n: nat, gone: set<nat>)
    requires gone <= Below(n)
    ensures |(Below(n) - gone) * Below(n)| == n - |gone|
  {
    assert (Below(n) - gone) * Below(n) == Below(n) - gone;
  }

  lemma MergedEnds(sim: Similarity, r: int, n: nat, a: nat, removed: set<nat>)
    requires a + 1 >= n || |removed| >= r
    ensures Merged(sim, r, n, a, removed) == removed
  {
  }

  lemma MergeRound(sim: Similarity, r: int, n: nat, a: nat, removed: set<nat>, b: int)
    requires a + 1 < n && |removed| < r && b == BestMatch(sim, a, removed, n, 1, -1)
    ensures if b >= 0 && sim(a, b) > 0.0
      then b < n && b % 2 == 1 && b !in removed && |removed + {b}| == |removed| + 1
           && Merged(sim, r, n, a, removed) == Merged(sim, r, n, a + 2, removed + {b})
      else Merged(sim, r, n, a, removed) == Merged(sim, r, n, a + 2, removed)
  {
    hide Merged, BestMatch;
    BestMatchIsBest(sim, a, removed, n, 1, -1);
    MergedStep(sim, r, n, a, removed);
  }
}
