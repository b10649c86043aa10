/** Skill-scoped tool gating: the glob matcher, its meaning, and exactly where they agree. */
module ToolGlob {

  /** The meaning of a pattern: '*' matches any run of characters, the rest is literal. */
  ghost predicate Matches(pat: string, name: string) {
    if pat == "" then name == ""
    else if pat[0] == '*' then exists k :: 0 <= k <= |name| && Matches(pat[1..], name[k..])
    else name != "" && name[0] == pat[0] && Matches(pat[1..], name[1..])
  }

  /** What the matcher computes from a loop state; star is -1 before the first star. */
  function GlobFrom(pat: string, name: string, p: nat, n: nat, star: int, mark: nat): bool
    requires p <= |pat| && mark <= n <= |name| && star < |pat|
    decreases |name| - mark, |name| - n, |pat| - p
  {
    if n < |name| then
      if p < |pat| && pat[p] == name[n] then GlobFrom(pat, name, p + 1, n + 1, star, mark)
      else if p < |pat| && pat[p] == '*' then GlobFrom(pat, name, p + 1, n, p, n)
      else if star >= 0 then GlobFrom(pat, name, star + 1, mark + 1, star, mark + 1)
      else false
    else forall k :: p <= k < |pat| ==> pat[k] == '*'
  }

  function Glob(pat: string, name: string): bool {
    GlobFrom(pat, name, 0, 0, -1, 0)
  }

  /** tool_glob_match: no recursion, and backtracking only to the latest star. */
  method ToolGlobMatch(pat: string, name: string) returns (r: bool)
    ensures r == Glob(pat, name)
  {
    var p, n := 0, 0;
    var star, mark := -1, 0;
    while n < |name|
      invariant 0 <= p <= |pat| && 0 <= mark <= n <= |name| && -1 <= star < |pat|
      invariant Glob(pat, name) == GlobFrom(pat, name, p, n, star, mark)
      decreases |name| - mark, |name| - n, |pat| - p
    {
      if p < |pat| && pat[p] == name[n] {
        p, n := p + 1, n + 1;
      } else if p < |pat| && pat[p] == '*' {
        star := p;
        p := p + 1;
        mark := n;
      } else if star != -1 {
        p := star + 1;
        mark := mark + 1;
        n := mark;
      } else {
        return false;
      }
    }
    ghost var p0 := p;
    while p < |pat| && pat[p] == '*'
      invariant p0 <= p <= |pat| && forall k :: p0 <= k < p ==> pat[k] == '*'
    {
      p := p + 1;
    }
    return p == |pat|;
  }

  // ---- soundness ----

  /** The suffixes at p and n match. */
  ghost predicate At(pat: string, name: string, p: nat, n: nat) {
    p <= |pat| && n <= |name| && Matches(pat[p..], name[n..])
  }

  /** The pattern's suffix at p matches some suffix of the name at n or later. */
  ghost predicate Somewhere(pat: string, name: string, p: nat, n: nat) {
    exists m :: n <= m <= |name| && At(pat, name, p, m)
  }

  /** What is left to try in a loop state: the current suffixes, or the latest star with a
      longer run. */
  ghost predicate Goal(pat: string, name: string, p: nat, n: nat, star: int, mark: nat) {
    At(pat, name, p, n) || (star >= 0 && Somewhere(pat, name, star + 1, mark + 1))
  }

  lemma StarStep(pat: string, name: string, p: nat, n: nat)
    requires p < |pat| && pat[p] == '*' && n <= |name|
    ensures At(pat, name, p, n) <==> Somewhere(pat, name, p + 1, n)
  {
    var suf, q := name[n..], p + 1;
    assert pat[p..][1..] == pat[q..];
    if At(pat, name, p, n) {
      var k :| 0 <= k <= |suf| && Matches(pat[p..][1..], suf[k..]);
      assert suf[k..] == name[n + k..];
      assert At(pat, name, q, n + k);
    }
    if m :| n <= m <= |name| && At(pat, name, q, m) {
      assert suf[m - n..] == name[m..];
    }
  }

  lemma LiteralStep(pat: string, name: string, p: nat, n: nat)
    requires p < |pat| && pat[p] != '*' && n <= |name|
    ensures At(pat, name, p, n) <==> n < |name| && name[n] == pat[p] && At(pat, name, p + 1, n + 1)
  {
    assert pat[p..][1..] == pat[p + 1..];
    if n < |name| {
      assert name[n..][1..] == name[n + 1..];
    }
  }

  lemma {:induction false} StarsMatchNothing(pat: string, name: string, p: nat)
    requires p <= |pat|
    ensures At(pat, name, p, |name|) <==> forall k :: p <= k < |pat| ==> pat[k] == '*'
    decreases |pat| - p
  {
    if p < |pat| {
      StarsMatchNothing(pat, name, p + 1);
      if pat[p] == '*' {
        StarStep(pat, name, p, |name|);
      } else {
        LiteralStep(pat, name, p, |name|);
      }
    }
  }

  /** Whatever the matcher accepts does match. */
  lemma {:induction false} Sound(pat: string, name: string, p: nat, n: nat, star: int, mark: nat)
    requires p <= |pat| && mark <= n <= |name| && star < |pat|
    requires GlobFrom(pat, name, p, n, star, mark)
    ensures Goal(pat, name, p, n, star, mark)
    decreases |name| - mark, |name| - n, |pat| - p
  {
    if n == |name| {
      StarsMatchNothing(pat, name, p);
    } else if p < |pat| && pat[p] == name[n] {
      Sound(pat, name, p + 1, n + 1, star, mark);
      if pat[p] == '*' {
        StarStep(pat, name, p, n);
      } else {
        LiteralStep(pat, name, p, n);
      }
    } else if p < |pat| && pat[p] == '*' {
      Sound(pat, name, p + 1, n, p, n);
      StarStep(pat, name, p, n);
    } else {
      Sound(pat, name, star + 1, mark + 1, star, mark + 1);
    }
  }

  // ---- completeness ----

  /** A star in the name is a literal that the matcher prefers to the pattern's star; the last
      character is the only place where that does no harm. */
  ghost predicate InnerStarFree(name: string) {
    forall k :: 0 <= k < |name| - 1 ==> name[k] != '*'
  }

  /** Between the latest star and p the pattern has been matched character by character. */
  ghost predicate Segment(pat: string, name: string, p: nat, n: nat, star: int, mark: nat) {
    && p <= |pat| && mark <= n <= |name| && star < p
    && (star >= 0 ==> pat[star] == '*' && pat[star + 1..p] == name[mark..n])
  }

  /** A run of literals must be found in the name. */
  lemma {:induction false} LiteralRun(pat: string, name: string, p: nat, n: nat, d: nat)
    requires At(pat, name, p, n) && p + d <= |pat| && forall k :: p <= k < p + d ==> pat[k] != '*'
    ensures n + d <= |name| && At(pat, name, p + d, n + d)
    decreases d
  {
    if d > 0 {
      LiteralStep(pat, name, p, n);
      LiteralRun(pat, name, p + 1, n + 1, d - 1);
    }
  }

  /** What matches a lone star character also matches nothing. */
  lemma {:induction false} LoneStar(pat: string, name: string, p: nat)
    requires name != "" && name[|name| - 1] == '*' && At(pat, name, p, |name| - 1)
    ensures At(pat, name, p, |name|)
    decreases |pat| - p
  {
    hide Matches, At;
    var last, q := |name| - 1, p + 1;
    PatternLeft(pat, name, p, last);
    if pat[p] == '*' {
      StarStep(pat, name, p, last);
      var m :| last <= m <= |name| && At(pat, name, q, m);
      if m == last {
        LoneStar(pat, name, q);
      }
      assert At(pat, name, q, |name|);
      StarStep(pat, name, p, |name|);
    } else {
      LiteralStep(pat, name, p, last);
    }
  }

  /** Only a pattern that is left matches what is left of a name. */
  lemma PatternLeft(pat: string, name: string, p: nat, n: nat)
    requires At(pat, name, p, n) && n < |name|
    ensures p < |pat|
  {
    assert pat[|pat|..] == "";
  }

  /** The segment's characters before the name's last one are not stars. */
  lemma SegmentLiterals(pat: string, name: string, p: nat, n: nat, star: int, mark: nat, d: nat)
    requires Segment(pat, name, p, n, star, mark) && InnerStarFree(name) && star >= 0
    requires d <= n - mark && mark + d < |name|
    ensures n - mark == p - star - 1 && forall k :: star < k < star + 1 + d ==> pat[k] != '*'
  {
    assert |pat[star + 1..p]| == |name[mark..n]|;
    forall k | star < k < star + 1 + d ensures pat[k] != '*' {
      assert pat[k] == pat[star + 1..p][k - star - 1] == name[mark..n][k - star - 1] == name[mark + k - star - 1];
    }
  }

  /** A later star makes the choices left at an earlier one superfluous. */
  lemma LaterStarSuffices(pat: string, name: string, p: nat, n: nat, star: int, mark: nat)
    requires Segment(pat, name, p, n, star, mark) && InnerStarFree(name)
    requires Goal(pat, name, p, n, star, mark) && n < |name| && p < |pat| && pat[p] == '*'
    ensures Goal(pat, name, p + 1, n, p, n)
  {
    StarStep(pat, name, p, n);
    if !At(pat, name, p, n) {
      var q, d := star + 1, n - mark;
      var m :| mark < m <= |name| && At(pat, name, q, m);
      SegmentLiterals(pat, name, p, n, star, mark, d);
      LiteralRun(pat, name, q, m, d);
      StarStep(pat, name, p, m + d);
    }
  }

  /** A segment that has reached the end of the name, matched again from a later mark. */
  lemma FromLaterMark(pat: string, name: string, p: nat, star: int, mark: nat, m: nat)
    requires Segment(pat, name, p, |name|, star, mark) && InnerStarFree(name) && star >= 0
    requires mark < m <= |name| && At(pat, name, star + 1, m)
    ensures At(pat, name, p, |name|)
  {
    var d := |name| - mark - 1;
    SegmentLiterals(pat, name, p, |name|, star, mark, d);
    LiteralRun(pat, name, star + 1, m, d);
    assert m + d == |name| && At(pat, name, p - 1, |name|);
    StarsMatchNothing(pat, name, p - 1);
    StarsMatchNothing(pat, name, p);
  }

  /** At the end of the name a longer run for the latest star cannot help. */
  lemma EndOfName(pat: string, name: string, p: nat, star: int, mark: nat)
    requires Segment(pat, name, p, |name|, star, mark) && InnerStarFree(name)
    requires Goal(pat, name, p, |name|, star, mark)
    ensures At(pat, name, p, |name|)
  {
    if !At(pat, name, p, |name|) {
      var m :| mark < m <= |name| && At(pat, name, star + 1, m);
      FromLaterMark(pat, name, p, star, mark, m);
    }
  }

  /** Backtracking to the latest star only never loses a match. */
  lemma {:induction false} Complete(pat: string, name: string, p: nat, n: nat, star: int, mark: nat)
    requires Segment(pat, name, p, n, star, mark) && InnerStarFree(name)
    requires Goal(pat, name, p, n, star, mark)
    ensures GlobFrom(pat, name, p, n, star, mark)
    decreases |name| - mark, |name| - n, |pat| - p
  {
    if n == |name| {
      EndOfName(pat, name, p, star, mark);
      StarsMatchNothing(pat, name, p);
    } else if p < |pat| && pat[p] == name[n] {
      if pat[p] == '*' {
        StarStep(pat, name, p, n);
        if At(pat, name, p + 1, n) {
          LoneStar(pat, name, p + 1);
        }
      } else {
        LiteralStep(pat, name, p, n);
      }
      if star >= 0 {
        assert pat[star + 1..p + 1] == pat[star + 1..p] + [pat[p]];
        assert name[mark..n + 1] == name[mark..n] + [name[n]];
      }
      Complete(pat, name, p + 1, n + 1, star, mark);
    } else if p < |pat| && pat[p] == '*' {
      LaterStarSuffices(pat, name, p, n, star, mark);
      Complete(pat, name, p + 1, n, p, n);
    } else {
      if p < |pat| {
        LiteralStep(pat, name, p, n);
      }
      assert !At(pat, name, p, n);
      Complete(pat, name, star + 1, mark + 1, star, mark + 1);
    }
  }

  // ---- the exact condition ----

  lemma AcceptsOnlyMatches(pat: string, name: string)
    requires Glob(pat, name)
    ensures Matches(pat, name)
  {
    Sound(pat, name, 0, 0, -1, 0);
    assert pat[0..] == pat && name[0..] == name;
  }

  /** A prefix of the name that ends in a star matches the name but is refused: the matcher
      uses up the star as a literal and has nothing to go back to. */
  lemma {:induction false} InnerStarRefused(name: string, k: nat, i: nat)
    requires k < |name| - 1 && name[k] == '*' && i <= k + 1
    ensures !GlobFrom(name[..k + 1], name, i, i, -1, 0)
    ensures i <= k ==> At(name[..k + 1], name, i, i)
    decreases k + 1 - i
  {
    var pat := name[..k + 1];
    if i <= k {
      InnerStarRefused(name, k, i + 1);
      if i == k {
        StarsMatchNothing(pat, name, k + 1);
        StarStep(pat, name, k, k);
      } else if pat[i] == '*' {
        StarStep(pat, name, i, i);
      } else {
        LiteralStep(pat, name, i, i);
      }
    }
  }

  /** The matcher agrees with the meaning on every pattern exactly for the names without a star
      before their last character. */
  lemma AgreementCondition(name: string)
    ensures (forall pat :: Glob(pat, name) == Matches(pat, name)) <==> InnerStarFree(name)
  {
    assert name[0..] == name;
    if InnerStarFree(name) {
      forall pat ensures Glob(pat, name) == Matches(pat, name) {
        assert pat[0..] == pat;
        if Glob(pat, name) {
          AcceptsOnlyMatches(pat, name);
        } else if Matches(pat, name) {
          Complete(pat, name, 0, 0, -1, 0);
        }
      }
    } else {
      var k :| 0 <= k < |name| - 1 && name[k] == '*';
      InnerStarRefused(name, k, 0);
      var pat := name[..k + 1];
      assert pat[0..] == pat;
      assert Glob(pat, name) != Matches(pat, name);
    }
  }

  // ---- gating ----

  predicate Permitted(pats: seq<string>, name: string) {
    exists k :: 0 <= k < |pats| && Glob(pats[k], name)
  }

  /** The tools that some pattern permits, in order. */
  function Gated(tools: seq<string>, pats: seq<string>): seq<string> {
    if tools == [] then []
    else
      var last := tools[|tools| - 1];
      Gated(tools[..|tools| - 1], pats) + if Permitted(pats, last) then [last] else []
  }

  /** What is offered of the tools: no pattern means no gating. */
  function Offered(tools: seq<string>, pats: seq<string>): seq<string> {
    if pats == [] then tools else Gated(tools, pats)
  }

  /** `out` is the subsequence of the first n tools at the permitted places, which are `kept`. */
  ghost predicate GatedAt(tools: seq<string>, n: nat, pats: seq<string>, out: seq<string>, kept: seq<nat>) {
    && n <= |tools| && |out| == |kept|
    && (forall j :: 0 <= j < |kept| ==> kept[j] < n && out[j] == tools[kept[j]])
    && (forall j, k :: 0 <= j < k < |kept| ==> kept[j] < kept[k])
    && (forall i :: 0 <= i < n ==>
          (i in kept <==> pats == [] || exists k :: 0 <= k < |pats| && Glob(pats[k], tools[i])))
  }

  lemma GatedAtMore(tools: seq<string>, n: nat, pats: seq<string>, out: seq<string>, kept: seq<nat>, keep: bool)
    requires GatedAt(tools, n, pats, out, kept) && n < |tools|
    requires keep <==> pats == [] || exists k :: 0 <= k < |pats| && Glob(pats[k], tools[n])
    ensures if keep then GatedAt(tools, n + 1, pats, out + [tools[n]], kept + [n])
            else GatedAt(tools, n + 1, pats, out, kept)
  {
    hide Glob;
  }

  lemma {:induction false} GatedAtAll(tools: seq<string>, n: nat) returns (kept: seq<nat>)
    requires n <= |tools|
    ensures GatedAt(tools, n, [], tools[..n], kept)
  {
    hide Glob;
    kept := [];
    if n > 0 {
      kept := GatedAtAll(tools, n - 1);
      GatedAtMore(tools, n - 1, [], tools[..n - 1], kept, true);
      assert tools[..n] == tools[..n - 1] + [tools[n - 1]];
      kept := kept + [n - 1];
    }
  }

  /** gate_tools, on the tools' names. */
  method GateTools(tools: seq<string>, pats: seq<string>) returns (out: seq<string>, ghost kept: seq<nat>)
    ensures out == Offered(tools, pats)
    ensures GatedAt(tools, |tools|, pats, out, kept)
    ensures forall name :: InnerStarFree(name) ==>
      (name in out <==> name in tools && (pats == [] || exists k :: 0 <= k < |pats| && Matches(pats[k], name)))
  {
    forall name | InnerStarFree(name)
      ensures name in Offered(tools, pats) <==>
        name in tools && (pats == [] || exists k :: 0 <= k < |pats| && Matches(pats[k], name))
    {
      OfferedMeans(tools, pats, name);
    }
    hide Matches, InnerStarFree, Glob, GatedAt;
    if pats == [] {
      kept := GatedAtAll(tools, |tools|);
      assert tools[..|tools|] == tools;
      return tools, kept;
    }
    out, kept := [], [];
    NothingGated(tools, pats);
    for i := 0 to |tools|
      invariant out == Gated(tools[..i], pats) && GatedAt(tools, i, pats, out, kept)
    {
      var name := tools[i];
      var keep := false;
      for j := 0 to |pats|
        invariant forall k :: 0 <= k < j ==> !Glob(pats[k], name)
      {
        keep := ToolGlobMatch(pats[j], name);
        if keep {
          break;
        }
      }
      assert tools[..i + 1][..i] == tools[..i];
      assert keep <==> Permitted(pats, name);
      GatedAtMore(tools, i, pats, out, kept, keep);
      if keep {
        out, kept := out + [name], kept + [i];
      }
    }
    assert tools[..|tools|] == tools;
  }

  lemma NothingGated(tools: seq<string>, pats: seq<string>)
    ensures GatedAt(tools, 0, pats, [], [])
  {
  }

  /** For names that only end in a star, if they contain one, the tools offered are exactly those
      whose name some pattern means, and all of them without patterns. */
  lemma OfferedMeans(tools: seq<string>, pats: seq<string>, name: string)
    requires InnerStarFree(name)
    ensures name in Offered(tools, pats) <==>
      name in tools && (pats == [] || exists k :: 0 <= k < |pats| && Matches(pats[k], name))
  {
    hide Matches, InnerStarFree;
    if pats != [] {
      GatedMeans(tools, pats, name);
    }
  }

  lemma {:induction false} GatedMeans(tools: seq<string>, pats: seq<string>, name: string)
    requires InnerStarFree(name)
    ensures name in Gated(tools, pats) <==> name in tools && exists k :: 0 <= k < |pats| && Matches(pats[k], name)
  {
    AgreementCondition(name);
    assert Permitted(pats, name) <==> exists k :: 0 <= k < |pats| && Matches(pats[k], name);
    if tools != [] {
      GatedMeans(tools[..|tools| - 1], pats, name);
      assert tools == tools[..|tools| - 1] + [tools[|tools| - 1]];
    }
  }
}
