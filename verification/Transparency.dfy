/** When the scheduler and the sequential engine agree, and when a reused cache prefix is as
    good as a cold prefill. */
module Transparency {
  import opened Llama
  import opened Generation

  /** Every stop string of the request ends with a configured stop string. */
  ghost predicate StopsCovered(cfg: Defaults, req: GenerateRequest) {
    forall k :: 0 <= k < |req.stop| && req.stop[k] != "" ==> MatchesStop(cfg.stop, req.stop[k])
  }

  lemma CoveredStops(cfg: Defaults, req: GenerateRequest, text: string)
    requires StopsCovered(cfg, req) && MatchesStop(req.stop, text)
    ensures MatchesStop(cfg.stop, text)
  {
    var k :| 0 <= k < |req.stop| && req.stop[k] != "" && EndsWith(text, req.stop[k]);
    var s := req.stop[k];
    var j :| 0 <= j < |cfg.stop| && cfg.stop[j] != "" && EndsWith(s, cfg.stop[j]);
    assert text[|text| - |cfg.stop[j]|..] == s[|s| - |cfg.stop[j]|..];
  }

  // ---- when the engines agree ----

  /** The scheduler's sampler for the request and the sequential engine's shared one draw alike. */
  predicate SameDraws(cfg: Defaults, req: GenerateRequest, shared: Sampler) {
    && req.grammar == ""
    && (|| BothGreedy(cfg, req, shared)
        || (&& shared.chain == SchedulerChain(cfg, req)
            && (shared.chain.Remembers() ==> shared.accepted == [] && MaxNew(cfg, req) == 1)
            && (shared.chain.Random() ==> shared.seed == SeedOf(cfg, ClockAtAdmission) && shared.draws == 0)))
  }

  /** Both engines always draw the likeliest token. */
  predicate BothGreedy(cfg: Defaults, req: GenerateRequest, shared: Sampler) {
    shared.chain.Greedy() && SchedulerChain(cfg, req).Greedy()
  }

  /** The condition on a request and on the state of the sequential engine's sampler under which
      the two engines give the same answer. */
  ghost predicate Agrees(cfg: Defaults, req: GenerateRequest, shared: Sampler) {
    && MaxNew(cfg, req) >= 1
    && SameDraws(cfg, req, shared)
    && (MaxNew(cfg, req) == 1 || StopsCovered(cfg, req))
  }

  lemma SameNextToken(m: Model, cfg: Defaults, req: GenerateRequest, shared: Sampler, gen: seq<Token>)
    requires Lawful(m) && SameDraws(cfg, req, shared) && (MaxNew(cfg, req) == 1 ==> gen == [])
    ensures NextToken(m, cfg, req, gen) == NextSequential(m, shared, req, gen)
  {
    AfterDrawsKeeps(m, shared, gen);
    SchedulerSamplerKeeps(m, cfg, req, gen);
    assert Alike(SchedulerSampler(m, cfg, req, gen), AfterDraws(m, shared, gen));
  }

  lemma {:induction false} SoloIsSequential(m: Model, cfg: Defaults, req: GenerateRequest, shared: Sampler,
                                            gen: seq<Token>)
    requires Lawful(m) && Agrees(cfg, req, shared) && |gen| < MaxNew(cfg, req)
    ensures SoloFrom(m, cfg, req, gen) == SequentialFrom(m, cfg, shared, req, gen)
    decreases MaxNew(cfg, req) - |gen|
  {
    hide Lawful, SameDraws, NextToken, NextSequential;
    SameNextToken(m, cfg, req, shared, gen);
    var id := NextToken(m, cfg, req, gen);
    var gen' := gen + [id];
    if m.isEog(id) {
    } else if |gen'| >= MaxNew(cfg, req) {
    } else {
      var ours, theirs := MatchesStop(cfg.stop, Text(m, gen')), MatchesStop(req.stop, Text(m, gen'));
      if theirs {
        CoveredStops(cfg, req, Text(m, gen'));
      }
      if !ours && id !in req.stopTokens {
        SoloIsSequential(m, cfg, req, shared, gen');
      }
    }
  }

  /** A token id outside a list. */
  lemma {:induction false} Fresh(ids: seq<Token>) returns (t: Token)
    ensures forall k :: 0 <= k < |ids| ==> ids[k] < t
  {
    if ids == [] {
      t := 0;
    } else {
      t := Fresh(ids[1..]);
      assert forall k :: 1 <= k < |ids| ==> ids[k] == ids[1..][k - 1];
      t := if t > ids[0] then t else ids[0] + 1;
    }
  }

  /** An uncovered stop string separates the engines, whatever their samplers: a model that keeps
      saying it is cut off by the sequential engine after one token and not by the scheduler. */
  lemma UncoveredStopSeparates(cfg: Defaults, req: GenerateRequest, shared: Sampler, k: nat) returns (m: Model)
    requires k < |req.stop| && req.stop[k] != "" && !MatchesStop(cfg.stop, req.stop[k])
    requires MaxNew(cfg, req) > 1
    ensures Lawful(m)
    ensures |Sequential(m, cfg, shared, req).tokens| == 1 < |Solo(m, cfg, req).tokens|
  {
    var t := Fresh(req.stopTokens);
    var s := req.stop[k];
    m := Model((sp, cells) => t, true, g => true, id => false, id => s);
    var once := [] + [t];
    assert once[..0] == [];
    assert Text(m, once) == Text(m, []) + s == s;
    assert s[|s| - |s|..] == s;
    assert MatchesStop(req.stop, Text(m, once));
    assert t !in req.stopTokens;
    assert GoesOn(m, cfg, req, once);
    assert |(once + [t])| == 2;
    if GoesOn(m, cfg, req, once + [t]) {
      SoloExtends(m, cfg, req, once + [t]);
    }
    assert |SoloFrom(m, cfg, req, once).tokens| >= 2;
  }

  /** With a first token that does not end generation, each engine's answer begins with its own. */
  lemma FirstTokens(m: Model, cfg: Defaults, req: GenerateRequest, shared: Sampler)
    requires MaxNew(cfg, req) >= 1 && forall id :: !m.isEog(id)
    ensures Solo(m, cfg, req).tokens != [] && Solo(m, cfg, req).tokens[0] == NextToken(m, cfg, req, [])
    ensures var start := SequentialSampler(m, cfg, req, shared);
      && Sequential(m, cfg, shared, req).tokens != []
      && Sequential(m, cfg, shared, req).tokens[0] == NextSequential(m, start, req, [])
  {
    hide NextToken, NextSequential, SequentialSampler, MatchesStop;
    var start := SequentialSampler(m, cfg, req, shared);
    var a, b := [] + [NextToken(m, cfg, req, [])], [] + [NextSequential(m, start, req, [])];
    assert |a| == |b| == 1;
    if GoesOn(m, cfg, req, a) {
      SoloExtends(m, cfg, req, a);
    }
    SequentialExtends(m, cfg, start, req, b);
  }

  /** A different chain separates the engines, unless both are greedy. */
  lemma ChainSeparates(cfg: Defaults, req: GenerateRequest, shared: Sampler) returns (m: Model)
    requires MaxNew(cfg, req) >= 1
    requires req.grammar != "" || (shared.chain != SchedulerChain(cfg, req) && !BothGreedy(cfg, req, shared))
    ensures Lawful(m) && Solo(m, cfg, req) != Sequential(m, cfg, shared, req)
  {
    var ours := SchedulerChain(cfg, req);
    m := Model((sp: Sampler, cells: seq<Cell>) => if sp.chain.Greedy() then 0 else if sp.chain == ours then 1 else 2,
               true, g => true, id => false, id => "");
    FirstTokens(m, cfg, req, shared);
  }

  /** So does an earlier generation that the shared sampler remembers. */
  lemma HistorySeparates(cfg: Defaults, req: GenerateRequest, shared: Sampler) returns (m: Model)
    requires MaxNew(cfg, req) >= 1 && req.grammar == "" && shared.chain == SchedulerChain(cfg, req)
    requires shared.chain.Remembers() && !shared.chain.Greedy() && shared.accepted != []
    ensures Lawful(m) && Solo(m, cfg, req) != Sequential(m, cfg, shared, req)
  {
    m := Model((sp: Sampler, cells: seq<Cell>) =>
                 if sp.chain.Remembers() && !sp.chain.Greedy() && sp.accepted != [] then 1 else 0,
               true, g => true, id => false, id => "");
    FirstTokens(m, cfg, req, shared);
  }

  /** And a random source in another state. */
  lemma RandomSourceSeparates(cfg: Defaults, req: GenerateRequest, shared: Sampler) returns (m: Model)
    requires MaxNew(cfg, req) >= 1 && req.grammar == "" && shared.chain == SchedulerChain(cfg, req)
    requires shared.chain.Random() && (shared.seed != SeedOf(cfg, ClockAtAdmission) || shared.draws != 0)
    ensures Lawful(m) && Solo(m, cfg, req) != Sequential(m, cfg, shared, req)
  {
    var seed := SeedOf(cfg, ClockAtAdmission);
    m := Model((sp: Sampler, cells: seq<Cell>) =>
                 if sp.chain.Random() && (sp.seed != seed || sp.draws != 0) then 1 else 0,
               true, g => true, id => false, id => "");
    FirstTokens(m, cfg, req, shared);
  }

  /** Beyond one token a chain that remembers does: the scheduler accepts each token twice. */
  lemma AcceptingTwiceSeparates(cfg: Defaults, req: GenerateRequest, shared: Sampler) returns (m: Model)
    requires MaxNew(cfg, req) > 1 && req.grammar == "" && shared.chain == SchedulerChain(cfg, req)
    requires shared.chain.Remembers() && !shared.chain.Greedy() && shared.accepted == []
    ensures Lawful(m) && Solo(m, cfg, req) != Sequential(m, cfg, shared, req)
  {
    var t := Fresh(req.stopTokens);
    m := Model((sp: Sampler, cells: seq<Cell>) =>
                 if sp.chain.Remembers() && !sp.chain.Greedy() && |sp.accepted| == 2 then t + 1 else t,
               true, g => true, id => false, id => "");
    var once := [] + [t];
    assert once[..0] == [];
    assert Text(m, once) == Text(m, []) + "" == "";
    assert NextToken(m, cfg, req, []) == t && NextSequential(m, shared, req, []) == t;
    assert GoesOn(m, cfg, req, once);
    assert SchedulerSampler(m, cfg, req, once) == DrawnAndAccepted(m, MakeSampler(cfg, req), t);
    assert AfterDraws(m, shared, once) == AfterSample(m, shared, t);
    assert NextToken(m, cfg, req, once) == t + 1 && NextSequential(m, shared, req, once) == t;
    SecondTokens(m, cfg, req, shared, once);
  }

  lemma SecondTokens(m: Model, cfg: Defaults, req: GenerateRequest, shared: Sampler, once: seq<Token>)
    requires req.grammar == "" && MaxNew(cfg, req) > 1 && |once| == 1 && forall id :: !m.isEog(id)
    requires once[0] == NextToken(m, cfg, req, []) == NextSequential(m, shared, req, [])
    requires GoesOn(m, cfg, req, once) && !MatchesStop(req.stop, Text(m, once))
    ensures NextToken(m, cfg, req, once) != NextSequential(m, shared, req, once) ==>
      Solo(m, cfg, req) != Sequential(m, cfg, shared, req)
  {
    hide NextToken, NextSequential, MatchesStop, Text;
    assert [] + [once[0]] == once;
    assert Solo(m, cfg, req) == SoloFrom(m, cfg, req, once);
    assert Sequential(m, cfg, shared, req) == SequentialFrom(m, cfg, shared, req, once);
    var a, b := once + [NextToken(m, cfg, req, once)], once + [NextSequential(m, shared, req, once)];
    if GoesOn(m, cfg, req, a) {
      SoloExtends(m, cfg, req, a);
    }
    SequentialExtends(m, cfg, shared, req, b);
    assert a <= SoloFrom(m, cfg, req, once).tokens && b <= SequentialFrom(m, cfg, shared, req, once).tokens;
    assert a[1] == Solo(m, cfg, req).tokens[1];
    assert b[1] == Sequential(m, cfg, shared, req).tokens[1];
  }

  /** Without a positive limit the engines never agree: one samples first, the other does not. */
  lemma NoLimitNeverAgrees(m: Model, cfg: Defaults, req: GenerateRequest, shared: Sampler)
    requires MaxNew(cfg, req) < 1
    ensures Solo(m, cfg, req) != Sequential(m, cfg, shared, req)
  {
    var id := NextToken(m, cfg, req, []);
    assert !m.isEog(id) ==> Solo(m, cfg, req).tokens == [] + [id];
  }

  /** The engines agree on a request whatever the model is exactly when the request may generate a
      token, the two samplers draw alike, and, beyond one token, its stop strings are covered. */
  lemma AgreementCondition(cfg: Defaults, req: GenerateRequest, shared: Sampler)
    ensures (forall m: Model :: Lawful(m) ==> Solo(m, cfg, req) == Sequential(m, cfg, shared, req))
      <==> Agrees(cfg, req, shared)
  {
    hide Lawful, Solo, Sequential;
    var chain := SchedulerChain(cfg, req);
    if Agrees(cfg, req, shared) {
      forall m: Model | Lawful(m) ensures Solo(m, cfg, req) == Sequential(m, cfg, shared, req) {
        AgreementHolds(m, cfg, req, shared);
      }
    } else {
      var m := Separates(cfg, req, shared);
    }
  }

  lemma AgreementHolds(m: Model, cfg: Defaults, req: GenerateRequest, shared: Sampler)
    requires Lawful(m) && Agrees(cfg, req, shared)
    ensures Solo(m, cfg, req) == Sequential(m, cfg, shared, req)
  {
    SoloIsSequential(m, cfg, req, shared, []);
  }

  /** Each way of failing the condition has its model. */
  lemma Separates(cfg: Defaults, req: GenerateRequest, shared: Sampler) returns (m: Model)
    requires !Agrees(cfg, req, shared)
    ensures Lawful(m) && Solo(m, cfg, req) != Sequential(m, cfg, shared, req)
  {
    hide Lawful, Solo, Sequential;
    var chain := SchedulerChain(cfg, req);
    if MaxNew(cfg, req) < 1 {
      m := Constant();
      NoLimitNeverAgrees(m, cfg, req, shared);
    } else if req.grammar != "" || (shared.chain != chain && !BothGreedy(cfg, req, shared)) {
      m := ChainSeparates(cfg, req, shared);
    } else if shared.chain == chain && chain.Remembers() && !chain.Greedy() && shared.accepted != [] {
      m := HistorySeparates(cfg, req, shared);
    } else if shared.chain == chain && chain.Random()
      && (shared.seed != SeedOf(cfg, ClockAtAdmission) || shared.draws != 0)
    {
      m := RandomSourceSeparates(cfg, req, shared);
    } else if shared.chain == chain && chain.Remembers() && !chain.Greedy() && MaxNew(cfg, req) > 1 {
      m := AcceptingTwiceSeparates(cfg, req, shared);
    } else {
      var k :| 0 <= k < |req.stop| && req.stop[k] != "" && !MatchesStop(cfg.stop, req.stop[k]);
      m := UncoveredStopSeparates(cfg, req, shared, k);
    }
  }

  lemma Constant() returns (m: Model)
    ensures Lawful(m)
  {
    m := Model((sp, cells) => 0, true, g => true, id => true, id => "");
  }

  /** Greedy on both sides is enough, whatever the penalties and whatever the shared sampler
      remembers. */
  lemma GreedyAgrees(cfg: Defaults, req: GenerateRequest, shared: Sampler)
    requires MaxNew(cfg, req) >= 1 && (MaxNew(cfg, req) == 1 || StopsCovered(cfg, req))
    requires req.grammar == "" && BothGreedy(cfg, req, shared)
    ensures Agrees(cfg, req, shared)
    ensures forall m: Model :: Lawful(m) ==> Solo(m, cfg, req) == Sequential(m, cfg, shared, req)
  {
    forall m: Model | Lawful(m) ensures Solo(m, cfg, req) == Sequential(m, cfg, shared, req) {
      AgreementHolds(m, cfg, req, shared);
    }
  }

  /** Otherwise the penalty a request brings by default, 1.1 on repeats, rules agreement out beyond
      one token. */
  lemma DefaultPenaltySeparates(cfg: Defaults, req: GenerateRequest, shared: Sampler)
    requires req.repeatPenalty == 1.1 && MaxNew(cfg, req) > 1
    ensures Agrees(cfg, req, shared) <==> req.grammar == "" && BothGreedy(cfg, req, shared) && StopsCovered(cfg, req)
  {
    assert SchedulerChain(cfg, req).Remembers();
  }

  /** A request's own parameters go into its chain where they are set, and the configured ones where
      they are not. */
  lemma MergedChain(cfg: Defaults, req: GenerateRequest)
    ensures req.topK > 0 && req.topP > 0.0 && req.temperature >= 0.0 && req.repeatPenalty > 0.0 ==>
      SchedulerChain(cfg, req) ==
      ConfiguredChain(cfg, "").(topK := req.topK, topP := req.topP, temperature := req.temperature,
                                repeatPenalty := req.repeatPenalty)
    ensures SchedulerChain(cfg, req) == ConfiguredChain(cfg, "") <==>
      && (req.topK <= 0 || req.topK == cfg.topK) && (req.topP <= 0.0 || req.topP == cfg.topP)
      && (req.temperature < 0.0 || req.temperature == cfg.temperature)
      && (req.repeatPenalty <= 0.0 || req.repeatPenalty == cfg.repeatPenalty)
  {
  }

  /** The agreement condition on the fields of request and configuration alone, for an engine that has
      not generated anything yet. */
  lemma AgreementWhenFresh(cfg: Defaults, req: GenerateRequest)
    ensures var shared := Sampler(ConfiguredChain(cfg, ""), SeedOf(cfg, ClockAtLoad), [], 0);
      var limit := if req.maxTokens > 0 then req.maxTokens else cfg.maxTokens;
      var greedy := cfg.topK == 1 || cfg.topP <= 0.0 || cfg.minP > 1.0 || cfg.temperature <= 0.0;
      (forall m: Model :: Lawful(m) ==> Solo(m, cfg, req) == Sequential(m, cfg, shared, req)) <==>
        && limit >= 1 && req.grammar == ""
        && (limit == 1 || forall k :: 0 <= k < |req.stop| && req.stop[k] != "" ==>
              exists j, n :: 0 <= j < |cfg.stop| && 0 <= n < |req.stop[k]| && req.stop[k][n..] == cfg.stop[j])
        && (|| (greedy && (|| req.topK == 1 || (req.topK <= 0 && cfg.topK == 1)
                           || (req.topP <= 0.0 && cfg.topP <= 0.0) || cfg.minP > 1.0
                           || req.temperature == 0.0 || (req.temperature < 0.0 && cfg.temperature <= 0.0)))
            || (&& (req.topK <= 0 || req.topK == cfg.topK) && (req.topP <= 0.0 || req.topP == cfg.topP)
                && (req.temperature < 0.0 || req.temperature == cfg.temperature)
                && (req.repeatPenalty <= 0.0 || req.repeatPenalty == cfg.repeatPenalty)
                && (limit == 1 || (cfg.repeatPenalty == 1.0 && cfg.frequencyPenalty == 0.0
                                   && cfg.presencePenalty == 0.0))
                && (greedy || cfg.seed >= 0)))
  {
    hide Solo, Sequential, Lawful, StopsCovered;
    var shared := Sampler(ConfiguredChain(cfg, ""), SeedOf(cfg, ClockAtLoad), [], 0);
    MergedChain(cfg, req);
    AgreementCondition(cfg, req, shared);
    StopsCoveredOnFields(cfg, req);
  }

  lemma StopsCoveredOnFields(cfg: Defaults, req: GenerateRequest)
    ensures StopsCovered(cfg, req) <==> forall k :: 0 <= k < |req.stop| && req.stop[k] != "" ==>
      exists j, n :: 0 <= j < |cfg.stop| && 0 <= n < |req.stop[k]| && req.stop[k][n..] == cfg.stop[j]
  {
    forall k | 0 <= k < |req.stop|
      ensures MatchesStop(cfg.stop, req.stop[k]) <==>
        exists j, n :: 0 <= j < |cfg.stop| && 0 <= n < |req.stop[k]| && req.stop[k][n..] == cfg.stop[j]
    {
      MatchesStopMeans(cfg.stop, req.stop[k]);
    }
    hide MatchesStop;
  }

  // ---- KV-prefix reuse ----

  /** Whether the cache lacks a position the reuse path takes for granted: the prompt is
      `n` tokens, of which the first `p` are taken to be in the cache, except that a fully
      matched prompt has its last token evaluated again. */
  predicate Holed(cells: seq<Cell>, p: nat, n: nat) {
    if p < n then |cells| != p else p == 0 || |Trim(cells, p - 1)| != p - 1
  }

  /** What the first sample sees after a reuse admit of `prompt` with matched prefix `p`. */
  function ReuseView(cells: seq<Cell>, prompt: seq<Token>, p: nat): seq<Cell>
    requires 1 <= p <= |prompt|
  {
    if p < |prompt| then Trim(cells, p) + Cells(prompt)[p..]
    else Trim(Trim(cells, p), p - 1) + [Cell(p - 1, prompt[p - 1])]
  }

  /** The common step: a trimmed ledger plus the right tail is the cold prefill exactly when
      no position was missing. */
  lemma TrimmedView(cells: seq<Cell>, cached: seq<Token>, prompt: seq<Token>, p: nat)
    requires Sparse(cells, cached) && p <= |cached| && p <= |prompt| && cached[..p] == prompt[..p]
    ensures Sparse(Trim(cells, p), prompt[..p])
    ensures Trim(cells, p) + Cells(prompt)[p..] == Cells(prompt) <==> |Trim(cells, p)| == p
  {
    forall k | 0 <= k < p ensures cached[k] == prompt[k] {
      assert cached[..p][k] == prompt[..p][k];
    }
    TrimSparse(cells, cached, prompt, p);
    SparseFull(Trim(cells, p), prompt[..p]);
    assert Cells(prompt[..p]) == Cells(prompt)[..p];
    assert Cells(prompt) == Cells(prompt)[..p] + Cells(prompt)[p..];
    assert |Cells(prompt)[p..]| == |prompt| - p;
  }

  /** Trimming twice is trimming once. */
  lemma {:induction false} TrimTrim(cells: seq<Cell>, p: nat, q: nat)
    requires q <= p
    ensures Trim(Trim(cells, p), q) == Trim(cells, q)
  {
    if cells != [] {
      var init, last := cells[..|cells| - 1], cells[|cells| - 1];
      TrimTrim(init, p, q);
      if last.pos < p {
        var t := Trim(init, p) + [last];
        assert t[..|t| - 1] == Trim(init, p) && t[|t| - 1] == last;
      } else {
        assert Trim(cells, p) == Trim(init, p) && Trim(cells, q) == Trim(init, q);
      }
    }
  }

  /** Reuse is invisible to the first sample exactly when the cache has no hole there. */
  lemma ReuseView_ColdIff(cells: seq<Cell>, cached: seq<Token>, prompt: seq<Token>, p: nat)
    requires Sparse(cells, cached) && 1 <= p <= |prompt| && p <= |cached| && cached[..p] == prompt[..p]
    ensures ReuseView(cells, prompt, p) == Cells(prompt) <==> !Holed(Trim(cells, p), p, |prompt|)
  {
    hide Trim, Sparse, Cells;
    if p < |prompt| {
      TrimmedView(cells, cached, prompt, p);
    } else {
      TrimTrim(cells, p, p - 1);
      assert cached[..p - 1] == cached[..p][..p - 1] == prompt[..p][..p - 1] == prompt[..p - 1];
      TrimmedView(cells, cached, prompt, p - 1);
      LastCell(prompt);
    }
  }

  lemma LastCell(prompt: seq<Token>)
    requires prompt != []
    ensures Cells(prompt)[|prompt| - 1..] == [Cell(|prompt| - 1, prompt[|prompt| - 1])]
  {
  }

  /** A hole shows: whatever the sampler, the first token after a reuse admit is that of a cold prefill
      for every model exactly when there is none. */
  lemma ReuseInvisibleIff(cells: seq<Cell>, cached: seq<Token>, prompt: seq<Token>, p: nat, sp: Sampler)
    requires Sparse(cells, cached) && 1 <= p <= |prompt| && p <= |cached| && cached[..p] == prompt[..p]
    ensures (forall m: Model :: Lawful(m) ==> m.sample(sp, ReuseView(cells, prompt, p)) == m.sample(sp, Cells(prompt)))
      <==> !Holed(Trim(cells, p), p, |prompt|)
  {
    hide ReuseView, Cells, Holed, Trim, Sparse;
    ReuseView_ColdIff(cells, cached, prompt, p);
    var cold := Cells(prompt);
    var m := Model((s: Sampler, c: seq<Cell>) => if c == cold then 0 else 1, true, g => true, id => false, id => "");
    assert Lawful(m);
  }

  /** For a warm slot whose own run left no hole, the cache covers the ledger except perhaps
      for its last token; reuse then equals a cold prefill exactly when the matched prefix
      lies inside the decoded positions or is the whole new prompt. */
  lemma WarmReuseCondition(cells: seq<Cell>, cached: seq<Token>, prompt: seq<Token>, p: nat)
    requires |cached| - 1 <= |cells| <= |cached| && cells == Cells(cached[..|cells|])
    requires 1 <= p <= |prompt| && p <= |cached| && cached[..p] == prompt[..p]
    ensures ReuseView(cells, prompt, p) == Cells(prompt) <==> p <= |cells| || p == |prompt|
  {
    var n := |cells|;
    assert Sparse(cells, cached);
    assert Sparse(cells, cached[..n]);
    TrimLength(cells, cached[..n], p);
    TrimLength(cells, cached[..n], p - 1);
    TrimTrim(cells, p, p - 1);
    ReuseView_ColdIff(cells, cached, prompt, p);
  }

  /** The documented promise fails: a session continued past a length-limited answer skips
      the position of that answer's last token, and a model can tell. */
  lemma ReuseCanChangeTheAnswer() returns (m: Model, cells: seq<Cell>, cached: seq<Token>, prompt: seq<Token>, p: nat)
    ensures p >= 64 && p == |cached| < |prompt| && cached[..p] == prompt[..p] && cells == Cells(cached[..p - 1])
    ensures Lawful(m) && forall sp :: m.sample(sp, ReuseView(cells, prompt, p)) != m.sample(sp, Cells(prompt))
  {
    cached := seq(64, i => 7);
    prompt := cached + [8];
    p := 64;
    cells := Cells(cached[..63]);
    m := Model((sp, c) => |c|, true, g => true, id => false, id => "");
    assert Sparse(cells, cached[..63]);
    TrimLength(cells, cached[..63], 64);
    assert |ReuseView(cells, prompt, p)| == 64 && |Cells(prompt)| == 65;
  }
}
