/** Requests, results and the two meanings of "generate": the sequential engine's loop and
    the scheduler's loop for one request on its own. */
module Generation {
  import opened Common
  import opened Llama

  datatype GenerateRequest = GenerateRequest(
    tokens: seq<Token>,
    maxTokens: int,
    stopTokens: seq<Token>,
    stop: seq<string>,
    sessionId: string,
    topK: int,
    topP: real,
    temperature: real,
    repeatPenalty: real,
    grammar: string)

  datatype GenerateResult = GenerateResult(
    tokens: seq<Token>,
    text: string,
    promptTokens: nat,
    generatedTokens: nat,
    error: ErrorCode,
    finishReason: string)

  /** SamplingConfig. */
  datatype Defaults = Defaults(
    maxTokens: int,
    stop: seq<string>,
    topK: int,
    topP: real,
    minP: real,
    temperature: real,
    repeatPenalty: real,
    frequencyPenalty: real,
    presencePenalty: real,
    seed: int)

  /** What a caller gets from a generation that ends normally. */
  datatype Outcome = Outcome(tokens: seq<Token>, text: string, finish: string)

  function MaxNew(cfg: Defaults, req: GenerateRequest): int {
    if req.maxTokens > 0 then req.maxTokens else cfg.maxTokens
  }

  /** Upper bound on the tokens the scheduler generates: it samples before it counts. */
  function Budget(cfg: Defaults, req: GenerateRequest): nat {
    if MaxNew(cfg, req) > 1 then MaxNew(cfg, req) else 1
  }

  predicate EndsWith(text: string, s: string) {
    |s| <= |text| && text[|text| - |s|..] == s
  }

  predicate MatchesStop(stops: seq<string>, text: string) {
    exists k :: 0 <= k < |stops| && stops[k] != "" && EndsWith(text, stops[k])
  }

  /** A stop string matches when the text ends with it and it is not empty. */
  lemma MatchesStopMeans(stops: seq<string>, text: string)
    ensures MatchesStop(stops, text) <==>
      exists k, n :: 0 <= k < |stops| && 0 <= n < |text| && text[n..] == stops[k]
  {
    if k :| 0 <= k < |stops| && stops[k] != "" && EndsWith(text, stops[k]) {
      assert text[|text| - |stops[k]|..] == stops[k];
    }
    if k, n :| 0 <= k < |stops| && 0 <= n < |text| && text[n..] == stops[k] {
      assert EndsWith(text, stops[k]);
    }
  }

  /** matches_stop of both engines: the loop over the stop strings. */
  method AnyStopMatches(stops: seq<string>, text: string) returns (hit: bool)
    ensures hit <==> MatchesStop(stops, text)
    ensures hit <==> exists k, n :: 0 <= k < |stops| && 0 <= n < |text| && text[n..] == stops[k]
  {
    for i := 0 to |stops|
      invariant forall k :: 0 <= k < i ==> stops[k] == "" || !EndsWith(text, stops[k])
    {
      var s := stops[i];
      if s != "" && |text| >= |s| && text[|text| - |s|..] == s {
        return true;
      }
    }
    return false;
  }

  /** The loop over stop token ids. */
  method IsStopToken(stopTokens: seq<Token>, id: Token) returns (hit: bool)
    ensures hit <==> id in stopTokens
  {
    for i := 0 to |stopTokens|
      invariant id !in stopTokens[..i]
    {
      if stopTokens[i] == id {
        return true;
      }
    }
    return false;
  }

  /** The detokenised text of a generation. */
  function Text(m: Model, gen: seq<Token>): string {
    if gen == [] then "" else Text(m, gen[..|gen| - 1]) + m.piece(gen[|gen| - 1])
  }

  lemma TextGrows(m: Model, gen: seq<Token>, id: Token)
    ensures Text(m, gen + [id]) == Text(m, gen) + m.piece(id)
  {
    assert (gen + [id])[..|gen|] == gen;
  }

  lemma NoText(m: Model)
    ensures Text(m, []) == ""
  {
  }

  /** It is the pieces of the tokens, one after the other. */
  lemma {:induction false} TextOfParts(m: Model, a: seq<Token>, b: seq<Token>, id: Token)
    ensures Text(m, a + b) == Text(m, a) + Text(m, b) && Text(m, [id]) == m.piece(id)
  {
    assert [id][..0] == [];
    if b == [] {
      assert a + b == a;
    } else {
      var n := |a + b| - 1;
      assert (a + b)[..n] == a + b[..|b| - 1];
      TextOfParts(m, a, b[..|b| - 1], id);
    }
  }

  // ---- samplers ----

  /** The configured chain, behind a grammar if there is one. */
  function ConfiguredChain(cfg: Defaults, grammar: string): SamplerChain {
    SamplerChain(grammar, cfg.topK, cfg.topP, cfg.minP, cfg.temperature,
                 cfg.repeatPenalty, cfg.frequencyPenalty, cfg.presencePenalty)
  }

  /** The scheduler's chain: the request's parameters over the configured ones, and no grammar. */
  function SchedulerChain(cfg: Defaults, req: GenerateRequest): SamplerChain {
    SamplerChain("",
                 if req.topK > 0 then req.topK else cfg.topK,
                 if req.topP > 0.0 then req.topP else cfg.topP,
                 cfg.minP,
                 if req.temperature >= 0.0 then req.temperature else cfg.temperature,
                 if req.repeatPenalty > 0.0 then req.repeatPenalty else cfg.repeatPenalty,
                 cfg.frequencyPenalty, cfg.presencePenalty)
  }

  function SeedOf(cfg: Defaults, clock: Seed): Seed {
    if cfg.seed < 0 then clock else Configured(cfg.seed)
  }

  /** make_sampler: a sampler for one request of the scheduler. */
  function MakeSampler(cfg: Defaults, req: GenerateRequest): Sampler {
    Sampler(SchedulerChain(cfg, req), SeedOf(cfg, ClockAtAdmission), [], 0)
  }

  /** The scheduler draws and then accepts what it has drawn. */
  function DrawnAndAccepted(m: Model, sp: Sampler, id: Token): Sampler {
    Accept(AfterSample(m, sp, id), id)
  }

  /** The request's sampler in the scheduler after `gen`. */
  function SchedulerSampler(m: Model, cfg: Defaults, req: GenerateRequest, gen: seq<Token>): Sampler {
    if gen == [] then MakeSampler(cfg, req)
    else DrawnAndAccepted(m, SchedulerSampler(m, cfg, req, gen[..|gen| - 1]), gen[|gen| - 1])
  }

  /** The sequential engine's sampler for a request: one made for its grammar if that parses, else
      the shared one, which remembers earlier generations. */
  function SequentialSampler(m: Model, cfg: Defaults, req: GenerateRequest, shared: Sampler): Sampler {
    if req.grammar != "" && m.parsesGrammar(req.grammar)
    then Sampler(ConfiguredChain(cfg, req.grammar), SeedOf(cfg, ClockAtRequest), [], 0)
    else shared
  }

  /** The sequential engine only draws. */
  function AfterDraws(m: Model, sp: Sampler, gen: seq<Token>): Sampler {
    if gen == [] then sp else AfterSample(m, AfterDraws(m, sp, gen[..|gen| - 1]), gen[|gen| - 1])
  }

  /** Drawing changes neither the chain nor the seed, and counts every draw. */
  lemma {:induction false} AfterDrawsKeeps(m: Model, sp: Sampler, gen: seq<Token>)
    ensures var sq := AfterDraws(m, sp, gen);
      sq.chain == sp.chain && sq.seed == sp.seed && sq.draws == sp.draws + |gen|
  {
    if gen != [] {
      AfterDrawsKeeps(m, sp, gen[..|gen| - 1]);
    }
  }

  lemma {:induction false} SchedulerSamplerKeeps(m: Model, cfg: Defaults, req: GenerateRequest, gen: seq<Token>)
    ensures var sq := SchedulerSampler(m, cfg, req, gen);
      sq.chain == SchedulerChain(cfg, req) && sq.seed == SeedOf(cfg, ClockAtAdmission) && sq.draws == |gen|
  {
    if gen != [] {
      SchedulerSamplerKeeps(m, cfg, req, gen[..|gen| - 1]);
    }
  }

  /** The token the scheduler samples after `gen`, on the cache of a cold prefill and `gen`. */
  function NextToken(m: Model, cfg: Defaults, req: GenerateRequest, gen: seq<Token>): Token {
    m.sample(SchedulerSampler(m, cfg, req, gen), Cells(req.tokens + gen))
  }

  /** The token the sequential engine samples after `gen`, having begun with sampler `sp`. */
  function NextSequential(m: Model, sp: Sampler, req: GenerateRequest, gen: seq<Token>): Token {
    m.sample(AfterDraws(m, sp, gen), Cells(req.tokens + gen))
  }

  // ---- the two loops ----

  /** The sequential engine: the limit guards the loop, and the request's own stop strings
      count. */
  function SequentialFrom(m: Model, cfg: Defaults, sp: Sampler, req: GenerateRequest, gen: seq<Token>): Outcome
    decreases MaxNew(cfg, req) - |gen|
  {
    if |gen| >= MaxNew(cfg, req) then Outcome(gen, Text(m, gen), "length")
    else
      var id := NextSequential(m, sp, req, gen);
      if m.isEog(id) then Outcome(gen, Text(m, gen), "stop")
      else
        var gen' := gen + [id];
        if id in req.stopTokens || MatchesStop(cfg.stop, Text(m, gen')) || MatchesStop(req.stop, Text(m, gen')) then
          Outcome(gen', Text(m, gen'), if |gen'| >= MaxNew(cfg, req) then "length" else "stop")
        else SequentialFrom(m, cfg, sp, req, gen')
  }

  /** The engine's answer when its shared sampler is `shared`. */
  function Sequential(m: Model, cfg: Defaults, shared: Sampler, req: GenerateRequest): Outcome {
    SequentialFrom(m, cfg, SequentialSampler(m, cfg, req, shared), req, [])
  }

  /** The sequential loop only ever appends. */
  lemma {:induction false} SequentialExtends(m: Model, cfg: Defaults, sp: Sampler, req: GenerateRequest,
                                             gen: seq<Token>)
    ensures gen <= SequentialFrom(m, cfg, sp, req, gen).tokens
    ensures SequentialFrom(m, cfg, sp, req, gen).text == Text(m, SequentialFrom(m, cfg, sp, req, gen).tokens)
    decreases MaxNew(cfg, req) - |gen|
  {
    hide Text, MatchesStop, NextSequential;
    if |gen| < MaxNew(cfg, req) && !m.isEog(NextSequential(m, sp, req, gen)) {
      SequentialExtends(m, cfg, sp, req, gen + [NextSequential(m, sp, req, gen)]);
    }
  }

  /** Whether the scheduler goes on after sampling the last token of `gen`. */
  predicate GoesOn(m: Model, cfg: Defaults, req: GenerateRequest, gen: seq<Token>)
    requires gen != []
  {
    |gen| < MaxNew(cfg, req) && gen[|gen| - 1] !in req.stopTokens && !MatchesStop(cfg.stop, Text(m, gen))
  }

  /** The scheduler, alone with one request: it samples first and only looks at the
      configured stop strings. */
  function SoloFrom(m: Model, cfg: Defaults, req: GenerateRequest, gen: seq<Token>): Outcome
    requires |gen| < Budget(cfg, req)
    decreases Budget(cfg, req) - |gen|
  {
    var id := NextToken(m, cfg, req, gen);
    if m.isEog(id) then Outcome(gen, Text(m, gen), "stop")
    else
      var gen' := gen + [id];
      if GoesOn(m, cfg, req, gen') then SoloFrom(m, cfg, req, gen')
      else Outcome(gen', Text(m, gen'), if |gen'| >= MaxNew(cfg, req) then "length" else "stop")
  }

  /** A request on its own in the scheduler. */
  function Solo(m: Model, cfg: Defaults, req: GenerateRequest): Outcome {
    SoloFrom(m, cfg, req, [])
  }

  /** What is generated from `gen` on extends `gen`, within the budget, and its text is the
      text of its tokens. */
  lemma {:induction false} SoloExtends(m: Model, cfg: Defaults, req: GenerateRequest, gen: seq<Token>)
    requires |gen| < Budget(cfg, req)
    ensures gen <= SoloFrom(m, cfg, req, gen).tokens
    ensures |SoloFrom(m, cfg, req, gen).tokens| <= Budget(cfg, req)
    ensures SoloFrom(m, cfg, req, gen).text == Text(m, SoloFrom(m, cfg, req, gen).tokens)
    decreases Budget(cfg, req) - |gen|
  {
    var id := NextToken(m, cfg, req, gen);
    if !m.isEog(id) && GoesOn(m, cfg, req, gen + [id]) {
      SoloExtends(m, cfg, req, gen + [id]);
    }
  }

  // ---- what a generation is, on the fields of the request and the configuration ----

  /** A stop id or a stop string ends the generation here. */
  ghost predicate StopsHere(m: Model, ids: seq<Token>, stops: seq<string>, gen: seq<Token>) {
    gen != [] && (gen[|gen| - 1] in ids || MatchesStop(stops, Text(m, gen)))
  }

  /** No token comes after the limit, an end of generation or a stop. */
  ghost predicate Within(m: Model, ids: seq<Token>, stops: seq<string>, limit: int, gen: seq<Token>) {
    forall k :: 0 <= k < |gen| ==> k < limit && !m.isEog(gen[k]) && !StopsHere(m, ids, stops, gen[..k])
  }

  /** Every token is the one drawn after those before it. */
  ghost predicate DrawnBy(next: seq<Token> -> Token, gen: seq<Token>) {
    forall k :: 0 <= k < |gen| ==> gen[k] == next(gen[..k])
  }

  /** A whole generation: drawn by `next`, and ended by the limit, a stop or an end of generation,
      whichever comes first. */
  ghost predicate Generated(m: Model, next: seq<Token> -> Token, ids: seq<Token>, stops: seq<string>, limit: int,
                            gen: seq<Token>)
  {
    && DrawnBy(next, gen) && Within(m, ids, stops, limit, gen)
    && (|gen| >= limit || StopsHere(m, ids, stops, gen) || m.isEog(next(gen)))
  }

  lemma WithinSnoc(m: Model, ids: seq<Token>, stops: seq<string>, limit: int, gen: seq<Token>, id: Token)
    requires Within(m, ids, stops, limit, gen)
    requires !StopsHere(m, ids, stops, gen) && |gen| < limit && !m.isEog(id)
    ensures Within(m, ids, stops, limit, gen + [id])
  {
    hide StopsHere;
    var more := gen + [id];
    assert gen[..|gen|] == gen;
    assert forall k :: 0 <= k <= |gen| ==> more[..k] == gen[..k];
  }

  lemma DrawnSnoc(next: seq<Token> -> Token, gen: seq<Token>)
    requires DrawnBy(next, gen)
    ensures DrawnBy(next, gen + [next(gen)])
  {
    var more := gen + [next(gen)];
    assert gen[..|gen|] == gen;
    assert forall k :: 0 <= k <= |gen| ==> more[..k] == gen[..k];
  }

  /** That determines the generation. */
  lemma GeneratedUnique(m: Model, next: seq<Token> -> Token, ids: seq<Token>, stops: seq<string>, limit: int,
                        gen: seq<Token>, other: seq<Token>)
    requires Generated(m, next, ids, stops, limit, gen) && Generated(m, next, ids, stops, limit, other)
    ensures gen == other
  {
    hide StopsHere, DrawnBy;
    if |gen| <= |other| {
      SamePrefix(next, gen, other, |gen|);
      assert gen[..|gen|] == gen;
      if |gen| < |other| {
        NextOf(next, other, |gen|);
      }
    } else {
      SamePrefix(next, other, gen, |other|);
      assert other[..|other|] == other;
      NextOf(next, gen, |other|);
    }
  }

  lemma NextOf(next: seq<Token> -> Token, gen: seq<Token>, k: nat)
    requires DrawnBy(next, gen) && k < |gen|
    ensures gen[k] == next(gen[..k])
  {
  }

  lemma {:induction false} SamePrefix(next: seq<Token> -> Token, gen: seq<Token>, other: seq<Token>, n: nat)
    requires DrawnBy(next, gen) && DrawnBy(next, other) && n <= |gen| <= |other|
    ensures gen[..n] == other[..n]
  {
    if n > 0 {
      SamePrefix(next, gen, other, n - 1);
      NextOf(next, gen, n - 1);
      NextOf(next, other, n - 1);
      hide DrawnBy;
      assert gen[..n] == gen[..n - 1] + [gen[n - 1]] && other[..n] == other[..n - 1] + [other[n - 1]];
    }
  }

  /** The limit bounds a generation, and without an end or a stop it is reached. */
  lemma WithinLimit(m: Model, ids: seq<Token>, stops: seq<string>, limit: int, gen: seq<Token>)
    requires Within(m, ids, stops, limit, gen)
    ensures |gen| <= if limit > 0 then limit else 0
    ensures ids == [] && stops == [] ==> !StopsHere(m, ids, stops, gen)
  {
    if gen != [] {
      assert !m.isEog(gen[|gen| - 1]);
    }
  }

  /** The sequential engine's answer, on the fields: drawn with the sampler the request gets, up to the
      request's limit or else the configured one; the request's stop strings and the configured ones
      count. */
  ghost predicate IsSequentialAnswer(m: Model, cfg: Defaults, shared: Sampler, req: GenerateRequest, out: Outcome) {
    var limit := if req.maxTokens > 0 then req.maxTokens else cfg.maxTokens;
    var sp :=
      if req.grammar != "" && m.parsesGrammar(req.grammar)
      then Sampler(ConfiguredChain(cfg, req.grammar), SeedOf(cfg, ClockAtRequest), [], 0) else shared;
    && Generated(m, gen => NextSequential(m, sp, req, gen), req.stopTokens, cfg.stop + req.stop, limit, out.tokens)
    && out.text == Text(m, out.tokens) && out.finish == if |out.tokens| >= limit then "length" else "stop"
  }

  /** The loop's answer is that one. */
  lemma SequentialGenerates(m: Model, cfg: Defaults, shared: Sampler, req: GenerateRequest)
    ensures IsSequentialAnswer(m, cfg, shared, req, Sequential(m, cfg, shared, req))
    ensures var out := Sequential(m, cfg, shared, req);
      var limit := if req.maxTokens > 0 then req.maxTokens else if cfg.maxTokens > 0 then cfg.maxTokens else 0;
      && |out.tokens| <= limit
      && ((forall id :: !m.isEog(id)) && req.stopTokens == [] && req.stop == [] && cfg.stop == [] ==>
            |out.tokens| == limit && out.finish == "length")
  {
    var sp := SequentialSampler(m, cfg, req, shared);
    SequentialFromGenerates(m, cfg, sp, req, gen => NextSequential(m, sp, req, gen), []);
    WithinLimit(m, req.stopTokens, cfg.stop + req.stop,
                if req.maxTokens > 0 then req.maxTokens else cfg.maxTokens, Sequential(m, cfg, shared, req).tokens);
  }

  /** One turn of the loop. */
  lemma SequentialStep(m: Model, cfg: Defaults, sp: Sampler, req: GenerateRequest, gen: seq<Token>)
    ensures |gen| >= MaxNew(cfg, req) ==> SequentialFrom(m, cfg, sp, req, gen) == Outcome(gen, Text(m, gen), "length")
    ensures |gen| < MaxNew(cfg, req) ==>
      var id := NextSequential(m, sp, req, gen);
      && (m.isEog(id) ==> SequentialFrom(m, cfg, sp, req, gen) == Outcome(gen, Text(m, gen), "stop"))
      && (!m.isEog(id) ==>
            SequentialFrom(m, cfg, sp, req, gen) ==
            if id in req.stopTokens || MatchesStop(cfg.stop, Text(m, gen + [id]))
               || MatchesStop(req.stop, Text(m, gen + [id]))
            then Outcome(gen + [id], Text(m, gen + [id]), if |gen| + 1 >= MaxNew(cfg, req) then "length" else "stop")
            else SequentialFrom(m, cfg, sp, req, gen + [id]))
  {
  }

  lemma EitherStops(m: Model, ids: seq<Token>, a: seq<string>, b: seq<string>, gen: seq<Token>)
    requires gen != []
    ensures StopsHere(m, ids, a + b, gen) <==>
      gen[|gen| - 1] in ids || MatchesStop(a, Text(m, gen)) || MatchesStop(b, Text(m, gen))
  {
    hide Text, EndsWith;
    var text := Text(m, gen);
    if k :| 0 <= k < |b| && b[k] != "" && EndsWith(text, b[k]) {
      assert (a + b)[|a| + k] == b[k];
    }
    if k :| 0 <= k < |a| && a[k] != "" && EndsWith(text, a[k]) {
      assert (a + b)[k] == a[k];
    }
  }

  lemma {:induction false} SequentialFromGenerates(m: Model, cfg: Defaults, sp: Sampler, req: GenerateRequest,
                                                   next: seq<Token> -> Token, gen: seq<Token>)
    requires forall g :: next(g) == NextSequential(m, sp, req, g)
    requires DrawnBy(next, gen) && !StopsHere(m, req.stopTokens, cfg.stop + req.stop, gen)
    requires Within(m, req.stopTokens, cfg.stop + req.stop,
                    if req.maxTokens > 0 then req.maxTokens else cfg.maxTokens, gen)
    ensures var limit := if req.maxTokens > 0 then req.maxTokens else cfg.maxTokens;
      var out := SequentialFrom(m, cfg, sp, req, gen);
      && Generated(m, next, req.stopTokens, cfg.stop + req.stop, limit, out.tokens)
      && out.text == Text(m, out.tokens) && out.finish == if |out.tokens| >= limit then "length" else "stop"
    decreases MaxNew(cfg, req) - |gen|
  {
    hide NextSequential, Text, MatchesStop, StopsHere, DrawnBy, Within;
    var limit := if req.maxTokens > 0 then req.maxTokens else cfg.maxTokens;
    var id := NextSequential(m, sp, req, gen);
    if |gen| < limit && !m.isEog(id) {
      WithinSnoc(m, req.stopTokens, cfg.stop + req.stop, limit, gen, id);
      DrawnSnoc(next, gen);
      EitherStops(m, req.stopTokens, cfg.stop, req.stop, gen + [id]);
      if !StopsHere(m, req.stopTokens, cfg.stop + req.stop, gen + [id]) {
        SequentialFromGenerates(m, cfg, sp, req, next, gen + [id]);
      }
    }
  }

  /** What the scheduler may have generated for a request, on the fields: the request's limit or else
      the configured one, but at least one token; only the configured stop strings count. */
  ghost predicate SoFar(m: Model, cfg: Defaults, req: GenerateRequest, gen: seq<Token>) {
    var limit := if req.maxTokens > 0 then req.maxTokens else cfg.maxTokens;
    Within(m, req.stopTokens, cfg.stop, if limit > 1 then limit else 1, gen)
  }

  /** And what ends it, with the finish reason. */
  ghost predicate Ended(m: Model, cfg: Defaults, req: GenerateRequest, gen: seq<Token>, finish: string) {
    var limit := if req.maxTokens > 0 then req.maxTokens else cfg.maxTokens;
    && SoFar(m, cfg, req, gen)
    && ((gen != [] && |gen| >= limit) || StopsHere(m, req.stopTokens, cfg.stop, gen) || exists id :: m.isEog(id))
    && finish == if gen != [] && |gen| >= limit then "length" else "stop"
  }

  /** The number of tokens of an answer of the scheduler: at most the limit, and on a model that does not
      end generation, without stops, exactly the limit. */
  lemma EndedWithin(m: Model, cfg: Defaults, req: GenerateRequest, gen: seq<Token>, finish: string)
    requires SoFar(m, cfg, req, gen)
    ensures req.maxTokens > 0 ==> |gen| <= req.maxTokens
    ensures req.maxTokens <= 0 ==> |gen| <= if cfg.maxTokens > 1 then cfg.maxTokens else 1
    ensures Ended(m, cfg, req, gen, finish) && (forall id :: !m.isEog(id)) && req.stopTokens == [] && cfg.stop == [] ==>
      && finish == "length"
      && |gen| == if req.maxTokens > 0 then req.maxTokens else if cfg.maxTokens > 1 then cfg.maxTokens else 1
  {
    var limit := if req.maxTokens > 0 then req.maxTokens else cfg.maxTokens;
    WithinLimit(m, req.stopTokens, cfg.stop, if limit > 1 then limit else 1, gen);
  }

  /** A token that does not end the request, one that does, and an end of generation. */
  lemma SoFarStep(m: Model, cfg: Defaults, req: GenerateRequest, gen: seq<Token>, id: Token)
    requires SoFar(m, cfg, req, gen) && |gen| < Budget(cfg, req) && !StopsHere(m, req.stopTokens, cfg.stop, gen)
    ensures !m.isEog(id) ==> SoFar(m, cfg, req, gen + [id])
    ensures !m.isEog(id) && GoesOn(m, cfg, req, gen + [id]) ==> !StopsHere(m, req.stopTokens, cfg.stop, gen + [id])
    ensures !m.isEog(id) && !GoesOn(m, cfg, req, gen + [id]) ==>
      Ended(m, cfg, req, gen + [id], if |gen| + 1 >= MaxNew(cfg, req) then "length" else "stop")
    ensures m.isEog(id) ==> Ended(m, cfg, req, gen, "stop")
  {
    hide Text, MatchesStop, Within;
    var limit := if req.maxTokens > 0 then req.maxTokens else cfg.maxTokens;
    if !m.isEog(id) {
      WithinSnoc(m, req.stopTokens, cfg.stop, if limit > 1 then limit else 1, gen, id);
    }
  }

  lemma SoFarNothing(m: Model, cfg: Defaults, req: GenerateRequest)
    ensures SoFar(m, cfg, req, []) && !StopsHere(m, req.stopTokens, cfg.stop, [])
  {
  }

  /** The scheduler's answer for a request on its own: drawn with the request's own sampler. */
  lemma SoloGenerates(m: Model, cfg: Defaults, req: GenerateRequest)
    ensures var out, limit := Solo(m, cfg, req), if req.maxTokens > 0 then req.maxTokens else cfg.maxTokens;
      && Generated(m, gen => NextToken(m, cfg, req, gen), req.stopTokens, cfg.stop,
                   if limit > 1 then limit else 1, out.tokens)
      && out.text == Text(m, out.tokens)
      && out.finish == if out.tokens != [] && |out.tokens| >= limit then "length" else "stop"
  {
    SoloFromGenerates(m, cfg, req, gen => NextToken(m, cfg, req, gen), []);
  }

  lemma {:induction false} SoloFromGenerates(m: Model, cfg: Defaults, req: GenerateRequest,
                                             next: seq<Token> -> Token, gen: seq<Token>)
    requires forall g :: next(g) == NextToken(m, cfg, req, g)
    requires |gen| < Budget(cfg, req) && DrawnBy(next, gen)
    requires !StopsHere(m, req.stopTokens, cfg.stop, gen)
    requires var limit := if req.maxTokens > 0 then req.maxTokens else cfg.maxTokens;
      Within(m, req.stopTokens, cfg.stop, if limit > 1 then limit else 1, gen)
    ensures var limit := if req.maxTokens > 0 then req.maxTokens else cfg.maxTokens;
      var out := SoloFrom(m, cfg, req, gen);
      && Generated(m, next, req.stopTokens, cfg.stop, if limit > 1 then limit else 1, out.tokens)
      && out.text == Text(m, out.tokens)
      && out.finish == if out.tokens != [] && |out.tokens| >= limit then "length" else "stop"
    decreases Budget(cfg, req) - |gen|
  {
    hide NextToken, Text, MatchesStop, StopsHere, DrawnBy, Within;
    var limit := if req.maxTokens > 0 then req.maxTokens else cfg.maxTokens;
    var id := NextToken(m, cfg, req, gen);
    if !m.isEog(id) {
      WithinSnoc(m, req.stopTokens, cfg.stop, if limit > 1 then limit else 1, gen, id);
      DrawnSnoc(next, gen);
      GoesOnIff(m, cfg, req, gen + [id]);
      if GoesOn(m, cfg, req, gen + [id]) {
        SoloFromGenerates(m, cfg, req, next, gen + [id]);
      }
    }
  }

  lemma GoesOnIff(m: Model, cfg: Defaults, req: GenerateRequest, gen: seq<Token>)
    requires gen != []
    ensures GoesOn(m, cfg, req, gen) <==>
      |gen| < MaxNew(cfg, req) && !StopsHere(m, req.stopTokens, cfg.stop, gen)
  {
  }
}
