/** The CPU engine's own generate loop: the sequential reference. */
module GgmlEngineModule {
  import opened Common
  import opened Llama
  import opened Generation

  class GgmlEngine {
    const cfg: Defaults
    const ctx: LlamaContext
    var loaded: bool
    /** The context's sampler, shared by all generations and never reset. */
    var sampler: Sampler

    ghost predicate Valid()
      reads this, ctx
    {
      && ctx.nBatch >= 1 && |ctx.kv| >= 1
      && sampler.chain == ConfiguredChain(cfg, "") && sampler.seed == SeedOf(cfg, ClockAtLoad)
    }

    constructor (cfg: Defaults, ctx: LlamaContext)
      requires ctx.nBatch >= 1 && |ctx.kv| >= 1
      ensures Valid() && this.cfg == cfg && this.ctx == ctx && loaded
      ensures sampler.accepted == [] && sampler.draws == 0
    {
      this.cfg := cfg;
      this.ctx := ctx;
      sampler := Sampler(ConfiguredChain(cfg, ""), SeedOf(cfg, ClockAtLoad), [], 0);
      loaded := true;
    }

    /** llama_batch_get_one followed by llama_decode: positions continue from the cache. */
    method DecodeNext(toks: seq<Token>, chunk: seq<Token>) returns (ret: int)
      requires Valid() && ctx.kv[0] == Cells(toks) && |chunk| <= ctx.nBatch
      modifies ctx
      ensures Valid()
      ensures ret == 0 ==> ctx.kv[0] == Cells(toks + chunk)
      ensures |ctx.log| == |old(ctx.log)| + 1 && old(ctx.log) <= ctx.log
      ensures ctx.log[|old(ctx.log)|].ret == ret && |ctx.log[|old(ctx.log)|].view| == |chunk|
      ensures forall k :: 0 <= k < |chunk| ==>
        ctx.log[|old(ctx.log)|].view[k] == Entry(chunk[k], |toks| + k, 0, k == |chunk| - 1)
    {
      var base := |ctx.kv[0]|;
      var view := seq(|chunk|, k requires 0 <= k < |chunk| => Entry(chunk[k], base + k, 0, k == |chunk| - 1));
      CellsOfRun(view, base, chunk);
      ret := ctx.Decode(view);
      if ret == 0 {
        assert ctx.kv[0] == Cells(toks + chunk);
      }
    }

    /** The prefill loop: the prompt in chunks of at most nBatch. */
    method Prefill(toks: seq<Token>) returns (ok: bool)
      requires Valid()
      modifies ctx
      ensures Valid() && old(ctx.log) <= ctx.log
      ensures Chunked(ctx.log[|old(ctx.log)|..], toks, ctx.nBatch)
      ensures ok ==> ctx.kv[0] == Cells(toks) && AllDecoded(ctx.log, |old(ctx.log)|, |ctx.log|)
      ensures !ok ==> FailedFeeding(ctx.log, |old(ctx.log)|, 0, |toks|)
    {
      hide FedUpTo, Chunked, Feeds;
      ctx.Clear();
      assert ctx.kv[0] == Cells([]);
      var off := 0;
      ghost var n := |ctx.log|;
      NothingFed(ctx.log[n..], toks, ctx.nBatch);
      hide Cells;
      while off < |toks|
        invariant Valid() && 0 <= off && old(ctx.log) <= ctx.log
        invariant FedUpTo(ctx.log[n..], toks, ctx.nBatch, off)
        invariant AllDecoded(ctx.log, |old(ctx.log)|, |ctx.log|)
        invariant ctx.kv[0] == Cells(if off < |toks| then toks[..off] else toks)
      {
        var chunk := if ctx.nBatch < |toks| - off then ctx.nBatch else |toks| - off;
        ghost var before := ctx.log;
        var ret := DecodeNext(toks[..off], toks[off..off + chunk]);
        FedFurther(before, n, toks, ctx.nBatch, off, ctx.log, toks[off..off + chunk]);
        AllFed(ctx.log[n..], toks, ctx.nBatch, off + ctx.nBatch);
        if ret != 0 {
          return false;
        }
        assert toks[..off] + toks[off..off + chunk] == toks[..off + chunk];
        assert off + chunk == |toks| ==> toks[..off + chunk] == toks;
        off := off + ctx.nBatch;
      }
      AllFed(ctx.log[n..], toks, ctx.nBatch, off);
      return true;
    }

    /** The decode loop with the sampler it starts with; the source's `break`s are returns. */
    method DecodeLoop(req: GenerateRequest, start: Sampler)
      returns (gen: seq<Token>, text: string, error: ErrorCode, sp: Sampler)
      requires Valid() && ctx.kv[0] == Cells(req.tokens)
      modifies ctx
      ensures Valid() && old(ctx.log) <= ctx.log
      ensures error == Ok ==> AllDecoded(ctx.log, |old(ctx.log)|, |ctx.log|)
      ensures error != Ok ==> gen != [] && FailedFeeding(ctx.log, |old(ctx.log)|,
                                                         |req.tokens| + |gen| - 1, |req.tokens| + |gen|)
      ensures error in {Ok, InternalError}
      ensures gen <= SequentialFrom(ctx.model, cfg, start, req, []).tokens && text == Text(ctx.model, gen)
      ensures error == Ok ==>
        SequentialFrom(ctx.model, cfg, start, req, [])
        == Outcome(gen, text, if |gen| >= MaxNew(cfg, req) then "length" else "stop")
      ensures DrewAll(ctx.model, start, gen, sp)
    {
      hide SequentialFrom, Text, MatchesStop;
      var m := ctx.model;
      var maxNew := MaxNew(cfg, req);
      gen, text, error, sp := [], "", Ok, start;
      assert req.tokens + [] == req.tokens;
      NoText(m);
      while |gen| < maxNew
        invariant Valid() && error == Ok && old(ctx.log) <= ctx.log
        invariant AllDecoded(ctx.log, |old(ctx.log)|, |ctx.log|)
        invariant ctx.kv[0] == Cells(req.tokens + gen)
        invariant text == Text(m, gen) && sp == AfterDraws(m, start, gen)
        invariant SequentialFrom(m, cfg, start, req, []) == SequentialFrom(m, cfg, start, req, gen)
        decreases maxNew - |gen|
      {
        SequentialExtends(m, cfg, start, req, gen);
        SequentialStep(m, cfg, start, req, gen);
        var id := m.sample(sp, ctx.kv[0]);
        sp := AfterSample(m, sp, id);
        if m.isEog(id) {
          return;
        }
        ghost var before := gen;
        text := text + m.piece(id);
        gen := gen + [id];
        assert gen[..|gen| - 1] == before;
        TextGrows(m, before, id);
        var stopById := IsStopToken(req.stopTokens, id);
        var stopByConfig := AnyStopMatches(cfg.stop, text);
        var stopByRequest := AnyStopMatches(req.stop, text);
        if stopById || stopByConfig || stopByRequest {
          return;
        }
        SequentialExtends(m, cfg, start, req, gen);
        assert req.tokens + before + [id] == req.tokens + gen;
        var ret := DecodeNext(req.tokens + gen[..|gen| - 1], [id]);
        if ret != 0 {
          error := InternalError;
          return;
        }
      }
      SequentialStep(m, cfg, start, req, gen);
    }

    /** GgmlEngine::generate on the path without a scheduler.  The shared sampler keeps what this
        generation has done to it. */
    method Generate(req: GenerateRequest) returns (result: GenerateResult)
      requires Valid()
      modifies ctx, this`sampler
      ensures Valid()
      ensures result.error == Ok ==>
        && req.tokens != [] && loaded
        && Outcome(result.tokens, result.text, result.finishReason) == Sequential(ctx.model, cfg, old(sampler), req)
        && result.promptTokens == |req.tokens| && AllDecoded(ctx.log, |old(ctx.log)|, |ctx.log|)
      ensures result.error == Ok ==>
        IsSequentialAnswer(ctx.model, cfg, old(sampler), req, Outcome(result.tokens, result.text, result.finishReason))
      ensures |result.tokens| <=
        if req.maxTokens > 0 then req.maxTokens else if cfg.maxTokens > 0 then cfg.maxTokens else 0
      ensures result.error == Ok && (forall id :: !ctx.model.isEog(id)) && req.stopTokens == [] && req.stop == []
              && cfg.stop == [] ==>
        && result.finishReason == "length"
        && |result.tokens| ==
           if req.maxTokens > 0 then req.maxTokens else if cfg.maxTokens > 0 then cfg.maxTokens else 0
      ensures result.error == InternalError ==>
        FailedFeeding(ctx.log, |old(ctx.log)|, if result.tokens == [] then 0 else |req.tokens| + |result.tokens| - 1,
                      |req.tokens| + |result.tokens|)
      ensures result.error == InvalidArgument <==> req.tokens == []
      ensures result.error == NotFound <==> req.tokens != [] && !loaded
      ensures result.error in {Ok, InvalidArgument, NotFound, InternalError}
      ensures result.tokens <= Sequential(ctx.model, cfg, old(sampler), req).tokens
      ensures result.text == Text(ctx.model, result.tokens) && result.generatedTokens == |result.tokens|
      ensures sampler == old(sampler) || DrewAll(ctx.model, old(sampler), result.tokens, sampler)
      ensures req.grammar == "" || !ctx.model.parsesGrammar(req.grammar) ==>
        (result.error == Ok || result.tokens != [] ==> DrewAll(ctx.model, old(sampler), result.tokens, sampler))
      ensures req.grammar != "" && ctx.model.parsesGrammar(req.grammar) ==> sampler == old(sampler)
    {
      hide SequentialFrom, IsSequentialAnswer, NextSequential;
      if req.tokens == [] {
        return GenerateResult([], "", 0, 0, InvalidArgument, "stop");
      }
      if !loaded {
        return GenerateResult([], "", 0, 0, NotFound, "stop");
      }
      var prefilled := Prefill(req.tokens);
      if !prefilled {
        return GenerateResult([], "", 0, 0, InternalError, "stop");
      }
      var ownSampler := req.grammar != "" && ctx.model.parsesGrammar(req.grammar);
      var start := SequentialSampler(ctx.model, cfg, req, sampler);
      var gen, text, error, sp := DecodeLoop(req, start);
      if !ownSampler {
        AfterDrawsKeeps(ctx.model, start, gen);
        sampler := sp;
      }
      SequentialGenerates(ctx.model, cfg, old(sampler), req);
      var finish := if error != Ok then "error" else if |gen| >= MaxNew(cfg, req) then "length" else "stop";
      result := GenerateResult(gen, text, |req.tokens|, |gen|, error, finish);
    }
  }

  /** The calls feed the prompt in order, nBatch tokens at a time, the rest in the last one. */
  ghost predicate Chunked(calls: seq<DecodeCall>, toks: seq<Token>, nBatch: nat) {
    forall k :: 0 <= k < |calls| ==> Feeds(calls[k].view, toks, k * nBatch, nBatch)
  }

  ghost predicate Feeds(view: seq<Entry>, toks: seq<Token>, off: nat, nBatch: nat) {
    && off < |toks| && |view| == (if nBatch < |toks| - off then nBatch else |toks| - off)
    && forall j :: 0 <= j < |view| ==> view[j] == Entry(toks[off + j], off + j, 0, j == |view| - 1)
  }

  /** The calls so far have fed the prompt up to `off`. */
  ghost predicate FedUpTo(calls: seq<DecodeCall>, toks: seq<Token>, nBatch: nat, off: int) {
    off == |calls| * nBatch && Chunked(calls, toks, nBatch)
  }

  lemma NothingFed(calls: seq<DecodeCall>, toks: seq<Token>, nBatch: nat)
    requires calls == []
    ensures FedUpTo(calls, toks, nBatch, 0) && Chunked(calls, toks, nBatch)
  {
  }

  lemma AllFed(calls: seq<DecodeCall>, toks: seq<Token>, nBatch: nat, off: int)
    requires FedUpTo(calls, toks, nBatch, off)
    ensures Chunked(calls, toks, nBatch)
  {
  }

  /** One more call, of the log since entry n, feeds the next piece. */
  lemma FedFurther(before: seq<DecodeCall>, n: nat, toks: seq<Token>, nBatch: nat, off: nat, log: seq<DecodeCall>,
                   chunk: seq<Token>)
    requires n <= |before| && |log| == |before| + 1 && before <= log && FedUpTo(before[n..], toks, nBatch, off)
    requires off < |toks| && |chunk| == if nBatch < |toks| - off then nBatch else |toks| - off
    requires chunk == toks[off..off + |chunk|] && |log[|before|].view| == |chunk|
    requires forall k :: 0 <= k < |chunk| ==> log[|before|].view[k] == Entry(chunk[k], off + k, 0, k == |chunk| - 1)
    ensures FedUpTo(log[n..], toks, nBatch, off + nBatch)
  {
    assert Feeds(log[|before|].view, toks, off, nBatch);
    hide Feeds;
    assert log[n..] == before[n..] + [log[|before|]];
    assert (|before[n..]| + 1) * nBatch == off + nBatch;
  }

  /** These decode calls succeeded. */
  ghost predicate AllDecoded(log: seq<DecodeCall>, from: nat, to: nat) {
    from <= to <= |log| && forall k :: from <= k < to ==> log[k].ret == 0
  }

  /** Of the calls from `from` on the last one failed and no other; its last position lies in lo..hi. */
  ghost predicate FailedFeeding(log: seq<DecodeCall>, from: nat, lo: int, hi: int) {
    && from < |log| && AllDecoded(log, from, |log| - 1)
    && var last := log[|log| - 1]; last.ret != 0 && last.view != [] && lo <= last.view[|last.view| - 1].pos < hi
  }

  /** The sampler has drawn exactly the tokens generated, and perhaps an end-of-generation token. */
  ghost predicate DrewAll(m: Model, start: Sampler, gen: seq<Token>, sp: Sampler) {
    var drawn := AfterDraws(m, start, gen);
    sp == drawn || exists id :: m.isEog(id) && sp == AfterSample(m, drawn, id)
  }

  /** The cells of a run of consecutive entries of one sequence. */
  lemma {:induction false} CellsOfRun(view: seq<Entry>, base: nat, chunk: seq<Token>)
    requires |view| == |chunk|
    requires forall k :: 0 <= k < |view| ==> view[k].tok == chunk[k] && view[k].pos == base + k && view[k].seqId == 0
    ensures |CellsOf(view, 0)| == |chunk|
    ensures forall k :: 0 <= k < |chunk| ==> CellsOf(view, 0)[k] == Cell(base + k, chunk[k])
  {
    if view != [] {
      CellsOfRun(view[..|view| - 1], base, chunk[..|chunk| - 1]);
    }
  }
}
