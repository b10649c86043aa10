/** A run of the scheduler in which prefix reuse skips a position: a session's first request ends at
    its length limit, and the second one continues past its answer. */
module SessionReuse {
  import opened Common
  import opened Llama
  import opened Generation
  import opened Transparency
  import opened Slots
  import opened Promises
  import opened SlotSteps
  import opened BatchScheduler

  /** A request that may generate one token, of a session, on a model that never ends generation. */
  ghost predicate OneToken(m: Model, cfg: Defaults, req: GenerateRequest) {
    (forall id :: !m.isEog(id)) && MaxNew(cfg, req) == 1 && req.sessionId != "" && req.tokens != []
  }

  lemma SoloOneToken(m: Model, cfg: Defaults, req: GenerateRequest)
    requires OneToken(m, cfg, req)
    ensures Solo(m, cfg, req).tokens == [NextToken(m, cfg, req, [])]
  {
    hide NextToken;
    assert [] + [NextToken(m, cfg, req, [])] == [NextToken(m, cfg, req, [])];
  }

  method AdmitFirst(sched: ContinuousBatchScheduler, first: GenerateRequest)
    requires sched.Valid() && |sched.slots| == 1 && sched.slots[0].IsFree() && sched.maxQueue == 1
    requires sched.queue == [] && sched.submitted == [] && 0 < |first.tokens| < sched.ctx.nCtx
    modifies sched, sched.ctx
    ensures sched.Valid() && |sched.slots| == 1 && sched.submitted == [first] && sched.queue == []
    ensures sched.slots[0].IsBusy() && sched.slots[0].promise == 0 && sched.slots[0].nDecoded == 0 && !sched.gapped[0]
  {
    hide SlotInv, Books, Trim, ReuseView, Cells, IsCommonPrefix;
    var promise := sched.Submit(first);
    assert !exists j, p :: Reusable(sched.slots, first, j, p);
    var sel, prefixLen := sched.SelectSlot(first);
    if sel == -1 {
      assert false;  // the only slot is free
    }
    sched.AdmitHead(sel, prefixLen);
  }

  /** The first request's only step. */
  method FirstStep(sched: ContinuousBatchScheduler, first: GenerateRequest) returns (failedAt: int)
    requires sched.Valid() && |sched.slots| == 1 && sched.submitted == [first] && sched.queue == []
    requires sched.slots[0].IsBusy() && sched.slots[0].promise == 0 && sched.slots[0].nDecoded == 0 && !sched.gapped[0]
    requires OneToken(sched.ctx.model, sched.cfg, first)
    modifies sched`slots, sched`fate, sched`clock, sched.ctx
    ensures sched.Valid() && |sched.slots| == 1
    ensures failedAt == -1 ==>
      && sched.slots[0].IsWarm() && sched.slots[0].cachedSessionId == first.sessionId
      && sched.slots[0].cachedTokens == first.tokens + [NextToken(sched.ctx.model, sched.cfg, first, [])]
  {
    hide SlotInv, Books, NextToken, Serving, Justified, Ledger;
    sched.LedgerAtLoopTop(0);
    BusySession(sched, first);
    var batch := sched.BuildBatch();
    ghost var attempts;
    failedAt, attempts := sched.DecodeBatch(batch);
    sched.WithinBudget();
    if failedAt == -1 {
      sched.AnswersJustified(0);
      JustifiedSolo(sched.ctx.model, sched.cfg, sched.ctx.nCtx, first, sched.fate[0].result);
      SoloOneToken(sched.ctx.model, sched.cfg, first);
    }
  }

  lemma BusySession(sched: ContinuousBatchScheduler, first: GenerateRequest)
    requires sched.Valid() && |sched.slots| == 1 && sched.submitted == [first]
    requires sched.slots[0].IsBusy() && sched.slots[0].promise == 0 && sched.slots[0].nDecoded == 0
    ensures sched.slots[0].cachedSessionId == first.sessionId && sched.slots[0].nPrompt == |first.tokens|
    ensures sched.slots[0].cachedTokens == first.tokens
  {
    hide SlotInv, Books;
    assert sched.SlotOk(0, [], 0, 0);
    BusySlot(sched.ctx.model, sched.cfg, sched.slots[0], 0, sched.ctx.kv[0], sched.submitted, sched.gapped[0],
             [], 0, 0);
    assert first.tokens + [] == first.tokens;
  }

  lemma JustifiedSolo(m: Model, cfg: Defaults, nCtx: nat, req: GenerateRequest, res: GenerateResult)
    requires Justified(m, cfg, nCtx, req, res, false) && res.error == Ok
    ensures res.tokens == Solo(m, cfg, req).tokens
  {
  }

  /** The second request takes the warm slot, and its cache has a hole. */
  method AdmitContinuation(sched: ContinuousBatchScheduler, second: GenerateRequest)
    requires sched.Valid() && |sched.slots| == 1 && sched.slots[0].IsWarm() && !sched.gapped[0]
    requires |sched.queue| < sched.maxQueue && sched.queue == []
    requires second.sessionId == sched.slots[0].cachedSessionId != ""
    requires forall id :: !sched.ctx.model.isEog(id)
    requires MIN_REUSE_PREFIX_TOKS <= |sched.slots[0].cachedTokens| < |second.tokens| < sched.ctx.nCtx
    requires sched.slots[0].cachedTokens <= second.tokens
    modifies sched, sched.ctx
    ensures sched.Valid() && sched.submitted == old(sched.submitted) + [second]
    ensures |sched.slots| == 1 && sched.slots[0].IsBusy() && sched.slots[0].promise == |old(sched.submitted)|
    ensures sched.gapped[0]
  {
    hide SlotInv, Books, Trim, ReuseView, Cells;
    var promise := sched.Submit(second);
    ghost var s, cells, p := sched.slots[0], sched.ctx.kv[0], |sched.slots[0].cachedTokens|;
    assert Reusable(sched.slots, second, 0, p);
    assert sched.SlotOk(0, [], 0, 0);
    WarmReuseIff(sched.ctx.model, sched.cfg, s, 0, cells, sched.submitted, second.tokens, p);
    var sel, prefixLen := sched.SelectSlot(second);
    CommonPrefixUnique(s.cachedTokens, second.tokens, p, prefixLen);
    assert sched.ctx.kv[0] == cells;
    sched.AdmitHead(sel, prefixLen);
  }

  /** One slot, one queue place, and a model that never ends generation.  When the first request's
      step succeeds, the second request is admitted with a hole: its first sample will not see the
      cache of a cold prefill. */
  method ContinueAfterLength(m: Model, cfg: Defaults, nCtx: nat, first: GenerateRequest, more: seq<Token>)
    returns (sched: ContinuousBatchScheduler, failedAt: int)
    requires OneToken(m, cfg, first) && |first.tokens| + 1 >= MIN_REUSE_PREFIX_TOKS
    requires more != [] && |first.tokens| + 1 + |more| < nCtx
    ensures sched.Valid() && sched.ctx.model == m && sched.cfg == cfg && |sched.slots| == 1
    ensures failedAt == -1 ==>
      && |sched.submitted| == 2 && sched.slots[0].IsBusy() && sched.slots[0].promise == 1 && sched.gapped[0]
      && sched.submitted[1].tokens == first.tokens + [NextToken(m, cfg, first, [])] + more
  {
    hide SlotInv, Books, NextToken;
    var ctx := new LlamaContext(m, nCtx, nCtx, 1);
    sched := new ContinuousBatchScheduler(ctx, cfg, 1, 1);
    AdmitFirst(sched, first);
    failedAt := FirstStep(sched, first);
    if failedAt == -1 {
      AdmitContinuation(sched, first.(tokens := sched.slots[0].cachedTokens + more));
    }
  }
}
