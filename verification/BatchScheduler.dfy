/** The continuous-batching scheduler: the queue, the slot pool and the worker's step loop. */
module BatchScheduler {
  import opened Common
  import opened Llama
  import opened Generation
  import opened Transparency
  import opened Slots
  import opened Promises
  import opened SlotSteps

  /** One llama_decode call of a step: where its chunk starts, the chunk limit, the return code. */
  datatype Attempt = Attempt(start: nat, limit: nat, ret: int)

  /** The decode call of an attempt: as much of the batch from its start as its limit allows. */
  ghost predicate CallOf(batch: seq<Entry>, a: Attempt, call: DecodeCall) {
    && a.start <= |batch| && call.ret == a.ret
    && call.view == batch[a.start..if a.start + a.limit <= |batch| then a.start + a.limit else |batch|]
  }

  predicate Fatal(a: Attempt) {
    a.ret < 0 || (a.ret > 0 && a.limit == 1)
  }

  /** The start and the limit that follow these attempts: a success moves on with the full
      limit, a retryable failure stays with half of it. */
  function Planned(max: nat, total: nat, attempts: seq<Attempt>): (int, nat) {
    if attempts == [] then (0, max)
    else
      var a := attempts[|attempts| - 1];
      if a.ret != 0 then (a.start, a.limit / 2)
      else (if a.start + a.limit <= total then a.start + a.limit else total, max)
  }

  /** Every attempt was the planned one, and only the last can be fatal. */
  ghost predicate Retried(max: nat, total: nat, attempts: seq<Attempt>) {
    forall k :: 0 <= k < |attempts| ==>
      && (attempts[k].start as int, attempts[k].limit) == Planned(max, total, attempts[..k])
      && attempts[k].start < total && (k < |attempts| - 1 ==> !Fatal(attempts[k]))
  }

  lemma OneMoreAttempt(max: nat, total: nat, attempts: seq<Attempt>, a: Attempt)
    requires Retried(max, total, attempts) && (attempts != [] ==> !Fatal(attempts[|attempts| - 1]))
    requires (a.start as int, a.limit) == Planned(max, total, attempts) && a.start < total
    ensures Retried(max, total, attempts + [a])
  {
    hide Planned, Fatal;
    var more := attempts + [a];
    assert more[..|attempts|] == attempts;
    assert forall k :: 0 <= k < |attempts| ==> more[..k] == attempts[..k] && more[k] == attempts[k];
  }

  /** The next attempt is planned at `cs` with this limit, and none so far was fatal. */
  ghost predicate OnPlan(max: nat, total: nat, attempts: seq<Attempt>, cs: int, limit: nat) {
    && Retried(max, total, attempts) && Planned(max, total, attempts) == (cs, limit)
    && (attempts != [] ==> !Fatal(attempts[|attempts| - 1]))
  }

  lemma PlanBegins(max: nat, total: nat)
    ensures OnPlan(max, total, [], 0, max)
  {
  }

  lemma PlanEnds(max: nat, total: nat, attempts: seq<Attempt>, cs: int, limit: nat)
    requires OnPlan(max, total, attempts, cs, limit)
    ensures Retried(max, total, attempts) && (attempts != [] ==> !Fatal(attempts[|attempts| - 1]))
  {
  }

  lemma PlanStep(max: nat, total: nat, attempts: seq<Attempt>, cs: nat, limit: nat, ret: int)
    requires OnPlan(max, total, attempts, cs, limit) && cs < total && limit >= 1
    ensures var more := attempts + [Attempt(cs, limit, ret)];
      && Retried(max, total, more) && more[|more| - 1] == Attempt(cs, limit, ret)
      && (ret == 0 ==> OnPlan(max, total, more, if cs + limit <= total then cs + limit else total, max))
      && (ret > 0 && limit != 1 ==> OnPlan(max, total, more, cs, limit / 2))
  {
    hide Retried;
    OneMoreAttempt(max, total, attempts, Attempt(cs, limit, ret));
  }

  class ContinuousBatchScheduler {
    const cfg: Defaults
    const maxQueue: int
    const ctx: LlamaContext

    var slots: seq<Slot>
    var queue: seq<PendingRequest>

    /** The steady clock's last reading, in microseconds. */
    var clock: int

    /** Every submission ever made; a promise is identified by its index here. */
    var submitted: seq<GenerateRequest>
    /** Where each of them is. */
    ghost var fate: seq<Fate>
    /** How many entries have left the queue. */
    ghost var popped: nat
    /** Whether a slot's cache had a hole when its latest request was admitted. */
    ghost var gapped: seq<bool>

    ghost predicate Shape()
      reads this, ctx
    {
      |gapped| == |slots| <= |ctx.kv| && ctx.nBatch >= 1 && 0 <= clock < MAX_US
    }

    ghost predicate SlotOk(i: nat, batch: seq<Entry>, lo: nat, at: nat)
      requires Shape() && i < |slots|
      reads this, ctx
    {
      SlotInv(ctx.model, cfg, slots[i], i, ctx.kv[i], submitted, gapped[i], batch, lo, at)
    }

    ghost predicate AllSlots(batch: seq<Entry>, lo: nat, at: nat)
      reads this, ctx
    {
      Shape() && forall i :: 0 <= i < |slots| ==> SlotOk(i, batch, lo, at)
    }

    ghost predicate Promises()
      reads this
    {
      Books(ctx.model, cfg, ctx.nCtx, slots, queue, fate, submitted, popped)
    }

    /** What holds at the top of the worker's loop. */
    ghost predicate Valid()
      reads this, ctx
    {
      AllSlots([], 0, 0) && Promises()
    }

    constructor (ctx: LlamaContext, cfg: Defaults, maxSeqs: nat, maxQueue: int)
      requires ctx.nBatch >= 1 && maxSeqs <= |ctx.kv|
      requires forall s :: 0 <= s < maxSeqs ==> ctx.kv[s] == []
      ensures Valid() && this.ctx == ctx && this.cfg == cfg && this.maxQueue == maxQueue
      ensures |slots| == maxSeqs && (forall i :: 0 <= i < maxSeqs ==> slots[i].IsFree())
      ensures queue == [] && submitted == []
    {
      this.ctx := ctx;
      this.cfg := cfg;
      this.maxQueue := maxQueue;
      slots := seq(maxSeqs, i requires 0 <= i => EmptySlot(i));
      queue, clock := [], 0;
      submitted, fate, popped, gapped := [], [], 0, seq(maxSeqs, i => false);
    }

    /** submit: a full queue answers at once, otherwise the request waits at the back. */
    method Submit(req: GenerateRequest) returns (promise: nat)
      requires Valid()
      modifies this
      ensures Valid() && slots == old(slots) && gapped == old(gapped) && popped == old(popped) && clock == old(clock)
      ensures promise == |old(submitted)| && submitted == old(submitted) + [req]
      ensures |old(queue)| >= maxQueue ==>
        queue == old(queue) && fate == old(fate) + [Done(GenerateResult([], "", 0, 0, Unavailable, "stop"), false)]
      ensures |old(queue)| < maxQueue ==>
        queue == old(queue) + [PendingRequest(req, promise)] && fate == old(fate) + [Queued(popped + |old(queue)|)]
    {
      hide SlotInv, Books;
      promise := |submitted|;
      submitted := submitted + [req];
      if |queue| >= maxQueue {
        var res := GenerateResult([], "", 0, 0, Unavailable, "stop");
        BooksReject(ctx.model, cfg, ctx.nCtx, slots, queue, fate, old(submitted), popped, req, res);
        fate := fate + [Done(res, false)];
      } else {
        BooksEnqueue(ctx.model, cfg, ctx.nCtx, slots, queue, fate, old(submitted), popped, req);
        fate := fate + [Queued(popped + |queue|)];
        queue := queue + [PendingRequest(req, promise)];
      }
      forall i | 0 <= i < |slots| ensures SlotOk(i, [], 0, 0) {
        assert old(SlotOk(i, [], 0, 0));
        MoreSubmissions(ctx.model, cfg, slots[i], i, ctx.kv[i], old(submitted), gapped[i], [], 0, 0, req);
      }
    }

    /** A reading of the clock, which never goes back. */
    method NowUs() returns (t: int)
      requires 0 <= clock < MAX_US
      modifies this`clock
      ensures old(clock) <= t == clock < MAX_US
    {
      t :| clock <= t < MAX_US;
      clock := t;
    }

    /** Slot i, if it is warm, has become so since the clock read `since`. */
    ghost predicate StampedSince(i: nat, since: int)
      reads this
    {
      i < |slots| && (slots[i].IsWarm() ==> since <= slots[i].cachedAtUs <= clock)
    }

    /** complete_slot: fulfil the promise, then keep the cache for the session or drop it. */
    method CompleteSlot(i: nat, ec: ErrorCode, finish: string)
      requires Shape() && Promises() && i < |slots| && slots[i].IsBusy() && slots[i].seqId == slots[i].id == i
      requires slots[i].promise < |submitted|
      requires Justified(ctx.model, cfg, ctx.nCtx, submitted[slots[i].promise], ResultOf(slots[i], ec, finish),
                         gapped[i])
      requires ec == Ok ==> MayStayWarm(ctx.model, slots[i], i, ctx.kv[i], gapped[i])
      modifies this`clock, this`slots, this`fate, ctx`kv
      ensures Shape() && Promises() && |slots| == |old(slots)| && |ctx.kv| == |old(ctx.kv)|
      ensures forall j :: 0 <= j < |slots| && j != i ==> slots[j] == old(slots)[j] && ctx.kv[j] == old(ctx.kv)[j]
      ensures SlotOk(i, [], 0, 0) && !slots[i].IsBusy()
      ensures slots[i].IsWarm() <==> ec == Ok && old(slots[i]).cachedSessionId != ""
      ensures !slots[i].IsWarm() ==>
        ctx.kv[i] == [] && slots[i].cachedSessionId == "" && slots[i].cachedTokens == [] && slots[i].cachedAtUs == 0
      ensures slots[i].nPast == |slots[i].cachedTokens| && slots[i].nPrompt == slots[i].nDecoded == 0
      ensures slots[i].genTokenIds == [] && slots[i].accumulated == "" && slots[i].sampler == None
      ensures slots[i].IsWarm() ==>
        && slots[i].cachedTokens == old(slots[i]).cachedTokens && ctx.kv[i] == old(ctx.kv[i])
        && slots[i].cachedSessionId == old(slots[i]).cachedSessionId
      ensures fate == old(fate)[old(slots[i]).promise := Done(ResultOf(old(slots[i]), ec, finish), gapped[i])]
      ensures old(clock) <= clock && StampedSince(i, old(clock)) && (ec != Ok ==> clock == old(clock))
    {
      hide SlotInv, Books, Justified;
      var s := slots[i];
      BooksHold(i);
      assert fate[s.promise] == Running(i);
      ghost var res := ResultOf(s, ec, finish);
      var keepWarm := ec == Ok && s.cachedSessionId != "";
      var now := 0;
      if keepWarm {
        now := NowUs();
      } else {
        ctx.SeqClear(s.seqId);
      }
      var done := Completed(s, keepWarm, now);
      BooksAnswerSlot(ctx.model, cfg, ctx.nCtx, slots, queue, fate, submitted, popped, i, done, res, gapped[i]);
      CompletedIdle(ctx.model, cfg, s, i, ctx.kv[i], submitted, gapped[i], keepWarm, now);
      slots := slots[i := done];
      fate := fate[s.promise := Done(res, gapped[i])];
    }

    lemma BooksHold(i: nat)
      requires Promises() && i < |slots| && slots[i].IsBusy()
      ensures |fate| == |submitted| && slots[i].promise < |fate| && fate[slots[i].promise] == Running(i)
      ensures |submitted[slots[i].promise].tokens| < ctx.nCtx
    {
    }

    // ---- admission ----

    /** The longest common prefix of a warm slot's ledger and a new prompt. */
    static method CommonPrefix(cached: seq<Token>, prompt: seq<Token>) returns (common: nat)
      ensures IsCommonPrefix(cached, prompt, common)
    {
      common := 0;
      while common < |cached| && common < |prompt| && cached[common] == prompt[common]
        invariant common <= |cached| && common <= |prompt| && cached[..common] == prompt[..common]
      {
        common := common + 1;
      }
    }

    /** The first warm slot of the request's session, if its prefix is long enough to matter. */
    method FindReusable(req: GenerateRequest) returns (sel: int, prefixLen: nat)
      ensures sel == -1 ==> prefixLen == 0 && !exists j, p :: Reusable(slots, req, j, p)
      ensures sel != -1 ==> 0 <= sel < |slots| && Reusable(slots, req, sel, prefixLen)
    {
      if req.sessionId != "" {
        for i := 0 to |slots|
          invariant forall j :: 0 <= j < i ==> !slots[j].IsWarm() || slots[j].cachedSessionId != req.sessionId
        {
          var s := slots[i];
          if !s.IsWarm() || s.cachedSessionId != req.sessionId {
            continue;
          }
          var common := CommonPrefix(s.cachedTokens, req.tokens);
          forall j, p | Reusable(slots, req, j, p) ensures j == i && p == common {
            CommonPrefixUnique(s.cachedTokens, req.tokens, p, common);
          }
          if common >= MIN_REUSE_PREFIX_TOKS {
            return i, common;
          }
          return -1, 0;
        }
      }
      return -1, 0;
    }

    method FindFree() returns (sel: int)
      ensures sel == -1 ==> forall j :: 0 <= j < |slots| ==> !slots[j].IsFree()
      ensures sel != -1 ==> 0 <= sel < |slots| && slots[sel].IsFree() && forall j :: 0 <= j < sel ==> !slots[j].IsFree()
    {
      for i := 0 to |slots|
        invariant forall j :: 0 <= j < i ==> !slots[j].IsFree()
      {
        if slots[i].IsFree() {
          return i;
        }
      }
      return -1;
    }

    /** The warm slot that was cached longest ago. */
    method FindLru() returns (victim: int)
      ensures victim == -1 ==>
        forall j :: 0 <= j < |slots| && slots[j].IsWarm() ==> slots[j].cachedAtUs >= 0x7FFF_FFFF_FFFF_FFFF
      ensures victim != -1 ==> 0 <= victim < |slots| && IsLru(slots, victim)
    {
      victim := -1;
      var oldest := MAX_US;
      for i := 0 to |slots|
        invariant oldest <= MAX_US && -1 <= victim < i
        invariant forall j :: 0 <= j < i && slots[j].IsWarm() ==> oldest <= slots[j].cachedAtUs
        invariant victim != -1 ==> slots[victim].IsWarm() && slots[victim].cachedAtUs == oldest
        invariant victim == -1 ==> oldest == MAX_US
      {
        if slots[i].IsWarm() && slots[i].cachedAtUs < oldest {
          victim := i;
          oldest := slots[i].cachedAtUs;
        }
      }
    }

    /** Slot selection: a reusable warm slot, else the first free one, else the least recently
        used warm one, whose cache is dropped. */
    method SelectSlot(req: GenerateRequest) returns (sel: int, prefixLen: nat)
      requires Valid()
      modifies this`slots, ctx`kv
      ensures Valid() && |slots| == |old(slots)| && |ctx.kv| == |old(ctx.kv)|
      ensures forall j :: 0 <= j < |slots| && j != sel ==> slots[j] == old(slots)[j]
      ensures sel == -1 ==> slots == old(slots) && forall j :: 0 <= j < |slots| ==> slots[j].IsBusy()
      ensures sel != -1 ==> 0 <= sel < |slots| && !old(slots)[sel].IsBusy()
      ensures ctx.kv ==
        if sel != -1 && prefixLen == 0 && !old(slots)[sel].IsFree() then old(ctx.kv)[sel := []] else old(ctx.kv)
      ensures prefixLen > 0 <==> exists j, p :: Reusable(old(slots), req, j, p)
      ensures prefixLen > 0 ==> sel != -1 && Reusable(old(slots), req, sel, prefixLen) && slots == old(slots)
      ensures sel != -1 && prefixLen == 0 ==> slots[sel].IsFree()
      ensures sel != -1 && prefixLen == 0 && !old(slots)[sel].IsFree() ==>
        slots[sel].cachedSessionId == "" && slots[sel].cachedTokens == [] && slots[sel].cachedAtUs == 0
      ensures sel != -1 && prefixLen == 0 && old(slots)[sel].IsFree() ==>
        forall j :: 0 <= j < sel ==> !old(slots)[j].IsFree()
      ensures sel != -1 && prefixLen == 0 && !old(slots)[sel].IsFree() ==>
        IsLru(old(slots), sel) && forall j :: 0 <= j < |slots| ==> !old(slots)[j].IsFree()
    {
      hide SlotInv, Books, IsCommonPrefix;
      sel, prefixLen := FindReusable(req);
      if sel != -1 {
        return;
      }
      sel := FindFree();
      if sel != -1 {
        return;
      }
      sel := FindLru();
      if sel == -1 {
        forall j | 0 <= j < |slots| ensures slots[j].IsBusy() {
          assert SlotOk(j, [], 0, 0);
          WarmCachedAt(ctx.model, cfg, slots[j], j, ctx.kv[j], submitted, gapped[j]);
        }
        return;
      }
      assert SlotOk(sel, [], 0, 0);
      EvictedFree(ctx.model, cfg, slots[sel], sel, ctx.kv[sel], submitted, gapped[sel]);
      var victim := Evicted(slots[sel]);
      Work(sel, victim);
      ctx.SeqClear(slots[sel].seqId);
      slots := slots[sel := victim];
      forall j | 0 <= j < |slots| && j != sel ensures SlotOk(j, [], 0, 0) {
        assert old(SlotOk(j, [], 0, 0));
      }
    }

    /** The head of the queue is answered without having been in a slot. */
    method AnswerHead(res: GenerateResult)
      requires Valid() && queue != [] && Justified(ctx.model, cfg, ctx.nCtx, queue[0].req, res, false)
      modifies this`queue, this`fate, this`popped
      ensures Valid() && queue == old(queue)[1..] && popped == old(popped) + 1
      ensures |fate| == |old(fate)| && old(queue)[0].promise < |fate| && AnswersKept(old(fate), fate)
      ensures fate == old(fate)[old(queue)[0].promise := Done(res, false)]
    {
      hide SlotInv, Books, Justified;
      HeadQueued();
      BooksAnswerHead(ctx.model, cfg, ctx.nCtx, slots, queue, fate, submitted, popped, res);
      fate := fate[queue[0].promise := Done(res, false)];
      queue := queue[1..];
      popped := popped + 1;
      forall j | 0 <= j < |slots| ensures SlotOk(j, [], 0, 0) {
        assert old(SlotOk(j, [], 0, 0));
      }
    }

    lemma HeadQueued()
      requires Promises() && queue != []
      ensures |fate| == |submitted| && queue[0].promise < |fate| && fate[queue[0].promise] == Queued(popped)
      ensures queue[0].req == submitted[queue[0].promise]
    {
    }

    /** The head of the queue takes the selected slot. */
    method AdmitHead(sel: nat, prefixLen: nat)
      requires Valid() && queue != [] && 0 < |queue[0].req.tokens| < ctx.nCtx
      requires sel < |slots| && !slots[sel].IsBusy()
      requires if prefixLen > 0 then Reusable(slots, queue[0].req, sel, prefixLen) else slots[sel].IsFree()
      modifies this`slots, this`queue, this`fate, this`popped, this`gapped, ctx`kv
      ensures Valid() && queue == old(queue)[1..] && popped == old(popped) + 1
      ensures |slots| == |old(slots)| && |ctx.kv| == |old(ctx.kv)|
      ensures forall j :: 0 <= j < |slots| && j != sel ==>
        slots[j] == old(slots)[j] && gapped[j] == old(gapped)[j] && ctx.kv[j] == old(ctx.kv)[j]
      ensures slots[sel].IsBusy() && slots[sel].promise == old(queue)[0].promise && slots[sel].nDecoded == 0
      ensures forall j :: 0 <= j < |ctx.kv| && j != sel ==> ctx.kv[j] == old(ctx.kv)[j]
      ensures slots[sel].nPast == prefixLen <= |old(queue)[0].req.tokens| && !slots[sel].prefilled
      ensures slots[sel].pendingPrompt == old(queue)[0].req.tokens[prefixLen..]
      ensures ctx.kv[sel] == if prefixLen > 0 then Trim(old(ctx.kv)[sel], prefixLen) else []
      ensures |fate| == |old(fate)| && old(queue)[0].promise < |fate| && AnswersKept(old(fate), fate)
      ensures fate == old(fate)[old(queue)[0].promise := Running(sel)]
      ensures gapped[sel] <==>
        && prefixLen > 0
        && ReuseView(old(ctx.kv)[sel], old(queue)[0].req.tokens, prefixLen) != Cells(old(queue)[0].req.tokens)
    {
      hide SlotInv, Books, Trim, Holed, ReuseView, Cells, Sparse, Justified;
      HeadQueued();
      hide MaxNew, IsCommonPrefix, InOrder, Recorded, Placed;
      var s, req, promise := slots[sel], queue[0].req, queue[0].promise;
      ghost var gap := prefixLen > 0 && Holed(Trim(ctx.kv[sel], prefixLen), prefixLen, |req.tokens|);
      assert SlotOk(sel, [], 0, 0);
      AdmittedSlot(ctx.model, cfg, s, sel, ctx.kv[sel], submitted, gapped[sel], promise, prefixLen);
      if prefixLen > 0 {
        ctx.SeqRm(s.seqId, prefixLen);
      } else if s.warm {
        assert false;  // a slot selected without a prefix is free
      }
      var admitted := Admit(cfg, s, req, promise, prefixLen);
      hide SchedulerChain, SeedOf;
      BooksAdmit(ctx.model, cfg, ctx.nCtx, slots, queue, fate, submitted, popped, sel, admitted);
      slots := slots[sel := admitted];
      gapped := gapped[sel := gap];
      fate := fate[promise := Running(sel)];
      queue := queue[1..];
      popped := popped + 1;
      forall j | 0 <= j < |slots| && j != sel ensures SlotOk(j, [], 0, 0) {
        assert old(SlotOk(j, [], 0, 0));
      }
    }

    /** One turn of the admission loop: the head of the queue is refused, or takes the slot it should;
        `stuck` when every slot is busy. */
    method AdmitOne() returns (stuck: bool)
      requires Valid() && queue != []
      modifies this`slots, this`queue, this`fate, this`popped, this`gapped, ctx`kv
      ensures Valid() && |slots| == |old(slots)| && |fate| == |old(fate)| && AnswersKept(old(fate), fate)
      ensures forall j :: 0 <= j < |slots| && old(slots)[j].IsBusy() ==> slots[j] == old(slots)[j]
      ensures stuck ==> queue == old(queue) && popped == old(popped) && fate == old(fate)
      ensures stuck ==> slots == old(slots) && ctx.kv == old(ctx.kv)
      ensures !stuck ==>
        AdmissionTurn(ctx.nCtx, old(queue)[0], Pool(old(slots), old(ctx.kv)), Pool(slots, ctx.kv))
      ensures stuck ==> forall j :: 0 <= j < |slots| ==> slots[j].IsBusy()
      ensures !stuck ==> queue == old(queue)[1..] && popped == old(popped) + 1 && old(queue)[0].promise < |fate|
      ensures !stuck ==> forall t :: 0 <= t < |fate| && t != old(queue)[0].promise ==> fate[t] == old(fate)[t]
      ensures !stuck ==> TakenUp(ctx.nCtx, old(queue)[0], slots, fate)
    {
      hide SlotInv, Books, Justified, Reusable, Trim, ReuseView, Cells;
      var req, promise := queue[0].req, queue[0].promise;
      if req.tokens == [] || |req.tokens| >= ctx.nCtx {
        RejectionJustified(ctx.model, cfg, ctx.nCtx, req, InvalidArgument);
        AnswerHead(GenerateResult([], "", |req.tokens|, 0, InvalidArgument, "stop"));
        return false;
      }
      var sel, prefixLen := SelectSlot(req);
      if sel == -1 {
        return true;
      }
      AdmitHead(sel, prefixLen);
      Taken(Pool(old(slots), old(ctx.kv)), Pool(slots, ctx.kv), old(queue)[0], sel, prefixLen);
      return false;
    }

    /** What is owed to the first `n` submissions. */
    ghost function Owing(n: nat): nat
      requires Promises() && n <= |fate|
      reads this
    {
      Debt(cfg, fate[..n], slots, submitted[..n])
    }

    /** Admission lowers what is owed to the first `n` submissions when it takes one of them up. */
    ghost predicate OwesAfterAdmission(n: nat, before: nat, fate0: seq<Fate>)
      requires Promises() && n <= |fate| == |fate0|
      reads this
    {
      && Owing(n) <= before
      && ((exists t :: 0 <= t < n && fate0[t].Queued? && !fate[t].Queued?) ==> Owing(n) < before)
    }

    /** try_admit_pending: takes requests from the front of the queue, in order, until it is
        empty or every slot is busy.  `turns` are the slots and caches between its turns. */
    method TryAdmitPending() returns (ghost turns: seq<Pool>)
      requires Valid()
      modifies this`slots, this`queue, this`fate, this`popped, this`gapped, ctx`kv
      ensures Valid() && |slots| == |old(slots)| && |fate| == |old(fate)| && AnswersKept(old(fate), fate)
      ensures old(popped) <= popped <= old(popped) + |old(queue)| && queue == old(queue)[popped - old(popped)..]
      ensures queue == [] || forall j :: 0 <= j < |slots| ==> slots[j].IsBusy()
      ensures forall j :: 0 <= j < |slots| && old(slots)[j].IsBusy() ==> slots[j] == old(slots)[j]
      ensures forall k :: 0 <= k < popped - old(popped) ==> TakenUp(ctx.nCtx, old(queue)[k], slots, fate)
      ensures forall t :: 0 <= t < |fate| && !old(fate)[t].Queued? ==> fate[t] == old(fate)[t]
      ensures |turns| == popped - old(popped) + 1
      ensures Admissions(ctx.nCtx, old(queue)[..popped - old(popped)], turns)
      ensures turns[0] == Pool(old(slots), old(ctx.kv)) && turns[|turns| - 1] == Pool(slots, ctx.kv)
      ensures forall n :: 0 <= n <= |fate| ==> OwesAfterAdmission(n, old(Owing(n)), old(fate))
    {
      hide SlotInv, Books, AdmissionTurn, Debt;
      turns := [Pool(slots, ctx.kv)];
      while queue != []
        invariant Valid() && |slots| == |old(slots)| && |fate| == |old(fate)| && AnswersKept(old(fate), fate)
        invariant old(popped) <= popped <= old(popped) + |old(queue)| && queue == old(queue)[popped - old(popped)..]
        invariant forall j :: 0 <= j < |slots| && old(slots)[j].IsBusy() ==> slots[j] == old(slots)[j]
        invariant forall k :: 0 <= k < popped - old(popped) ==> TakenUp(ctx.nCtx, old(queue)[k], slots, fate)
        invariant forall t :: 0 <= t < |fate| && !old(fate)[t].Queued? ==> fate[t] == old(fate)[t]
        invariant Admissions(ctx.nCtx, old(queue)[..popped - old(popped)], turns)
        invariant turns[0] == Pool(old(slots), old(ctx.kv)) && turns[|turns| - 1] == Pool(slots, ctx.kv)
        decreases |queue|
      {
        HeadQueued();
        ghost var n := popped - old(popped);
        ghost var before, slots0 := fate, slots;
        assert queue[0] == old(queue)[n];
        HeadWasQueued(before, old(fate));
        var stuck := AdmitOne();
        if stuck {
          break;
        }
        assert old(queue)[n..][1..] == old(queue)[n + 1..];
        AdmissionsMore(ctx.nCtx, old(queue), n, turns, Pool(slots, ctx.kv));
        turns := turns + [Pool(slots, ctx.kv)];
        forall k | 0 <= k < n ensures TakenUp(ctx.nCtx, old(queue)[k], slots, fate) {
          assert TakenUp(ctx.nCtx, old(queue)[k], slots0, before);
        }
      }
      forall n | 0 <= n <= |fate| ensures OwesAfterAdmission(n, old(Owing(n)), old(fate)) {
        AdmissionOwes(ctx.model, cfg, ctx.nCtx, submitted, old(slots), old(queue), old(fate), old(popped), slots, queue,
                      fate, popped, n);
      }
    }

    lemma HeadWasQueued(now: seq<Fate>, was: seq<Fate>)
      requires Promises() && queue != [] && now == fate && |was| == |now|
      requires forall t :: 0 <= t < |now| && !was[t].Queued? ==> now[t] == was[t]
      ensures queue[0].promise < |was| && was[queue[0].promise].Queued?
    {
    }

    /** The sample just drawn for slot i is the one its request's own run draws. */
    ghost predicate Drawn(i: nat, id: Token, batch: seq<Entry>, at: nat)
      requires Shape() && i < |slots|
      reads this, ctx
    {
      var s := slots[i];
      && s.id == s.seqId == i && s.IsBusy() && s.promise < |submitted|
      && Serving(ctx.model, cfg, s, i, submitted[s.promise], gapped[i]) && InFlight(s, ctx.kv[i], gapped[i])
      && at <= |batch| && NoEntries(batch, i, at)
      && (!gapped[i] ==>
            id == NextToken(ctx.model, cfg, submitted[s.promise], s.genTokenIds) && ctx.kv[i] == Cells(s.cachedTokens))
    }

    /** Clean completion inside the sampling loop. */
    method FinishSampled(i: nat, finish: string, ghost batch: seq<Entry>, ghost at: nat)
      requires Shape() && Promises() && i < |slots| && slots[i].IsBusy() && slots[i].seqId == slots[i].id == i
      requires slots[i].promise < |submitted| && at <= |batch| && NoEntries(batch, i, at)
      requires Justified(ctx.model, cfg, ctx.nCtx, submitted[slots[i].promise], ResultOf(slots[i], Ok, finish),
                         gapped[i])
      requires MayStayWarm(ctx.model, slots[i], i, ctx.kv[i], gapped[i]) && TwoParts(slots[i])
      modifies this`clock, this`slots, this`fate, ctx`kv
      ensures Shape() && Promises() && |slots| == |old(slots)| && |ctx.kv| == |old(ctx.kv)|
      ensures forall j :: 0 <= j < |slots| && j != i ==> slots[j] == old(slots)[j] && ctx.kv[j] == old(ctx.kv)[j]
      ensures SlotOk(i, batch, at, at) && !slots[i].IsBusy()
      ensures |fate| == |old(fate)| && old(slots)[i].promise < |fate|
      ensures fate[old(slots)[i].promise] == Done(ResultOf(old(slots)[i], Ok, finish), gapped[i])
      ensures KeptForSession(old(slots)[i], slots[i], ResultOf(old(slots)[i], Ok, finish))
      ensures AnswersKept(old(fate), fate)
      ensures old(clock) <= clock && StampedSince(i, old(clock))
    {
      hide SlotInv, Books, Justified, MayStayWarm, NoEntries;
      BooksHold(i);
      CompleteSlot(i, Ok, finish);
      SettledIn(ctx.model, cfg, slots[i], i, ctx.kv[i], submitted, gapped[i], batch, at);
    }

    /** Sampling for one slot of the chunk: its last entry lies in batch[cs..at]. */
    method SampleSlot(i: nat, batch: seq<Entry>, ghost cs: nat, ghost at: nat)
      requires Shape() && Promises() && i < |slots| && SlotOk(i, batch, cs, at)
      requires slots[i].IsBusy() && cs <= slots[i].iBatch < at
      modifies this`clock, this`slots, this`fate, ctx`kv
      ensures Shape() && Promises() && |slots| == |old(slots)| && |ctx.kv| == |old(ctx.kv)|
      ensures forall j :: 0 <= j < |slots| && j != i ==> slots[j] == old(slots)[j] && ctx.kv[j] == old(ctx.kv)[j]
      ensures SlotOk(i, batch, at, at)
      ensures SampledOnce(old(slots)[i], slots[i], fate, gapped[i]) && AnswersKept(old(fate), fate)
      ensures old(clock) <= clock && StampedSince(i, old(clock))
    {
      hide SlotInv, Books, Justified, Serving, InFlight, MayStayWarm, NextToken, NoEntries, Cells;
      var s := slots[i];
      BusySlot(ctx.model, cfg, s, i, ctx.kv[i], submitted, gapped[i], batch, cs, at);
      SampleView(ctx.model, cfg, s, i, ctx.kv[i], submitted, gapped[i], batch, cs, at);
      BooksHold(i);
      var id := ctx.model.sample(s.sampler.value, ctx.kv[s.seqId]);
      var eog := ctx.model.isEog(id);
      var piece := ctx.model.piece(id);
      if eog {
        var t := Sampled(ctx.model, s, id);
        Work(i, t);
        ServingTwoParts(ctx.model, cfg, s, i, submitted[s.promise], gapped[i], id);
        EogJustified(ctx.model, cfg, ctx.nCtx, s, i, ctx.kv[i], submitted[s.promise], gapped[i], id);
        slots := slots[i := t];
        FinishSampled(i, "stop", batch, at);
      } else {
        AcceptToken(i, id, piece, batch, at);
      }
    }

    /** A token that is not end-of-generation: count it, then test the three stop conditions. */
    method AcceptToken(i: nat, id: Token, piece: string, ghost batch: seq<Entry>, ghost at: nat)
      requires Shape() && Promises() && i < |slots| && Drawn(i, id, batch, at)
      requires !ctx.model.isEog(id) && piece == ctx.model.piece(id)
      modifies this`clock, this`slots, this`fate, ctx`kv
      ensures Shape() && Promises() && |slots| == |old(slots)| && |ctx.kv| == |old(ctx.kv)|
      ensures forall j :: 0 <= j < |slots| && j != i ==> slots[j] == old(slots)[j] && ctx.kv[j] == old(ctx.kv)[j]
      ensures SlotOk(i, batch, at, at)
      ensures SampledOnce(old(slots)[i], slots[i], fate, gapped[i]) && AnswersKept(old(fate), fate)
      ensures old(clock) <= clock && StampedSince(i, old(clock))
    {
      hide SlotInv, Books, Justified, Serving, InFlight, MayStayWarm, NextToken, NoEntries, Cells, GoesOn, MatchesStop;
      hide Text, Ready;
      var s := slots[i];
      BooksHold(i);
      var u := Counted(Sampled(ctx.model, s, id), id, piece);
      Work(i, u);
      ServingTwoParts(ctx.model, cfg, s, i, submitted[s.promise], gapped[i], id);
      CountedLedger(ctx.model, cfg, s, i, ctx.kv[i], submitted[s.promise], gapped[i], id);
      ContinuesIff(ctx.model, cfg, s, i, submitted[s.promise], gapped[i], id);
      slots := slots[i := u];
      var stopStr := AnyStopMatches(u.stopStrings, u.accumulated);
      var maxHit := u.nDecoded >= u.maxNew;
      var stopById := IsStopToken(u.stopTokenIds, id);
      if stopStr || maxHit || stopById {
        CountedJustified(ctx.model, cfg, ctx.nCtx, s, i, ctx.kv[i], submitted[s.promise], gapped[i], id);
        FinishSampled(i, if maxHit then "length" else "stop", batch, at);
      } else {
        CountedReady(ctx.model, cfg, s, i, ctx.kv[i], submitted, gapped[i], id, batch, at);
      }
    }

    /** The sampling loop has passed the first `k` slots. */
    ghost predicate SampledUpTo(k: nat, batch: seq<Entry>, cs: nat, at: nat)
      reads this, ctx
    {
      && Shape() && k <= |slots|
      && (forall j :: 0 <= j < k ==> SlotOk(j, batch, at, at))
      && (forall j :: k <= j < |slots| ==> SlotOk(j, batch, cs, at))
    }

    /** The body of the sampling loop. */
    method SampleIfInChunk(i: nat, batch: seq<Entry>, cs: nat, n: nat)
      requires Promises() && SampledUpTo(i, batch, cs, cs + n) && i < |slots|
      modifies this`clock, this`slots, this`fate, ctx`kv
      ensures Promises() && SampledUpTo(i + 1, batch, cs, cs + n) && |slots| == |old(slots)|
      ensures |ctx.kv| == |old(ctx.kv)|
      ensures AnswersKept(old(fate), fate)
      ensures forall j :: 0 <= j < |slots| && j != i ==> slots[j] == old(slots)[j]
      ensures
        if old(slots)[i].IsBusy() && cs <= old(slots)[i].iBatch < cs + n
        then SampledOnce(old(slots)[i], slots[i], fate, gapped[i])
              else slots[i] == old(slots)[i]
      ensures old(clock) <= clock && (old(slots)[i].IsBusy() ==> StampedSince(i, old(clock)))
    {
      hide SlotInv, Books;
      ghost var at := cs + n;
      assert SlotOk(i, batch, cs, at);
      if !slots[i].IsBusy() || slots[i].iBatch < cs || slots[i].iBatch >= cs + n {
        StillAhead(ctx.model, cfg, slots[i], i, ctx.kv[i], submitted, gapped[i], batch, cs, cs + n);
        return;
      }
      SampleSlot(i, batch, cs, cs + n);
      forall j | 0 <= j < i ensures SlotOk(j, batch, at, at) {
        assert old(SlotOk(j, batch, at, at));
      }
      forall j | i < j < |slots| ensures SlotOk(j, batch, cs, at) {
        assert old(SlotOk(j, batch, cs, at));
      }
    }

    /** Sampling for every slot whose last entry lies in the chunk just decoded. */
    method SampleChunk(batch: seq<Entry>, cs: nat, n: nat)
      requires Promises() && AllSlots(batch, cs, cs + n)
      modifies this`clock, this`slots, this`fate, ctx`kv
      ensures Promises() && AllSlots(batch, cs + n, cs + n) && |slots| == |old(slots)| && |ctx.kv| == |old(ctx.kv)|
      ensures AnswersKept(old(fate), fate)
      ensures forall j :: 0 <= j < |slots| ==>
        if old(slots)[j].IsBusy() && cs <= old(slots)[j].iBatch < cs + n
        then SampledOnce(old(slots)[j], slots[j], fate, gapped[j])
        else slots[j] == old(slots)[j]
      ensures old(clock) <= clock
      ensures forall j :: 0 <= j < |slots| && old(slots)[j].IsBusy() ==> StampedSince(j, old(clock))
    {
      hide SlotInv, Books;
      for i := 0 to |slots|
        invariant Promises() && SampledUpTo(i, batch, cs, cs + n) && |slots| == |old(slots)|
        invariant |ctx.kv| == |old(ctx.kv)|
        invariant AnswersKept(old(fate), fate) && old(clock) <= clock
        invariant forall j :: 0 <= j < i && old(slots)[j].IsBusy() ==> StampedSince(j, old(clock))
        invariant forall j :: i <= j < |slots| ==> slots[j] == old(slots)[j]
        invariant forall j :: 0 <= j < i ==>
          if old(slots)[j].IsBusy() && cs <= old(slots)[j].iBatch < cs + n
          then SampledOnce(old(slots)[j], slots[j], fate, gapped[j])
          else slots[j] == old(slots)[j]
      {
        SampleIfInChunk(i, batch, cs, n);
      }
    }

    /** After a chunk has failed for good: a slot is settled, or waits to be failed. */
    ghost predicate FailedUpTo(k: nat, cs: nat)
      reads this, ctx
    {
      && Shape() && k <= |slots|
      && (forall j :: 0 <= j < k ==> SlotOk(j, [], 0, 0))
      && (forall j :: k <= j < |slots| ==>
            if slots[j].IsBusy() && slots[j].iBatch >= cs then
              && slots[j].seqId == slots[j].id == j && slots[j].promise < |submitted|
              && Serving(ctx.model, cfg, slots[j], j, submitted[slots[j].promise], gapped[j])
            else SlotOk(j, [], 0, 0))
    }

    /** The body of the loop that fails the unprocessed slots. */
    method FailIfUnprocessed(i: nat, cs: nat)
      requires Promises() && FailedUpTo(i, cs) && i < |slots|
      modifies this`clock, this`slots, this`fate, ctx`kv
      ensures Promises() && FailedUpTo(i + 1, cs) && |slots| == |old(slots)| && |ctx.kv| == |old(ctx.kv)|
      ensures AnswersKept(old(fate), fate)
      ensures forall j :: 0 <= j < |slots| && j != i ==> slots[j] == old(slots)[j] && ctx.kv[j] == old(ctx.kv)[j]
      ensures
        if old(slots)[i].IsBusy() && old(slots)[i].iBatch >= cs
        then FailedOnce(old(slots)[i], slots[i], fate) && ctx.kv[i] == []
              else slots[i] == old(slots)[i] && ctx.kv[i] == old(ctx.kv)[i]
      ensures clock == old(clock)
    {
      hide SlotInv, Books, Justified, Serving;
      if slots[i].IsBusy() && slots[i].iBatch >= cs {
        BooksHold(i);
        PartialJustified(ctx.model, cfg, ctx.nCtx, slots[i], i, submitted[slots[i].promise], gapped[i], InternalError);
        CompleteSlot(i, InternalError, "stop");
        forall j | 0 <= j < |slots| && j != i && old(SlotOk(j, [], 0, 0)) ensures SlotOk(j, [], 0, 0) {
        }
      }
    }

    /** Fails every slot with unprocessed entries, in this chunk or in a later one. */
    method FailUnprocessed(cs: nat)
      requires Promises() && FailedUpTo(0, cs)
      modifies this`clock, this`slots, this`fate, ctx`kv
      ensures Valid() && |slots| == |old(slots)| && |ctx.kv| == |old(ctx.kv)|
      ensures AnswersKept(old(fate), fate)
      ensures forall j :: 0 <= j < |slots| ==>
        if old(slots)[j].IsBusy() && old(slots)[j].iBatch >= cs
        then FailedOnce(old(slots)[j], slots[j], fate) && ctx.kv[j] == []
        else slots[j] == old(slots)[j]
      ensures clock == old(clock)
      ensures forall j :: 0 <= j < |slots| && slots[j].IsWarm() ==> slots[j] == old(slots)[j]
    {
      hide SlotInv, Books, Serving;
      for i := 0 to |slots|
        invariant Promises() && FailedUpTo(i, cs) && |slots| == |old(slots)| && |ctx.kv| == |old(ctx.kv)|
        invariant AnswersKept(old(fate), fate) && clock == old(clock)
        invariant forall j :: i <= j < |slots| ==> slots[j] == old(slots)[j]
        invariant forall j :: 0 <= j < i ==>
          if old(slots)[j].IsBusy() && old(slots)[j].iBatch >= cs
          then FailedOnce(old(slots)[j], slots[j], fate) && ctx.kv[j] == []
          else slots[j] == old(slots)[j]
      {
        FailIfUnprocessed(i, cs);
      }
    }

    /** llama_decode on the batch's entries cs..at. */
    method DecodeChunk(batch: seq<Entry>, cs: nat, n: nat) returns (ret: int)
      requires AllSlots(batch, cs, cs) && cs + n <= |batch| && n <= ctx.nBatch
      requires forall k :: 0 <= k < |batch| ==> batch[k].seqId < |ctx.kv|
      modifies ctx
      ensures Shape() && |ctx.kv| == |old(ctx.kv)|
      ensures ctx.log == old(ctx.log) + [DecodeCall(batch[cs..cs + n], ret)]
      ensures ret == 0 ==> AllSlots(batch, cs, cs + n)
      ensures ret > 0 ==> AllSlots(batch, cs, cs)
      ensures FailedUpTo(0, cs)
    {
      hide SlotInv, Serving;
      ghost var before, at := ctx.kv, cs + n;
      var view := batch[cs..cs + n];
      ret := ctx.Decode(view);
      forall i | 0 <= i < |slots|
        ensures ret == 0 ==> SlotOk(i, batch, cs, at)
        ensures ret > 0 ==> SlotOk(i, batch, cs, cs)
        ensures if slots[i].IsBusy() && slots[i].iBatch >= cs then
              && slots[i].seqId == slots[i].id == i && slots[i].promise < |submitted|
              && Serving(ctx.model, cfg, slots[i], i, submitted[slots[i].promise], gapped[i])
            else SlotOk(i, [], 0, 0)
      {
        assert old(SlotOk(i, batch, cs, cs));
        DecodeAdvances(ctx.model, cfg, slots[i], i, before[i], submitted, gapped[i], batch, cs, cs, n);
        ChunkFails(ctx.model, cfg, slots[i], i, before[i], submitted, gapped[i], batch, cs, n);
      }
    }

    lemma PositiveChunk(batch: seq<Entry>)
      requires AllSlots(batch, 0, 0)
      ensures ctx.nBatch >= 1 && |gapped| == |slots|
    {
    }

    lemma BatchDone(batch: seq<Entry>)
      requires AllSlots(batch, |batch|, |batch|)
      ensures AllSlots([], 0, 0) && forall j :: 0 <= j < |slots| && slots[j].IsBusy() ==> slots[j].iBatch == -1
    {
      hide SlotInv;
      forall i | 0 <= i < |slots| ensures SlotOk(i, [], 0, 0) && (slots[i].IsBusy() ==> slots[i].iBatch == -1) {
        assert SlotOk(i, batch, |batch|, |batch|);
        NothingAhead(ctx.model, cfg, slots[i], i, ctx.kv[i], submitted, gapped[i], batch);
      }
    }

    /** The chunk loop: a retryable failure halves the chunk, a success restores its size, a fatal
        failure fails every slot that still has entries in the batch. */
    method DecodeBatch(batch: seq<Entry>) returns (failedAt: int, ghost attempts: seq<Attempt>)
      requires Promises() && AllSlots(batch, 0, 0)
      requires forall k :: 0 <= k < |batch| ==> batch[k].seqId < |ctx.kv|
      requires forall j :: 0 <= j < |slots| && slots[j].IsBusy() ==> slots[j].iBatch >= 0
      modifies this`clock, this`slots, this`fate, ctx
      ensures Valid() && |slots| == |old(slots)| && AnswersKept(old(fate), fate)
      ensures forall j :: 0 <= j < |slots| ==> StepOutcome(old(slots)[j], slots[j], fate, gapped[j], failedAt)
      ensures failedAt != -1 ==>
        forall j :: 0 <= j < |slots| && old(slots)[j].IsBusy() && old(slots)[j].iBatch >= failedAt ==> ctx.kv[j] == []
      ensures Retried(ctx.nBatch, |batch|, attempts)
      ensures old(ctx.log) <= ctx.log && |ctx.log| == |old(ctx.log)| + |attempts|
      ensures forall k :: 0 <= k < |attempts| ==> CallOf(batch, attempts[k], ctx.log[|old(ctx.log)| + k])
      ensures failedAt != -1 <==> attempts != [] && Fatal(attempts[|attempts| - 1])
      ensures failedAt != -1 ==> attempts[|attempts| - 1].start == failedAt
      ensures failedAt == -1 ==> OnPlan(ctx.nBatch, |batch|, attempts, |batch|, ctx.nBatch)
      ensures batch != [] ==> attempts != []
      ensures failedAt == -1 && batch != [] ==> attempts[|attempts| - 1].ret == 0
      ensures old(clock) <= clock
      ensures forall j :: 0 <= j < |slots| && old(slots)[j].IsBusy() ==> StampedSince(j, old(clock))
    {
      hide SlotInv, Books, Serving, Retried, OnPlan, SampledOnce, FailedOnce, SampledBelow, StepOutcome, AnswersKept;
      hide Planned;
      hide AllSlots, FailedUpTo, Promises;
      ghost var slots0 := slots;
      attempts := [];
      PositiveChunk(batch);
      PlanBegins(ctx.nBatch, |batch|);
      NothingSampled(slots, fate, gapped);
      failedAt := -1;
      var nBatch := ctx.nBatch;
      var cs := 0;
      while cs < |batch|
        invariant 0 <= cs <= |batch| && 1 <= nBatch <= ctx.nBatch && (cs == |batch| ==> nBatch == ctx.nBatch)
        invariant Promises() && AllSlots(batch, cs, cs) && |ctx.kv| == |old(ctx.kv)|
        invariant AnswersKept(old(fate), fate) && SampledBelow(slots0, slots, fate, gapped, cs) && |slots| == |slots0|
        invariant OnPlan(ctx.nBatch, |batch|, attempts, cs, nBatch)
        invariant old(clock) <= clock
        invariant forall j :: 0 <= j < |slots| && slots0[j].IsBusy() ==> StampedSince(j, old(clock))
        invariant old(ctx.log) <= ctx.log && |ctx.log| == |old(ctx.log)| + |attempts|
        invariant forall k :: 0 <= k < |attempts| ==> CallOf(batch, attempts[k], ctx.log[|old(ctx.log)| + k])
        invariant attempts != [] && cs == |batch| ==> attempts[|attempts| - 1].ret == 0
        invariant cs > 0 ==> attempts != []
        decreases |batch| - cs, nBatch
      {
        var n := if nBatch < |batch| - cs then nBatch else |batch| - cs;
        var ret := DecodeChunk(batch, cs, n);
        PlanStep(ctx.nBatch, |batch|, attempts, cs, nBatch, ret);
        attempts := attempts + [Attempt(cs, nBatch, ret)];
        assert CallOf(batch, attempts[|attempts| - 1], ctx.log[|ctx.log| - 1]);
        ghost var slots1, fate1 := slots, fate;
        if ret != 0 {
          if nBatch == 1 || ret < 0 {
            FailUnprocessed(cs);
            StepFails(slots0, slots1, old(fate), fate1, slots, fate, gapped, cs);
            failedAt := cs;
            return;
          }
          nBatch := nBatch / 2;
          continue;
        }
        nBatch := ctx.nBatch;
        SampleChunk(batch, cs, n);
        SampledFurther(slots0, slots1, fate1, slots, fate, gapped, cs, n);
        AnswersKeptOn(old(fate), fate1, fate);
        cs := cs + n;
      }
      BatchDone(batch);
      AllSampled(slots0, slots, fate, gapped, cs);
      PlanEnds(ctx.nBatch, |batch|, attempts, cs, nBatch);
    }

    /** The build loop has passed the first `k` slots. */
    ghost predicate BuiltUpTo(k: nat, batch: seq<Entry>)
      reads this, ctx
    {
      && AllSlots(batch, 0, 0) && k <= |slots|
      && (forall j :: 0 <= j < k && slots[j].IsBusy() ==> slots[j].iBatch >= 0)
      && (forall j :: k <= j < |slots| && slots[j].IsBusy() ==> slots[j].iBatch == -1)
      && (forall e :: 0 <= e < |batch| ==> batch[e].seqId < |slots|)
    }

    /** Appends a busy slot's entries: the rest of its prompt, or its last token, or, when the
        whole prompt is in the cache, its last position once more. */
    method AddEntries(s: Slot, batch: seq<Entry>) returns (grown: seq<Entry>, added: Slot)
      requires s.IsBusy() && 0 <= s.seqId < |ctx.kv|
      requires !s.prefilled && s.pendingPrompt == [] ==> 0 < s.nPast <= |s.cachedTokens|
      modifies ctx`kv
      ensures grown == batch + Contribution(s) && added == Batched(s, |grown| - 1)
      ensures |grown| == |batch| + if s.prefilled || s.pendingPrompt == [] then 1 else |s.pendingPrompt|
      ensures forall e :: |batch| <= e < |grown| ==>
        grown[e].seqId == s.seqId && (grown[e].logits <==> e == |grown| - 1)
      ensures ctx.kv == old(ctx.kv)[s.seqId := Trimmed(s, old(ctx.kv)[s.seqId])]
    {
      grown := batch;
      if !s.prefilled {
        var np := |s.pendingPrompt|;
        if np == 0 {
          var lastPos := s.nPast - 1;
          ctx.SeqRm(s.seqId, lastPos);
          grown := grown + [Entry(s.cachedTokens[lastPos], lastPos, s.seqId, true)];
          added := s.(iBatch := |grown| - 1, nPast := lastPos + 1);
        } else {
          ghost var add := Contribution(s);
          for k := 0 to np
            invariant grown == batch + add[..k]
          {
            grown := grown + [Entry(s.pendingPrompt[k], s.nPast + k, s.seqId, k == np - 1)];
            assert add[..k] + [add[k]] == add[..k + 1];
          }
          assert add[..np] == add;
          added := s.(iBatch := |grown| - 1, nPast := s.nPast + np);
        }
      } else {
        added := s.(iBatch := |grown|);
        grown := grown + [Entry(s.sampled, s.nPast, s.seqId, true)];
        added := added.(nPast := s.nPast + 1);
      }
    }

    /** The body of the build loop. */
    method AddToBatch(i: nat, batch: seq<Entry>) returns (grown: seq<Entry>)
      requires Promises() && BuiltUpTo(i, batch) && i < |slots|
      modifies this`slots, ctx`kv
      ensures Promises() && BuiltUpTo(i + 1, grown) && |slots| == |old(slots)| && |ctx.kv| == |old(ctx.kv)|
      ensures forall j :: 0 <= j < |slots| && j != i ==> slots[j] == old(slots)[j] && ctx.kv[j] == old(ctx.kv)[j]
      ensures SameRequest(old(slots)[i], slots[i])
      ensures old(slots)[i].IsBusy() ==> |grown| > |batch|
      ensures |grown| >= |batch|
    {
      hide SlotInv, Books, Contribution, Trimmed;
      grown := batch;
      var s := slots[i];
      if !s.IsBusy() {
        return;
      }
      assert SlotOk(i, batch, 0, 0);
      HasContribution(ctx.model, cfg, s, i, ctx.kv[i], submitted, gapped[i], batch);
      ContributionInFlight(ctx.model, cfg, s, i, ctx.kv[i], submitted, gapped[i], batch);
      ghost var add := Contribution(s);
      var added;
      grown, added := AddEntries(s, batch);
      Work(i, added);
      slots := slots[i := added];
      forall j | 0 <= j < |slots| && j != i ensures SlotOk(j, grown, 0, 0) {
        assert old(SlotOk(j, batch, 0, 0));
        GrowBatch(ctx.model, cfg, slots[j], j, ctx.kv[j], submitted, gapped[j], batch, add);
      }
    }

    /** The build step: one batch with entries of every busy slot. */
    method BuildBatch() returns (batch: seq<Entry>)
      requires Valid()
      modifies this`slots, ctx`kv
      ensures Promises() && AllSlots(batch, 0, 0) && |slots| == |old(slots)|
      ensures forall e :: 0 <= e < |batch| ==> batch[e].seqId < |ctx.kv|
      ensures forall j :: 0 <= j < |slots| ==>
        SameRequest(old(slots)[j], slots[j]) && (slots[j].IsBusy() ==> slots[j].iBatch >= 0)
      ensures (exists j :: 0 <= j < |slots| && old(slots)[j].IsBusy()) ==> batch != []
    {
      hide SlotInv, Books;
      batch := [];
      forall i | 0 <= i < |slots| ensures slots[i].IsBusy() ==> slots[i].iBatch == -1 {
        assert SlotOk(i, [], 0, 0);
        NothingAhead(ctx.model, cfg, slots[i], i, ctx.kv[i], submitted, gapped[i], []);
      }
      for i := 0 to |slots|
        invariant Promises() && BuiltUpTo(i, batch) && |slots| == |old(slots)| && |ctx.kv| == |old(ctx.kv)|
        invariant forall j :: 0 <= j < i ==> SameRequest(old(slots)[j], slots[j])
        invariant forall j :: i <= j < |slots| ==> slots[j] == old(slots)[j]
        invariant batch == [] ==> forall j :: 0 <= j < i ==> !old(slots)[j].IsBusy()
      {
        batch := AddToBatch(i, batch);
      }
    }

    // ---- the worker's step and the shutdown ----

    /** Serving the slots lowers what is owed to the first `n` submissions when one of them is served. */
    ghost predicate OwesLess(n: nat, before: nat, held: seq<Slot>)
      requires Promises() && n <= |fate|
      reads this
    {
      && Owing(n) <= before
      && ((exists j :: 0 <= j < |held| && held[j].IsBusy() && held[j].promise < n) ==> Owing(n) < before)
    }

    /** Build, decode and sample: every busy slot gets one more token or its answer. */
    method ServeStep() returns (failedAt: int)
      requires Valid()
      modifies this`clock, this`slots, this`fate, ctx
      ensures Valid() && |slots| == |old(slots)| && |fate| == |old(fate)| && AnswersKept(old(fate), fate)
      ensures forall t :: 0 <= t < |fate| ==> StepDone(old(fate)[t], old(slots), fate[t], slots, t)
      ensures SlotsServed(old(slots), slots, fate, gapped, failedAt != -1)
      ensures old(ctx.log) <= ctx.log
      ensures failedAt == -1 <==> |ctx.log| == |old(ctx.log)| || ctx.log[|ctx.log| - 1].ret == 0
      ensures (exists j :: 0 <= j < |slots| && old(slots)[j].IsBusy()) ==> |ctx.log| > |old(ctx.log)|
      ensures forall n :: 0 <= n <= |fate| ==> OwesLess(n, old(Owing(n)), old(slots))
      ensures old(clock) <= clock
      ensures forall j :: 0 <= j < |slots| && old(slots)[j].IsBusy() ==> StampedSince(j, old(clock))
    {
      hide SlotInv, Books, Serving, Justified, Retried, OnPlan, SampledOnce, FailedOnce, Debt;
      WithinBudget();
      failedAt := -1;
      var nActive := CountBusy();
      if nActive == 0 {
        ServedAll(ctx.model, cfg, ctx.nCtx, queue, submitted, popped, slots, fate, slots, fate, gapped);
        SlotsUntouched(slots, fate, gapped);
        return;
      }
      var batch := BuildBatch();
      if batch == [] {
        assert false;  // an active slot always contributes
      }
      ghost var attempts;
      ghost var built := slots;
      failedAt, attempts := DecodeBatch(batch);
      EachServed(old(slots), built, slots, fate, gapped, failedAt);
      assert CallOf(batch, attempts[|attempts| - 1], ctx.log[|old(ctx.log)| + |attempts| - 1]);
      ServedAll(ctx.model, cfg, ctx.nCtx, queue, submitted, popped, old(slots), old(fate), slots, fate, gapped);
      forall n | 0 <= n <= |fate| ensures OwesLess(n, old(Owing(n)), old(slots)) {
        ServiceOwes(ctx.model, cfg, ctx.nCtx, submitted, queue, popped, old(slots), old(fate), slots, fate, n);
      }
    }

    method CountBusy() returns (n: nat)
      ensures n == 0 <==> forall j :: 0 <= j < |slots| ==> !slots[j].IsBusy()
    {
      n := 0;
      for i := 0 to |slots|
        invariant n == 0 <==> forall j :: 0 <= j < i ==> !slots[j].IsBusy()
      {
        if slots[i].IsBusy() {
          n := n + 1;
        }
      }
    }

    /** One turn of the worker's loop: admission, then a step for every busy slot; `late` arrives while
        the step is in progress.  `turns` are the slots between the turns of admission, `mid` says where
        each submission is after it.  The turn brings the answers to the oldest `n` submissions nearer. */
    method WorkerStep(late: seq<GenerateRequest>, ghost n: nat)
      returns (failedAt: int, ghost turns: seq<Pool>, ghost mid: seq<Fate>)
      requires Valid() && n <= |fate|
      modifies this, ctx
      ensures Valid() && |slots| == |old(slots)| && |old(fate)| <= |fate| && AnswersKept(old(fate), fate)
      ensures submitted == old(submitted) + late
      ensures 1 <= |turns| <= |old(queue)| + 1 && turns[0] == Pool(old(slots), old(ctx.kv))
      ensures Admissions(ctx.nCtx, old(queue)[..|turns| - 1], turns)
      ensures |turns| - 1 == |old(queue)| || forall s :: s in turns[|turns| - 1].slots ==> s.IsBusy()
      ensures forall k :: 0 <= k < |turns| - 1 ==>
        TakenUp(ctx.nCtx, old(queue)[k], turns[|turns| - 1].slots, mid)
      ensures |mid| == |old(fate)| && forall t :: 0 <= t < |mid| && !old(fate)[t].Queued? ==> mid[t] == old(fate)[t]
      ensures Enqueued(maxQueue, old(queue)[|turns| - 1..], queue, |old(submitted)|, late, fate)
      ensures forall t :: 0 <= t < |mid| ==> StepDone(mid[t], turns[|turns| - 1].slots, fate[t], slots, t)
      ensures SlotsServed(turns[|turns| - 1].slots, slots, fate, gapped, failedAt != -1)
      ensures old(ctx.log) <= ctx.log
      ensures failedAt == -1 <==> |ctx.log| == |old(ctx.log)| || ctx.log[|ctx.log| - 1].ret == 0
      ensures forall t :: 0 <= t < |old(fate)| && !old(fate)[t].Queued? ==>
        StepDone(old(fate)[t], old(slots), fate[t], slots, t)
      ensures Owing(n) <= old(Owing(n))
      ensures |slots| > 0 && (exists t :: 0 <= t < n && !old(fate)[t].Done?) ==> Owing(n) < old(Owing(n))
      ensures old(clock) <= clock
      ensures forall j :: 0 <= j < |slots| && turns[|turns| - 1].slots[j].IsBusy() ==> StampedSince(j, old(clock))
    {
      hide SlotInv, Books, TakenUp, StepDone, Admissions, SlotsServed, Debt, Enqueued, AllSlots;
      RunningBusy(ctx.model, cfg, ctx.nCtx, queue, submitted, popped, slots, fate);
      turns := TryAdmitPending();
      mid := fate;
      assert OwesAfterAdmission(n, old(Owing(n)), old(fate));
      ghost var held := slots;
      if t :| |slots| > 0 && 0 <= t < n && !mid[t].Done? {
        OldestServed(ctx.model, cfg, ctx.nCtx, submitted, slots, queue, fate, popped, n, t);
      }
      ghost var waiting := queue;
      SubmitAll(late);
      assert fate[..n] == mid[..n] && submitted[..n] == old(submitted)[..n];
      ghost var fate1, owed1 := fate, Owing(n);
      failedAt := ServeStep();
      assert OwesLess(n, owed1, held);
      EnqueuedKept(maxQueue, waiting, queue, |old(submitted)|, late, fate1, fate);
      StepDoneAcross(old(fate), mid, old(slots), held, fate, slots);
    }

    method SubmitAll(reqs: seq<GenerateRequest>)
      requires Valid()
      modifies this
      ensures Valid() && slots == old(slots) && gapped == old(gapped) && popped == old(popped) && clock == old(clock)
      ensures submitted == old(submitted) + reqs
      ensures |old(fate)| <= |fate| && AnswersKept(old(fate), fate)
      ensures forall t :: 0 <= t < |old(fate)| ==> fate[t] == old(fate)[t]
      ensures Enqueued(maxQueue, old(queue), queue, |old(submitted)|, reqs, fate)
    {
      hide SlotInv, Books;
      RunningBusy(ctx.model, cfg, ctx.nCtx, queue, submitted, popped, slots, fate);
      assert reqs[..0] == [];
      for k := 0 to |reqs|
        invariant Valid() && slots == old(slots) && gapped == old(gapped) && popped == old(popped)
        invariant clock == old(clock)
        invariant submitted == old(submitted) + reqs[..k]
        invariant |old(fate)| <= |fate| && forall t :: 0 <= t < |old(fate)| ==> fate[t] == old(fate)[t]
        invariant Enqueued(maxQueue, old(queue), queue, |old(submitted)|, reqs[..k], fate)
      {
        var promise := Submit(reqs[k]);
        assert reqs[..k + 1] == reqs[..k] + [reqs[k]];
      }
      assert reqs[..|reqs|] == reqs;
    }

    /** The shutdown of one slot: a busy one is answered, a warm one forfeits its cache. */
    method DrainSlot(i: nat)
      requires Valid() && i < |slots|
      modifies this`clock, this`slots, this`fate, ctx`kv
      ensures Valid() && |slots| == |old(slots)| && AnswersKept(old(fate), fate)
      ensures forall j :: 0 <= j < |slots| && j != i ==> slots[j] == old(slots)[j]
      ensures slots[i].IsFree() && |fate| == |old(fate)|
      ensures old(slots)[i].IsBusy() ==> CutShort(old(slots)[i], fate, Unavailable)
      ensures forall t :: 0 <= t < |fate| && !(old(slots)[i].IsBusy() && t == old(slots)[i].promise) ==>
        fate[t] == old(fate)[t]
      ensures clock == old(clock)
    {
      hide SlotInv, Books, Justified, Serving;
      var s := slots[i];
      assert SlotOk(i, [], 0, 0);
      if s.IsBusy() {
        BusySlot(ctx.model, cfg, s, i, ctx.kv[i], submitted, gapped[i], [], 0, 0);
        BooksHold(i);
        PartialJustified(ctx.model, cfg, ctx.nCtx, s, i, submitted[s.promise], gapped[i], Unavailable);
        var t := s.(cachedSessionId := "");
        Work(i, t);
        slots := slots[i := t];
        CompleteSlot(i, Unavailable, "stop");
      } else if s.IsWarm() {
        WarmLedger(ctx.model, cfg, s, i, ctx.kv[i], submitted, gapped[i]);
        var t := s.(warm := false, cachedSessionId := "", cachedTokens := [], seqId := -1);
        Work(i, t);
        DrainedFree(ctx.model, cfg, s, i, ctx.kv[i], submitted, gapped[i]);
        ctx.SeqClear(s.seqId);
        slots := slots[i := t];
      }
      forall j | 0 <= j < |slots| && j != i ensures SlotOk(j, [], 0, 0) {
        assert old(SlotOk(j, [], 0, 0));
      }
    }

    /** The shutdown's loop over the slots. */
    method DrainSlots()
      requires Valid()
      modifies this`slots, this`fate, this`clock, ctx`kv
      ensures Valid() && |slots| == |old(slots)| && |fate| == |old(fate)| && AnswersKept(old(fate), fate)
      ensures forall j :: 0 <= j < |slots| ==> slots[j].IsFree()
      ensures forall j :: 0 <= j < |slots| && old(slots)[j].IsBusy() ==> CutShort(old(slots)[j], fate, Unavailable)
    {
      hide SlotInv, Books, CutShort;
      for i := 0 to |slots|
        invariant Valid() && |slots| == |old(slots)| && |fate| == |old(fate)| && AnswersKept(old(fate), fate)
        invariant forall j :: 0 <= j < i ==> slots[j].IsFree()
        invariant forall j :: i <= j < |slots| ==> slots[j] == old(slots)[j]
        invariant forall j :: 0 <= j < i && old(slots)[j].IsBusy() ==> CutShort(old(slots)[j], fate, Unavailable)
      {
        ghost var before := fate;
        DrainSlot(i);
        CutShortKept(old(slots), before, fate, Unavailable);
      }
    }

    /** The shutdown's loop over the queue. */
    method DrainQueue()
      requires Valid()
      modifies this`queue, this`fate, this`popped
      ensures Valid() && queue == [] && |fate| == |old(fate)| && AnswersKept(old(fate), fate)
      ensures forall k :: 0 <= k < |old(queue)| ==>
        var t := old(queue)[k].promise;
        t < |fate| && fate[t] == Done(GenerateResult([], "", 0, 0, Unavailable, "stop"), false)
    {
      hide SlotInv, Books, Justified;
      while queue != []
        invariant Valid() && |fate| == |old(fate)| && AnswersKept(old(fate), fate)
        invariant |queue| <= |old(queue)| && queue == old(queue)[|old(queue)| - |queue|..]
        invariant forall k :: 0 <= k < |old(queue)| - |queue| ==>
          var t := old(queue)[k].promise;
          t < |fate| && fate[t] == Done(GenerateResult([], "", 0, 0, Unavailable, "stop"), false)
        decreases |queue|
      {
        RejectionJustified(ctx.model, cfg, ctx.nCtx, queue[0].req, Unavailable);
        AnswerHead(GenerateResult([], "", 0, 0, Unavailable, "stop"));
      }
    }

    /** The shutdown drain: afterwards every submission made so far has its answer and every
        cache is empty. */
    method Drain()
      requires Valid()
      modifies this, ctx`kv
      ensures Valid() && |slots| == |old(slots)| && queue == [] && submitted == old(submitted)
      ensures AnswersKept(old(fate), fate) && |fate| == |submitted|
      ensures forall t :: 0 <= t < |fate| ==>
        fate[t].Done? && Justified(ctx.model, cfg, ctx.nCtx, submitted[t], fate[t].result, fate[t].gapped)
      ensures forall j :: 0 <= j < |slots| ==> slots[j].IsFree() && ctx.kv[j] == []
      ensures forall j :: 0 <= j < |slots| && old(slots)[j].IsBusy() ==> CutShort(old(slots)[j], fate, Unavailable)
      ensures forall k :: 0 <= k < |old(queue)| ==>
        var t := old(queue)[k].promise;
        t < |fate| && fate[t] == Done(GenerateResult([], "", 0, 0, Unavailable, "stop"), false)
    {
      hide SlotInv, Books, Justified, CutShort;
      RunningBusy(ctx.model, cfg, ctx.nCtx, queue, submitted, popped, slots, fate);
      DrainSlots();
      ghost var before := fate;
      DrainQueue();
      CutShortKept(old(slots), before, fate, Unavailable);
      AllAnswered(ctx.model, cfg, ctx.nCtx, submitted, popped, slots, fate);
      forall j | 0 <= j < |slots| ensures slots[j].IsFree() && ctx.kv[j] == [] {
        assert SlotOk(j, [], 0, 0);
        FreeSlot(ctx.model, cfg, slots[j], j, ctx.kv[j], submitted, gapped[j]);
      }
    }

    /** What the invariant says of a busy slot at the top of the loop. */
    lemma LedgerAtLoopTop(i: nat)
      requires Valid() && i < |slots| && slots[i].IsBusy()
      ensures var s := slots[i];
        && s.seqId == s.id == i && s.promise < |submitted|
        && s.cachedTokens == submitted[s.promise].tokens + s.genTokenIds && s.nDecoded == |s.genTokenIds|
        && Ledger(s, ctx.kv[i], gapped[i])
    {
      hide SlotInv, Ledger;
      assert SlotOk(i, [], 0, 0);
      BusyLedger(ctx.model, cfg, slots[i], i, ctx.kv[i], submitted, gapped[i]);
    }

    /** Every answer is the sequential engine's, for a request that ended well in a slot without a
        hole and meets the condition for the engines to agree. */
    lemma AnsweredSequentially(t: nat, shared: Sampler)
      requires Valid() && t < |submitted|
      ensures |fate| == |submitted|
      ensures fate[t].Done? && fate[t].result.error == Ok && (fate[t].gapped ==> submitted[t].sessionId == "")
              && Lawful(ctx.model) && Agrees(cfg, submitted[t], shared) ==>
        var res := fate[t].result;
        Outcome(res.tokens, res.text, res.finishReason) == Sequential(ctx.model, cfg, shared, submitted[t])
    {
      hide SlotInv, Lawful, Agrees, Justified, Sequential;
      AnswersJustified(t);
      if fate[t].Done? && fate[t].result.error == Ok && (fate[t].gapped ==> submitted[t].sessionId == "")
         && Lawful(ctx.model) && Agrees(cfg, submitted[t], shared) {
        BatchingIsTransparent(ctx.model, cfg, ctx.nCtx, submitted[t], fate[t].result, fate[t].gapped, shared);
      }
    }

    /** How many tokens an answer has: at most the request's limit, or else the configured one, but at
        least one may be drawn; on a model that does not end generation, without stops, exactly that many. */
    lemma AnsweredWithin(t: nat)
      requires Valid() && t < |submitted|
      ensures |fate| == |submitted|
      ensures fate[t].Done? ==>
        var req, res := submitted[t], fate[t].result;
        && (req.maxTokens > 0 ==> |res.tokens| <= req.maxTokens)
        && (req.maxTokens <= 0 ==> |res.tokens| <= if cfg.maxTokens > 1 then cfg.maxTokens else 1)
        && (res.error == Ok && (forall id :: !ctx.model.isEog(id)) && req.stopTokens == [] && cfg.stop == [] ==>
              && res.finishReason == "length"
              && |res.tokens| == if req.maxTokens > 0 then req.maxTokens
                                 else if cfg.maxTokens > 1 then cfg.maxTokens else 1)
    {
      AnswersJustified(t);
      hide SlotInv, SoFar, Ended;
      if fate[t].Done? {
        EndedWithin(ctx.model, cfg, submitted[t], fate[t].result.tokens, fate[t].result.finishReason);
      }
    }

    /** An answer that ended well in a slot without a hole is the generation of its request, on the
        fields: drawn by the request's own sampler from the cells of its prompt and its own tokens. */
    lemma AnsweredOnItsOwn(t: nat)
      requires Valid() && t < |submitted|
      ensures |fate| == |submitted|
      ensures fate[t].Done? && fate[t].result.error == Ok && !fate[t].gapped ==>
        var req, res := submitted[t], fate[t].result;
        var limit := if req.maxTokens > 0 then req.maxTokens else cfg.maxTokens;
        && Generated(ctx.model, gen => NextToken(ctx.model, cfg, req, gen), req.stopTokens, cfg.stop,
                     if limit > 1 then limit else 1, res.tokens)
        && res.text == Text(ctx.model, res.tokens)
        && res.finishReason == if res.tokens != [] && |res.tokens| >= limit then "length" else "stop"
    {
      AnswersJustified(t);
      hide SlotInv, SoFar, Ended, Solo, Generated;
      SoloGenerates(ctx.model, cfg, submitted[t]);
    }

    lemma AnswersJustified(t: nat)
      requires Promises() && t < |submitted|
      ensures |fate| == |submitted|
      ensures fate[t].Done? ==>
        Justified(ctx.model, cfg, ctx.nCtx, submitted[t], fate[t].result, fate[t].gapped)
    {
      hide Justified;
    }

    // ---- whole runs ----

    /** The requests of a schedule, in order of arrival. */
    static function Arrived(arrivals: seq<(seq<GenerateRequest>, seq<GenerateRequest>)>): seq<GenerateRequest> {
      if arrivals == [] then []
      else Arrived(arrivals[..|arrivals| - 1]) + arrivals[|arrivals| - 1].0 + arrivals[|arrivals| - 1].1
    }

    /** Any schedule of arrivals, before and during each step.  A request that was in a slot
        is answered once its remaining budget of steps has passed, and every submission, however many
        come after it, once what was owed to all of those at the beginning has. */
    method Run(arrivals: seq<(seq<GenerateRequest>, seq<GenerateRequest>)>)
      requires Valid()
      modifies this, ctx
      ensures Valid() && |slots| == |old(slots)| && |old(fate)| <= |fate| && AnswersKept(old(fate), fate)
      ensures submitted == old(submitted) + Arrived(arrivals)
      ensures forall t :: 0 <= t < |old(fate)| && old(fate)[t].Running? ==>
        old(fate)[t].slot < |old(slots)| && t < |old(submitted)| && t < |fate| &&
        (|arrivals| + old(slots)[old(fate)[t].slot].nDecoded >= Budget(cfg, old(submitted)[t]) ==> fate[t].Done?)
      ensures |slots| > 0 && |arrivals| >= old(Owing(|fate|)) ==> forall t :: 0 <= t < |old(fate)| ==> fate[t].Done?
    {
      hide SlotInv, Books, Debt, Admissions, Enqueued, SlotsServed, TakenUp, ContinuousBatchScheduler.StampedSince;
      RunningBusy(ctx.model, cfg, ctx.nCtx, queue, submitted, popped, slots, fate);
      ghost var n := |fate|;
      for k := 0 to |arrivals|
        invariant Valid() && |slots| == |old(slots)| && |old(fate)| <= |fate| && AnswersKept(old(fate), fate)
        invariant |old(submitted)| <= |submitted| && submitted[..|old(submitted)|] == old(submitted)
        invariant submitted == old(submitted) + Arrived(arrivals[..k])
        invariant forall t :: 0 <= t < |old(fate)| && old(fate)[t].Running? ==>
          ServedFor(k, old(fate)[t], old(slots), t)
        invariant |slots| > 0 ==> Owing(n) == 0 || Owing(n) + k <= old(Owing(|fate|))
      {
        ghost var fate0, reqs0 := fate, submitted;
        SubmitAll(arrivals[k].0);
        assert fate[..n] == fate0[..n] && submitted[..n] == reqs0[..n];
        WithinBudget();
        NothingOwed(ctx.model, cfg, ctx.nCtx, submitted, slots, queue, fate, popped, n);
        var failedAt;
        ghost var turns, mid;
        failedAt, turns, mid := WorkerStep(arrivals[k].1, n);
        assert arrivals[..k + 1][..k] == arrivals[..k];
      }
      assert arrivals[..|arrivals|] == arrivals;
      forall t | 0 <= t < |old(fate)| && old(fate)[t].Running?
        ensures |arrivals| + old(slots)[old(fate)[t].slot].nDecoded >= Budget(cfg, old(submitted)[t]) ==> fate[t].Done?
      {
        assert ServedFor(|arrivals|, old(fate)[t], old(slots), t);
        if !fate[t].Done? {
          WithinBudget();
        }
      }
      WithinBudget();
      NothingOwed(ctx.model, cfg, ctx.nCtx, submitted, slots, queue, fate, popped, n);
    }

    /** After `k` steps a request is answered, or `k` tokens further in its slot. */
    ghost predicate ServedFor(k: nat, f: Fate, slots0: seq<Slot>, t: nat)
      requires f.Running?
      reads this
    {
      && t < |fate| && f.slot < |slots0|
      && (fate[t].Done? ||
          (fate[t] == f && f.slot < |slots| && slots[f.slot].IsBusy() && slots[f.slot].promise == t
           && slots[f.slot].nDecoded == slots0[f.slot].nDecoded + k))
    }

    lemma WithinBudget()
      requires Valid()
      ensures forall j :: 0 <= j < |slots| && slots[j].IsBusy() ==>
        slots[j].promise < |submitted| && slots[j].nDecoded < Budget(cfg, submitted[slots[j].promise])
    {
      hide SlotInv, Books;
      forall j | 0 <= j < |slots| && slots[j].IsBusy()
        ensures slots[j].promise < |submitted| && slots[j].nDecoded < Budget(cfg, submitted[slots[j].promise])
      {
        assert SlotOk(j, [], 0, 0);
        BusySlot(ctx.model, cfg, slots[j], j, ctx.kv[j], submitted, gapped[j], [], 0, 0);
      }
    }

    lemma SomethingWaits()
      requires Promises() && (queue != [] || exists j :: 0 <= j < |slots| && slots[j].IsBusy())
      ensures exists t :: 0 <= t < |fate| && !fate[t].Done?
    {
      hide Justified;
      if queue != [] {
        assert fate[queue[0].promise].Queued?;
      } else {
        var j :| 0 <= j < |slots| && slots[j].IsBusy();
        assert fate[slots[j].promise] == Running(j);
      }
    }

    /** With no more arrivals and at least one slot, the worker's loop answers everything. */
    method RunUntilAnswered()
      requires Valid() && |slots| > 0
      modifies this, ctx
      ensures Valid() && submitted == old(submitted) && |fate| == |submitted| && AnswersKept(old(fate), fate)
      ensures forall t :: 0 <= t < |fate| ==>
        fate[t].Done? && Justified(ctx.model, cfg, ctx.nCtx, submitted[t], fate[t].result, fate[t].gapped)
    {
      hide SlotInv, Books, Justified, Debt;
      RunningBusy(ctx.model, cfg, ctx.nCtx, queue, submitted, popped, slots, fate);
      var nActive := CountBusy();
      while queue != [] || nActive != 0
        invariant Valid() && |slots| == |old(slots)| && submitted == old(submitted)
        invariant |fate| == |submitted| && AnswersKept(old(fate), fate)
        invariant nActive == 0 <==> forall j :: 0 <= j < |slots| ==> !slots[j].IsBusy()
        decreases Owing(|fate|)
      {
        SomethingWaits();
        var failedAt;
        ghost var turns, mid;
        failedAt, turns, mid := WorkerStep([], |fate|);
        nActive := CountBusy();
      }
      AllAnswered(ctx.model, cfg, ctx.nCtx, submitted, popped, slots, fate);
    }

    /** Work on a busy slot that leaves its promise there keeps the promise books. */
    lemma Work(i: nat, s: Slot)
      requires Promises() && i < |slots| && slots[i].IsBusy() == s.IsBusy() && slots[i].promise == s.promise
      ensures Books(ctx.model, cfg, ctx.nCtx, slots[i := s], queue, fate, submitted, popped)
    {
      BooksWork(ctx.model, cfg, ctx.nCtx, slots, queue, fate, submitted, popped, i, s);
    }
  }
}
