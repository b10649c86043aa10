/** Delivery of answers: every submission is queued, in a slot, or answered, and only ever
    moves forward. */
module Promises {
  import opened Common
  import opened Llama
  import opened Generation
  import opened Slots
  import opened Transparency

  datatype PendingRequest = PendingRequest(req: GenerateRequest, promise: nat)

  /** Where a submission is: the n-th entry of the queue's history, in a slot, or answered.
      `gapped` says whether its slot's cache had a hole when it was admitted. */
  datatype Fate = Queued(n: nat) | Running(slot: nat) | Done(result: GenerateResult, gapped: bool)

  /** What an answer to `req` may be.  Success is the request's own generation; a failure
      carries a part of it, and its kind says why. */
  ghost predicate Justified(m: Model, cfg: Defaults, nCtx: nat, req: GenerateRequest, res: GenerateResult,
                            gapped: bool) {
    && res.text == Text(m, res.tokens) && res.generatedTokens == |res.tokens| <= Budget(cfg, req)
    && SoFar(m, cfg, req, res.tokens) && (gapped ==> req.sessionId != "")
    && (!gapped ==> res.tokens <= Solo(m, cfg, req).tokens)
    && (res.error == Ok ==>
          && 0 < |req.tokens| < nCtx && res.promptTokens == |req.tokens|
          && Ended(m, cfg, req, res.tokens, res.finishReason)
          && (!gapped ==> Outcome(res.tokens, res.text, res.finishReason) == Solo(m, cfg, req)))
    && (res.error == InvalidArgument ==> |req.tokens| == 0 || |req.tokens| >= nCtx)
    && (res.error == InternalError ==> 0 < |req.tokens| < nCtx)
    && res.error != NotFound
  }

  /** Batching is transparent: whatever else ran beside it, a request that ended well in a slot
      whose cache had no hole got the sequential engine's answer, under the exact condition. */
  lemma BatchingIsTransparent(m: Model, cfg: Defaults, nCtx: nat, req: GenerateRequest, res: GenerateResult,
                              gapped: bool, shared: Sampler)
    requires Justified(m, cfg, nCtx, req, res, gapped) && res.error == Ok
    requires req.sessionId == "" || !gapped
    requires Lawful(m) && Agrees(cfg, req, shared)
    ensures Outcome(res.tokens, res.text, res.finishReason) == Sequential(m, cfg, shared, req)
  {
    AgreementHolds(m, cfg, req, shared);
  }

  /** The record points at the place where submission t is. */
  ghost predicate Placed(slots: seq<Slot>, queue: seq<PendingRequest>, popped: nat, f: Fate, t: nat) {
    match f
    case Queued(n) => popped <= n < popped + |queue| && queue[n - popped].promise == t
    case Running(i) => i < |slots| && slots[i].IsBusy() && slots[i].promise == t
    case Done(_, _) => true
  }

  /** Everything in the queue or in a slot is on record as being there. */
  ghost predicate Recorded(nCtx: nat, slots: seq<Slot>, queue: seq<PendingRequest>, fate: seq<Fate>,
                           reqs: seq<GenerateRequest>, popped: nat)
  {
    && |fate| == |reqs|
    && (forall k :: 0 <= k < |queue| ==>
          && queue[k].promise < |reqs| && queue[k].req == reqs[queue[k].promise]
          && fate[queue[k].promise] == Queued(popped + k))
    && (forall i :: 0 <= i < |slots| && slots[i].IsBusy() ==>
          && slots[i].promise < |reqs| && |reqs[slots[i].promise].tokens| < nCtx
          && fate[slots[i].promise] == Running(i))
  }

  /** The queue is in order of submission, behind everything in a slot. */
  ghost predicate InOrder(slots: seq<Slot>, queue: seq<PendingRequest>) {
    && (forall j, k :: 0 <= j < k < |queue| ==> queue[j].promise < queue[k].promise)
    && (forall i, k :: 0 <= i < |slots| && slots[i].IsBusy() && 0 <= k < |queue| ==>
          slots[i].promise < queue[k].promise)
  }

  /** Every submission is in exactly one place: queued, in a busy slot, or answered, and every
      answer is justified. */
  ghost predicate Books(m: Model, cfg: Defaults, nCtx: nat, slots: seq<Slot>, queue: seq<PendingRequest>,
                        fate: seq<Fate>, reqs: seq<GenerateRequest>, popped: nat)
  {
    && Recorded(nCtx, slots, queue, fate, reqs, popped)
    && InOrder(slots, queue)
    && (forall t :: 0 <= t < |fate| ==> Placed(slots, queue, popped, fate[t], t))
    && (forall t :: 0 <= t < |fate| && fate[t].Done? ==>
          Justified(m, cfg, nCtx, reqs[t], fate[t].result, fate[t].gapped))
  }

  /** Answers are final. */
  ghost predicate AnswersKept(before: seq<Fate>, after: seq<Fate>) {
    |before| <= |after| && forall t :: 0 <= t < |before| && before[t].Done? ==> after[t] == before[t]
  }

  /** What one step of the worker does for a submission: an answer stays, and a request in a
      slot gains a token or is answered. */
  ghost predicate StepDone(f: Fate, slots: seq<Slot>, f': Fate, slots': seq<Slot>, t: nat) {
    match f
    case Done(_, _) => f' == f
    case Queued(_) => f' == f
    case Running(i) =>
      f'.Done? || (f' == f && i < |slots| && i < |slots'| && slots'[i].IsBusy() && slots'[i].promise == t
                   && slots'[i].nDecoded == slots[i].nDecoded + 1)
  }

  /** A request that has left the queue was refused for its length or got a slot. */
  ghost predicate TakenUp(nCtx: nat, entry: PendingRequest, slots: seq<Slot>, fate: seq<Fate>) {
    && entry.promise < |fate|
    && if 0 < |entry.req.tokens| < nCtx then
         && fate[entry.promise].Running? && fate[entry.promise].slot < |slots|
         && slots[fate[entry.promise].slot].IsBusy() && slots[fate[entry.promise].slot].promise == entry.promise
         && slots[fate[entry.promise].slot].nDecoded == 0
       else fate[entry.promise].Done? && fate[entry.promise].result.error == InvalidArgument
  }

  /** A refusal carries no tokens. */
  lemma RejectionJustified(m: Model, cfg: Defaults, nCtx: nat, req: GenerateRequest, ec: ErrorCode)
    requires ec == Unavailable || (ec == InvalidArgument && (|req.tokens| == 0 || |req.tokens| >= nCtx))
    ensures forall n :: Justified(m, cfg, nCtx, req, GenerateResult([], "", n, 0, ec, "stop"), false)
  {
  }

  /** Building the batch moves a slot's positions and nothing else of its request. */
  ghost predicate SameRequest(before: Slot, after: Slot) {
    && after == before.(iBatch := after.iBatch, nPast := after.nPast)
    && (!before.IsBusy() ==> after == before)
  }

  ghost predicate OneMoreToken(before: seq<Token>, after: seq<Token>) {
    |after| == |before| + 1 && before <= after
  }

  /** A successful step of a request: one more token, or its answer. */
  ghost predicate SampledOnce(before: Slot, after: Slot, fate: seq<Fate>, gap: bool) {
    && before.promise < |fate|
    && if after.IsBusy() then
         && after.promise == before.promise && after.nDecoded == before.nDecoded + 1 && after.iBatch == -1
         && OneMoreToken(before.genTokenIds, after.genTokenIds)
       else
         && fate[before.promise].Done?
         && (fate[before.promise].result.tokens == before.genTokenIds
             || OneMoreToken(before.genTokenIds, fate[before.promise].result.tokens))
         && fate[before.promise].Done? && fate[before.promise].result.error == Ok && fate[before.promise].gapped == gap
         && KeptForSession(before, after, fate[before.promise].result)
  }

  /** A finished request's slot stays with its session, if it has one, and with its ledger. */
  ghost predicate KeptForSession(before: Slot, after: Slot, res: GenerateResult) {
    && (after.IsWarm() <==> before.cachedSessionId != "")
    && (after.IsWarm() ==>
          && after.cachedSessionId == before.cachedSessionId && before.nPrompt <= |before.cachedTokens|
          && after.cachedTokens == before.cachedTokens[..before.nPrompt] + res.tokens)
  }

  /** A request cut short is answered with what it has so far. */
  ghost predicate CutShort(before: Slot, fate: seq<Fate>, ec: ErrorCode) {
    && before.promise < |fate| && fate[before.promise].Done?
    && var res := fate[before.promise].result;
       res.error == ec && res.tokens == before.genTokenIds && res.text == before.accumulated
  }

  lemma CutShortKept(slots: seq<Slot>, fate: seq<Fate>, fate': seq<Fate>, ec: ErrorCode)
    requires AnswersKept(fate, fate')
    ensures forall j :: 0 <= j < |slots| && CutShort(slots[j], fate, ec) ==> CutShort(slots[j], fate', ec)
  {
  }

  /** A failed step: the request is answered and the slot is free. */
  ghost predicate FailedOnce(before: Slot, after: Slot, fate: seq<Fate>) {
    after.IsFree() && CutShort(before, fate, InternalError)
  }

  /** A step that began with `slots0` has sampled every slot whose last entry lies before `cs`. */
  ghost predicate SampledBelow(slots0: seq<Slot>, slots: seq<Slot>, fate: seq<Fate>, gapped: seq<bool>, cs: int) {
    && |slots| == |slots0| == |gapped|
    && forall j :: 0 <= j < |slots| ==>
         if slots0[j].IsBusy() && slots0[j].iBatch < cs
         then SampledOnce(slots0[j], slots[j], fate, gapped[j])
         else slots[j] == slots0[j]
  }

  /** Sampling the next chunk extends that. */
  lemma SampledFurther(slots0: seq<Slot>, slots: seq<Slot>, fate: seq<Fate>, slots': seq<Slot>, fate': seq<Fate>,
                       gapped: seq<bool>, cs: nat, n: nat)
    requires SampledBelow(slots0, slots, fate, gapped, cs) && |slots'| == |slots| && AnswersKept(fate, fate')
    requires forall j :: 0 <= j < |slots| ==>
      if slots[j].IsBusy() && cs <= slots[j].iBatch < cs + n
      then SampledOnce(slots[j], slots'[j], fate', gapped[j])
      else slots'[j] == slots[j]
    ensures SampledBelow(slots0, slots', fate', gapped, cs + n)
  {
    forall j | 0 <= j < |slots|
      ensures
        if slots0[j].IsBusy() && slots0[j].iBatch < cs + n
        then SampledOnce(slots0[j], slots'[j], fate', gapped[j])
        else slots'[j] == slots0[j]
    {
      assert slots[j].IsBusy() && cs <= slots[j].iBatch < cs + n ==> SampledOnce(slots[j], slots'[j], fate', gapped[j]);
    }
  }

  /** What a step has made of one slot: nothing, a sample, or a failure at `failedAt`. */
  ghost predicate StepOutcome(before: Slot, after: Slot, fate: seq<Fate>, gap: bool, failedAt: int) {
    if !before.IsBusy() then after == before
    else if failedAt == -1 || before.iBatch < failedAt then SampledOnce(before, after, fate, gap)
    else FailedOnce(before, after, fate)
  }

  /** What a step makes of every slot: one sample of each busy one, or its failure when a decode call has
      failed for good; the others stay as they are. */
  ghost predicate SlotsServed(before: seq<Slot>, after: seq<Slot>, fate: seq<Fate>, gapped: seq<bool>, failed: bool) {
    && |after| == |before| == |gapped|
    && forall j :: 0 <= j < |before| ==>
         if !before[j].IsBusy() then after[j] == before[j]
         else
           || SampledOnce(before[j], after[j], fate, gapped[j])
           || (failed && FailedOnce(before[j], after[j], fate))
  }

  lemma SlotsUntouched(slots: seq<Slot>, fate: seq<Fate>, gapped: seq<bool>)
    requires |gapped| == |slots| && forall j :: 0 <= j < |slots| ==> !slots[j].IsBusy()
    ensures SlotsServed(slots, slots, fate, gapped, false)
  {
  }

  /** Building the batch does not matter to that. */
  lemma EachServed(before: seq<Slot>, built: seq<Slot>, after: seq<Slot>, fate: seq<Fate>, gapped: seq<bool>,
                   failedAt: int)
    requires |after| == |built| == |before| == |gapped|
    requires forall j :: 0 <= j < |before| ==> SameRequest(before[j], built[j])
    requires forall j :: 0 <= j < |before| ==> StepOutcome(built[j], after[j], fate, gapped[j], failedAt)
    ensures SlotsServed(before, after, fate, gapped, failedAt != -1)
    ensures forall j :: 0 <= j < |before| && before[j].IsBusy() ==>
      SampledOnce(before[j], after[j], fate, gapped[j]) || FailedOnce(before[j], after[j], fate)
  {
    forall j | 0 <= j < |before|
      ensures if !before[j].IsBusy() then after[j] == before[j]
              else SampledOnce(before[j], after[j], fate, gapped[j])
                   || (failedAt != -1 && FailedOnce(before[j], after[j], fate))
    {
      assert SameRequest(before[j], built[j]) && StepOutcome(built[j], after[j], fate, gapped[j], failedAt);
    }
  }

  /** Of the submissions `late`, numbered from `first`, as many wait at the back of the queue as there is
      room for, in order; the others are refused. */
  ghost predicate Enqueued(maxQueue: int, queue: seq<PendingRequest>, queue': seq<PendingRequest>, first: nat,
                           late: seq<GenerateRequest>, fate: seq<Fate>)
  {
    var room := if |queue| < maxQueue then maxQueue - |queue| else 0;
    var n := if room < |late| then room else |late|;
    && queue' == queue + seq(n, k requires 0 <= k < n => PendingRequest(late[k], first + k))
    && |fate| == first + |late|
    && forall t :: first + n <= t < |fate| ==> fate[t].Done? && fate[t].result.error == Unavailable
  }

  lemma EnqueuedKept(maxQueue: int, queue: seq<PendingRequest>, queue': seq<PendingRequest>, first: nat,
                     late: seq<GenerateRequest>, fate: seq<Fate>, fate': seq<Fate>)
    requires Enqueued(maxQueue, queue, queue', first, late, fate) && AnswersKept(fate, fate') && |fate'| == |fate|
    ensures Enqueued(maxQueue, queue, queue', first, late, fate')
  {
  }

  /** A step after an admission is a step for every request that was not waiting. */
  lemma StepDoneAcross(fate: seq<Fate>, mid: seq<Fate>, slots: seq<Slot>, held: seq<Slot>, fate': seq<Fate>,
                       slots': seq<Slot>)
    requires |fate| == |mid| <= |fate'| && |slots| == |held|
    requires forall t :: 0 <= t < |fate| && !fate[t].Queued? ==> mid[t] == fate[t]
    requires forall t :: 0 <= t < |fate| && fate[t].Running? ==>
      fate[t].slot < |slots| && held[fate[t].slot] == slots[fate[t].slot]
    requires forall t :: 0 <= t < |mid| ==> StepDone(mid[t], held, fate'[t], slots', t)
    ensures forall t :: 0 <= t < |fate| && !fate[t].Queued? ==> StepDone(fate[t], slots, fate'[t], slots', t)
  {
    forall t | 0 <= t < |fate| && !fate[t].Queued? ensures StepDone(fate[t], slots, fate'[t], slots', t) {
      assert StepDone(mid[t], held, fate'[t], slots', t);
    }
  }

  /** Failing the unprocessed slots completes the step. */
  lemma FailedTheRest(slots0: seq<Slot>, slots: seq<Slot>, fate: seq<Fate>, slots': seq<Slot>, fate': seq<Fate>,
                      gapped: seq<bool>, cs: nat)
    requires SampledBelow(slots0, slots, fate, gapped, cs) && |slots'| == |slots| && AnswersKept(fate, fate')
    requires forall j :: 0 <= j < |slots0| && slots0[j].IsBusy() ==> slots0[j].iBatch >= 0
    requires forall j :: 0 <= j < |slots| ==>
      if slots[j].IsBusy() && slots[j].iBatch >= cs
      then FailedOnce(slots[j], slots'[j], fate')
      else slots'[j] == slots[j]
    ensures forall j :: 0 <= j < |slots0| ==> StepOutcome(slots0[j], slots'[j], fate', gapped[j], cs)
  {
    forall j | 0 <= j < |slots0| ensures StepOutcome(slots0[j], slots'[j], fate', gapped[j], cs) {
      assert slots[j].IsBusy() && slots[j].iBatch >= cs ==> FailedOnce(slots[j], slots'[j], fate');
    }
  }

  lemma NothingSampled(slots: seq<Slot>, fate: seq<Fate>, gapped: seq<bool>)
    requires |gapped| == |slots|
    requires forall j :: 0 <= j < |slots| && slots[j].IsBusy() ==> slots[j].iBatch >= 0
    ensures SampledBelow(slots, slots, fate, gapped, 0) && AnswersKept(fate, fate)
  {
  }

  lemma AnswersKeptOn(a: seq<Fate>, b: seq<Fate>, c: seq<Fate>)
    requires AnswersKept(a, b) && AnswersKept(b, c)
    ensures AnswersKept(a, c)
  {
  }

  lemma StepFails(slots0: seq<Slot>, slots: seq<Slot>, fate0: seq<Fate>, fate: seq<Fate>, slots': seq<Slot>,
                  fate': seq<Fate>, gapped: seq<bool>, cs: nat)
    requires SampledBelow(slots0, slots, fate, gapped, cs) && |slots'| == |slots| && AnswersKept(fate0, fate)
    requires AnswersKept(fate, fate')
    requires forall j :: 0 <= j < |slots0| && slots0[j].IsBusy() ==> slots0[j].iBatch >= 0
    requires forall j :: 0 <= j < |slots| ==>
      if slots[j].IsBusy() && slots[j].iBatch >= cs
      then FailedOnce(slots[j], slots'[j], fate')
      else slots'[j] == slots[j]
    ensures AnswersKept(fate0, fate') && forall j :: 0 <= j < |slots0| ==>
      StepOutcome(slots0[j], slots'[j], fate', gapped[j], cs)
    ensures forall j :: 0 <= j < |slots0| && slots0[j].IsBusy() && slots0[j].iBatch >= cs ==> slots[j] == slots0[j]
  {
    FailedTheRest(slots0, slots, fate, slots', fate', gapped, cs);
  }

  lemma AllSampled(slots0: seq<Slot>, slots: seq<Slot>, fate: seq<Fate>, gapped: seq<bool>, total: int)
    requires SampledBelow(slots0, slots, fate, gapped, total)
    requires forall j :: 0 <= j < |slots| && slots[j].IsBusy() ==> slots[j].iBatch == -1
    requires forall j :: 0 <= j < |slots0| && slots0[j].IsBusy() ==> slots0[j].iBatch >= 0
    ensures forall j :: 0 <= j < |slots| ==> StepOutcome(slots0[j], slots[j], fate, gapped[j], -1)
  {
  }

  /** A full queue answers the submission itself. */
  lemma BooksReject(m: Model, cfg: Defaults, nCtx: nat, slots: seq<Slot>, queue: seq<PendingRequest>,
                    fate: seq<Fate>, reqs: seq<GenerateRequest>, popped: nat, req: GenerateRequest, res: GenerateResult)
    requires Books(m, cfg, nCtx, slots, queue, fate, reqs, popped) && Justified(m, cfg, nCtx, req, res, false)
    ensures Books(m, cfg, nCtx, slots, queue, fate + [Done(res, false)], reqs + [req], popped)
  {
    hide Justified;
    assert Placed(slots, queue, popped, Done(res, false), |fate|);
    hide Placed;
  }

  lemma BooksEnqueue(m: Model, cfg: Defaults, nCtx: nat, slots: seq<Slot>, queue: seq<PendingRequest>,
                     fate: seq<Fate>, reqs: seq<GenerateRequest>, popped: nat, req: GenerateRequest)
    requires Books(m, cfg, nCtx, slots, queue, fate, reqs, popped)
    ensures Books(m, cfg, nCtx, slots, queue + [PendingRequest(req, |reqs|)],
                  fate + [Queued(popped + |queue|)], reqs + [req], popped)
  {
    hide Justified, Placed;
    var queue', fate' := queue + [PendingRequest(req, |reqs|)], fate + [Queued(popped + |queue|)];
    forall t | 0 <= t < |fate'| ensures Placed(slots, queue', popped, fate'[t], t) {
      PlacedEnqueue(slots, queue, popped, fate'[t], t, PendingRequest(req, |reqs|));
    }
  }

  lemma PlacedEnqueue(slots: seq<Slot>, queue: seq<PendingRequest>, popped: nat, f: Fate, t: nat, p: PendingRequest)
    requires Placed(slots, queue, popped, f, t) || (f == Queued(popped + |queue|) && p.promise == t)
    ensures Placed(slots, queue + [p], popped, f, t)
  {
  }

  lemma PlacedPop(slots: seq<Slot>, queue: seq<PendingRequest>, popped: nat, f: Fate, t: nat)
    requires queue != [] && Placed(slots, queue, popped, f, t) && f != Queued(popped)
    ensures Placed(slots, queue[1..], popped + 1, f, t)
  {
  }

  lemma PlacedSlot(slots: seq<Slot>, queue: seq<PendingRequest>, popped: nat, f: Fate, t: nat, i: nat, s: Slot)
    requires i < |slots| && Placed(slots, queue, popped, f, t)
    requires f == Running(i) ==> s.IsBusy() && s.promise == slots[i].promise
    ensures Placed(slots[i := s], queue, popped, f, t)
  {
  }

  /** The head of the queue is answered without a slot. */
  lemma BooksAnswerHead(m: Model, cfg: Defaults, nCtx: nat, slots: seq<Slot>, queue: seq<PendingRequest>,
                        fate: seq<Fate>, reqs: seq<GenerateRequest>, popped: nat, res: GenerateResult)
    requires queue != [] && Books(m, cfg, nCtx, slots, queue, fate, reqs, popped)
    requires Justified(m, cfg, nCtx, queue[0].req, res, false)
    ensures Books(m, cfg, nCtx, slots, queue[1..], fate[queue[0].promise := Done(res, false)], reqs, popped + 1)
  {
    hide Justified;
    var p := queue[0].promise;
    var fate' := fate[p := Done(res, false)];
    forall t | 0 <= t < |fate'| ensures Placed(slots, queue[1..], popped + 1, fate'[t], t) {
      if fate'[t].Queued? { assert t != p; assert queue[fate[t].n - popped].promise == t; }
      if t != p { PlacedPop(slots, queue, popped, fate[t], t); }
    }
    hide Placed;
  }

  /** The head of the queue moves into an idle slot. */
  lemma BooksAdmit(m: Model, cfg: Defaults, nCtx: nat, slots: seq<Slot>, queue: seq<PendingRequest>,
                   fate: seq<Fate>, reqs: seq<GenerateRequest>, popped: nat, i: nat, s: Slot)
    requires queue != [] && Books(m, cfg, nCtx, slots, queue, fate, reqs, popped)
    requires i < |slots| && !slots[i].IsBusy() && s.IsBusy() && s.promise == queue[0].promise
    requires |queue[0].req.tokens| < nCtx
    ensures Books(m, cfg, nCtx, slots[i := s], queue[1..], fate[s.promise := Running(i)], reqs, popped + 1)
  {
    hide Justified;
    var p := s.promise;
    var fate' := fate[p := Running(i)];
    forall t | 0 <= t < |fate'| ensures Placed(slots[i := s], queue[1..], popped + 1, fate'[t], t) {
      if t != p {
        PlacedPop(slots, queue, popped, fate[t], t);
        PlacedSlot(slots, queue[1..], popped + 1, fate[t], t, i, s);
      }
    }
    hide Placed;
  }

  /** Work on a slot that leaves its promise where it is. */
  lemma BooksWork(m: Model, cfg: Defaults, nCtx: nat, slots: seq<Slot>, queue: seq<PendingRequest>,
                  fate: seq<Fate>, reqs: seq<GenerateRequest>, popped: nat, i: nat, s: Slot)
    requires Books(m, cfg, nCtx, slots, queue, fate, reqs, popped)
    requires i < |slots| && slots[i].IsBusy() == s.IsBusy() && slots[i].promise == s.promise
    ensures Books(m, cfg, nCtx, slots[i := s], queue, fate, reqs, popped)
  {
    hide Justified;
    forall t | 0 <= t < |fate| ensures Placed(slots[i := s], queue, popped, fate[t], t) {
      PlacedSlot(slots, queue, popped, fate[t], t, i, s);
    }
    hide Placed;
  }

  /** A slot answers its request and stops being busy. */
  lemma BooksAnswerSlot(m: Model, cfg: Defaults, nCtx: nat, slots: seq<Slot>, queue: seq<PendingRequest>,
                        fate: seq<Fate>, reqs: seq<GenerateRequest>, popped: nat, i: nat, s: Slot,
                        res: GenerateResult, gapped: bool)
    requires Books(m, cfg, nCtx, slots, queue, fate, reqs, popped)
    requires i < |slots| && slots[i].IsBusy() && !s.IsBusy()
    requires Justified(m, cfg, nCtx, reqs[slots[i].promise], res, gapped)
    ensures Books(m, cfg, nCtx, slots[i := s], queue, fate[slots[i].promise := Done(res, gapped)], reqs, popped)
  {
    hide Justified;
    var p := slots[i].promise;
    var fate' := fate[p := Done(res, gapped)];
    forall t | 0 <= t < |fate'| ensures Placed(slots[i := s], queue, popped, fate'[t], t) {
      if t != p { PlacedSlot(slots, queue, popped, fate[t], t, i, s); }
    }
    hide Placed;
  }

  /** Serving every busy slot once, with the queue untouched, is one step for every submission. */
  lemma ServedAll(m: Model, cfg: Defaults, nCtx: nat, queue: seq<PendingRequest>, reqs: seq<GenerateRequest>,
                  popped: nat,
                  slots: seq<Slot>, fate: seq<Fate>, slots': seq<Slot>, fate': seq<Fate>, gapped: seq<bool>)
    requires Books(m, cfg, nCtx, slots, queue, fate, reqs, popped)
    requires Books(m, cfg, nCtx, slots', queue, fate', reqs, popped)
    requires AnswersKept(fate, fate') && |slots| == |slots'| == |gapped|
    requires forall j :: 0 <= j < |slots| && slots[j].IsBusy() ==>
      SampledOnce(slots[j], slots'[j], fate', gapped[j]) || FailedOnce(slots[j], slots'[j], fate')
    ensures |fate| == |fate'| && forall t :: 0 <= t < |fate| ==> StepDone(fate[t], slots, fate'[t], slots', t)
  {
    hide Justified;
    forall t | 0 <= t < |fate| ensures StepDone(fate[t], slots, fate'[t], slots', t) {
      assert Placed(slots, queue, popped, fate[t], t);
    }
  }

  lemma RunningBusy(m: Model, cfg: Defaults, nCtx: nat, queue: seq<PendingRequest>, reqs: seq<GenerateRequest>,
                    popped: nat, slots: seq<Slot>, fate: seq<Fate>)
    requires Books(m, cfg, nCtx, slots, queue, fate, reqs, popped)
    ensures |fate| == |reqs|
    ensures forall t :: 0 <= t < |fate| && fate[t].Running? ==>
      fate[t].slot < |slots| && slots[fate[t].slot].IsBusy() && slots[fate[t].slot].promise == t
  {
    hide Justified;
    forall t | 0 <= t < |fate| ensures Placed(slots, queue, popped, fate[t], t) {
    }
  }

  /** With the queue empty and no slot busy, every submission has its answer. */
  lemma AllAnswered(m: Model, cfg: Defaults, nCtx: nat, reqs: seq<GenerateRequest>, popped: nat, slots: seq<Slot>,
                    fate: seq<Fate>)
    requires Books(m, cfg, nCtx, slots, [], fate, reqs, popped)
    requires forall j :: 0 <= j < |slots| ==> !slots[j].IsBusy()
    ensures |fate| == |reqs|
    ensures forall t :: 0 <= t < |fate| ==>
      fate[t].Done? && Justified(m, cfg, nCtx, reqs[t], fate[t].result, fate[t].gapped)
  {
    hide Justified;
    forall t | 0 <= t < |fate| ensures fate[t].Done? {
      assert Placed(slots, [], popped, fate[t], t);
    }
  }

  /** The tokens still owed to a submission, plus one for its answer. */
  function Owed(cfg: Defaults, f: Fate, slots: seq<Slot>, req: GenerateRequest): nat {
    match f
    case Done(_, _) => 0
    case Queued(_) => Budget(cfg, req) + 1
    case Running(i) =>
      if i < |slots| && slots[i].nDecoded < Budget(cfg, req) then Budget(cfg, req) - slots[i].nDecoded else 0
  }

  function Debt(cfg: Defaults, fate: seq<Fate>, slots: seq<Slot>, reqs: seq<GenerateRequest>): nat
    requires |fate| == |reqs|
  {
    if fate == [] then 0
    else
      var n := |fate| - 1;
      Debt(cfg, fate[..n], slots, reqs[..n]) + Owed(cfg, fate[n], slots, reqs[n])
  }

  lemma {:induction false} DebtDrops(cfg: Defaults, fate: seq<Fate>, slots: seq<Slot>, fate': seq<Fate>,
                                     slots': seq<Slot>, reqs: seq<GenerateRequest>)
    requires |fate| == |fate'| == |reqs|
    requires forall t :: 0 <= t < |fate| ==> Owed(cfg, fate'[t], slots', reqs[t]) <= Owed(cfg, fate[t], slots, reqs[t])
    ensures Debt(cfg, fate', slots', reqs) <= Debt(cfg, fate, slots, reqs)
    ensures
      (exists t :: 0 <= t < |fate| && Owed(cfg, fate'[t], slots', reqs[t]) < Owed(cfg, fate[t], slots, reqs[t])) ==>
      Debt(cfg, fate', slots', reqs) < Debt(cfg, fate, slots, reqs)
  {
    if fate != [] {
      var n := |fate| - 1;
      DebtDrops(cfg, fate[..n], slots, fate'[..n], slots', reqs[..n]);
      assert forall t :: 0 <= t < n ==> fate[..n][t] == fate[t] && fate'[..n][t] == fate'[t] && reqs[..n][t] == reqs[t];
    }
  }

  /** Admission leaves a submission's debt alone or, taking it up, lowers it. */
  lemma AdmissionOwesOne(m: Model, cfg: Defaults, nCtx: nat, reqs: seq<GenerateRequest>,
                      slots: seq<Slot>, queue: seq<PendingRequest>, fate: seq<Fate>, popped: nat,
                      slots': seq<Slot>, queue': seq<PendingRequest>, fate': seq<Fate>, popped': nat, t: nat)
    requires Books(m, cfg, nCtx, slots, queue, fate, reqs, popped)
    requires Books(m, cfg, nCtx, slots', queue', fate', reqs, popped')
    requires popped <= popped' <= popped + |queue| && queue' == queue[popped' - popped..] && |slots'| == |slots|
    requires forall k :: 0 <= k < popped' - popped ==> TakenUp(nCtx, queue[k], slots', fate')
    requires forall t :: 0 <= t < |fate| && !fate[t].Queued? ==> fate'[t] == fate[t]
    requires forall j :: 0 <= j < |slots| && slots[j].IsBusy() ==> slots'[j] == slots[j]
    ensures |fate| == |fate'| == |reqs|
    ensures t < |fate| ==>
      && Owed(cfg, fate'[t], slots', reqs[t]) <= Owed(cfg, fate[t], slots, reqs[t])
      && (fate[t].Queued? && !fate'[t].Queued? ==>
            Owed(cfg, fate'[t], slots', reqs[t]) < Owed(cfg, fate[t], slots, reqs[t]))
    ensures popped < popped' ==> queue[0].promise < |fate| && fate[queue[0].promise].Queued?
                                 && !fate'[queue[0].promise].Queued?
  {
    hide Justified;
    if popped < popped' {
      assert TakenUp(nCtx, queue[0], slots', fate');
    }
    if t < |fate| {
      assert Placed(slots, queue, popped, fate[t], t);
      if fate[t].Queued? {
        var k := fate[t].n - popped;
        if fate[t].n < popped' {
          assert TakenUp(nCtx, queue[k], slots', fate');
        } else {
          assert queue'[fate[t].n - popped'].promise == t;
        }
      }
    }
  }

  /** Admission never raises the debt to the first `n` submissions, and lowers it when it takes one of
      them up. */
  lemma AdmissionOwes(m: Model, cfg: Defaults, nCtx: nat, reqs: seq<GenerateRequest>,
                      slots: seq<Slot>, queue: seq<PendingRequest>, fate: seq<Fate>, popped: nat,
                      slots': seq<Slot>, queue': seq<PendingRequest>, fate': seq<Fate>, popped': nat, n: nat)
    requires Books(m, cfg, nCtx, slots, queue, fate, reqs, popped)
    requires Books(m, cfg, nCtx, slots', queue', fate', reqs, popped')
    requires popped <= popped' <= popped + |queue| && queue' == queue[popped' - popped..] && |slots'| == |slots|
    requires forall k :: 0 <= k < popped' - popped ==> TakenUp(nCtx, queue[k], slots', fate')
    requires forall t :: 0 <= t < |fate| && !fate[t].Queued? ==> fate'[t] == fate[t]
    requires forall j :: 0 <= j < |slots| && slots[j].IsBusy() ==> slots'[j] == slots[j]
    requires n <= |fate|
    ensures |fate| == |fate'| == |reqs|
    ensures Debt(cfg, fate'[..n], slots', reqs[..n]) <= Debt(cfg, fate[..n], slots, reqs[..n])
    ensures (exists t :: 0 <= t < n && fate[t].Queued? && !fate'[t].Queued?) ==>
      Debt(cfg, fate'[..n], slots', reqs[..n]) < Debt(cfg, fate[..n], slots, reqs[..n])
    ensures popped < popped' ==> queue[0].promise < |fate| && fate[queue[0].promise].Queued?
                                 && !fate'[queue[0].promise].Queued?
  {
    hide Books, TakenUp, Owed, Debt;
    forall t: nat
      ensures |fate| == |fate'| == |reqs|
      ensures t < |fate| ==>
        && Owed(cfg, fate'[t], slots', reqs[t]) <= Owed(cfg, fate[t], slots, reqs[t])
        && (fate[t].Queued? && !fate'[t].Queued? ==>
              Owed(cfg, fate'[t], slots', reqs[t]) < Owed(cfg, fate[t], slots, reqs[t]))
    {
      AdmissionOwesOne(m, cfg, nCtx, reqs, slots, queue, fate, popped, slots', queue', fate', popped', t);
    }
    AdmissionOwesOne(m, cfg, nCtx, reqs, slots, queue, fate, popped, slots', queue', fate', popped', 0);
    DebtDrops(cfg, fate[..n], slots, fate'[..n], slots', reqs[..n]);
  }

  /** A step never raises it, and lowers it whenever a slot is busy with one of them. */
  lemma ServiceOwes(m: Model, cfg: Defaults, nCtx: nat, reqs: seq<GenerateRequest>, queue: seq<PendingRequest>,
                    popped: nat, slots: seq<Slot>, fate: seq<Fate>, slots': seq<Slot>, fate': seq<Fate>, n: nat)
    requires Books(m, cfg, nCtx, slots, queue, fate, reqs, popped) && |fate'| == |fate| && n <= |fate|
    requires forall t :: 0 <= t < |fate| ==> StepDone(fate[t], slots, fate'[t], slots', t)
    requires forall j :: 0 <= j < |slots| && slots[j].IsBusy() ==>
      slots[j].promise < |reqs| && slots[j].nDecoded < Budget(cfg, reqs[slots[j].promise])
    ensures |fate| == |reqs|
    ensures Debt(cfg, fate'[..n], slots', reqs[..n]) <= Debt(cfg, fate[..n], slots, reqs[..n])
    ensures (exists j :: 0 <= j < |slots| && slots[j].IsBusy() && slots[j].promise < n) ==>
      Debt(cfg, fate'[..n], slots', reqs[..n]) < Debt(cfg, fate[..n], slots, reqs[..n])
  {
    hide Justified;
    forall t | 0 <= t < |fate|
      ensures Owed(cfg, fate'[t], slots', reqs[t]) <= Owed(cfg, fate[t], slots, reqs[t])
      ensures fate[t].Running? ==> Owed(cfg, fate'[t], slots', reqs[t]) < Owed(cfg, fate[t], slots, reqs[t])
    {
      assert StepDone(fate[t], slots, fate'[t], slots', t);
      assert Placed(slots, queue, popped, fate[t], t);
    }
    DebtDrops(cfg, fate[..n], slots, fate'[..n], slots', reqs[..n]);
    if j :| 0 <= j < |slots| && slots[j].IsBusy() && slots[j].promise < n {
      assert fate[slots[j].promise] == Running(j);
      assert fate[..n][slots[j].promise].Running?;
    }
  }

  /** While one of the first `n` submissions waits for an answer after admission, a slot is busy with one
      of them: the queue is served in order. */
  lemma OldestServed(m: Model, cfg: Defaults, nCtx: nat, reqs: seq<GenerateRequest>, slots: seq<Slot>,
                     queue: seq<PendingRequest>, fate: seq<Fate>, popped: nat, n: nat, t: nat)
    requires Books(m, cfg, nCtx, slots, queue, fate, reqs, popped) && t < n <= |fate| && !fate[t].Done?
    requires |slots| > 0 && (queue == [] || forall j :: 0 <= j < |slots| ==> slots[j].IsBusy())
    ensures exists j :: 0 <= j < |slots| && slots[j].IsBusy() && slots[j].promise < n
  {
    hide Justified;
    assert Placed(slots, queue, popped, fate[t], t);
    if fate[t].Queued? {
      assert slots[0].IsBusy() && slots[0].promise < queue[fate[t].n - popped].promise;
    }
  }

  /** Nothing is owed exactly when every submission is answered. */
  lemma {:induction false} NothingOwed(m: Model, cfg: Defaults, nCtx: nat, reqs: seq<GenerateRequest>,
                                       slots: seq<Slot>, queue: seq<PendingRequest>, fate: seq<Fate>, popped: nat,
                                       n: nat)
    requires Books(m, cfg, nCtx, slots, queue, fate, reqs, popped) && n <= |fate|
    requires forall j :: 0 <= j < |slots| && slots[j].IsBusy() ==>
      slots[j].promise < |reqs| && slots[j].nDecoded < Budget(cfg, reqs[slots[j].promise])
    ensures |fate| == |reqs|
    ensures Debt(cfg, fate[..n], slots, reqs[..n]) == 0 <==> forall t :: 0 <= t < n ==> fate[t].Done?
  {
    hide Justified;
    if n > 0 {
      NothingOwed(m, cfg, nCtx, reqs, slots, queue, fate, popped, n - 1);
      assert fate[..n][..n - 1] == fate[..n - 1] && reqs[..n][..n - 1] == reqs[..n - 1];
      assert Placed(slots, queue, popped, fate[n - 1], n - 1);
    }
  }
}
