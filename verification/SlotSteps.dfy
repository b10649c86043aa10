/** The scheduler's transitions on one slot, and what each of them keeps. */
module SlotSteps {
  import opened Common
  import opened Llama
  import opened Generation
  import opened Transparency
  import opened Slots
  import opened Promises

  // ---- admission ----

  /** The slot's fields after admitting a request with `p` prompt tokens taken from its cache. */
  function Admit(cfg: Defaults, s: Slot, req: GenerateRequest, promise: nat, p: nat): Slot
    requires p <= |req.tokens|
  {
    s.(seqId := if p > 0 then s.seqId else s.id,
       prefilled := false,
       nPast := p,
       pendingPrompt := req.tokens[p..],
       warm := false,
       cachedSessionId := req.sessionId,
       cachedTokens := req.tokens,
       nPrompt := |req.tokens|,
       nDecoded := 0,
       iBatch := -1,
       maxNew := MaxNew(cfg, req),
       stopTokenIds := req.stopTokens,
       stopStrings := cfg.stop,
       accumulated := "",
       genTokenIds := [],
       promise := promise,
       sampler := Some(MakeSampler(cfg, req)))
  }

  lemma AdmitCold(m: Model, cfg: Defaults, s: Slot, i: nat, reqs: seq<GenerateRequest>, promise: nat)
    requires s.id == i && promise < |reqs| && reqs[promise].tokens != []
    ensures SlotInv(m, cfg, Admit(cfg, s, reqs[promise], promise, 0), i, [], reqs, false, [], 0, 0)
  {
    var toks := reqs[promise].tokens;
    SoFarNothing(m, cfg, reqs[promise]);
    assert toks[0..] == toks && toks + [] == toks;
  }

  lemma AdmitReuse(m: Model, cfg: Defaults, s: Slot, i: nat, cells: seq<Cell>, reqs: seq<GenerateRequest>, gap: bool,
                   promise: nat, p: nat)
    requires SlotInv(m, cfg, s, i, cells, reqs, gap, [], 0, 0) && s.IsWarm()
    requires promise < |reqs| && reqs[promise].sessionId == s.cachedSessionId
    requires 0 < p <= |reqs[promise].tokens| && p <= |s.cachedTokens|
    requires s.cachedTokens[..p] == reqs[promise].tokens[..p]
    ensures SlotInv(m, cfg, Admit(cfg, s, reqs[promise], promise, p), i, Trim(cells, p), reqs,
                    Holed(Trim(cells, p), p, |reqs[promise].tokens|), [], 0, 0)
  {
    var toks := reqs[promise].tokens;
    SoFarNothing(m, cfg, reqs[promise]);
    assert toks + [] == toks;
    TrimmedView(cells, s.cachedTokens, toks, p);
  }

  ghost predicate IsPrefixOfBoth(cached: seq<Token>, prompt: seq<Token>, p: nat) {
    p <= |cached| && p <= |prompt| && cached[..p] == prompt[..p]
  }

  ghost predicate IsCommonPrefix(cached: seq<Token>, prompt: seq<Token>, p: nat) {
    && IsPrefixOfBoth(cached, prompt, p)
    && (p < |cached| && p < |prompt| ==> cached[p] != prompt[p])
  }

  lemma CommonPrefixUnique(cached: seq<Token>, prompt: seq<Token>, p: nat, q: nat)
    requires IsCommonPrefix(cached, prompt, p) && IsCommonPrefix(cached, prompt, q)
    ensures p == q
  {
    assert forall k :: 0 <= k < p ==> cached[..p][k] == prompt[..p][k];
    assert forall k :: 0 <= k < q ==> cached[..q][k] == prompt[..q][k];
  }

  /** Slot j is the first warm slot of the request's session, and its ledger shares at least
      the minimum prefix, of length p, with the prompt. */
  ghost predicate Reusable(slots: seq<Slot>, req: GenerateRequest, j: int, p: nat) {
    && req.sessionId != "" && 0 <= j < |slots|
    && slots[j].IsWarm() && slots[j].cachedSessionId == req.sessionId
    && (forall k :: 0 <= k < j ==> !slots[k].IsWarm() || slots[k].cachedSessionId != req.sessionId)
    && IsCommonPrefix(slots[j].cachedTokens, req.tokens, p) && p >= MIN_REUSE_PREFIX_TOKS
  }

  ghost predicate IsLru(slots: seq<Slot>, v: int) {
    && 0 <= v < |slots| && slots[v].IsWarm()
    && forall j :: 0 <= j < |slots| && slots[j].IsWarm() ==> slots[v].cachedAtUs <= slots[j].cachedAtUs
  }

  // ---- which slot a request takes, on the slots' fields ----

  /** The slots and their caches. */
  datatype Pool = Pool(slots: seq<Slot>, kv: seq<seq<Cell>>)

  /** Slot j is the first warm one of the session. */
  ghost predicate SessionSlot(slots: seq<Slot>, session: string, j: int) {
    && session != "" && 0 <= j < |slots| && slots[j].IsWarm() && slots[j].cachedSessionId == session
    && forall k :: 0 <= k < j ==> !slots[k].IsWarm() || slots[k].cachedSessionId != session
  }

  ghost predicate Shares(cached: seq<Token>, prompt: seq<Token>, n: int) {
    0 <= n <= |cached| && n <= |prompt| && cached[..n] == prompt[..n]
  }

  /** The request takes slot i, and every other slot stays as it is.  If the first warm slot of its
      session shares 64 tokens with its prompt, that slot, with as much of the cache as is shared and the
      rest of the prompt pending; else the first free slot, or else the warm one cached longest ago, with
      an empty cache and the whole prompt pending. */
  ghost predicate TookSlot(before: Pool, after: Pool, entry: PendingRequest, i: nat) {
    && i < |before.slots| == |after.slots| <= |before.kv| == |after.kv|
    && (forall j :: 0 <= j < |before.slots| && j != i ==> after.slots[j] == before.slots[j])
    && (forall j :: 0 <= j < |before.kv| && j != i ==> after.kv[j] == before.kv[j])
    && var s, was, prompt := after.slots[i], before.slots[i], entry.req.tokens;
    && s.IsBusy() && s.promise == entry.promise && s.nDecoded == 0 && !s.prefilled
    && s.nPast <= |prompt| && s.pendingPrompt == prompt[s.nPast..]
    && if exists j :: SessionSlot(before.slots, entry.req.sessionId, j)
                      && Shares(before.slots[j].cachedTokens, prompt, 64) then
         && SessionSlot(before.slots, entry.req.sessionId, i)
         && s.nPast >= 64 && Shares(was.cachedTokens, prompt, s.nPast)
         && (forall n :: Shares(was.cachedTokens, prompt, n) ==> n <= s.nPast)
         && after.kv[i] == Trim(before.kv[i], s.nPast)
       else
         && s.nPast == 0 && after.kv[i] == []
         && if exists j :: 0 <= j < |before.slots| && before.slots[j].IsFree() then
              was.IsFree() && forall j :: 0 <= j < i ==> !before.slots[j].IsFree()
            else
              was.IsWarm() && forall j :: 0 <= j < |before.slots| && before.slots[j].IsWarm() ==>
                                was.cachedAtUs <= before.slots[j].cachedAtUs
  }

  /** A turn of the admission loop: a request takes a slot, unless its length is refused. */
  ghost predicate AdmissionTurn(nCtx: nat, entry: PendingRequest, before: Pool, after: Pool) {
    if 0 < |entry.req.tokens| < nCtx then exists i :: TookSlot(before, after, entry, i) else after == before
  }

  /** Slot selection and admission together. */
  lemma Taken(before: Pool, after: Pool, entry: PendingRequest, i: nat, p: nat)
    requires i < |before.slots| == |after.slots| <= |before.kv| == |after.kv| && !before.slots[i].IsBusy()
    requires forall j :: 0 <= j < |before.slots| && j != i ==> after.slots[j] == before.slots[j]
    requires forall j :: 0 <= j < |before.kv| && j != i ==> after.kv[j] == before.kv[j]
    requires p > 0 <==> exists j, q :: Reusable(before.slots, entry.req, j, q)
    requires p > 0 ==> Reusable(before.slots, entry.req, i, p)
    requires p == 0 && before.slots[i].IsFree() ==> forall j :: 0 <= j < i ==> !before.slots[j].IsFree()
    requires p == 0 && !before.slots[i].IsFree() ==>
      IsLru(before.slots, i) && forall j :: 0 <= j < |before.slots| ==> !before.slots[j].IsFree()
    requires after.slots[i].IsBusy() && after.slots[i].promise == entry.promise && after.slots[i].nDecoded == 0
    requires after.slots[i].nPast == p <= |entry.req.tokens| && !after.slots[i].prefilled
    requires after.slots[i].pendingPrompt == entry.req.tokens[p..]
    requires after.kv[i] == if p > 0 then Trim(before.kv[i], p) else []
    ensures TookSlot(before, after, entry, i)
  {
    hide Trim;
    ReusableMeans(before.slots, entry.req);
    hide Reusable, Shares;
  }

  /** One turn after the other, for each entry of the queue taken. */
  ghost predicate Admissions(nCtx: nat, taken: seq<PendingRequest>, turns: seq<Pool>) {
    && |turns| == |taken| + 1
    && forall k :: 0 <= k < |taken| ==> AdmissionTurn(nCtx, taken[k], turns[k], turns[k + 1])
  }

  lemma AdmissionsMore(nCtx: nat, queue: seq<PendingRequest>, n: nat, turns: seq<Pool>, next: Pool)
    requires n < |queue| && Admissions(nCtx, queue[..n], turns)
    requires AdmissionTurn(nCtx, queue[n], turns[n], next)
    ensures Admissions(nCtx, queue[..n + 1], turns + [next])
  {
    hide AdmissionTurn;
    var more := turns + [next];
    forall k | 0 <= k < n + 1 ensures AdmissionTurn(nCtx, queue[..n + 1][k], more[k], more[k + 1]) {
      if k < n {
        assert AdmissionTurn(nCtx, queue[..n][k], turns[k], turns[k + 1]);
      }
    }
  }

  lemma NoneLonger(cached: seq<Token>, prompt: seq<Token>, p: nat)
    requires IsCommonPrefix(cached, prompt, p)
    ensures forall n :: Shares(cached, prompt, n) ==> n <= p
    ensures p >= 64 ==> Shares(cached, prompt, 64)
  {
    forall n | Shares(cached, prompt, n) ensures n <= p {
      assert forall k :: 0 <= k < n ==> cached[..n][k] == prompt[..n][k];
    }
    if p >= 64 {
      assert cached[..64] == cached[..p][..64] && prompt[..64] == prompt[..p][..64];
    }
  }

  /** The code's test for reuse is that one. */
  lemma ReusableMeans(slots: seq<Slot>, req: GenerateRequest)
    ensures (exists j, p :: Reusable(slots, req, j, p))
      <==> exists j :: SessionSlot(slots, req.sessionId, j) && Shares(slots[j].cachedTokens, req.tokens, 64)
    ensures forall j: int, p: nat :: Reusable(slots, req, j, p) ==>
      && SessionSlot(slots, req.sessionId, j) && p >= 64 && Shares(slots[j].cachedTokens, req.tokens, p)
      && forall n :: Shares(slots[j].cachedTokens, req.tokens, n) ==> n <= p
  {
    forall j: int, p: nat | Reusable(slots, req, j, p)
      ensures SessionSlot(slots, req.sessionId, j) && p >= 64 && Shares(slots[j].cachedTokens, req.tokens, p)
      ensures Shares(slots[j].cachedTokens, req.tokens, 64)
      ensures forall n :: Shares(slots[j].cachedTokens, req.tokens, n) ==> n <= p
    {
      NoneLonger(slots[j].cachedTokens, req.tokens, p);
    }
    if j :| SessionSlot(slots, req.sessionId, j) && Shares(slots[j].cachedTokens, req.tokens, 64) {
      var p := LongestShared(slots[j].cachedTokens, req.tokens, 64);
      assert Reusable(slots, req, j, p);
    }
  }

  lemma LongestShared(cached: seq<Token>, prompt: seq<Token>, n: nat) returns (p: nat)
    requires Shares(cached, prompt, n)
    ensures n <= p && IsCommonPrefix(cached, prompt, p)
    decreases |cached| - n
  {
    if n < |cached| && n < |prompt| && cached[n] == prompt[n] {
      assert cached[..n + 1] == cached[..n] + [cached[n]] && prompt[..n + 1] == prompt[..n] + [prompt[n]];
      p := LongestShared(cached, prompt, n + 1);
    } else {
      p := n;
    }
  }

  /** A warm slot gives up its session. */
  function Evicted(s: Slot): Slot {
    s.(seqId := -1, warm := false, cachedSessionId := "", cachedTokens := [], cachedAtUs := 0)
  }

  lemma EvictedFree(m: Model, cfg: Defaults, s: Slot, i: nat, cells: seq<Cell>, reqs: seq<GenerateRequest>, gap: bool)
    requires SlotInv(m, cfg, s, i, cells, reqs, gap, [], 0, 0) && s.IsWarm()
    ensures SlotInv(m, cfg, Evicted(s), i, [], reqs, gap, [], 0, 0) && s.seqId == i
  {
  }

  /** The same at shutdown, which leaves the time stamp. */
  lemma DrainedFree(m: Model, cfg: Defaults, s: Slot, i: nat, cells: seq<Cell>, reqs: seq<GenerateRequest>, gap: bool)
    requires SlotInv(m, cfg, s, i, cells, reqs, gap, [], 0, 0) && s.IsWarm()
    ensures SlotInv(m, cfg, s.(warm := false, cachedSessionId := "", cachedTokens := [], seqId := -1), i, [], reqs, gap,
                    [], 0, 0)
  {
  }

  lemma WarmCachedAt(m: Model, cfg: Defaults, s: Slot, i: nat, cells: seq<Cell>, reqs: seq<GenerateRequest>, gap: bool)
    requires SlotInv(m, cfg, s, i, cells, reqs, gap, [], 0, 0)
    ensures s.IsWarm() ==> s.cachedAtUs < MAX_US
  {
  }

  lemma WarmLedger(m: Model, cfg: Defaults, s: Slot, i: nat, cells: seq<Cell>, reqs: seq<GenerateRequest>, gap: bool)
    requires SlotInv(m, cfg, s, i, cells, reqs, gap, [], 0, 0) && s.IsWarm()
    ensures s.seqId == i && Sparse(cells, s.cachedTokens)
    ensures !gap ==> CoversLedger(m, s, cells)
  {
  }

  /** For a warm slot without an earlier hole, reuse of a common prefix equals a cold prefill exactly
      when its last request ended at end of generation, or the prefix stops short of its ledger, or
      the prefix is the whole new prompt. */
  lemma WarmReuseIff(m: Model, cfg: Defaults, s: Slot, i: nat, cells: seq<Cell>, reqs: seq<GenerateRequest>,
                     prompt: seq<Token>, p: nat)
    requires SlotInv(m, cfg, s, i, cells, reqs, false, [], 0, 0) && s.IsWarm()
    requires 1 <= p && IsPrefixOfBoth(s.cachedTokens, prompt, p)
    ensures ReuseView(cells, prompt, p) == Cells(prompt) <==>
      m.isEog(s.sampled) || p < |s.cachedTokens| || p == |prompt|
  {
    WarmLedger(m, cfg, s, i, cells, reqs, false);
    WarmReuseCondition(cells, s.cachedTokens, prompt, p);
  }

  lemma FreeSlot(m: Model, cfg: Defaults, s: Slot, i: nat, cells: seq<Cell>, reqs: seq<GenerateRequest>, gap: bool)
    requires SlotInv(m, cfg, s, i, cells, reqs, gap, [], 0, 0) && s.IsFree()
    ensures cells == [] && s.id == i && !s.warm
  {
  }

  /** Admission with `p` prompt tokens taken from a warm slot's cache, or none and a free slot.
      There is a hole exactly when the first sample will not see the cold prefill. */
  lemma AdmittedSlot(m: Model, cfg: Defaults, s: Slot, i: nat, cells: seq<Cell>, reqs: seq<GenerateRequest>, gap: bool,
                     promise: nat, p: nat)
    requires SlotInv(m, cfg, s, i, cells, reqs, gap, [], 0, 0)
    requires promise < |reqs| && reqs[promise].tokens != []
    requires if p == 0 then s.IsFree() else
      && s.IsWarm() && reqs[promise].sessionId == s.cachedSessionId
      && IsPrefixOfBoth(s.cachedTokens, reqs[promise].tokens, p)
    ensures var toks := reqs[promise].tokens;
      && SlotInv(m, cfg, Admit(cfg, s, reqs[promise], promise, p), i, if p > 0 then Trim(cells, p) else cells, reqs,
                 p > 0 && Holed(Trim(cells, p), p, |toks|), [], 0, 0)
      && (p > 0 ==> (Holed(Trim(cells, p), p, |toks|) <==> ReuseView(cells, toks, p) != Cells(toks)))
      && (if p > 0 then s.seqId == i else !s.warm && cells == [])
  {
    hide SlotInv, Trim, Holed, ReuseView, Cells, Sparse;
    if p > 0 {
      WarmLedger(m, cfg, s, i, cells, reqs, gap);
      AdmitReuse(m, cfg, s, i, cells, reqs, gap, promise, p);
      ReuseView_ColdIff(cells, s.cachedTokens, reqs[promise].tokens, p);
    } else {
      FreeSlot(m, cfg, s, i, cells, reqs, gap);
      AdmitCold(m, cfg, s, i, reqs, promise);
    }
  }

  // ---- the batch ----

  /** A prefill adds the rest of the prompt and a decode step the sampled token; a fully
      cached prompt has its last position computed again. */
  function Contribution(s: Slot): seq<Entry>
    requires s.IsBusy() && s.seqId >= 0 && (!s.prefilled && s.pendingPrompt == [] ==> 0 < s.nPast <= |s.cachedTokens|)
  {
    if s.prefilled then [Entry(s.sampled, s.nPast, s.seqId, true)]
    else if s.pendingPrompt == [] then [Entry(s.cachedTokens[s.nPast - 1], s.nPast - 1, s.seqId, true)]
    else seq(|s.pendingPrompt|, k requires 0 <= k < |s.pendingPrompt| =>
               Entry(s.pendingPrompt[k], s.nPast + k, s.seqId, k == |s.pendingPrompt| - 1))
  }

  /** Position bookkeeping after the slot's entries have been added. */
  function Batched(s: Slot, last: int): Slot {
    s.(iBatch := last,
       nPast := if s.prefilled then s.nPast + 1 else s.nPast + |s.pendingPrompt|)
  }

  lemma {:induction false} CellsOfMine(view: seq<Entry>, i: nat)
    requires forall k :: 0 <= k < |view| ==> view[k].seqId == i
    ensures |CellsOf(view, i)| == |view|
    ensures forall k :: 0 <= k < |view| ==> CellsOf(view, i)[k] == Cell(view[k].pos, view[k].tok)
  {
    if view != [] {
      CellsOfMine(view[..|view| - 1], i);
    }
  }

  /** The cache a slot needs trimmed before its entries go in. */
  function Trimmed(s: Slot, cells: seq<Cell>): seq<Cell> {
    if !s.prefilled && s.pendingPrompt == [] && s.nPast > 0 then Trim(cells, s.nPast - 1) else cells
  }

  /** Entries for the positions from `p` on complete a ledger known up to `p`. */
  lemma TailCompletes(toks: seq<Token>, p: nat, cells: seq<Cell>, add: seq<Entry>, i: nat)
    requires p <= |toks| && Sparse(cells, toks[..p]) && |add| == |toks| - p
    requires forall k :: 0 <= k < |add| ==> add[k].seqId == i && add[k].pos == p + k && add[k].tok == toks[p + k]
    ensures Sparse(cells + CellsOf(add, i), toks) && |CellsOf(add, i)| == |toks| - p
  {
    CellsOfMine(add, i);
    SparseAppend(cells, toks[..p], toks[p..], CellsOf(add, i));
    assert toks[..p] + toks[p..] == toks;
  }

  /** The cache with a slot's contribution appended is the slot's whole ledger. */
  lemma ContributionCompletes(s: Slot, i: nat, cells: seq<Cell>, gap: bool)
    requires s.IsBusy() && s.seqId == i && Ready(s, cells, gap) && |s.cachedTokens| > 0
    requires s.prefilled ==> s.pendingPrompt == []
    ensures InFlight(Batched(s, 0), Trimmed(s, cells) + CellsOf(Contribution(s), i), gap)
  {
    var toks := s.cachedTokens;
    if !s.prefilled && s.pendingPrompt == [] {
      var p := s.nPast - 1;
      assert toks[..s.nPast] == toks;
      TrimSparse(cells, toks, toks, p);
      TailCompletes(toks, p, Trim(cells, p), Contribution(s), i);
    } else {
      TailCompletes(toks, s.nPast, cells, Contribution(s), i);
    }
  }

  lemma ContributionInFlight(m: Model, cfg: Defaults, s: Slot, i: nat, cells: seq<Cell>, reqs: seq<GenerateRequest>,
                             gap: bool, batch: seq<Entry>)
    requires SlotInv(m, cfg, s, i, cells, reqs, gap, batch, 0, 0) && s.IsBusy() && s.iBatch == -1
    requires s.seqId >= 0 && (!s.prefilled && s.pendingPrompt == [] ==> 0 < s.nPast <= |s.cachedTokens|)
    ensures SlotInv(m, cfg, Batched(s, |batch + Contribution(s)| - 1), i, Trimmed(s, cells), reqs, gap,
                    batch + Contribution(s), 0, 0)
  {
    var add := Contribution(s);
    var all := batch + add;
    ContributionCompletes(s, i, cells, gap);
    assert all[0..] == all && batch[0..] == batch;
    CellsOfConcat(batch, add, i);
    CellsOfOther(batch, i);
    assert CellsOf(all, i) == CellsOf(add, i);
  }

  /** A busy slot always has something to contribute. */
  lemma HasContribution(m: Model, cfg: Defaults, s: Slot, i: nat, cells: seq<Cell>, reqs: seq<GenerateRequest>,
                        gap: bool, batch: seq<Entry>)
    requires SlotInv(m, cfg, s, i, cells, reqs, gap, batch, 0, 0) && s.IsBusy() && s.iBatch == -1
    ensures s.seqId == i && (!s.prefilled && s.pendingPrompt == [] ==> 0 < s.nPast <= |s.cachedTokens|)
    ensures Contribution(s) != [] && forall k :: 0 <= k < |Contribution(s)| ==> Contribution(s)[k].seqId == i
  {
  }

  /** The token ledger of a busy slot at the top of the loop: the next position and the next input
      are right, and without a hole the cache is the one its request alone would have; when the
      whole prompt was found in the cache, that is so below its last position, which is computed
      again. */
  ghost predicate Ledger(s: Slot, cells: seq<Cell>, gap: bool) {
    && s.nPast <= |s.cachedTokens|
    && (s.prefilled ==>
          && s.nPast == s.nPrompt + s.nDecoded - 1 && |s.cachedTokens| == s.nPast + 1
          && s.sampled == s.cachedTokens[s.nPast] && (!gap ==> cells == Cells(s.cachedTokens[..s.nPast])))
    && (!s.prefilled ==> s.cachedTokens == s.cachedTokens[..s.nPast] + s.pendingPrompt)
    && (!s.prefilled && !gap && s.pendingPrompt != [] ==> cells == Cells(s.cachedTokens[..s.nPast]))
    && (!s.prefilled && !gap && s.pendingPrompt == [] ==>
          0 < s.nPast == |s.cachedTokens| && Trim(cells, s.nPast - 1) == Cells(s.cachedTokens[..s.nPast - 1]))
  }

  lemma BusyLedger(m: Model, cfg: Defaults, s: Slot, i: nat, cells: seq<Cell>, reqs: seq<GenerateRequest>, gap: bool)
    requires SlotInv(m, cfg, s, i, cells, reqs, gap, [], 0, 0) && s.IsBusy()
    ensures s.seqId == s.id == i && s.promise < |reqs|
    ensures s.cachedTokens == reqs[s.promise].tokens + s.genTokenIds && s.nDecoded == |s.genTokenIds|
    ensures Ledger(s, cells, gap)
  {
    BusySlot(m, cfg, s, i, cells, reqs, gap, [], 0, 0);
    assert Ready(s, cells, gap);
    hide SlotInv;
    ReadyLedger(m, cfg, s, i, reqs[s.promise], cells, gap);
  }

  lemma ReadyLedger(m: Model, cfg: Defaults, s: Slot, i: nat, req: GenerateRequest, cells: seq<Cell>, gap: bool)
    requires Serving(m, cfg, s, i, req, gap) && Ready(s, cells, gap)
    ensures Ledger(s, cells, gap)
  {
    hide Cells, Trim, Sparse, Text, Solo, SoloFrom, SchedulerSampler, MaxNew, Budget;
    var known := s.cachedTokens[..s.nPast];
    SparseFull(cells, known);
    if !s.prefilled && !gap && s.pendingPrompt == [] {
      var toks, p := s.cachedTokens, s.nPast - 1;
      assert toks[..s.nPast] == toks;
      TrimmedView(cells, toks, toks, p);
      SparseFull(Trim(cells, p), toks[..p]);
    }
  }

  // ---- completion ----

  function Completed(s: Slot, keepWarm: bool, now: int): Slot {
    var t := if keepWarm then s.(warm := true, cachedAtUs := now)
             else s.(warm := false, cachedSessionId := "", cachedTokens := [], cachedAtUs := 0, seqId := -1);
    t.(prefilled := false, pendingPrompt := [], accumulated := "", genTokenIds := [], stopStrings := [],
       stopTokenIds := [], sampler := None, nPast := if keepWarm then |t.cachedTokens| else 0,
       nPrompt := 0, nDecoded := 0, iBatch := -1)
  }

  function ResultOf(s: Slot, ec: ErrorCode, finish: string): GenerateResult {
    GenerateResult(s.genTokenIds, s.accumulated, s.nPrompt, s.nDecoded, ec, if ec == Ok then finish else "error")
  }

  /** A clean completion may leave the slot warm. */
  ghost predicate MayStayWarm(m: Model, s: Slot, i: nat, cells: seq<Cell>, gap: bool) {
    s.seqId == i && Sparse(cells, s.cachedTokens) && (!gap ==> CoversLedger(m, s, cells))
  }

  lemma CompletedIdle(m: Model, cfg: Defaults, s: Slot, i: nat, cells: seq<Cell>, reqs: seq<GenerateRequest>, gap: bool,
                      keepWarm: bool, now: int)
    requires s.id == i && now < MAX_US
    requires if keepWarm then MayStayWarm(m, s, i, cells, gap) && s.cachedSessionId != "" else cells == []
    ensures SlotInv(m, cfg, Completed(s, keepWarm, now), i, cells, reqs, gap, [], 0, 0)
  {
  }

  /** A request cut short carries a part of its own generation. */
  lemma PartialJustified(m: Model, cfg: Defaults, nCtx: nat, s: Slot, i: nat, req: GenerateRequest, gap: bool,
                         ec: ErrorCode)
    requires Serving(m, cfg, s, i, req, gap) && |req.tokens| < nCtx
    requires ec == InternalError || ec == Unavailable
    ensures Justified(m, cfg, nCtx, req, ResultOf(s, ec, ""), gap)
  {
    SoloExtends(m, cfg, req, s.genTokenIds);
  }

  // ---- sampling ----

  /** The sampler has drawn and accepted the token; a just-prefilled slot forgets its prompt. */
  function Sampled(m: Model, s: Slot, id: Token): Slot {
    s.(pendingPrompt := [], prefilled := true, sampled := id, iBatch := -1,
       sampler := if s.sampler.Some? then Some(DrawnAndAccepted(m, s.sampler.value, id)) else None)
  }

  function Counted(s: Slot, id: Token, piece: string): Slot {
    s.(nDecoded := s.nDecoded + 1, accumulated := s.accumulated + piece, genTokenIds := s.genTokenIds + [id],
       cachedTokens := s.cachedTokens + [id])
  }

  /** A slot whose last entry has just been decoded sees its whole ledger. */
  lemma SampleView(m: Model, cfg: Defaults, s: Slot, i: nat, cells: seq<Cell>, reqs: seq<GenerateRequest>,
                   gap: bool, batch: seq<Entry>, lo: nat, at: nat)
    requires SlotInv(m, cfg, s, i, cells, reqs, gap, batch, lo, at) && s.IsBusy() && 0 <= s.iBatch < at
    ensures s.promise < |reqs| && Serving(m, cfg, s, i, reqs[s.promise], gap)
    ensures InFlight(s, cells, gap) && at <= |batch| && NoEntries(batch, i, at)
    ensures !gap ==> cells == Cells(s.cachedTokens)
    ensures s.sampler.Some?
    ensures !gap ==> m.sample(s.sampler.value, cells) == NextToken(m, cfg, reqs[s.promise], s.genTokenIds)
  {
    NoEntriesNoCells(batch, i, at);
    assert cells + CellsOf(batch[at..], i) == cells;
    SparseFull(cells, s.cachedTokens);
  }

  /** A token the request's own run also draws: the run goes on from there, or ends there. */
  lemma SoloNext(m: Model, cfg: Defaults, req: GenerateRequest, gen: seq<Token>)
    requires |gen| < Budget(cfg, req) && !m.isEog(NextToken(m, cfg, req, gen))
    ensures var gen' := gen + [NextToken(m, cfg, req, gen)];
      && (GoesOn(m, cfg, req, gen') ==>
            |gen'| < Budget(cfg, req) && SoloFrom(m, cfg, req, gen) == SoloFrom(m, cfg, req, gen'))
      && (!GoesOn(m, cfg, req, gen') ==>
            SoloFrom(m, cfg, req, gen)
            == Outcome(gen', Text(m, gen'), if |gen'| >= MaxNew(cfg, req) then "length" else "stop"))
  {
  }

  lemma SoloEog(m: Model, cfg: Defaults, req: GenerateRequest, gen: seq<Token>)
    requires |gen| < Budget(cfg, req) && m.isEog(NextToken(m, cfg, req, gen))
    ensures SoloFrom(m, cfg, req, gen) == Outcome(gen, Text(m, gen), "stop")
  {
  }

  /** End of generation: the answer is complete and the cache covers the whole ledger. */
  lemma EogJustified(m: Model, cfg: Defaults, nCtx: nat, s: Slot, i: nat, cells: seq<Cell>, req: GenerateRequest,
                     gap: bool, id: Token)
    requires Serving(m, cfg, s, i, req, gap) && InFlight(s, cells, gap) && |req.tokens| < nCtx
    requires m.isEog(id) && (!gap ==> id == NextToken(m, cfg, req, s.genTokenIds) && cells == Cells(s.cachedTokens))
    ensures Justified(m, cfg, nCtx, req, ResultOf(Sampled(m, s, id), Ok, "stop"), gap)
    ensures MayStayWarm(m, Sampled(m, s, id), i, cells, gap)
  {
    hide SoloFrom, NextToken, Text, SoFar, Ended, StopsHere;
    SoFarStep(m, cfg, req, s.genTokenIds, id);
    assert s.cachedTokens[..|s.cachedTokens|] == s.cachedTokens;
    if !gap {
      SoloEog(m, cfg, req, s.genTokenIds);
    }
  }

  /** A cache that covers a ledger, after the ledger has grown by one token. */
  lemma LedgerGrows(cells: seq<Cell>, toks: seq<Token>, id: Token)
    requires Sparse(cells, toks)
    ensures Sparse(cells, toks + [id])
    ensures (toks + [id])[..|toks|] == toks && (toks + [id])[|toks|] == id
  {
  }

  /** After any other token the ledger is one ahead of the cache. */
  lemma CountedLedger(m: Model, cfg: Defaults, s: Slot, i: nat, cells: seq<Cell>, req: GenerateRequest, gap: bool,
                      id: Token)
    requires Serving(m, cfg, s, i, req, gap) && InFlight(s, cells, gap) && (!gap ==> cells == Cells(s.cachedTokens))
    requires !m.isEog(id)
    ensures MayStayWarm(m, Counted(Sampled(m, s, id), id, m.piece(id)), i, cells, gap)
    ensures Ready(Counted(Sampled(m, s, id), id, m.piece(id)), cells, gap)
    ensures s.accumulated + m.piece(id) == Text(m, s.genTokenIds + [id])
    ensures s.cachedTokens + [id] == req.tokens + (s.genTokenIds + [id])
  {
    hide Sparse, Cells, SoloFrom, Text, Budget, Solo;
    LedgerGrows(cells, s.cachedTokens, id);
    TextGrows(m, s.genTokenIds, id);
  }

  /** A slot's ledger is its prompt and what it has generated, before and after a token. */
  ghost predicate TwoParts(s: Slot) {
    s.nPrompt <= |s.cachedTokens| && s.cachedTokens == s.cachedTokens[..s.nPrompt] + s.genTokenIds
  }

  lemma ServingTwoParts(m: Model, cfg: Defaults, s: Slot, i: nat, req: GenerateRequest, gap: bool, id: Token)
    requires Serving(m, cfg, s, i, req, gap)
    ensures TwoParts(s) && TwoParts(Sampled(m, s, id)) && TwoParts(Counted(Sampled(m, s, id), id, m.piece(id)))
    ensures s.cachedTokens[..s.nPrompt] == req.tokens == (s.cachedTokens + [id])[..s.nPrompt]
  {
    hide SoFar, StopsHere, Text, SoloFrom, SchedulerSampler;
    assert s.cachedTokens + [id] == req.tokens + (s.genTokenIds + [id]);
  }

  /** A token that does not end the request leaves its slot ready for the next step. */
  lemma CountedReady(m: Model, cfg: Defaults, s: Slot, i: nat, cells: seq<Cell>, reqs: seq<GenerateRequest>, gap: bool,
                     id: Token, batch: seq<Entry>, at: nat)
    requires s.id == i && s.promise < |reqs| && Serving(m, cfg, s, i, reqs[s.promise], gap) && InFlight(s, cells, gap)
    requires at <= |batch| && NoEntries(batch, i, at)
    requires !m.isEog(id)
    requires !gap ==> id == NextToken(m, cfg, reqs[s.promise], s.genTokenIds) && cells == Cells(s.cachedTokens)
    requires GoesOn(m, cfg, reqs[s.promise], s.genTokenIds + [id])
    ensures SlotInv(m, cfg, Counted(Sampled(m, s, id), id, m.piece(id)), i, cells, reqs, gap, batch, at, at)
  {
    CountedServing(m, cfg, s, i, reqs[s.promise], gap, id);
    CountedLedger(m, cfg, s, i, cells, reqs[s.promise], gap, id);
    hide Serving, Ready, NoEntries, InFlight, GoesOn, MayStayWarm, NextToken, Cells, Text;
  }

  lemma CountedServing(m: Model, cfg: Defaults, s: Slot, i: nat, req: GenerateRequest, gap: bool, id: Token)
    requires Serving(m, cfg, s, i, req, gap)
    requires !m.isEog(id) && (!gap ==> id == NextToken(m, cfg, req, s.genTokenIds))
    requires GoesOn(m, cfg, req, s.genTokenIds + [id])
    ensures Serving(m, cfg, Counted(Sampled(m, s, id), id, m.piece(id)), i, req, gap)
  {
    var gen := s.genTokenIds + [id];
    assert |gen| < Budget(cfg, req);
    hide SoloFrom, NextToken, Text, GoesOn, MaxNew, Budget, SoFar, StopsHere;
    SoFarStep(m, cfg, req, s.genTokenIds, id);
    TextGrows(m, s.genTokenIds, id);
    assert s.cachedTokens + [id] == req.tokens + gen;
    if !gap {
      SoloNext(m, cfg, req, s.genTokenIds);
    }
  }

  /** A token that ends the request completes the answer. */
  lemma CountedJustified(m: Model, cfg: Defaults, nCtx: nat, s: Slot, i: nat, cells: seq<Cell>, req: GenerateRequest,
                         gap: bool, id: Token)
    requires Serving(m, cfg, s, i, req, gap) && InFlight(s, cells, gap) && |req.tokens| < nCtx
    requires !m.isEog(id) && (!gap ==> id == NextToken(m, cfg, req, s.genTokenIds) && cells == Cells(s.cachedTokens))
    requires !GoesOn(m, cfg, req, s.genTokenIds + [id])
    ensures Justified(m, cfg, nCtx, req,
                      ResultOf(Counted(Sampled(m, s, id), id, m.piece(id)), Ok,
                               if |s.genTokenIds| + 1 >= MaxNew(cfg, req) then "length" else "stop"), gap)
  {
    hide SoloFrom, NextToken, Text, GoesOn, MaxNew, Budget, Cells, InFlight, SoFar, Ended, StopsHere;
    SoFarStep(m, cfg, req, s.genTokenIds, id);
    TextGrows(m, s.genTokenIds, id);
    if !gap {
      SoloNext(m, cfg, req, s.genTokenIds);
    }
  }

  /** What the code of a sampling step reads off a busy slot. */
  lemma BusySlot(m: Model, cfg: Defaults, s: Slot, i: nat, cells: seq<Cell>, reqs: seq<GenerateRequest>,
                 gap: bool, batch: seq<Entry>, lo: nat, at: nat)
    requires SlotInv(m, cfg, s, i, cells, reqs, gap, batch, lo, at) && s.IsBusy()
    ensures s.id == s.seqId == i && s.promise < |reqs| && Serving(m, cfg, s, i, reqs[s.promise], gap)
    ensures s.nDecoded < Budget(cfg, reqs[s.promise])
  {
  }

  /** The three stop conditions of the sampling loop, on the slot's own fields. */
  lemma ContinuesIff(m: Model, cfg: Defaults, s: Slot, i: nat, req: GenerateRequest, gap: bool, id: Token)
    requires Serving(m, cfg, s, i, req, gap)
    requires s.accumulated + m.piece(id) == Text(m, s.genTokenIds + [id])
    ensures GoesOn(m, cfg, req, s.genTokenIds + [id]) <==>
      !MatchesStop(s.stopStrings, s.accumulated + m.piece(id)) && s.nDecoded + 1 < s.maxNew && id !in s.stopTokenIds
    ensures s.nDecoded + 1 >= s.maxNew <==> |s.genTokenIds| + 1 >= MaxNew(cfg, req)
  {
  }
}
