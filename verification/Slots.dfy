/** The scheduler's slots: their fields, and what is true of a slot in each of its states. */
module Slots {
  import opened Common
  import opened Llama
  import opened Generation
  import opened Transparency

  const MAX_US := 0x7FFF_FFFF_FFFF_FFFF
  const MIN_REUSE_PREFIX_TOKS := 64

  /** One concurrent sequence.  `promise` names the submission whose promise it holds. */
  datatype Slot = Slot(
    id: nat,
    seqId: int,
    pendingPrompt: seq<Token>,
    prefilled: bool,
    nPast: nat,
    sampled: Token,
    iBatch: int,
    nPrompt: nat,
    nDecoded: nat,
    maxNew: int,
    stopTokenIds: seq<Token>,
    stopStrings: seq<string>,
    accumulated: string,
    genTokenIds: seq<Token>,
    sampler: Option<Sampler>,
    promise: nat,
    warm: bool,
    cachedSessionId: string,
    cachedTokens: seq<Token>,
    cachedAtUs: int)
  {
    predicate IsFree() { seqId == -1 }
    predicate IsWarm() { seqId != -1 && warm }
    predicate IsBusy() { seqId != -1 && !warm }
  }

  function EmptySlot(id: nat): Slot {
    Slot(id, -1, [], false, 0, 0, -1, 0, 0, 512, [], [], "", [], None, 0, false, "", [], 0)
  }

  // ---- slot states ----

  ghost predicate NoEntries(batch: seq<Entry>, i: nat, k: nat) {
    forall j :: k <= j < |batch| ==> batch[j].seqId != i
  }

  /** The per-request fields of a busy slot. */
  ghost predicate Serving(m: Model, cfg: Defaults, s: Slot, i: nat, req: GenerateRequest, gap: bool) {
    && s.seqId == i && !s.warm
    && s.nPrompt == |req.tokens| > 0 && s.nDecoded == |s.genTokenIds| < Budget(cfg, req)
    && s.cachedTokens == req.tokens + s.genTokenIds
    && s.maxNew == MaxNew(cfg, req) && s.stopTokenIds == req.stopTokens && s.stopStrings == cfg.stop
    && s.sampler == Some(SchedulerSampler(m, cfg, req, s.genTokenIds)) && s.cachedSessionId == req.sessionId
    && (s.prefilled <==> s.genTokenIds != [])
    && (s.prefilled ==> s.pendingPrompt == [])
    && s.accumulated == Text(m, s.genTokenIds)
    && SoFar(m, cfg, req, s.genTokenIds) && !StopsHere(m, req.stopTokens, cfg.stop, s.genTokenIds)
    && (gap ==> req.sessionId != "")
    && (!gap ==> Solo(m, cfg, req) == SoloFrom(m, cfg, req, s.genTokenIds))
  }

  /** A busy slot between steps. */
  ghost predicate Ready(s: Slot, cells: seq<Cell>, gap: bool) {
    if s.prefilled then
      && |s.cachedTokens| > 0 && s.nPast == |s.cachedTokens| - 1 && s.sampled == s.cachedTokens[s.nPast]
      && Sparse(cells, s.cachedTokens[..s.nPast]) && (gap <==> |cells| != s.nPast)
    else
      && s.nPast <= |s.cachedTokens| && s.pendingPrompt == s.cachedTokens[s.nPast..]
      && Sparse(cells, s.cachedTokens[..s.nPast]) && (gap <==> Holed(cells, s.nPast, |s.cachedTokens|))
  }

  /** A busy slot whose entries are in the batch; `cells` is its cache once they are decoded. */
  ghost predicate InFlight(s: Slot, cells: seq<Cell>, gap: bool) {
    && s.nPast == |s.cachedTokens| && Sparse(cells, s.cachedTokens)
    && (gap <==> |cells| != |s.cachedTokens|)
  }

  ghost predicate Idle(s: Slot) {
    && !s.prefilled && s.iBatch == -1 && s.pendingPrompt == [] && s.genTokenIds == [] && s.accumulated == ""
  }

  /** A free slot has no cache. */
  ghost predicate Free(s: Slot, cells: seq<Cell>) {
    s.seqId == -1 && !s.warm && Idle(s) && cells == []
  }

  /** The cache a completed request leaves: all of its ledger when it ended at an end-of-generation
      token, which is not in the ledger, and else all but the last token, which was never decoded. */
  ghost predicate CoversLedger(m: Model, s: Slot, cells: seq<Cell>) {
    && s.cachedTokens != []
    && |cells| == (if m.isEog(s.sampled) then |s.cachedTokens| else |s.cachedTokens| - 1)
    && cells == Cells(s.cachedTokens[..|cells|])
  }

  /** A warm slot keeps the cache of its session's ledger. */
  ghost predicate Warm(m: Model, s: Slot, i: nat, cells: seq<Cell>, gap: bool) {
    && s.seqId == i && s.warm && Idle(s)
    && s.cachedSessionId != "" && s.nPast == |s.cachedTokens| && s.cachedAtUs < MAX_US
    && Sparse(cells, s.cachedTokens) && (!gap ==> CoversLedger(m, s, cells))
  }

  /** A slot while the first `at` entries of `batch` are in the cache; an unsampled slot's
      last entry is at `lo` or later. */
  ghost predicate SlotInv(m: Model, cfg: Defaults, s: Slot, i: nat, cells: seq<Cell>, reqs: seq<GenerateRequest>,
                          gap: bool, batch: seq<Entry>, lo: nat, at: nat)
  {
    && s.id == i && at <= |batch|
    && if !s.IsBusy() then
         (if s.IsFree() then Free(s, cells) else Warm(m, s, i, cells, gap)) && NoEntries(batch, i, at)
       else
         && s.promise < |reqs| && Serving(m, cfg, s, i, reqs[s.promise], gap)
         && if s.iBatch == -1 then Ready(s, cells, gap) && NoEntries(batch, i, at)
            else
              && lo <= s.iBatch < |batch| && batch[s.iBatch].seqId == i && batch[s.iBatch].logits
              && NoEntries(batch, i, s.iBatch + 1)
              && InFlight(s, cells + CellsOf(batch[at..], i), gap)
  }

  lemma NoEntriesNoCells(batch: seq<Entry>, i: nat, k: nat)
    requires k <= |batch| && NoEntries(batch, i, k)
    ensures CellsOf(batch[k..], i) == []
  {
    CellsOfOther(batch[k..], i);
  }

  /** Decoding the next `n` entries moves every slot's mark from `at` to `at + n`. */
  lemma DecodeAdvances(m: Model, cfg: Defaults, s: Slot, i: nat, cells: seq<Cell>, reqs: seq<GenerateRequest>,
                       gap: bool, batch: seq<Entry>, lo: nat, at: nat, n: nat)
    requires at + n <= |batch| && SlotInv(m, cfg, s, i, cells, reqs, gap, batch, lo, at)
    ensures SlotInv(m, cfg, s, i, cells + CellsOf(batch[at..at + n], i), reqs, gap, batch, lo, at + n)
  {
    var view := batch[at..at + n];
    assert batch[at..] == view + batch[at + n..];
    CellsOfConcat(view, batch[at + n..], i);
    if s.IsBusy() && s.iBatch != -1 {
      assert cells + CellsOf(batch[at..], i) == cells + CellsOf(view, i) + CellsOf(batch[at + n..], i);
    } else {
      CellsOfOther(view, i);
      assert cells + CellsOf(view, i) == cells;
    }
  }

  /** Entries of other sequences do not matter to a slot while the batch is being built. */
  lemma GrowBatch(m: Model, cfg: Defaults, s: Slot, i: nat, cells: seq<Cell>, reqs: seq<GenerateRequest>,
                  gap: bool, batch: seq<Entry>, more: seq<Entry>)
    requires SlotInv(m, cfg, s, i, cells, reqs, gap, batch, 0, 0) && NoEntries(more, i, 0)
    ensures SlotInv(m, cfg, s, i, cells, reqs, gap, batch + more, 0, 0)
  {
    CellsOfConcat(batch, more, i);
    CellsOfOther(more, i);
    assert batch[0..] == batch && (batch + more)[0..] == batch + more;
    assert CellsOf(batch + more, i) == CellsOf(batch, i);
  }

  /** A slot whose last entry is still ahead of the mark keeps its invariant there. */
  lemma StillAhead(m: Model, cfg: Defaults, s: Slot, i: nat, cells: seq<Cell>, reqs: seq<GenerateRequest>,
                   gap: bool, batch: seq<Entry>, lo: nat, at: nat)
    requires SlotInv(m, cfg, s, i, cells, reqs, gap, batch, lo, at)
    requires s.IsBusy() ==> s.iBatch < lo || s.iBatch >= at
    ensures SlotInv(m, cfg, s, i, cells, reqs, gap, batch, at, at)
    ensures s.IsBusy() ==> s.iBatch == -1 || at <= s.iBatch < |batch|
  {
  }

  /** At the end of the batch no slot is waiting. */
  lemma NothingAhead(m: Model, cfg: Defaults, s: Slot, i: nat, cells: seq<Cell>, reqs: seq<GenerateRequest>,
                     gap: bool, batch: seq<Entry>)
    requires SlotInv(m, cfg, s, i, cells, reqs, gap, batch, |batch|, |batch|)
    ensures SlotInv(m, cfg, s, i, cells, reqs, gap, [], 0, 0) && (s.IsBusy() ==> s.iBatch == -1)
  {
  }

  /** A failing chunk leaves settled slots alone, because none of its entries is theirs. */
  lemma ChunkFails(m: Model, cfg: Defaults, s: Slot, i: nat, cells: seq<Cell>, reqs: seq<GenerateRequest>,
                   gap: bool, batch: seq<Entry>, cs: nat, n: nat)
    requires cs + n <= |batch| && SlotInv(m, cfg, s, i, cells, reqs, gap, batch, cs, cs)
    ensures if s.IsBusy() && s.iBatch >= cs then
              s.seqId == s.id == i && s.promise < |reqs| && Serving(m, cfg, s, i, reqs[s.promise], gap)
            else
              && SlotInv(m, cfg, s, i, cells, reqs, gap, [], 0, 0)
              && NoEntries(batch[cs..cs + n], i, 0)
  {
  }

  /** An idle or settled slot fits any batch whose remaining entries are not its own. */
  lemma SettledIn(m: Model, cfg: Defaults, s: Slot, i: nat, cells: seq<Cell>, reqs: seq<GenerateRequest>,
                  gap: bool, batch: seq<Entry>, at: nat)
    requires SlotInv(m, cfg, s, i, cells, reqs, gap, [], 0, 0) && at <= |batch| && NoEntries(batch, i, at)
    ensures SlotInv(m, cfg, s, i, cells, reqs, gap, batch, at, at)
  {
  }

  /** New submissions do not touch a slot. */
  lemma MoreSubmissions(m: Model, cfg: Defaults, s: Slot, i: nat, cells: seq<Cell>, reqs: seq<GenerateRequest>,
                        gap: bool, batch: seq<Entry>, lo: nat, at: nat, req: GenerateRequest)
    requires SlotInv(m, cfg, s, i, cells, reqs, gap, batch, lo, at)
    ensures SlotInv(m, cfg, s, i, cells, reqs + [req], gap, batch, lo, at)
  {
  }
}
