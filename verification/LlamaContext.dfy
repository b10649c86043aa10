/** The llama.cpp context as its two clients see it: one cache of (position, token)
    cells per sequence id, a decode call with a return code, and samplers that draw from what one
    sequence has in its cache. */
module Llama {

  type Token = int

  /** A cached key/value pair.  Its contents depend on the token, its position, and the
      cells below it, all of which are cells of the same sequence. */
  datatype Cell = Cell(pos: nat, tok: Token)

  /** One column of a llama_batch. */
  datatype Entry = Entry(tok: Token, pos: nat, seqId: nat, logits: bool)

  // ---- sampling ----

  /** What a sampler chain is made of, but for its random source. */
  datatype SamplerChain = SamplerChain(
    grammar: string,
    topK: int, topP: real, minP: real, temperature: real,
    repeatPenalty: real, frequencyPenalty: real, presencePenalty: real)
  {
    /** Whether accepted tokens can change a draw: through a grammar or a penalty. */
    predicate Remembers() {
      grammar != "" || repeatPenalty != 1.0 || frequencyPenalty != 0.0 || presencePenalty != 0.0
    }

    /** Whether top_k, top_p, min_p or the temperature leave the likeliest candidate only.  They come
        before the penalties and the random source. */
    predicate LeavesOne() {
      topK == 1 || topP <= 0.0 || minP > 1.0 || temperature <= 0.0
    }

    /** Whether the random source can change a draw. */
    predicate Random() {
      !LeavesOne()
    }

    /** Whether every draw is the likeliest token, whatever else is in the chain. */
    predicate Greedy() {
      grammar == "" && LeavesOne()
    }
  }

  /** A seed is configured, or the clock's reading when the sampler was made. */
  datatype Seed = Configured(n: int) | ClockAtLoad | ClockAtAdmission | ClockAtRequest

  /** A sampler: its chain, its seed, the tokens it has accepted and how often it has drawn. */
  datatype Sampler = Sampler(chain: SamplerChain, seed: Seed, accepted: seq<Token>, draws: nat)

  /** The library and the model: a draw is a function of the sampler and of the sequence's cells.
      Whether drawing accepts the token drawn is the library's business. */
  datatype Model = Model(
    sample: (Sampler, seq<Cell>) -> Token,
    acceptsOnSample: bool,
    parsesGrammar: string -> bool,
    isEog: Token -> bool,
    piece: Token -> string)

  /** llama_sampler_sample's effect on the sampler. */
  function AfterSample(m: Model, sp: Sampler, id: Token): Sampler {
    sp.(draws := sp.draws + 1, accepted := if m.acceptsOnSample then sp.accepted + [id] else sp.accepted)
  }

  /** llama_sampler_accept. */
  function Accept(sp: Sampler, id: Token): Sampler {
    sp.(accepted := sp.accepted + [id])
  }

  /** Two samplers that no draw can tell apart. */
  predicate Alike(sp: Sampler, sq: Sampler) {
    || (sp.chain.Greedy() && sq.chain.Greedy())
    || (&& sp.chain == sq.chain
        && (sp.chain.Remembers() ==> sp.accepted == sq.accepted)
        && (sp.chain.Random() ==> sp.seed == sq.seed && sp.draws == sq.draws))
  }

  /** What is taken for granted of the library: a chain that leaves one candidate draws the likeliest
      token, neutral penalties and no grammar leave accepted tokens out of it, and where one
      candidate is left the random source does not matter. */
  ghost predicate Lawful(m: Model) {
    forall sp, sq, cells :: Alike(sp, sq) ==> m.sample(sp, cells) == m.sample(sq, cells)
  }

  // ---- the cache ----

  /** The cache a cold prefill of `toks` leaves behind. */
  function Cells(toks: seq<Token>): (cells: seq<Cell>)
    ensures |cells| == |toks|
    ensures forall k :: 0 <= k < |toks| ==> cells[k] == Cell(k, toks[k])
  {
    seq(|toks|, k requires 0 <= k < |toks| => Cell(k, toks[k]))
  }

  /** The cells a batch adds to sequence `s`, in batch order. */
  function CellsOf(view: seq<Entry>, s: nat): seq<Cell> {
    if view == [] then []
    else
      var last := view[|view| - 1];
      CellsOf(view[..|view| - 1], s) + if last.seqId == s then [Cell(last.pos, last.tok)] else []
  }

  lemma {:induction false} CellsOfConcat(a: seq<Entry>, b: seq<Entry>, s: nat)
    ensures CellsOf(a + b, s) == CellsOf(a, s) + CellsOf(b, s)
  {
    if b == [] {
      assert a + b == a;
    } else {
      var n := |a + b| - 1;
      assert (a + b)[..n] == a + b[..|b| - 1] && (a + b)[n] == b[|b| - 1];
      CellsOfConcat(a, b[..|b| - 1], s);
    }
  }

  lemma {:induction false} CellsOfOther(view: seq<Entry>, s: nat)
    requires forall k :: 0 <= k < |view| ==> view[k].seqId != s
    ensures CellsOf(view, s) == []
  {
    if view != [] {
      CellsOfOther(view[..|view| - 1], s);
    }
  }

  /** Removal of every cell at position `p` or later (llama_memory_seq_rm with p1 = -1). */
  function Trim(cells: seq<Cell>, p: nat): seq<Cell> {
    if cells == [] then []
    else
      var last := cells[|cells| - 1];
      Trim(cells[..|cells| - 1], p) + if last.pos < p then [last] else []
  }

  /** The ledger relation: every cell holds the token the ledger has at its position, in
      order of position.  Positions may be missing. */
  ghost predicate Sparse(cells: seq<Cell>, toks: seq<Token>) {
    && (forall k :: 0 <= k < |cells| ==> cells[k].pos < |toks| && cells[k].tok == toks[cells[k].pos])
    && (forall j, k :: 0 <= j < k < |cells| ==> cells[j].pos < cells[k].pos)
  }

  /** Cells in order of position sit at or above their own index. */
  lemma {:induction false} PositionAtLeastIndex(cells: seq<Cell>, toks: seq<Token>, k: nat)
    requires Sparse(cells, toks) && k < |cells|
    ensures k <= cells[k].pos
  {
    if k > 0 {
      PositionAtLeastIndex(cells, toks, k - 1);
      assert cells[k - 1].pos < cells[k].pos;
    }
  }

  /** And at most as far above it as there are positions missing. */
  lemma {:induction false} PositionAtMost(cells: seq<Cell>, toks: seq<Token>, k: nat)
    requires Sparse(cells, toks) && k < |cells|
    ensures cells[k].pos + |cells| - k <= |toks|
    decreases |cells| - k
  {
    if k + 1 < |cells| {
      PositionAtMost(cells, toks, k + 1);
      assert cells[k].pos < cells[k + 1].pos;
    }
  }

  /** No holes exactly when there are as many cells as ledger tokens, and then the cache
      is the one a cold prefill builds. */
  lemma SparseFull(cells: seq<Cell>, toks: seq<Token>)
    requires Sparse(cells, toks)
    ensures |cells| <= |toks|
    ensures |cells| == |toks| <==> cells == Cells(toks)
  {
    if cells != [] {
      PositionAtMost(cells, toks, 0);
    }
    if |cells| == |toks| {
      forall k | 0 <= k < |cells| ensures cells[k] == Cells(toks)[k] {
        PositionAtLeastIndex(cells, toks, k);
        PositionAtMost(cells, toks, k);
      }
      assert cells == Cells(toks);
    }
  }

  lemma SparseSnoc(t: seq<Cell>, last: Cell, toks: seq<Token>, init: seq<Cell>)
    requires Sparse(t, toks) && last.pos < |toks| && last.tok == toks[last.pos]
    requires (forall c :: c in t ==> c in init) && forall k :: 0 <= k < |init| ==> init[k].pos < last.pos
    ensures Sparse(t + [last], toks)
  {
    forall k | 0 <= k < |t| ensures t[k].pos < last.pos {
      assert t[k] in init;
    }
  }

  lemma {:induction false} TrimSparse(cells: seq<Cell>, toks: seq<Token>, other: seq<Token>, p: nat)
    requires Sparse(cells, toks)
    requires p <= |other| && forall k :: 0 <= k < p && k < |toks| ==> other[k] == toks[k]
    ensures Sparse(Trim(cells, p), other[..p])
    ensures forall c :: c in Trim(cells, p) <==> c in cells && c.pos < p
  {
    if cells != [] {
      var init, last := cells[..|cells| - 1], cells[|cells| - 1];
      TrimSparse(init, toks, other, p);
      assert cells == init + [last];
      if last.pos < p {
        SparseSnoc(Trim(init, p), last, other[..p], init);
      }
    }
  }

  /** Trimming a hole-free cache of `toks` to length p leaves the smaller of the two. */
  lemma {:induction false} TrimLength(cells: seq<Cell>, toks: seq<Token>, p: nat)
    requires Sparse(cells, toks)
    ensures |Trim(cells, p)| <= |cells|
    ensures cells == Cells(toks) ==> |Trim(cells, p)| == if p < |toks| then p else |toks|
  {
    if cells != [] {
      var init, last := cells[..|cells| - 1], cells[|cells| - 1];
      assert Sparse(init, toks);
      TrimLength(init, toks, p);
      if cells == Cells(toks) {
        var shorter := toks[..|toks| - 1];
        assert init == Cells(shorter);
        assert Sparse(init, shorter);
        TrimLength(init, shorter, p);
      }
    }
  }

  /** Appending the ledger's next tokens keeps the relation. */
  lemma SparseAppend(cells: seq<Cell>, toks: seq<Token>, more: seq<Token>, added: seq<Cell>)
    requires Sparse(cells, toks)
    requires |added| == |more|
    requires forall k :: 0 <= k < |more| ==> added[k] == Cell(|toks| + k, more[k])
    ensures Sparse(cells + added, toks + more)
  {
    var all := cells + added;
    forall j, k | 0 <= j < k < |all| ensures all[j].pos < all[k].pos {
    }
  }

  /** A call of llama_decode and its return code. */
  datatype DecodeCall = DecodeCall(view: seq<Entry>, ret: int)

  /** A context shared by reference with its clients; `kv[s]` is the cache of sequence s. */
  class LlamaContext {
    const model: Model
    const nCtx: nat
    const nBatch: nat
    var kv: seq<seq<Cell>>
    /** Every decode call so far. */
    ghost var log: seq<DecodeCall>

    constructor (model: Model, nCtx: nat, nBatch: nat, nSeqMax: nat)
      ensures this.model == model && this.nCtx == nCtx && this.nBatch == nBatch
      ensures kv == seq(nSeqMax, _ => []) && log == []
    {
      log := [];
      this.model := model;
      this.nCtx := nCtx;
      this.nBatch := nBatch;
      kv := seq(nSeqMax, _ => []);
    }

    /** llama_memory_clear. */
    method Clear()
      modifies this`kv
      ensures kv == seq(|old(kv)|, _ => [])
    {
      kv := seq(|kv|, _ => []);
    }

    /** llama_memory_seq_rm(mem, s, p0, -1): drops the cells at position p0 and beyond. */
    method SeqRm(s: nat, p0: nat)
      requires s < |kv|
      modifies this`kv
      ensures kv == old(kv)[s := Trim(old(kv)[s], p0)]
    {
      kv := kv[s := Trim(kv[s], p0)];
    }

    /** llama_memory_seq_rm(mem, s, -1, -1): drops the whole sequence. */
    method SeqClear(s: nat)
      requires s < |kv|
      modifies this`kv
      ensures kv == old(kv)[s := []]
    {
      kv := kv[s := []];
    }

    /** llama_decode.  The return code is the backend's: zero stores the view's cells, a
        positive code leaves the cache alone, and a negative one may leave anything in the
        sequences of the view. */
    method Decode(view: seq<Entry>) returns (ret: int)
      requires |view| <= nBatch
      requires forall k :: 0 <= k < |view| ==> view[k].seqId < |kv|
      modifies this`kv, this`log
      ensures |kv| == |old(kv)| && log == old(log) + [DecodeCall(view, ret)]
      ensures ret == 0 ==> forall s :: 0 <= s < |kv| ==> kv[s] == old(kv)[s] + CellsOf(view, s)
      ensures ret > 0 ==> kv == old(kv)
      ensures forall s :: 0 <= s < |kv| && (forall k :: 0 <= k < |view| ==> view[k].seqId != s) ==> kv[s] == old(kv)[s]
    {
      ret := *;
      log := log + [DecodeCall(view, ret)];
      forall s: nat | forall k :: 0 <= k < |view| ==> view[k].seqId != s ensures CellsOf(view, s) == [] {
        CellsOfOther(view, s);
      }
      if ret == 0 {
        var before := kv;
        kv := seq(|before|, s requires 0 <= s < |before| => before[s] + CellsOf(view, s));
      } else if ret < 0 {
        var left: seq<seq<Cell>> :| |left| == |kv|
          && forall s :: 0 <= s < |kv| && (forall k :: 0 <= k < |view| ==> view[k].seqId != s) ==> left[s] == kv[s];
        kv := left;
      }
    }
  }
}
