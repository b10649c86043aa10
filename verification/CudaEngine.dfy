/** The CUDA engine's block discipline: what generate and inject_tokens reserve, write to and
    give back, and which sessions tokens can be injected into. */
module CudaEngineModule {
  import opened Arithmetic
  import opened Common
  import opened KvLayout
  import opened BlockAccounting
  import opened BlockPool

  type Token = int

  datatype ActiveSession = ActiveSession(seqId: nat, kvSeqLen: nat)

  /** A call of inject_tokens: a position and the tokens. */
  datatype Injection = Injection(pos: int, tokens: seq<Token>)

  // ---- forward passes, draws and what a generation makes of them ----

  /** A forward pass: its input tokens, the position of the first, and its code. */
  datatype Pass = Pass(tokens: seq<Token>, at: nat, code: ErrorCode)

  /** A call of inject_tokens, and what it was answered. */
  datatype Splice = Splice(id: string, pos: int, tokens: seq<Token>, code: ErrorCode)

  /** What a generation answers to an injection of its own request when its cache is `at` positions long:
      only an append gets as far as the blocks. */
  ghost predicate AnsweredAt(megakernel: bool, id: string, at: nat, asked: Splice) {
    && asked.id == id
    && if asked.tokens == [] then asked.code == InvalidArgument
       else if !megakernel then asked.code == NotImplemented
       else if id == "" || asked.pos != at then asked.code == InvalidArgument
       else asked.code in {Ok, Unavailable, InternalError}
  }

  /** The first `n` token callbacks have injected what they have to, the k-th with the cache at start + k. */
  ghost predicate Injected(megakernel: bool, id: string, start: nat, injections: seq<Injection>, n: nat,
                           asked: seq<Splice>) {
    && |asked| == (if n <= |injections| then n else |injections|)
    && forall k :: 0 <= k < |asked| ==>
         && asked[k].pos == injections[k].pos && asked[k].tokens == injections[k].tokens
         && AnsweredAt(megakernel, id, start + k, asked[k])
  }

  /** One callback asks at most once. */
  ghost predicate AskedOnce(megakernel: bool, id: string, at: nat, injection: Option<Injection>, asked: seq<Splice>) {
    match injection
    case None => asked == []
    case Some(inj) =>
      |asked| == 1 && asked[0].pos == inj.pos && asked[0].tokens == inj.tokens
      && AnsweredAt(megakernel, id, at, asked[0])
  }

  lemma NoneInjected(megakernel: bool, id: string, start: nat, injections: seq<Injection>)
    ensures Injected(megakernel, id, start, injections, 0, [])
  {
  }

  lemma InjectedMore(megakernel: bool, id: string, start: nat, injections: seq<Injection>, n: nat,
                     before: seq<Splice>, asked: seq<Splice>, after: seq<Splice>)
    requires before <= asked <= after && Injected(megakernel, id, start, injections, n, asked[|before|..])
    requires AskedOnce(megakernel, id, start + n, if n < |injections| then Some(injections[n]) else None,
                       after[|asked|..])
    ensures before <= after && Injected(megakernel, id, start, injections, n + 1, after[|before|..])
  {
    hide AnsweredAt;
    assert after[|before|..] == asked[|before|..] + after[|asked|..];
  }

  /** The injection that comes too late, if there is one. */
  ghost predicate Latest(id: string, late: Option<Injection>, asked: seq<Splice>) {
    match late
    case None => asked == []
    case Some(inj) =>
      |asked| == 1 && asked[0].id == id && asked[0].pos == inj.pos && asked[0].tokens == inj.tokens
  }

  ghost predicate AllOk(passes: seq<Pass>) {
    forall k :: 0 <= k < |passes| ==> passes[k].code == Ok
  }

  /** One pass for each of the first tokens, from position `start` on, all but the last successful. */
  ghost predicate OneByOne(tokens: seq<Token>, start: nat, passes: seq<Pass>) {
    && |passes| <= |tokens|
    && (forall k :: 0 <= k < |passes| ==> passes[k].tokens == [tokens[k]] && passes[k].at == start + k)
    && (forall k :: 0 <= k < |passes| - 1 ==> passes[k].code == Ok)
  }

  /** What a prefill runs when `free` blocks are left.  The megakernel reserves everything and then runs
      once, or not at all when the blocks do not suffice; the legacy path runs token by token until a pass
      fails or a boundary finds the pool empty. */
  ghost predicate Prefilled(megakernel: bool, prompt: seq<Token>, free: nat, blockSize: nat, passes: seq<Pass>,
                            error: ErrorCode)
    requires blockSize > 0
  {
    if megakernel then
      if Boundaries(|prompt|, blockSize) > free then passes == [] && error == Unavailable
      else passes == [Pass(prompt, 0, error)]
    else
      && OneByOne(prompt, 0, passes)
      && if error == Ok then |passes| == |prompt| && AllOk(passes)
         else
           || (passes != [] && passes[|passes| - 1].code == error)
           || (&& error == Unavailable && AllOk(passes) && 0 < |passes| < |prompt|
               && |passes| % blockSize == 0 && Boundaries(|passes|, blockSize) == free)
  }

  /** What a decode loop makes of the tokens drawn: it returns them up to the limit or the first end or
      stop token, or up to the one whose pass failed or whose block the pool did not have. */
  ghost predicate Decoded(maxTokens: int, stopTokens: seq<Token>, eos: Option<Token>, start: nat, blockSize: nat,
                          tokens: seq<Token>, drawn: seq<Token>, passes: seq<Pass>, dry: bool)
    requires blockSize > 0
  {
    && |tokens| <= (if maxTokens > 0 then maxTokens else 0)
    && |tokens| <= |drawn| && tokens == drawn[..|tokens|]
    && (forall t :: t in tokens ==> t !in stopTokens && Some(t) != eos)
    && OneByOne(tokens, start, passes)
    && if |drawn| == |tokens| + 1 then
         && |passes| == |tokens| && AllOk(passes)
         && (|tokens| == (if maxTokens > 0 then maxTokens else 0)
             || Some(drawn[|tokens|]) == eos || drawn[|tokens|] in stopTokens)
       else
         && |drawn| == |tokens| > 0
         && if |passes| == |tokens| then passes[|passes| - 1].code != Ok
            else |passes| == |tokens| - 1 && AllOk(passes) && (start + |passes|) % blockSize == 0 && dry
  }

  /** The passes after the prefill. */
  ghost function DecodePasses(megakernel: bool, prompt: seq<Token>, passes: seq<Pass>): seq<Pass> {
    var n := if megakernel then 1 else |prompt|;
    if n <= |passes| then passes[n..] else []
  }

  /** A request that has got its blocks, `free` being left: its prefill, and when that succeeds its draws
      and their passes. */
  ghost predicate Served(megakernel: bool, prompt: seq<Token>, free: nat, maxTokens: int, stopTokens: seq<Token>,
                         eos: Option<Token>, blockSize: nat, passes: seq<Pass>, drawn: seq<Token>,
                         tokens: seq<Token>, error: ErrorCode, dry: bool)
  {
    && blockSize > 0
    && if error != Ok then Prefilled(megakernel, prompt, free, blockSize, passes, error)
       else
         var n := if megakernel then 1 else |prompt|;
         && n <= |passes| && Prefilled(megakernel, prompt, free, blockSize, passes[..n], Ok)
         && Decoded(maxTokens, stopTokens, eos, |prompt|, blockSize, tokens, drawn, passes[n..], dry)
  }

  lemma PrefillPasses(megakernel: bool, prompt: seq<Token>, free: nat, blockSize: nat, passes: seq<Pass>,
                      error: ErrorCode)
    requires blockSize > 0 && Prefilled(megakernel, prompt, free, blockSize, passes, error)
    ensures error == Ok ==> |passes| == if megakernel then 1 else |prompt|
  {
  }

  /** The loop ended because the pool had no block for the last token. */
  ghost predicate RanDry(tokens: seq<Token>, drawn: seq<Token>, passes: seq<Pass>) {
    |drawn| == |tokens| == |passes| + 1
  }

  /** The loop at the top of a turn: all tokens so far have passed, and the next one is drawn. */
  ghost predicate Decoding(tokens: seq<Token>, next: Token, start: nat, drawn: seq<Token>, passes: seq<Pass>) {
    drawn == tokens + [next] && OneByOne(tokens, start, passes) && |passes| == |tokens| && AllOk(passes)
  }

  lemma ServedRefused(megakernel: bool, prompt: seq<Token>, free: nat, maxTokens: int, stopTokens: seq<Token>,
                      eos: Option<Token>, blockSize: nat, passes: seq<Pass>, error: ErrorCode, dry: bool)
    requires blockSize > 0 && error != Ok && Prefilled(megakernel, prompt, free, blockSize, passes, error)
    ensures Served(megakernel, prompt, free, maxTokens, stopTokens, eos, blockSize, passes, [], [], error, dry)
  {
  }

  /** The legacy prefill at the top of a turn. */
  ghost predicate Prefilling(prompt: seq<Token>, passes: seq<Pass>) {
    OneByOne(prompt, 0, passes) && AllOk(passes)
  }

  lemma PrefillingStarts(prompt: seq<Token>)
    ensures Prefilling(prompt, [])
  {
  }

  lemma PrefillingGoesOn(prompt: seq<Token>, free: nat, blockSize: nat, passes: seq<Pass>, ec: ErrorCode)
    requires blockSize > 0 && Prefilling(prompt, passes) && |passes| < |prompt|
    ensures var more := passes + [Pass([prompt[|passes|]], |passes|, ec)];
      if ec == Ok then Prefilling(prompt, more) else Prefilled(false, prompt, free, blockSize, more, ec)
  {
  }

  lemma PrefillingEnds(prompt: seq<Token>, free: nat, blockSize: nat, passes: seq<Pass>)
    requires blockSize > 0 && Prefilling(prompt, passes)
    ensures |passes| == |prompt| ==> Prefilled(false, prompt, free, blockSize, passes, Ok)
    ensures 0 < |passes| < |prompt| && |passes| % blockSize == 0 && Boundaries(|passes|, blockSize) == free ==>
      Prefilled(false, prompt, free, blockSize, passes, Unavailable)
  {
  }

  lemma DryAfter(tokens: seq<Token>, drawn: seq<Token>, passes: seq<Pass>)
    ensures RanDry(tokens, drawn, passes) ==> |passes| == |tokens| - 1
  {
  }

  lemma DecodingLength(tokens: seq<Token>, next: Token, start: nat, drawn: seq<Token>, passes: seq<Pass>)
    requires Decoding(tokens, next, start, drawn, passes)
    ensures |passes| == |tokens|
  {
  }

  lemma DecodingStarts(next: Token, start: nat)
    ensures Decoding([], next, start, [next], [])
  {
  }

  lemma DecodingGoesOn(tokens: seq<Token>, next: Token, start: nat, drawn: seq<Token>, passes: seq<Pass>, next': Token)
    requires Decoding(tokens, next, start, drawn, passes)
    ensures Decoding(tokens + [next], next', start, drawn + [next'], passes + [Pass([next], start + |tokens|, Ok)])
  {
  }

  /** The limit, or an end or stop token. */
  lemma DecodingEnds(maxTokens: int, stopTokens: seq<Token>, eos: Option<Token>, tokens: seq<Token>, next: Token,
                     start: nat, blockSize: nat, drawn: seq<Token>, passes: seq<Pass>, dry: bool)
    requires blockSize > 0 && Decoding(tokens, next, start, drawn, passes)
    requires |tokens| <= (if maxTokens > 0 then maxTokens else 0)
    requires forall t :: t in tokens ==> t !in stopTokens && Some(t) != eos
    requires |tokens| >= maxTokens || Some(next) == eos || next in stopTokens
    ensures Decoded(maxTokens, stopTokens, eos, start, blockSize, tokens, drawn, passes, dry)
    ensures !RanDry(tokens, drawn, passes)
  {
  }

  /** A failed pass, or no block for the token. */
  lemma DecodingFails(maxTokens: int, stopTokens: seq<Token>, eos: Option<Token>, tokens: seq<Token>, next: Token,
                      start: nat, blockSize: nat, drawn: seq<Token>, passes: seq<Pass>, more: seq<Pass>, dry: bool,
                      code: Option<ErrorCode>)
    requires blockSize > 0 && Decoding(tokens, next, start, drawn, passes) && |tokens| < maxTokens
    requires forall t :: t in tokens + [next] ==> t !in stopTokens && Some(t) != eos
    requires code != Some(Ok)
    requires more == if code.Some? then passes + [Pass([next], start + |tokens|, code.value)] else passes
    requires code.None? ==> (start + |tokens|) % blockSize == 0 && dry
    ensures Decoded(maxTokens, stopTokens, eos, start, blockSize, tokens + [next], drawn, more, dry)
    ensures RanDry(tokens + [next], drawn, more) <==> code.None?
  {
  }

  lemma ServedWhole(megakernel: bool, prompt: seq<Token>, free: nat, maxTokens: int, stopTokens: seq<Token>,
                    eos: Option<Token>, blockSize: nat, first: seq<Pass>, rest: seq<Pass>, drawn: seq<Token>,
                    tokens: seq<Token>, dry: bool)
    requires blockSize > 0 && Prefilled(megakernel, prompt, free, blockSize, first, Ok)
    requires Decoded(maxTokens, stopTokens, eos, |prompt|, blockSize, tokens, drawn, rest, dry)
    ensures Served(megakernel, prompt, free, maxTokens, stopTokens, eos, blockSize, first + rest, drawn, tokens, Ok,
                   dry)
    ensures DecodePasses(megakernel, prompt, first + rest) == rest
  {
    PrefillPasses(megakernel, prompt, free, blockSize, first, Ok);
    hide Prefilled, Decoded;
    assert (first + rest)[..|first|] == first && (first + rest)[|first|..] == rest;
  }

  // ---- sessions ----

  /** A session that is `n` tokens longer. */
  function Lengthened(sessions: map<string, ActiveSession>, id: string, n: nat): map<string, ActiveSession>
    requires id in sessions
  {
    sessions[id := sessions[id].(kvSeqLen := sessions[id].kvSeqLen + n)]
  }

  /** The session's sequence has no table any more. */
  predicate Freed(sessions: map<string, ActiveSession>, id: string, tables: Tables) {
    id in sessions && sessions[id].seqId !in tables
  }

  /** A registered session: its length is within the pool, and within its sequence's blocks as long
      as the sequence has a table. */
  predicate SessionOk(a: ActiveSession, tables: Tables, nBlocks: nat, blockSize: nat, nextSeqId: nat) {
    && a.seqId < nextSeqId && nBlocks >= 1 && a.kvSeqLen <= nBlocks * blockSize
    && (a.seqId in tables ==> |tables[a.seqId]| >= 1 && a.kvSeqLen <= |tables[a.seqId]| * blockSize)
  }

  ghost predicate SessionsOk(sessions: map<string, ActiveSession>, tables: Tables, nBlocks: nat, blockSize: nat,
                             nextSeqId: nat) {
    "" !in sessions && forall id :: id in sessions ==> SessionOk(sessions[id], tables, nBlocks, blockSize, nextSeqId)
  }

  /** Tables that only grow keep every session. */
  lemma SessionsGrow(sessions: map<string, ActiveSession>, tables: Tables, tables': Tables, nBlocks: nat,
                     blockSize: nat, nextSeqId: nat)
    requires SessionsOk(sessions, tables, nBlocks, blockSize, nextSeqId)
    requires tables'.Keys == tables.Keys && forall t :: t in tables ==> |tables[t]| <= |tables'[t]|
    ensures SessionsOk(sessions, tables', nBlocks, blockSize, nextSeqId)
  {
    forall id | id in sessions ensures SessionOk(sessions[id], tables', nBlocks, blockSize, nextSeqId) {
      var a := sessions[id];
      assert SessionOk(a, tables, nBlocks, blockSize, nextSeqId);
      if a.seqId in tables {
        ScaledAtMost(|tables[a.seqId]|, |tables'[a.seqId]|, blockSize);
      }
    }
  }

  /** A new sequence is in no session yet, and one that is freed only loses its table. */
  lemma SessionsOther(sessions: map<string, ActiveSession>, tables: Tables, s: nat, bt: seq<nat>, nBlocks: nat,
                      blockSize: nat, nextSeqId: nat)
    requires SessionsOk(sessions, tables, nBlocks, blockSize, nextSeqId)
    ensures SessionsOk(sessions, tables - {s}, nBlocks, blockSize, nextSeqId)
    ensures s == nextSeqId ==> SessionsOk(sessions, tables[s := bt], nBlocks, blockSize, nextSeqId + 1)
  {
    forall id | id in sessions ensures SessionOk(sessions[id], tables - {s}, nBlocks, blockSize, nextSeqId)
      && (s == nextSeqId ==> SessionOk(sessions[id], tables[s := bt], nBlocks, blockSize, nextSeqId + 1))
    {
      assert SessionOk(sessions[id], tables, nBlocks, blockSize, nextSeqId);
    }
  }

  lemma SessionSet(sessions: map<string, ActiveSession>, id: string, a: ActiveSession, tables: Tables, nBlocks: nat,
                   blockSize: nat, nextSeqId: nat)
    requires SessionsOk(sessions, tables, nBlocks, blockSize, nextSeqId) && id != ""
    requires SessionOk(a, tables, nBlocks, blockSize, nextSeqId)
    ensures SessionsOk(sessions[id := a], tables, nBlocks, blockSize, nextSeqId)
  {
  }

  lemma SessionsLater(sessions: map<string, ActiveSession>, tables: Tables, nBlocks: nat, blockSize: nat,
                      nextSeqId: nat)
    requires SessionsOk(sessions, tables, nBlocks, blockSize, nextSeqId)
    ensures SessionsOk(sessions, tables, nBlocks, blockSize, nextSeqId + 1)
  {
    forall id | id in sessions ensures SessionOk(sessions[id], tables, nBlocks, blockSize, nextSeqId + 1) {
      assert SessionOk(sessions[id], tables, nBlocks, blockSize, nextSeqId);
    }
  }

  /** Only the table of sequence `s` has changed, and only by growing. */
  ghost predicate Grown(tables: Tables, tables': Tables, s: Option<nat>) {
    && tables'.Keys == tables.Keys
    && forall t :: t in tables ==> if s == Some(t) then tables[t] <= tables'[t] else tables'[t] == tables[t]
  }

  lemma GrownOwn(tables: Tables, tables': Tables, others: Tables, s: nat, named: bool)
    requires s in tables && tables == others[s := tables[s]] && Grown(tables, tables', if named then Some(s) else None)
    ensures s in tables' && tables' == others[s := tables'[s]] && |tables[s]| <= |tables'[s]|
  {
  }

  /** Some position from..to begins a block after the first. */
  predicate CrossesBoundary(from: int, to: int, blockSize: nat) {
    blockSize > 0 && exists p :: from <= p < to && p > 0 && p % blockSize == 0
  }

  /** Without a boundary the end stays within the pool. */
  lemma WithoutBoundary(from: nat, to: nat, nBlocks: nat, blockSize: nat)
    requires blockSize > 0 && nBlocks >= 1 && from <= nBlocks * blockSize && !CrossesBoundary(from, to, blockSize)
    ensures to <= nBlocks * blockSize
  {
    var p := nBlocks * blockSize;
    MultipleBound(nBlocks, blockSize);
    QuotientIs(p, blockSize, nBlocks);
    DivisionOf(p, blockSize);
    assert p > 0 && p % blockSize == 0;
  }

  class CudaEngine {
    const allocator: CudaAllocator
    const useMegakernel: bool
    const nKvHeads: nat
    const headDim: nat
    /** Whether the cache has one-byte elements; nothing keeps the megakernel from being used with it. */
    const fp8Kv: bool
    /** The vocabulary's end-of-sequence token, if it has one. */
    const eos: Option<Token>
    var nextSeqId: nat
    var activeSessions: map<string, ActiveSession>
    /** The forward passes and the draws of generations, and the passes of injections. */
    ghost var passes: seq<Pass>
    ghost var draws: seq<Token>
    ghost var splices: seq<Pass>
    /** Every call of inject_tokens. */
    ghost var asked: seq<Splice>

    ghost predicate Valid()
      reads this, allocator
    {
      && allocator.Valid() && nKvHeads >= 1 && headDim >= 1
      && (forall s :: s in allocator.blockTables ==> s < nextSeqId)
      && SessionsOk(activeSessions, allocator.blockTables, |allocator.refCounts|, allocator.blockSize, nextSeqId)
    }

    constructor (allocator: CudaAllocator, useMegakernel: bool, nKvHeads: nat, headDim: nat, fp8Kv: bool,
                 eos: Option<Token>)
      requires allocator.Valid() && allocator.blockTables == map[] && nKvHeads >= 1 && headDim >= 1
      ensures Valid() && this.allocator == allocator && activeSessions == map[]
      ensures this.useMegakernel == useMegakernel && this.nKvHeads == nKvHeads && this.headDim == headDim
      ensures this.fp8Kv == fp8Kv && this.eos == eos
    {
      this.allocator, this.useMegakernel, this.eos := allocator, useMegakernel, eos;
      this.nKvHeads, this.headDim, this.fp8Kv := nKvHeads, headDim, fp8Kv;
      nextSeqId, activeSessions := 1, map[];
      passes, draws, splices, asked := [], [], [], [];
    }

    // ---- forward passes ----

    /** A position is covered when its block is in the sequence's table. */
    ghost predicate Covered(s: nat, pos: nat)
      reads this, allocator
    {
      allocator.blockSize > 0 && s in allocator.blockTables && pos / allocator.blockSize < |allocator.blockTables[s]|
    }

    /** run_forward: writes one position through the sequence's block table; it may fail. */
    method RunForward(s: nat, token: Token, pos: nat) returns (ec: ErrorCode)
      requires Covered(s, pos)
      modifies this`passes
      ensures passes == old(passes) + [Pass([token], pos, ec)]
    {
      ec := *;
      passes := passes + [Pass([token], pos, ec)];
    }

    /** The sampler's draw from the last pass's logits. */
    method Sample() returns (token: Token)
      modifies this`draws
      ensures draws == old(draws) + [token]
    {
      token := *;
      draws := draws + [token];
    }

    /** Each K and V plane of the pool. */
    function KvPlane(): Plane
      reads allocator
    {
      Plane(nKvHeads, headDim, |allocator.refCounts|, allocator.blockSize, if fp8Kv then 1 else 2)
    }

    /** The planes have room for elements of two bytes up to position `total`. */
    ghost predicate HasRoom(total: nat)
      reads this, allocator
    {
      !fp8Kv || (nKvHeads == 1 && 2 * total <= |allocator.refCounts| * allocator.blockSize)
    }

    /** run_forward_megakernel: writes the positions of its tokens, from `offset` on, of the pool; it is
        given neither a sequence nor a block table.  It reports success, or a launch error is raised.  Its
        writes stay inside the planes exactly when these have room for two-byte elements. */
    method RunForwardMegakernel(tokens: seq<Token>, offset: nat, ghost splice: bool) returns (ec: ErrorCode)
      requires Valid() && offset + |tokens| <= |allocator.refCounts| * allocator.blockSize
      modifies this`passes, this`splices
      ensures Valid() && (ec == Ok || ec == InternalError)
      ensures passes == if splice then old(passes) else old(passes) + [Pass(tokens, offset, ec)]
      ensures splices == if splice then old(splices) + [Pass(tokens, offset, ec)] else old(splices)
      ensures tokens != [] ==>
        (KvPlane().Holds(offset, offset + |tokens|) <==> HasRoom(offset + |tokens|))
    {
      hide CudaAllocator.Valid, SessionsOk, Plane.Holds;
      var launched: bool := *;
      ec := if launched then Ok else InternalError;
      if splice {
        splices := splices + [Pass(tokens, offset, ec)];
      } else {
        passes := passes + [Pass(tokens, offset, ec)];
      }
      if tokens != [] {
        PlaneValid();
        LaunchInPlaneIff(KvPlane(), offset, offset + |tokens|);
      }
    }

    lemma PlaneValid()
      requires Valid()
      ensures KvPlane().Valid()
    {
    }

    /** Of two sequences without common copy ancestry at most one owns all the blocks its megakernel
        prefill writes. */
    lemma PrefillsCollide(s: nat, t: nat, numPrompt: nat, numPrompt': nat)
      requires Valid() && s in allocator.blockTables && t in allocator.blockTables
      requires allocator.family[s] != allocator.family[t]
      requires numPrompt > 0 && numPrompt' > 0
      ensures !KvPlane().LaunchStaysIn(allocator.blockTables[s], 0, numPrompt)
        || !KvPlane().LaunchStaysIn(allocator.blockTables[t], 0, numPrompt')
    {
      hide Plane.LaunchStaysIn;
      var p := KvPlane();
      if p.LaunchStaysIn(allocator.blockTables[s], 0, numPrompt) {
        PrefillWritesBlockZero(p, allocator.blockTables[s], numPrompt);
        if p.LaunchStaysIn(allocator.blockTables[t], 0, numPrompt') {
          PrefillWritesBlockZero(p, allocator.blockTables[t], numPrompt');
          OneOwner(s, t);
          assert false;
        }
      }
    }

    lemma OneOwner(s: nat, t: nat)
      requires allocator.Valid() && s in allocator.blockTables && t in allocator.blockTables
      requires allocator.family[s] != allocator.family[t]
      ensures !(0 in allocator.blockTables[s] && 0 in allocator.blockTables[t])
    {
    }

    // ---- sessions ----

    method RegisterActiveSession(id: string, s: nat)
      requires Valid() && s in allocator.blockTables && |allocator.blockTables[s]| >= 1
      modifies this`activeSessions
      ensures Valid()
      ensures activeSessions == if id == "" then old(activeSessions) else old(activeSessions)[id := ActiveSession(s, 0)]
    {
      hide CudaAllocator.Valid, SessionsOk;
      PoolHolds(s);
      if id != "" {
        SessionSet(activeSessions, id, ActiveSession(s, 0), allocator.blockTables, |allocator.refCounts|,
                   allocator.blockSize, nextSeqId);
        activeSessions := activeSessions[id := ActiveSession(s, 0)];
      }
    }

    method UnregisterActiveSession(id: string)
      requires Valid()
      modifies this`activeSessions
      ensures Valid()
      ensures activeSessions == if id == "" then old(activeSessions) else old(activeSessions) - {id}
    {
      if id != "" {
        activeSessions := activeSessions - {id};
      }
    }

    method UpdateSessionKvLen(id: string, len: nat)
      requires Valid()
      requires id in activeSessions ==>
        SessionOk(activeSessions[id].(kvSeqLen := len), allocator.blockTables, |allocator.refCounts|,
                  allocator.blockSize, nextSeqId)
      modifies this`activeSessions
      ensures Valid()
      ensures activeSessions ==
        if id in old(activeSessions) then old(activeSessions)[id := old(activeSessions)[id].(kvSeqLen := len)]
        else old(activeSessions)
    {
      hide CudaAllocator.Valid, SessionOk;
      if id != "" && id in activeSessions {
        activeSessions := activeSessions[id := activeSessions[id].(kvSeqLen := len)];
      }
    }

    /** A sequence with a block shows that there is one, and it has no more than there are. */
    lemma PoolHolds(s: nat)
      requires allocator.Valid() && s in allocator.blockTables
      ensures |allocator.blockTables[s]| <= |allocator.refCounts|
      ensures |allocator.blockTables[s]| * allocator.blockSize <= |allocator.refCounts| * allocator.blockSize
    {
      allocator.Fits(s);
      ScaledAtMost(|allocator.blockTables[s]|, |allocator.refCounts|, allocator.blockSize);
    }

    // ---- reserving ----

    /** extend_sequence, which no session minds. */
    method Extend(s: nat) returns (id: int)
      requires Valid()
      modifies allocator
      ensures Valid() && |allocator.refCounts| == |old(allocator.refCounts)|
      ensures id == -1 <==> s !in old(allocator.blockTables) || old(allocator.freeList) == []
      ensures id == -1 ==>
        allocator.blockTables == old(allocator.blockTables) && allocator.freeList == old(allocator.freeList)
      ensures id != -1 ==>
        id >= 0 && allocator.blockTables == old(allocator.blockTables)[s := old(allocator.blockTables)[s] + [id]]
      ensures id != -1 ==> |allocator.freeList| == |old(allocator.freeList)| - 1
    {
      hide CudaAllocator.Valid, SessionsOk, Released, TopOf, BlocksFor;
      id := allocator.ExtendSequence(s);
      SessionsGrow(activeSessions, old(allocator.blockTables), allocator.blockTables, |allocator.refCounts|,
                   allocator.blockSize, nextSeqId);
    }

    /** The engine while a generation owns sequence s: the other tables are untouched. */
    ghost predicate Owns(s: nat, others: Tables)
      reads this, allocator
    {
      && Valid() && s !in others && s < nextSeqId
      && s in allocator.blockTables && allocator.blockTables == others[s := allocator.blockTables[s]]
    }

    /** The generation's session, if its request has a name. */
    ghost predicate Registered(id: string, s: nat)
      reads this
    {
      id == "" || (id in activeSessions && activeSessions[id].seqId == s)
    }

    /** Positions below the table's capacity are covered. */
    lemma CoveredUpTo(s: nat, len: nat)
      requires allocator.blockSize > 0 && s in allocator.blockTables
      requires len <= |allocator.blockTables[s]| * allocator.blockSize
      ensures forall pos :: 0 <= pos < len ==> Covered(s, pos)
    {
      forall pos | 0 <= pos < len ensures Covered(s, pos) {
        BelowCapacity(pos, |allocator.blockTables[s]|, allocator.blockSize);
      }
    }

    // ---- generate ----

    /** The legacy prefill: one forward per prompt token, one more block at each boundary. */
    method PrefillLegacy(s: nat, prompt: seq<Token>, ghost others: Tables, ghost reserved: nat)
      returns (ec: ErrorCode)
      requires Owns(s, others) && |allocator.blockTables[s]| == reserved >= 1
      modifies allocator, this`passes
      ensures Owns(s, others) && |allocator.refCounts| == |old(allocator.refCounts)|
      ensures Pooled(s, |old(allocator.freeList)| + reserved)
      ensures old(passes) <= passes && Prefilled(false, prompt, |old(allocator.freeList)|, allocator.blockSize,
                                                 passes[|old(passes)|..], ec)
      ensures ec == Ok ==>
        && |allocator.blockTables[s]| == reserved + Boundaries(|prompt|, allocator.blockSize)
        && forall pos :: 0 <= pos < |prompt| ==> Covered(s, pos)
    {
      hide CudaAllocator.Valid, SessionsOk, Boundaries, Prefilling, Prefilled;
      var blockSize := allocator.blockSize;
      ghost var mine, free := passes[|old(passes)|..], |allocator.freeList|;
      PrefillingStarts(prompt);
      for i := 0 to |prompt|
        invariant Owns(s, others) && |allocator.refCounts| == |old(allocator.refCounts)|
        invariant |allocator.blockTables[s]| == reserved + Boundaries(i, blockSize)
        invariant Pooled(s, free + reserved)
        invariant passes == old(passes) + mine && Prefilling(prompt, mine) && |mine| == i
      {
        BoundariesStep(i, blockSize);
        if i > 0 && i % blockSize == 0 {
          var id := Extend(s);
          if id < 0 {
            PrefillingEnds(prompt, free, blockSize, mine);
            return Unavailable;
          }
        }
        assert |allocator.blockTables[s]| == reserved + i / blockSize;
        ec := RunForward(s, prompt[i], i);
        PrefillingGoesOn(prompt, free, blockSize, mine, ec);
        mine := mine + [Pass([prompt[i]], i, ec)];
        assert passes[|old(passes)|..] == mine;
        if ec != Ok {
          return;
        }
      }
      PrefillingEnds(prompt, free, blockSize, mine);
      BoundariesCover(|prompt|, blockSize, reserved);
      CoveredUpTo(s, |prompt|);
      return Ok;
    }

    /** The blocks of the pool that are free or in the sequence's table. */
    ghost predicate Pooled(s: nat, n: nat)
      reads allocator
    {
      s in allocator.blockTables && |allocator.freeList| + |allocator.blockTables[s]| == n
    }

    /** The megakernel prefill: all blocks first, then one launch within the pool's positions. */
    method PrefillMegakernel(s: nat, prompt: seq<Token>, ghost others: Tables, ghost reserved: nat)
      returns (ec: ErrorCode)
      requires Owns(s, others) && |allocator.blockTables[s]| == reserved >= 1
      modifies allocator, this`passes, this`splices
      ensures Owns(s, others) && |allocator.refCounts| == |old(allocator.refCounts)|
      ensures Pooled(s, |old(allocator.freeList)| + reserved)
      ensures old(passes) <= passes && Prefilled(true, prompt, |old(allocator.freeList)|, allocator.blockSize,
                                                 passes[|old(passes)|..], ec)
      ensures ec == Ok ==>
        && |allocator.blockTables[s]| == reserved + Boundaries(|prompt|, allocator.blockSize)
        && |prompt| <= |allocator.blockTables[s]| * allocator.blockSize
        && (prompt != [] ==> (KvPlane().Holds(0, |prompt|) <==> HasRoom(|prompt|)))
    {
      hide CudaAllocator.Valid, SessionsOk, Boundaries, Plane.Holds, HasRoom;
      var blockSize := allocator.blockSize;
      ghost var k: nat := 0;
      var i := blockSize;
      BoundariesAre(|prompt|, blockSize, 0);
      while i < |prompt|
        invariant Owns(s, others) && |allocator.refCounts| == |old(allocator.refCounts)|
        invariant |allocator.blockTables[s]| == reserved + k && i == (k + 1) * blockSize
        invariant k == 0 || k * blockSize < |prompt|
        invariant passes == old(passes)
        invariant Pooled(s, |old(allocator.freeList)| + reserved)
      {
        var id := Extend(s);
        if id < 0 {
          BoundariesBeyond(|prompt|, blockSize, k);
          return Unavailable;
        }
        k := k + 1;
        i := i + blockSize;
      }
      BoundariesAre(|prompt|, blockSize, k);
      BoundariesCover(|prompt|, blockSize, reserved);
      PoolHolds(s);
      ec := RunForwardMegakernel(prompt, 0, false);
      assert passes[|old(passes)|..] == [Pass(prompt, 0, ec)];
    }

    /** Reserves for position seqPos and runs the forward pass that writes it.  The run is `steady` when
        nothing but the generation itself has added blocks. */
    method DecodeStep(s: nat, token: Token, seqPos: nat, ghost steady: bool, ghost others: Tables,
                      ghost reserved: nat)
      returns (go: bool, ghost code: Option<ErrorCode>)
      requires Owns(s, others) && seqPos <= |allocator.blockTables[s]| * allocator.blockSize
      requires steady ==>
        seqPos > 0 && |allocator.blockTables[s]| == reserved + Boundaries(seqPos, allocator.blockSize)
      modifies allocator, this`passes, this`splices
      ensures Owns(s, others) && |allocator.refCounts| == |old(allocator.refCounts)| && splices == old(splices)
      ensures |allocator.blockTables[s]| >= |old(allocator.blockTables)[s]|
      ensures Pooled(s, |old(allocator.freeList)| + |old(allocator.blockTables)[s]|)
      ensures go ==> seqPos + 1 <= |allocator.blockTables[s]| * allocator.blockSize
      ensures go && steady ==>
        |allocator.blockTables[s]| == reserved + Boundaries(seqPos + 1, allocator.blockSize)
        == reserved + seqPos / allocator.blockSize
      ensures go && useMegakernel ==> (KvPlane().Holds(seqPos, seqPos + 1) <==> HasRoom(seqPos + 1))
      ensures go <==> code == Some(Ok)
      ensures passes == if code.Some? then old(passes) + [Pass([token], seqPos, code.value)] else old(passes)
      ensures code.None? ==>
        && seqPos % allocator.blockSize == 0
        && allocator.freeList == [] && allocator.blockTables == old(allocator.blockTables)
    {
      hide CudaAllocator.Valid, SessionsOk, Boundaries, Plane.Holds, HasRoom;
      var blockSize := allocator.blockSize;
      BoundariesStep(seqPos, blockSize);
      NextCovered(seqPos, |allocator.blockTables[s]|, blockSize);
      if seqPos % blockSize == 0 {
        var b := Extend(s);
        if b < 0 {
          return false, None;
        }
      }
      CoveredUpTo(s, seqPos + 1);
      PoolHolds(s);
      var ec;
      if useMegakernel {
        ec := RunForwardMegakernel([token], seqPos, false);
      } else {
        ec := RunForward(s, token, seqPos);
      }
      go, code := ec == Ok, Some(ec);
    }

    /** The session's cache is `at` positions long, as far as the megakernel keeps count. */
    ghost predicate Stands(id: string, at: nat)
      reads this
    {
      useMegakernel && id != "" ==> id in activeSessions && activeSessions[id].kvSeqLen == at
    }

    /** What the token callback injects into its own session. */
    method CallbackInjects(s: nat, id: string, ghost seqPos: nat, injection: Option<Injection>, ghost others: Tables)
      requires Owns(s, others) && Registered(id, s) && |allocator.blockTables[s]| >= 1 && Stands(id, seqPos)
      requires seqPos <= |allocator.blockTables[s]| * allocator.blockSize
      modifies allocator, this`activeSessions, this`passes, this`splices, this`asked
      ensures Owns(s, others) && |allocator.refCounts| == |old(allocator.refCounts)| && Registered(id, s)
      ensures |allocator.blockTables[s]| >= 1 && seqPos <= |allocator.blockTables[s]| * allocator.blockSize
      ensures Pooled(s, |old(allocator.freeList)| + |old(allocator.blockTables)[s]|)
      ensures !useMegakernel || injection.None? ==> |allocator.blockTables[s]| == |old(allocator.blockTables)[s]|
      ensures passes == old(passes) && activeSessions.Keys == old(activeSessions).Keys
      ensures forall k :: k in activeSessions && k != id ==> activeSessions[k] == old(activeSessions)[k]
      ensures old(asked) <= asked && AskedOnce(useMegakernel, id, seqPos, injection, asked[|old(asked)|..])
    {
      hide CudaAllocator.Valid, SessionsOk, Grown;
      NoNameless();
      assert asked[|asked|..] == [];
      if injection.Some? {
        ghost var held, before := |allocator.blockTables[s]|, allocator.blockTables;
        var ec := InjectTokens(id, injection.value.pos, injection.value.tokens);
        assert asked[|old(asked)|..] == [Splice(id, injection.value.pos, injection.value.tokens, ec)];
        GrownOwn(before, allocator.blockTables, others, s, id in activeSessions);
        ScaledAtMost(held, |allocator.blockTables[s]|, allocator.blockSize);
      }
    }

    /** The rest of a decode step after the token callback: what the callback injects, then the
        forward pass, then the session's length. */
    method DecodeTurn(s: nat, id: string, token: Token, seqPos: nat, injection: Option<Injection>,
                      ghost steady: bool, ghost others: Tables, ghost reserved: nat)
      returns (go: bool, ghost code: Option<ErrorCode>)
      requires Owns(s, others) && Registered(id, s) && Stands(id, seqPos)
      requires |allocator.blockTables[s]| >= 1 && seqPos <= |allocator.blockTables[s]| * allocator.blockSize
      requires steady ==>
        && seqPos > 0 && (!useMegakernel || injection.None?)
        && |allocator.blockTables[s]| == reserved + Boundaries(seqPos, allocator.blockSize)
      modifies allocator, this`activeSessions, this`passes, this`splices, this`asked
      ensures Owns(s, others) && |allocator.refCounts| == |old(allocator.refCounts)| && Registered(id, s)
      ensures |allocator.blockTables[s]| >= 1
      ensures Pooled(s, |old(allocator.freeList)| + |old(allocator.blockTables)[s]|)
      ensures (if go then seqPos + 1 else seqPos) <= |allocator.blockTables[s]| * allocator.blockSize
      ensures go && steady ==>
        |allocator.blockTables[s]| == reserved + Boundaries(seqPos + 1, allocator.blockSize)
        == reserved + seqPos / allocator.blockSize
      ensures activeSessions.Keys == old(activeSessions).Keys
      ensures forall k :: k in activeSessions && k != id ==> activeSessions[k] == old(activeSessions)[k]
      ensures go <==> code == Some(Ok)
      ensures passes == if code.Some? then old(passes) + [Pass([token], seqPos, code.value)] else old(passes)
      ensures go && id != "" ==> id in activeSessions && activeSessions[id].kvSeqLen == seqPos + 1
      ensures old(asked) <= asked && AskedOnce(useMegakernel, id, seqPos, injection, asked[|old(asked)|..])
      ensures code.None? ==>
        && seqPos % allocator.blockSize == 0 && allocator.freeList == []
        && (steady ==> |allocator.blockTables[s]| == reserved + Boundaries(seqPos, allocator.blockSize))
    {
      hide CudaAllocator.Valid, SessionsOk, Boundaries, Plane.Holds, HasRoom;
      CallbackInjects(s, id, seqPos, injection, others);
      ghost var held' := |allocator.blockTables[s]|;
      go, code := DecodeStep(s, token, seqPos, steady, others, reserved);
      ScaledAtMost(held', |allocator.blockTables[s]|, allocator.blockSize);
      if go {
        PoolHolds(s);
        NoNameless();
        UpdateSessionKvLen(id, seqPos + 1);
      }
    }

    /** A turn and the next draw, with what both add to the record. */
    method DecodeRound(s: nat, id: string, ghost tokens: seq<Token>, token: Token, seqPos: nat, ghost numPrompt: nat,
                       injection: Option<Injection>, ghost first: Token, ghost p: nat, ghost d: nat,
                       ghost steady: bool, ghost others: Tables, ghost reserved: nat, ghost maxTokens: int,
                       ghost stopTokens: seq<Token>)
      returns (go: bool, next: Token)
      requires Owns(s, others) && Registered(id, s) && |allocator.blockTables[s]| >= 1 && Stands(id, seqPos)
      requires seqPos == numPrompt + |tokens| <= |allocator.blockTables[s]| * allocator.blockSize
      requires steady ==>
        && numPrompt > 0 && (!useMegakernel || injection.None?)
        && |allocator.blockTables[s]| == reserved + Boundaries(numPrompt + |tokens|, allocator.blockSize)
      requires p <= |passes| && d <= |draws| && |tokens| < maxTokens
      requires Decoding(tokens, token, numPrompt, [first] + draws[d..], passes[p..])
      requires forall t :: t in tokens + [token] ==> t !in stopTokens && Some(t) != eos
      modifies allocator, this`activeSessions, this`passes, this`draws, this`splices, this`asked
      ensures Owns(s, others) && |allocator.refCounts| == |old(allocator.refCounts)| && Registered(id, s)
      ensures |allocator.blockTables[s]| >= 1
      ensures Pooled(s, |old(allocator.freeList)| + |old(allocator.blockTables)[s]|)
      ensures activeSessions.Keys == old(activeSessions).Keys
      ensures forall k :: k in activeSessions && k != id ==> activeSessions[k] == old(activeSessions)[k]
      ensures old(passes) <= passes && old(draws) <= draws
      ensures old(asked) <= asked && AskedOnce(useMegakernel, id, seqPos, injection, asked[|old(asked)|..])
      ensures go ==> Stands(id, seqPos + 1)
      ensures go ==>
        && numPrompt + |tokens| + 1 <= |allocator.blockTables[s]| * allocator.blockSize
        && (steady ==> |allocator.blockTables[s]|
                       == reserved + Boundaries(numPrompt + |tokens| + 1, allocator.blockSize))
        && Decoding(tokens + [token], next, numPrompt, [first] + draws[d..], passes[p..])
        && |passes| == |old(passes)| + 1
      ensures !go ==>
        && numPrompt + |tokens| <= |allocator.blockTables[s]| * allocator.blockSize
        && Decoded(maxTokens, stopTokens, eos, numPrompt, allocator.blockSize, tokens + [token],
                   [first] + draws[d..], passes[p..], allocator.freeList == [])
        && (steady && RanDry(tokens + [token], [first] + draws[d..], passes[p..]) ==>
              |passes| == |old(passes)| && |allocator.blockTables[s]|
              == reserved + Boundaries(numPrompt + |tokens|, allocator.blockSize))
    {
      hide CudaAllocator.Valid, SessionsOk, Boundaries, Decoding, Decoded, RanDry, AskedOnce;
      ghost var mine, drawn := passes[p..], draws[d..];
      next := token;
      ghost var code;
      DecodingLength(tokens, token, numPrompt, [first] + drawn, mine);
      go, code := DecodeTurn(s, id, token, seqPos, injection, steady, others, reserved);
      if go {
        assert passes[p..] == mine + [Pass([token], numPrompt + |tokens|, Ok)];
        next := Sample();
        assert [first] + draws[d..] == [first] + drawn + [next];
        DecodingGoesOn(tokens, token, numPrompt, [first] + drawn, mine, next);
      } else {
        assert code.Some? ==> passes[p..] == mine + [Pass([token], numPrompt + |tokens|, code.value)];
        DecodingFails(maxTokens, stopTokens, eos, tokens, token, numPrompt, allocator.blockSize, [first] + draws[d..],
                      mine, passes[p..], allocator.freeList == [], code);
      }
    }

    /** The decode loop, from the token drawn after the prefill: each step writes position seqPos, with one
        more block at a boundary.  The token callback of step k may inject tokens.  `end` is the position
        reached. */
    method DecodeLoop(s: nat, id: string, numPrompt: nat, first: Token, maxTokens: int, stopTokens: seq<Token>,
                      injections: seq<Injection>, ghost steady: bool, ghost others: Tables, ghost reserved: nat)
      returns (tokens: seq<Token>, ghost end: nat)
      requires Owns(s, others) && numPrompt <= |allocator.blockTables[s]| * allocator.blockSize && Registered(id, s)
      requires steady ==>
        && numPrompt > 0 && (!useMegakernel || injections == [])
        && |allocator.blockTables[s]| == reserved + Boundaries(numPrompt, allocator.blockSize)
      requires |allocator.blockTables[s]| >= 1 && Stands(id, numPrompt)
      modifies allocator, this`activeSessions, this`passes, this`draws, this`splices, this`asked
      ensures Owns(s, others) && |allocator.refCounts| == |old(allocator.refCounts)| && Registered(id, s)
      ensures numPrompt <= end <= numPrompt + |tokens| && end <= |allocator.blockTables[s]| * allocator.blockSize
      ensures !useMegakernel ==> forall pos :: 0 <= pos < end ==> Covered(s, pos)
      ensures activeSessions.Keys == old(activeSessions).Keys
      ensures forall k :: k in activeSessions && k != id ==> activeSessions[k] == old(activeSessions)[k]
      ensures old(passes) <= passes && old(draws) <= draws
      ensures Pooled(s, |old(allocator.freeList)| + |old(allocator.blockTables)[s]|)
      ensures Decoded(maxTokens, stopTokens, eos, numPrompt, allocator.blockSize, tokens,
                      [first] + draws[|old(draws)|..], passes[|old(passes)|..], allocator.freeList == [])
      ensures old(asked) <= asked
      ensures Injected(useMegakernel, id, numPrompt, injections, |tokens|, asked[|old(asked)|..])
      ensures steady && RanDry(tokens, [first] + draws[|old(draws)|..], passes[|old(passes)|..]) ==>
        |allocator.blockTables[s]|
        == reserved + Boundaries(numPrompt + |passes| - |old(passes)|, allocator.blockSize)
    {
      hide CudaAllocator.Valid, SessionsOk, Boundaries, Decoding, Decoded, RanDry, AskedOnce, Injected, Stands;
      assert allocator.blockSize > 0 && s in allocator.blockTables;
      hide Registered, Covered, Owns;
      NoneInjected(useMegakernel, id, numPrompt, injections);
      var seqPos, nextToken := numPrompt, first;
      end := numPrompt;
      tokens := [];
      var step := 0;
      ghost var p, d, blockSize := |passes|, |draws|, allocator.blockSize;
      assert passes[p..] == [] && [first] + draws[d..] == [first] && asked[|asked|..] == [];
      DecodingStarts(first, numPrompt);
      CoveredUpTo(s, seqPos);
      while step < maxTokens
        invariant Owns(s, others) && |allocator.refCounts| == |old(allocator.refCounts)| && Registered(id, s)
        invariant s in allocator.blockTables
        invariant seqPos == end == numPrompt + step && 0 <= step && |tokens| == step
        invariant seqPos <= |allocator.blockTables[s]| * allocator.blockSize && |allocator.blockTables[s]| >= 1
        invariant steady ==> |allocator.blockTables[s]| == reserved + Boundaries(seqPos, allocator.blockSize)
        invariant Pooled(s, |old(allocator.freeList)| + |old(allocator.blockTables)[s]|)
        invariant forall t :: t in tokens ==> t !in stopTokens && Some(t) != eos
        invariant step <= if maxTokens > 0 then maxTokens else 0
        invariant activeSessions.Keys == old(activeSessions).Keys
        invariant forall k :: k in activeSessions && k != id ==> activeSessions[k] == old(activeSessions)[k]
        invariant old(passes) <= passes && old(draws) <= draws
        invariant Stands(id, seqPos) && old(asked) <= asked
        invariant Injected(useMegakernel, id, numPrompt, injections, step, asked[|old(asked)|..])
        invariant |passes| == p + step && Decoding(tokens, nextToken, numPrompt, [first] + draws[d..], passes[p..])
      {
        var inStop := IsStop(nextToken, stopTokens);
        if Some(nextToken) == eos || inStop {
          break;
        }
        var injection := if step < |injections| then Some(injections[step]) else None;
        ghost var asked0 := asked;
        var go, next := DecodeRound(s, id, tokens, nextToken, seqPos, numPrompt, injection, first, p, d, steady, others,
                                    reserved, maxTokens, stopTokens);
        InjectedMore(useMegakernel, id, numPrompt, injections, step, old(asked), asked0, asked);
        tokens := tokens + [nextToken];
        if !go {
          CoveredUpTo(s, end);
          return;
        }
        nextToken := next;
        seqPos := seqPos + 1;
        end := seqPos;
        step := step + 1;
      }
      DecodingEnds(maxTokens, stopTokens, eos, tokens, nextToken, numPrompt, blockSize, [first] + draws[d..],
                   passes[p..], allocator.freeList == []);
      CoveredUpTo(s, end);
    }

    method IsStop(token: Token, stopTokens: seq<Token>) returns (hit: bool)
      ensures hit <==> token in stopTokens
    {
      for k := 0 to |stopTokens|
        invariant token !in stopTokens[..k]
      {
        if token == stopTokens[k] {
          return true;
        }
      }
      return false;
    }

    /** CudaEngine::generate.  `prompt` is the request's token list after the scoring pass, which
        only drops tokens.  Tokens may be injected by the token callbacks, and once more after the
        sequence has been freed but before its session is forgotten (`late`).  A request is refused before
        anything runs exactly when the pool is too small for its tokens; else the prefill decides whether
        it is served, and the tokens are those drawn.  Every path gives all blocks back. */
    method Generate(requestTokens: seq<Token>, prompt: seq<Token>, maxTokens: int, stopTokens: seq<Token>,
                    requestId: string, injections: seq<Injection>, late: Option<Injection>)
      returns (tokens: seq<Token>, error: ErrorCode, ghost held: nat)
      requires Valid() && |prompt| <= |requestTokens|
      modifies this`nextSeqId, this`activeSessions, this`passes, this`draws, this`splices, this`asked, allocator
      ensures Valid() && allocator.blockTables == old(allocator.blockTables)
      ensures allocator.refCounts == old(allocator.refCounts)
      ensures Elements(allocator.freeList) == Elements(old(allocator.freeList))
      ensures error != Ok ==> tokens == [] && draws == old(draws)
      ensures old(passes) <= passes && old(draws) <= draws
      ensures BlocksFor(|requestTokens|, allocator.blockSize) > |old(allocator.freeList)| ==>
        error == Unavailable && passes == old(passes)
      ensures BlocksFor(|requestTokens|, allocator.blockSize) <= |old(allocator.freeList)| ==>
        Served(useMegakernel, prompt, |old(allocator.freeList)| - BlocksFor(|requestTokens|, allocator.blockSize),
               maxTokens, stopTokens, eos, allocator.blockSize, passes[|old(passes)|..], draws[|old(draws)|..],
               tokens, error, held == |old(allocator.freeList)|)
      ensures old(asked) <= asked
      ensures BlocksFor(|requestTokens|, allocator.blockSize) > |old(allocator.freeList)| ==> asked == old(asked)
      ensures BlocksFor(|requestTokens|, allocator.blockSize) <= |old(allocator.freeList)| ==>
        var n := |asked| - |old(asked)| - (if late.Some? then 1 else 0);
        && n >= 0 && Latest(requestId, late, asked[|old(asked)| + n..])
        && Injected(useMegakernel, requestId, |prompt|, injections, |tokens|, asked[|old(asked)|..|old(asked)| + n])
      ensures error == Ok && prompt != [] && (!useMegakernel || injections == [])
              && RanDry(tokens, draws[|old(draws)|..], DecodePasses(useMegakernel, prompt, passes[|old(passes)|..])) ==>
        held == BlocksFor(|requestTokens|, allocator.blockSize)
                + Boundaries(|prompt| + |tokens| - 1, allocator.blockSize)
      ensures requestId in activeSessions ==> activeSessions == old(activeSessions) && error == Unavailable
      ensures forall k :: k != requestId ==>
        && (k in activeSessions <==> k in old(activeSessions))
        && (k in activeSessions ==> activeSessions[k] == old(activeSessions)[k])
    {
      hide CudaAllocator.Valid, SessionsOk, Boundaries, BlocksFor, Released, TopOf, Accounts, Served, Grown;
      hide CrossesBoundary, RanDry, DecodePasses, Injected;
      allocator.BooksBalance();
      ghost var others := allocator.blockTables;
      var s;
      held := 0;
      error, s := Begin(|requestTokens|, requestId);
      if error != Ok {
        tokens := [];
        return;
      }
      tokens, error := Serve(s, prompt, maxTokens, stopTokens, requestId, injections, others);
      held := |allocator.blockTables[s]|;
      ghost var served := asked;
      Free(s);
      assert allocator.blockTables == others;
      Forget(s, requestId, late);
      assert asked[|old(asked)|..|served|] == served[|old(asked)|..];
      allocator.BooksBalance();
      TablesDetermineFree(old(allocator.freeList), old(allocator.refCounts), allocator.freeList, allocator.refCounts,
                          others);
    }

    /** The session ends, after a last injection that comes too late for its blocks. */
    method Forget(ghost s: nat, requestId: string, late: Option<Injection>)
      requires Valid() && Registered(requestId, s) && s !in allocator.blockTables
      modifies this`activeSessions, this`passes, this`splices, this`asked, allocator
      ensures Valid() && |allocator.refCounts| == |old(allocator.refCounts)|
      ensures allocator.blockTables == old(allocator.blockTables)
      ensures passes == old(passes) && requestId !in activeSessions
      ensures old(asked) <= asked
      ensures Latest(requestId, late, asked[|old(asked)|..])
      ensures forall k :: k != requestId ==>
        && (k in activeSessions <==> k in old(activeSessions))
        && (k in activeSessions ==> activeSessions[k] == old(activeSessions)[k])
    {
      hide CudaAllocator.Valid, SessionsOk, Boundaries;
      NoNameless();
      if late.Some? {
        var _ := InjectTokens(requestId, late.value.pos, late.value.tokens);
      }
      UnregisterActiveSession(requestId);
      NoNameless();
    }

    /** The start of generate: blocks for the request, and its session. */
    method Begin(numTokens: nat, requestId: string) returns (error: ErrorCode, s: nat)
      requires Valid()
      modifies this`nextSeqId, this`activeSessions, allocator
      ensures |allocator.refCounts| == |old(allocator.refCounts)|
      ensures error ==
        if BlocksFor(numTokens, allocator.blockSize) <= |old(allocator.freeList)| then Ok else Unavailable
      ensures error == Ok ==>
        |allocator.freeList| == |old(allocator.freeList)| - BlocksFor(numTokens, allocator.blockSize)
      ensures error != Ok ==>
        && Valid()
        && allocator.blockTables == old(allocator.blockTables) && allocator.refCounts == old(allocator.refCounts)
        && allocator.freeList == old(allocator.freeList) && activeSessions == old(activeSessions)
      ensures error == Ok ==>
        && Owns(s, old(allocator.blockTables)) && Registered(requestId, s)
        && |allocator.blockTables[s]| == BlocksFor(numTokens, allocator.blockSize)
        && activeSessions ==
           if requestId == "" then old(activeSessions) else old(activeSessions)[requestId := ActiveSession(s, 0)]
    {
      hide CudaAllocator.Valid, SessionsOk, Boundaries, Released, TopOf, Accounts;
      s := nextSeqId;
      SessionsOther(activeSessions, allocator.blockTables, s, [], |allocator.refCounts|, allocator.blockSize, s);
      SessionsLater(activeSessions, allocator.blockTables, |allocator.refCounts|, allocator.blockSize, s);
      nextSeqId := nextSeqId + 1;
      var ok := allocator.AllocateSequence(s, numTokens);
      if !ok {
        return Unavailable, s;
      }
      SessionsOther(activeSessions, old(allocator.blockTables), s, allocator.blockTables[s], |allocator.refCounts|,
                    allocator.blockSize, s);
      assert old(allocator.blockTables)[s := allocator.blockTables[s]] == allocator.blockTables;
      RegisterActiveSession(requestId, s);
      error := Ok;
    }

    /** The prefill of either path. */
    method Prefill(s: nat, prompt: seq<Token>, requestId: string, ghost others: Tables, ghost reserved: nat)
      returns (error: ErrorCode)
      requires Owns(s, others) && Registered(requestId, s) && |allocator.blockTables[s]| == reserved >= 1
      modifies this`activeSessions, this`passes, this`splices, allocator
      ensures Owns(s, others) && Registered(requestId, s) && |allocator.refCounts| == |old(allocator.refCounts)|
      ensures activeSessions.Keys == old(activeSessions).Keys
      ensures forall k :: k in activeSessions && k != requestId ==> activeSessions[k] == old(activeSessions)[k]
      ensures Pooled(s, |old(allocator.freeList)| + reserved)
      ensures old(passes) <= passes && Prefilled(useMegakernel, prompt, |old(allocator.freeList)|, allocator.blockSize,
                                                 passes[|old(passes)|..], error)
      ensures error == Ok ==>
        && |allocator.blockTables[s]| == reserved + Boundaries(|prompt|, allocator.blockSize)
        && |prompt| <= |allocator.blockTables[s]| * allocator.blockSize
        && |passes| == |old(passes)| + (if useMegakernel then 1 else |prompt|)
        && Stands(requestId, |prompt|)
    {
      hide CudaAllocator.Valid, SessionsOk, Boundaries, Prefilled;
      if useMegakernel {
        error := PrefillMegakernel(s, prompt, others, reserved);
        PoolHolds(s);
        NoNameless();
        if error == Ok {
          UpdateSessionKvLen(requestId, |prompt|);
        }
      } else {
        error := PrefillLegacy(s, prompt, others, reserved);
        BoundariesCover(|prompt|, allocator.blockSize, reserved);
      }
      PrefillPasses(useMegakernel, prompt, |old(allocator.freeList)|, allocator.blockSize, passes[|old(passes)|..],
                    error);
    }

    /** Prefill and decode. */
    method Serve(s: nat, prompt: seq<Token>, maxTokens: int, stopTokens: seq<Token>, requestId: string,
                 injections: seq<Injection>, ghost others: Tables)
      returns (tokens: seq<Token>, error: ErrorCode)
      requires Owns(s, others) && Registered(requestId, s) && |allocator.blockTables[s]| >= 1
      modifies this`activeSessions, this`passes, this`draws, this`splices, this`asked, allocator
      ensures Owns(s, others) && Registered(requestId, s) && |allocator.refCounts| == |old(allocator.refCounts)|
      ensures activeSessions.Keys == old(activeSessions).Keys
      ensures forall k :: k in activeSessions && k != requestId ==> activeSessions[k] == old(activeSessions)[k]
      ensures old(passes) <= passes && old(draws) <= draws && (error != Ok ==> tokens == [] && draws == old(draws))
      ensures old(asked) <= asked
      ensures Injected(useMegakernel, requestId, |prompt|, injections, |tokens|, asked[|old(asked)|..])
      ensures Pooled(s, |old(allocator.freeList)| + |old(allocator.blockTables)[s]|)
      ensures Served(useMegakernel, prompt, |old(allocator.freeList)|, maxTokens, stopTokens, eos, allocator.blockSize,
                     passes[|old(passes)|..], draws[|old(draws)|..], tokens, error, allocator.freeList == [])
      ensures error == Ok && prompt != [] && (!useMegakernel || injections == [])
              && RanDry(tokens, draws[|old(draws)|..], DecodePasses(useMegakernel, prompt, passes[|old(passes)|..])) ==>
        |allocator.blockTables[s]|
        == |old(allocator.blockTables)[s]| + Boundaries(|prompt| + |tokens| - 1, allocator.blockSize)
    {
      hide CudaAllocator.Valid, SessionsOk, Boundaries, Prefilled, Decoded, RanDry, Served, AnsweredAt;
      ghost var reserved := |allocator.blockTables[s]|;
      error := Prefill(s, prompt, requestId, others, reserved);
      if error != Ok {
        tokens := [];
        assert draws[|old(draws)|..] == [];
        ServedRefused(useMegakernel, prompt, |old(allocator.freeList)|, maxTokens, stopTokens, eos, allocator.blockSize,
                      passes[|old(passes)|..], error, allocator.freeList == []);
        return;
      }
      ghost var end, p, prefill := 0, |passes|, passes[|old(passes)|..];
      var first := Sample();
      ghost var d := |draws|;
      tokens, end := DecodeLoop(s, requestId, |prompt|, first, maxTokens, stopTokens, injections,
                                prompt != [] && (!useMegakernel || injections == []), others, reserved);
      assert draws[|old(draws)|..] == [first] + draws[d..];
      assert passes[|old(passes)|..] == prefill + passes[p..];
      ServedWhole(useMegakernel, prompt, |old(allocator.freeList)|, maxTokens, stopTokens, eos, allocator.blockSize,
                  prefill, passes[p..], [first] + draws[d..], tokens, allocator.freeList == []);
      DryAfter(tokens, [first] + draws[d..], passes[p..]);
    }

    /** free_sequence. */
    method Free(s: nat)
      requires Valid()
      modifies allocator
      ensures Valid() && |allocator.refCounts| == |old(allocator.refCounts)|
      ensures allocator.blockTables == old(allocator.blockTables) - {s}
    {
      hide CudaAllocator.Valid, SessionsOk, Released, Accounts;
      allocator.FreeSequence(s);
      SessionsOther(activeSessions, old(allocator.blockTables), s, [], |allocator.refCounts|, allocator.blockSize,
                    nextSeqId);
    }

    // ---- inject_tokens ----

    /** CudaEngine::inject_tokens, at any time.  While the session's sequence has a table, blocks for
        the appended positions are reserved first.  After it has been freed nothing is reserved: the
        call fails when the append crosses a block boundary, and else launches all the same. */
    method InjectTokens(requestId: string, pos: int, tokens: seq<Token>) returns (error: ErrorCode)
      requires Valid()
      modifies this`activeSessions, this`passes, this`splices, this`asked, allocator
      ensures Valid() && |allocator.refCounts| == |old(allocator.refCounts)| && passes == old(passes)
      ensures error in {Ok, InvalidArgument, NotImplemented, Unavailable, InternalError}
      ensures asked == old(asked) + [Splice(requestId, pos, tokens, error)]
      ensures error == Ok || error == InternalError ==>
        pos >= 0 && splices == old(splices) + [Pass(tokens, pos, error)]
      ensures error != Ok && error != InternalError ==> splices == old(splices)
      ensures error != InvalidArgument && error != NotImplemented ==>
        && pos >= 0 && requestId in old(activeSessions)
        && (old(activeSessions)[requestId].seqId in old(allocator.blockTables) ==>
              (error == Unavailable <==>
               Boundaries(pos + |tokens|, allocator.blockSize) - Boundaries(pos, allocator.blockSize)
               > |old(allocator.freeList)|))
      ensures !useMegakernel ==>
        allocator.blockTables == old(allocator.blockTables) && allocator.freeList == old(allocator.freeList)
      ensures requestId in old(activeSessions) && old(activeSessions)[requestId].seqId in old(allocator.blockTables) ==>
        var s := old(activeSessions)[requestId].seqId;
        Pooled(s, |old(allocator.freeList)| + |old(allocator.blockTables)[s]|)
      ensures requestId !in old(activeSessions) ==> allocator.freeList == old(allocator.freeList)
      ensures tokens == [] ==> error == InvalidArgument
      ensures error == NotImplemented <==> tokens != [] && !useMegakernel
      ensures tokens != [] && useMegakernel ==>
        (error == InvalidArgument <==>
         requestId !in old(activeSessions) || pos != old(activeSessions)[requestId].kvSeqLen)
      ensures error == InvalidArgument || error == NotImplemented ==>
        allocator.blockTables == old(allocator.blockTables)
      ensures error == Ok ==> requestId in old(activeSessions)
      ensures activeSessions ==
        if error == Ok then Lengthened(old(activeSessions), requestId, |tokens|) else old(activeSessions)
      ensures Grown(old(allocator.blockTables), allocator.blockTables,
                    if requestId in old(activeSessions) then Some(old(activeSessions)[requestId].seqId) else None)
      ensures Freed(old(activeSessions), requestId, old(allocator.blockTables)) ==>
        && allocator.blockTables == old(allocator.blockTables)
        && (tokens != [] && useMegakernel && pos == old(activeSessions)[requestId].kvSeqLen ==>
              (error == Unavailable <==> CrossesBoundary(pos, pos + |tokens|, allocator.blockSize)))
    {
      hide CudaAllocator.Valid, SessionsOk, Boundaries, Plane.Holds, HasRoom;
      if tokens == [] {
        asked := asked + [Splice(requestId, pos, tokens, InvalidArgument)];
        return InvalidArgument;
      }
      if !useMegakernel {
        asked := asked + [Splice(requestId, pos, tokens, NotImplemented)];
        return NotImplemented;
      }
      if requestId !in activeSessions {
        asked := asked + [Splice(requestId, pos, tokens, InvalidArgument)];
        return InvalidArgument;
      }
      var session := activeSessions[requestId];
      if pos != session.kvSeqLen {
        asked := asked + [Splice(requestId, pos, tokens, InvalidArgument)];
        return InvalidArgument;
      }
      SessionIsOk(requestId);
      var newLen := session.kvSeqLen + |tokens|;
      error := ReserveAppend(session, newLen);
      if error != Ok {
        asked := asked + [Splice(requestId, pos, tokens, error)];
        return;
      }
      error := RunForwardMegakernel(tokens, session.kvSeqLen, true);
      asked := asked + [Splice(requestId, pos, tokens, error)];
      if error != Ok {
        return;
      }
      UpdateSessionKvLen(requestId, newLen);
    }

    lemma NoNameless()
      requires Valid()
      ensures "" !in activeSessions
    {
    }

    lemma SessionIsOk(id: string)
      requires Valid() && id in activeSessions
      ensures SessionOk(activeSessions[id], allocator.blockTables, |allocator.refCounts|, allocator.blockSize,
                        nextSeqId)
    {
    }

    /** The reservation loop of inject_tokens. */
    method ReserveAppend(session: ActiveSession, newLen: nat) returns (error: ErrorCode)
      requires Valid() && session.kvSeqLen <= newLen
      requires SessionOk(session, allocator.blockTables, |allocator.refCounts|, allocator.blockSize, nextSeqId)
      modifies allocator
      ensures Valid() && |allocator.refCounts| == |old(allocator.refCounts)|
      ensures error == Ok || error == Unavailable
      ensures Grown(old(allocator.blockTables), allocator.blockTables, Some(session.seqId))
      ensures error == Ok ==>
        SessionOk(session.(kvSeqLen := newLen), allocator.blockTables, |allocator.refCounts|, allocator.blockSize,
                  nextSeqId)
      ensures session.seqId !in old(allocator.blockTables) ==>
        && allocator.blockTables == old(allocator.blockTables)
        && (error == Unavailable <==> CrossesBoundary(session.kvSeqLen, newLen, allocator.blockSize))
      ensures session.seqId in old(allocator.blockTables) && error == Unavailable ==> allocator.freeList == []
      ensures session.seqId in old(allocator.blockTables) ==>
        (error == Unavailable <==>
         Boundaries(newLen, allocator.blockSize) - Boundaries(session.kvSeqLen, allocator.blockSize)
         > |old(allocator.freeList)|)
      ensures session.seqId in old(allocator.blockTables) ==>
        Pooled(session.seqId, |old(allocator.freeList)| + |old(allocator.blockTables)[session.seqId]|)
    {
      hide CudaAllocator.Valid, SessionsOk, Released, TopOf, Boundaries;
      var s, blockSz := session.seqId, allocator.blockSize;
      ghost var held0 := s in allocator.blockTables;
      for p := session.kvSeqLen to newLen
        invariant Valid() && |allocator.refCounts| == |old(allocator.refCounts)|
        invariant Grown(old(allocator.blockTables), allocator.blockTables, Some(s))
        invariant held0 ==> Pooled(s, |old(allocator.freeList)| + |old(allocator.blockTables)[s]|)
        invariant held0 ==>
          |allocator.blockTables[s]| - |old(allocator.blockTables)[s]|
          == Boundaries(p, blockSz) - Boundaries(session.kvSeqLen, blockSz)
        invariant held0 ==> |allocator.blockTables[s]| >= 1 && p <= |allocator.blockTables[s]| * blockSz
        invariant !held0 ==>
          allocator.blockTables == old(allocator.blockTables) && !CrossesBoundary(session.kvSeqLen, p, blockSz)
      {
        ghost var held := if held0 then |allocator.blockTables[s]| else 0;
        BoundariesStep(p, blockSz);
        BoundariesGrow(p + 1, newLen, blockSz);
        if p > 0 && p % blockSz == 0 {
          var id := Extend(s);
          if id < 0 {
            assert CrossesBoundary(session.kvSeqLen, newLen, blockSz);
            return Unavailable;
          }
        }
        if held0 {
          NextCovered(p, held, blockSz);
          MultipleBound(held, blockSz);
        }
      }
      if held0 {
        PoolHolds(s);
      } else {
        WithoutBoundary(session.kvSeqLen, newLen, |allocator.refCounts|, blockSz);
      }
      return Ok;
    }
  }

  // ---- block arithmetic ----

  /** How many block boundaries lie strictly between position 0 and position `pos`. */
  function Boundaries(pos: nat, blockSize: nat): (n: nat)
    requires blockSize > 0
    ensures pos == 0 ==> n == 0
  {
    if pos == 0 then 0 else (pos - 1) / blockSize
  }

  /** There are k boundaries before `pos` when it lies after the k-th and not after the next. */
  lemma BoundariesAre(pos: nat, blockSize: nat, k: nat)
    requires blockSize > 0
    ensures pos <= (k + 1) * blockSize && (k == 0 || k * blockSize < pos) ==> Boundaries(pos, blockSize) == k
  {
    if 0 < pos <= (k + 1) * blockSize && (k == 0 || k * blockSize < pos) {
      assert (k + 1) * blockSize == k * blockSize + blockSize;
      QuotientIs(pos - 1, blockSize, k);
    }
  }

  /** More than k boundaries lie before a position beyond the next one. */
  lemma BoundariesBeyond(pos: nat, blockSize: nat, k: nat)
    requires blockSize > 0 && (k + 1) * blockSize < pos
    ensures Boundaries(pos, blockSize) > k
  {
    QuotientIs((k + 1) * blockSize, blockSize, k + 1);
    DivMonotone((k + 1) * blockSize, pos - 1, blockSize);
  }

  lemma BoundariesGrow(pos: nat, pos': nat, blockSize: nat)
    requires blockSize > 0 && pos <= pos'
    ensures Boundaries(pos, blockSize) <= Boundaries(pos', blockSize)
  {
    if pos > 0 {
      DivMonotone(pos - 1, pos' - 1, blockSize);
    }
  }

  lemma BoundariesStep(i: nat, n: nat)
    requires n > 0
    ensures i == 0 ==> Boundaries(i + 1, n) == i / n == 0
    ensures i > 0 && i % n == 0 ==> Boundaries(i + 1, n) == i / n == Boundaries(i, n) + 1
    ensures i > 0 && i % n != 0 ==> Boundaries(i + 1, n) == i / n == Boundaries(i, n)
  {
    if i > 0 {
      var q, r := i / n, i % n;
      assert i == q * n + r;
      if r == 0 {
        QuotientIs(i - 1, n, q - 1);
      } else {
        QuotientIs(i - 1, n, q);
      }
    }
  }

  /** With one more block at a boundary the next position is covered. */
  lemma NextCovered(pos: nat, held: nat, n: nat)
    requires n > 0 && pos <= held * n
    ensures pos % n == 0 ==> pos + 1 <= (held + 1) * n
    ensures pos % n != 0 ==> pos + 1 <= held * n
  {
    assert (held + 1) * n == held * n + n;
    if pos == held * n {
      QuotientIs(pos, n, held);
      assert pos == n * (pos / n) + pos % n;
    }
  }

  /** After a legacy prefill the prompt's positions are within capacity. */
  lemma BoundariesCover(numPrompt: nat, n: nat, reserved: nat)
    requires n > 0 && reserved >= 1
    ensures numPrompt <= (reserved + Boundaries(numPrompt, n)) * n
  {
    if numPrompt > 0 {
      var q := (numPrompt - 1) / n;
      assert numPrompt - 1 == n * q + (numPrompt - 1) % n;
      assert (reserved + q) * n == reserved * n + q * n;
      MultipleBound(reserved, n);
    }
  }

  /** Two live sequences of one block each, one KV head: the second one's megakernel prefill writes
      the first one's block and none of its own. */
  method TwoPrefills(headDim: nat) returns (a: CudaAllocator)
    requires headDim > 0
    ensures a.Valid() && 1 in a.blockTables && 2 in a.blockTables && a.blockTables[1] != a.blockTables[2]
    ensures !Plane(1, headDim, 2, 1, 2).LaunchStaysIn(a.blockTables[2], 0, 1)
    ensures Plane(1, headDim, 2, 1, 2).LaunchStaysIn(a.blockTables[1], 0, 1)
  {
    hide CudaAllocator.Valid, Plane.LaunchStaysIn;
    a := TwoSequences();
    FirstBlockOnly(headDim);
  }

  lemma FirstBlockOnly(headDim: nat)
    requires headDim > 0
    ensures var p := Plane(1, headDim, 2, 1, 2); p.LaunchStaysIn([0], 0, 1) && !p.LaunchStaysIn([1], 0, 1)
  {
    hide Plane.Start, Plane.InBlock, Plane.Writes;
    var p := Plane(1, headDim, 2, 1, 2);
    forall h: nat, pos: nat, x: nat, b: nat | h < 1 && 0 <= pos < 1 && p.Writes(h, pos, x) && p.InBlock(x, b)
      ensures b in [0]
    {
      VectorInBlock(p, h, pos, x, b);
    }
    if p.LaunchStaysIn([1], 0, 1) {
      PrefillWritesBlockZero(p, [1], 1);
      assert false;
    }
  }
}
