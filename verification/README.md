# Verified models of the inference and plumbing core

This project models, in Dafny, the parts of the server whose correctness rests on an argument
about many steps, and proves what those parts promise. `dafny verify dfyconfig.toml` checks it.

| file | what it models |
|---|---|
| `Common.dfy`, `Arithmetic.dfy` | what several components share: optional values, error codes, finite sets, quotients |
| `LlamaContext.dfy` | the llama.cpp context as its clients see it: one cache of (position, token) cells per sequence, a decode call with a return code, samplers |
| `Generation.dfy` | requests, results, the samplers of the two engines, and the two meanings of "generate": the sequential loop and the scheduler's loop for one request |
| `GgmlEngine.dfy` | the CPU engine's sequential `generate` |
| `Transparency.dfy` | when the two meanings agree, and when a reused cache prefix is as good as a cold prefill |
| `Slots.dfy`, `SlotSteps.dfy`, `Promises.dfy`, `BatchScheduler.dfy` | the continuous-batching scheduler: slot states, transitions of one slot, delivery of answers, and the worker's loop |
| `SessionReuse.dfy` | a run of the scheduler in which prefix reuse skips a position |
| `KvLayout.dfy` | where the bytes of a KV block are, for the paged kernels, for eviction and for the megakernel |
| `BlockAccounting.dfy`, `CudaAllocator.dfy` | the paged KV block pool: reference counts, free stack, block tables, copying, eviction |
| `CudaEngine.dfy` | what the CUDA engine reserves, writes and gives back |
| `ToolGlob.dfy` | the glob matcher and tool gating |
| `RateLimiter.dfy` | the token bucket, over real time |
| `Utf8Stream.dfy` | streaming text without splitting a character |
| `IpcClient.dfy`, `IpcTransport.dfy` | correlated calls to a sidecar, and the framing under them |
| `TokenSelection.dfy`, `CompressionScoringPass.dfy` | prompt compression |

## Main results

*Scheduler.* `ContinuousBatchScheduler.Valid` holds at the top of every turn of the worker's loop,
for any interleaving of submissions and steps, any batch size, any retry and any failure. It says
what is in every slot's cache (`Slots.SlotInv`) and where every promise is (`Promises.Books`):
queued in order of submission, held by exactly one busy slot, or answered once and for ever. Every
answer is `Promises.Justified`: a success is exactly the request's own generation, whatever ran
beside it, and `BatchingIsTransparent` turns that into the sequential engine's answer. The chunk
loop ends and a step gives every busy slot one token or its answer. Each turn of the loop takes the
head of the queue to the slot it should have (`SlotSteps.AdmissionTurn`): the warm slot of its session
when 64 tokens or more are shared, positioned behind them, else the first free slot, else the least
recently used warm one on an emptied cache. Each turn also brings the oldest submissions nearer to their
answers whatever arrives behind them, so a long enough run has answered everything that was there at
its start (`Run`); without arrivals all is answered (`RunUntilAnswered`), and so it is by a shutdown (`Drain`).

*Generation.* Both engines' loops are proved against `Generation.Generated`, which fixes a generation
uniquely (`GeneratedUnique`) on the fields of the request and the configuration: every token is
the sampler's draw, no limit or stop was reached before the last token, and one was reached with it
unless the next draw ends generation. A request's own positive max_tokens bounds its answer, the
configured one otherwise; without stops, on a model that does not end generation, that many tokens
come out (`GgmlEngine.Generate`, `AnsweredWithin`).

*CUDA engine.* A request is refused before anything runs exactly when the pool is too small for its
tokens (`CudaEngine.Begin`); otherwise the passes and draws of `Generate` are on record, and its tokens
are the draws up to the first end or stop token, the first failed pass, the first block that could not
be had, or max_tokens (`CudaEngineModule.Served`). On every path all blocks come back.

*Sidecar calls.* The atomic sections of calls and message handling make a state machine
(`IpcClientModule.Stepped`), of which any schedule is a run: ids and replies are never mixed up, and no
call hangs (`EveryCallReturns`).

*Exact conditions.* Several documented promises hold only under a condition. The code is modelled as
it is and the condition is proved to be the right one, in both directions:

- a reused cache prefix is semantically invisible (`src/inference/engine_interface.h:107-114`)
  exactly when the session's last request ended at end of generation, or the matched prefix stops short
  of its ledger, or the prefix is the whole new prompt (`SlotSteps.WarmReuseIff`): after a stop or a
  length limit the ledger holds one token that is not in the cache. The run
  `SessionReuse.ContinueAfterLength` of the scheduler reaches such a state, and whenever a position is
  missing some model draws another first token (`Transparency.ReuseInvisibleIff`);
- the scheduler gives the sequential engine's answer for every model exactly when the request may
  generate at least one token, the two samplers draw alike, and, beyond one token, each of the
  request's own stop strings ends with a configured one (`Transparency.AgreementCondition`). The
  samplers draw alike when the request asks for no grammar and either both chains leave one candidate
  (temperature 0, say), or the request asks for the configured chain, the chain has no penalties (or
  one token is generated and the shared sampler has accepted none), and its draws are not random (or
  both random sources have the same seed and none has drawn). The sequential engine draws with a shared
  sampler that ignores the request's parameters and remembers earlier generations; the scheduler ignores
  grammars and the request's stop strings, accepts every token once more, and samples before it looks at
  the limit. Greedy on both sides is enough whatever the penalties are, since these come after the
  filters (`GreedyAgrees`); otherwise a request with the default repeat penalty of 1.1 never meets the
  condition beyond one token (`DefaultPenaltySeparates`);
- `copy_sequence` keeps the block accounts exactly when the destination has no blocks;
- after two evictions a reload of the first sequence brings back its blocks overlaid with the second
  one's, so the first survives, whatever the contents, exactly when one of the two had no blocks;
  over the pool's bytes even a single eviction and reload restores a block, whatever has happened to
  the pool in between, and spares the other blocks,
  exactly when the pool has one block, since they address blocks block-major and the kernels
  layer-major;
- the megakernel is given no block table: a launch stays in its sequence's blocks exactly when the
  sequence owns, for each head, every block that reaches into the head's stretch of bytes. Two live
  sequences violate it (`TwoPrefills`): every prefill begins in physical block 0. Its elements always
  have two bytes, so a launch stays inside the pool's plane exactly when the cache is not FP8, or has
  one head and twice the positions (`LaunchInPlaneIff`); loading checks each option against the hardware
  only (`src/inference/backends/cuda/cuda_engine.cpp:133-141` and `:174-187`), so both can be on;
- the glob matcher agrees with its meaning on every pattern exactly for the names without a `*`
  before their last character;
- evicting idle rate-limit buckets changes no later decision exactly when
  rate * max_age >= burst, or burst < 1 (`EvictionCondition`), and exactly then does the limit
  burst + rate * length hold in every window of every run with evictions (`LimitCondition`);
- `sanitize_utf8` yields valid UTF-8, which its comment promises always, exactly when after the first
  bad byte no complete character comes before a truncated lead byte;
- a status report can end a call exactly when no status callback was set;
- framing delivers what was sent exactly when every length is in 1 .. 16 MiB; and after a send that
  failed half way, later payloads all arrive exactly when nothing of the cut frame was written;
- the last prompt token survives merging, whatever the similarities, exactly when the number of
  positions is odd or nothing may be merged.

## Assumptions

A draw is a deterministic function of the sampler (its chain, its seed, the tokens it has accepted, the
number of its draws) and of the sequence's cells. Without penalties and grammar the accepted tokens do
not matter to it. The filters come before the penalties and the random source: where top_k is 1, top_p
or the temperature is 0 or less, or min_p is above 1, one candidate is left, the likeliest, so without
a grammar the draw depends on the cells alone. Whether `llama_sampler_sample` accepts the token it
returns is left open. A positive decode code leaves the cache alone; a negative one may leave anything
in the sequences of the failing chunk and touches no other. The steady clock does not go back and its
readings fit below the largest 64-bit integer. Calls into CUDA happen synchronously.

## Model

| member | source | states |
|---|---|---|
| Llama.SparseFull | src/inference/scheduler/batch_scheduler.cpp:365-369 | a cache that agrees with a slot's token ledger has no holes exactly when it has as many cells as the ledger has tokens, and is then the cold-prefill cache |
| Llama.TrimSparse | src/inference/scheduler/batch_scheduler.cpp:343 | trimming to a common prefix leaves a cache that agrees with the new prompt's prefix, and loses exactly the cells beyond it |
| Llama.LlamaContext.Decode | src/inference/scheduler/batch_scheduler.cpp:496-522 | success appends the view's cells to each sequence, a positive code changes nothing, a failure touches only sequences in the view |
| Generation.AnyStopMatches | src/inference/scheduler/batch_scheduler.cpp:156-166 | true exactly when some non-empty stop string is a suffix of the text |
| Generation.MatchesStopMeans | src/inference/scheduler/batch_scheduler.cpp:156-166 | what the stop test means: a stop string is a non-empty suffix of the text |
| Generation.TextOfParts | src/inference/backends/cpu/ggml_engine.cpp:306 | the text of a generation is that of its parts one after the other, and of one token its piece |
| Generation.GeneratedUnique | src/inference/backends/cpu/ggml_engine.cpp:282-333 | a generation is determined by the draws, the stop ids and strings, and the limit: no two differ |
| Generation.WithinLimit | src/inference/backends/cpu/ggml_engine.cpp:282-330 | a generation still within its limit and stops has at most the limit's tokens; without stops none stops it |
| Generation.IsStopToken | src/inference/scheduler/batch_scheduler.cpp:582-585 | true exactly when the id is in the list |
| Generation.SequentialExtends | src/inference/backends/cpu/ggml_engine.cpp:282-342 | the sequential meaning only appends, and its text is the text of its tokens |
| Generation.SequentialGenerates | src/inference/backends/cpu/ggml_engine.cpp:275-342 | the sequential meaning is the generation under the request's limit, or else the configured one, with the stop ids and both lists of stop strings, drawn from the prompt's and its own cells; without stops, on a model that does not end generation, it has exactly the limit's tokens |
| Generation.SoloExtends | src/inference/scheduler/batch_scheduler.cpp:527-596 | the scheduler's meaning for one request appends within its budget, and its text is the text of its tokens |
| Generation.SoloGenerates | src/inference/scheduler/batch_scheduler.cpp:527-596 | the scheduler's meaning is the generation under the same limit, but at least one token, without the request's stop strings, drawn by the request's own sampler; "length" exactly at the limit |
| Generation.EndedWithin | src/inference/scheduler/batch_scheduler.cpp:372 | on the fields: how many tokens an answer can have, and, on a model that does not end generation and without stops, exactly how many it has, with "length" |
| Generation.AfterDrawsKeeps | src/inference/backends/cpu/ggml_engine.cpp:283 | drawing changes neither the chain nor the seed of the shared sampler, and every draw counts |
| Generation.SchedulerSamplerKeeps | src/inference/scheduler/batch_scheduler.cpp:124-151 | a request's sampler keeps the request's chain over the configured one and begins afresh |
| GgmlEngineModule.GgmlEngine.Prefill | src/inference/backends/cpu/ggml_engine.cpp:253-264 | the prompt is fed in order, n_batch tokens to a decode call and the rest in the last one; when all succeed the cache is that of the whole prompt, and else the last call failed |
| GgmlEngineModule.GgmlEngine.DecodeLoop | src/inference/backends/cpu/ggml_engine.cpp:282-342 | from whatever sampler it starts with the loop computes the sequential meaning, or a prefix of it when cut short by a decode failure, and leaves the sampler with exactly those draws |
| GgmlEngineModule.GgmlEngine.Generate | src/inference/backends/cpu/ggml_engine.cpp:194-375 | an Ok result is the sequential meaning of the request, drawn with the grammar's own sampler or the shared one; at most the request's max_tokens, or else the configured one, and exactly that many on a model that does not end generation and without stops; the shared sampler keeps the draws for the next request; each error exactly for its cause, the internal one for a failed decode call |
| Transparency.SoloIsSequential | src/inference/scheduler/batch_scheduler.cpp:527-596 | under the agreement condition the scheduler's loop computes the sequential outcome from every intermediate state |
| Transparency.UncoveredStopSeparates | src/inference/scheduler/batch_scheduler.cpp:376 | a request stop string that no configured one covers is ignored: some model tells the engines apart, whatever their samplers |
| Transparency.AgreementCondition | src/inference/scheduler/batch_scheduler.cpp:124-151 | the engines agree for every model if and only if the limit is at least 1, the two samplers draw alike (both leave one candidate, or the same chain, history and random source) and, beyond 1, the request's stop strings are covered |
| Transparency.MergedChain | src/inference/scheduler/batch_scheduler.cpp:129-148 | each parameter that the request gives is in its chain, and the chain is the configured one exactly when each parameter given equals the configured one |
| Transparency.AgreementWhenFresh | src/inference/scheduler/batch_scheduler.cpp:124-166 | the condition on the fields of the request and the configuration, when the sequential engine has not generated yet: the engines agree for every model if and only if it holds |
| Transparency.SameNextToken | src/inference/scheduler/batch_scheduler.cpp:535-536 | under the sampler condition both engines draw the same next token after every common history |
| Transparency.ChainSeparates | src/inference/backends/cpu/ggml_engine.cpp:226-234 | a grammar, or parameters that differ from the configured ones unless both chains leave one candidate, separate the engines |
| Transparency.HistorySeparates | src/inference/backends/cpu/ggml_engine.cpp:229 | what the shared sampler remembers of earlier generations separates the engines when the chain has penalties and leaves more than one candidate |
| Transparency.RandomSourceSeparates | src/inference/scheduler/batch_scheduler.cpp:144-148 | a random source with another seed or with earlier draws separates the engines |
| Transparency.AcceptingTwiceSeparates | src/inference/scheduler/batch_scheduler.cpp:536 | beyond one token the scheduler's extra accept separates the engines when the chain has penalties and leaves more than one candidate |
| Transparency.DefaultPenaltySeparates | src/inference/engine_interface.h:79 | beyond one token a request with the default repeat penalty meets the condition if and only if it has no grammar, both chains leave one candidate and its stop strings are covered |
| Transparency.GreedyAgrees | src/inference/scheduler/batch_scheduler.cpp:130-148 | with one candidate left on both sides the engines agree for every model, whatever the penalties and whatever the shared sampler remembers |
| Transparency.NoLimitNeverAgrees | src/inference/backends/cpu/ggml_engine.cpp:282 | with a limit below 1 the engines differ for every model, whatever their samplers |
| Transparency.ReuseView_ColdIff | src/inference/scheduler/batch_scheduler.cpp:342-351 | the first sample after a reuse admit sees the cold-prefill cache if and only if no position is missing below the prefix |
| Transparency.ReuseInvisibleIff | src/inference/engine_interface.h:107-114 | the first token after a reuse admit is that of a cold prefill for every model if and only if no position is missing |
| Transparency.WarmReuseCondition | src/inference/engine_interface.h:107-114 | for a warm slot, reuse equals a cold prefill if and only if the prefix lies within the decoded positions or is the whole prompt |
| Transparency.ReuseCanChangeTheAnswer | src/inference/engine_interface.h:112-114 | a concrete session and model for which reuse changes the sampled token |
| Slots.DecodeAdvances | src/inference/scheduler/batch_scheduler.cpp:496-525 | decoding a chunk keeps every slot's invariant and moves its mark past the chunk |
| Slots.GrowBatch | src/inference/scheduler/batch_scheduler.cpp:433-475 | entries of other sequences do not affect a slot while the batch is built |
| Slots.StillAhead | src/inference/scheduler/batch_scheduler.cpp:529-531 | a slot whose last entry is not in the chunk keeps its invariant beyond the chunk |
| Slots.NothingAhead | src/inference/scheduler/batch_scheduler.cpp:598-599 | at the end of the batch no busy slot waits for a sample |
| Slots.ChunkFails | src/inference/scheduler/batch_scheduler.cpp:498-516 | when a chunk fails for good, every slot with an unprocessed entry has its i_batch at or after the chunk's start, and the chunk holds no entry of any other slot |
| Slots.MoreSubmissions | src/inference/scheduler/batch_scheduler.cpp:114 | a submission leaves every slot's invariant alone |
| Promises.BatchingIsTransparent | src/inference/scheduler/batch_scheduler.cpp:405-601 | a request answered Ok from a slot without a hole has exactly the tokens, text and finish reason of the sequential engine, under the exact condition for the engines to agree |
| Promises.RejectionJustified | src/inference/scheduler/batch_scheduler.cpp:252-275 | a refusal carries no tokens and its code names its cause |
| Promises.BooksReject | src/inference/scheduler/batch_scheduler.cpp:107-113 | a full queue answers the new submission and no other |
| Promises.BooksEnqueue | src/inference/scheduler/batch_scheduler.cpp:114 | an accepted submission is recorded last in the queue, after everything in a slot |
| Promises.BooksAnswerHead | src/inference/scheduler/batch_scheduler.cpp:256-258 | answering the head of the queue keeps the record exact |
| Promises.BooksAdmit | src/inference/scheduler/batch_scheduler.cpp:380-390 | moving the head's promise into an idle slot overwrites no promise and keeps submission order |
| Promises.BooksAnswerSlot | src/inference/scheduler/batch_scheduler.cpp:189 | a slot's promise is fulfilled once, as the slot stops being busy |
| Promises.ServedAll | src/inference/scheduler/batch_scheduler.cpp:430-600 | one step advances every submission in a slot by one token or answers it, and changes no other |
| Promises.SampledFurther | src/inference/scheduler/batch_scheduler.cpp:527-598 | sampling one chunk after another samples each slot once, in the chunk of its last entry |
| Promises.FailedTheRest | src/inference/scheduler/batch_scheduler.cpp:509-515 | after a fatal chunk every busy slot of the step was sampled before it or is failed |
| Promises.AllAnswered | src/inference/scheduler/batch_scheduler.cpp:603-627 | with the queue empty and no busy slot every submission has a justified answer |
| Promises.DebtDrops | src/inference/scheduler/batch_scheduler.cpp:413-601 | the measure of tokens still owed falls when it falls for one submission and rises for none |
| Promises.AdmissionOwes | src/inference/scheduler/batch_scheduler.cpp:249-391 | admission never raises the tokens owed to the first n submissions, and lowers them when it takes one of these up |
| Promises.ServiceOwes | src/inference/scheduler/batch_scheduler.cpp:480-600 | a step never raises the tokens owed to the first n submissions, and lowers them when a slot holds one of these |
| Promises.OldestServed | src/inference/scheduler/batch_scheduler.cpp:241-392 | after admission, while one of the first n submissions has no answer, a slot holds one of them: those behind cannot keep them waiting |
| Promises.NothingOwed | src/inference/scheduler/batch_scheduler.cpp:413-601 | when nothing is owed to the first n submissions, they all have their answers |
| SlotSteps.AdmitCold | src/inference/scheduler/batch_scheduler.cpp:352-386 | a cold admit establishes the slot invariant for the new request |
| SlotSteps.AdmitReuse | src/inference/scheduler/batch_scheduler.cpp:342-351 | a reuse admit establishes the slot invariant, with a hole exactly when a position is missing |
| SlotSteps.AdmittedSlot | src/inference/scheduler/batch_scheduler.cpp:335-386 | on either path admission establishes the slot invariant, and there is a hole exactly when the first sample will not see a cold prefill |
| SlotSteps.CommonPrefixUnique | src/inference/scheduler/batch_scheduler.cpp:293-298 | two sequences have one longest common prefix |
| SlotSteps.ReusableMeans | src/inference/scheduler/batch_scheduler.cpp:288-305 | a slot can be reused exactly when it is the first warm one of the request's session and shares at least 64 tokens with its prompt; the length taken is the longest shared |
| SlotSteps.Taken | src/inference/scheduler/batch_scheduler.cpp:277-386 | the selected slot is the one the request should have: reused behind the shared tokens, else the first free one, else the least recently used one, on an emptied cache; every other slot and cache is untouched |
| SlotSteps.EvictedFree | src/inference/scheduler/batch_scheduler.cpp:321-331 | an evicted warm slot is a free slot with an empty cache |
| SlotSteps.DrainedFree | src/inference/scheduler/batch_scheduler.cpp:610-616 | a drained warm slot is a free slot with an empty cache |
| SlotSteps.WarmLedger | src/inference/scheduler/batch_scheduler.cpp:561-574 | a warm slot without an earlier hole caches its whole ledger when its last sample was an end of generation, and else all but the last token |
| SlotSteps.WarmReuseIff | src/inference/engine_interface.h:107-114 | for a warm slot without an earlier hole, reuse equals a cold prefill if and only if its last sample was an end of generation, or the prefix stops short of the ledger, or it is the whole prompt |
| SlotSteps.ContributionCompletes | src/inference/scheduler/batch_scheduler.cpp:436-474 | a slot's cache followed by its batch entries is its whole ledger, on the prefill, decode and re-evaluate paths |
| SlotSteps.ContributionInFlight | src/inference/scheduler/batch_scheduler.cpp:433-475 | adding a slot's entries keeps its invariant, and they end at its i_batch |
| SlotSteps.HasContribution | src/inference/scheduler/batch_scheduler.cpp:439-457 | a busy slot always adds an entry, all of its own sequence |
| SlotSteps.ReadyLedger | src/inference/scheduler/batch_scheduler.cpp:436-474 | a slot ready for its next step has the right position, next input and cache, the whole-prompt match included |
| SlotSteps.CompletedIdle | src/inference/scheduler/batch_scheduler.cpp:193-235 | completion leaves a valid warm slot or a free slot with an empty cache |
| SlotSteps.PartialJustified | src/inference/scheduler/batch_scheduler.cpp:509-514 | an answer cut short carries a part of the request's own generation |
| SlotSteps.SampleView | src/inference/scheduler/batch_scheduler.cpp:528-536 | the sample drawn for a slot whose entries are decoded is the one its request alone would draw |
| SlotSteps.EogJustified | src/inference/scheduler/batch_scheduler.cpp:561-565 | at end of generation the answer is complete and the cache covers the whole ledger |
| SlotSteps.CountedLedger | src/inference/scheduler/batch_scheduler.cpp:567-574 | after a counted token the ledger is prompt and generated tokens, one ahead of the cache |
| SlotSteps.CountedReady | src/inference/scheduler/batch_scheduler.cpp:567-596 | a token that does not end the request leaves the slot ready for its next step |
| SlotSteps.CountedJustified | src/inference/scheduler/batch_scheduler.cpp:587-595 | a token that ends the request completes exactly its own generation, with the right finish reason |
| SlotSteps.ContinuesIff | src/inference/scheduler/batch_scheduler.cpp:580-587 | the three stop tests on the slot's fields decide what the request's own run decides |
| BatchScheduler.ContinuousBatchScheduler.Submit | src/inference/scheduler/batch_scheduler.cpp:101-118 | a full queue answers Unavailable at once, otherwise the request waits at the back; nothing else changes |
| BatchScheduler.ContinuousBatchScheduler.NowUs | src/inference/scheduler/batch_scheduler.cpp:175-178 | a reading of the steady clock, which never goes back |
| BatchScheduler.ContinuousBatchScheduler.CompleteSlot | src/inference/scheduler/batch_scheduler.cpp:171-236 | the promise gets the slot's result; the slot stays warm exactly on Ok with a session, stamped with the time, its ledger and cache kept, else its cache is emptied |
| BatchScheduler.ContinuousBatchScheduler.CommonPrefix | src/inference/scheduler/batch_scheduler.cpp:293-298 | the longest common prefix |
| BatchScheduler.ContinuousBatchScheduler.FindReusable | src/inference/scheduler/batch_scheduler.cpp:288-305 | finds the first warm slot of the session if it shares at least 64 tokens, and nothing exactly when there is none |
| BatchScheduler.ContinuousBatchScheduler.FindFree | src/inference/scheduler/batch_scheduler.cpp:306-310 | the first free slot |
| BatchScheduler.ContinuousBatchScheduler.FindLru | src/inference/scheduler/batch_scheduler.cpp:311-320 | a warm slot cached no later than any other |
| BatchScheduler.ContinuousBatchScheduler.SelectSlot | src/inference/scheduler/batch_scheduler.cpp:277-333 | reusable warm slot, else first free, else the least recently used warm slot, which loses its session, ledger and cache; no slot exactly when all are busy |
| BatchScheduler.ContinuousBatchScheduler.AnswerHead | src/inference/scheduler/batch_scheduler.cpp:252-275 | the head of the queue leaves it with its answer, all else unchanged |
| BatchScheduler.ContinuousBatchScheduler.AdmitHead | src/inference/scheduler/batch_scheduler.cpp:335-390 | the head moves into the selected slot, positioned behind the tokens it reuses, with the rest of its prompt pending and its cache trimmed to them; the slot has a hole exactly when the first sample's view differs from a cold prefill |
| BatchScheduler.ContinuousBatchScheduler.AdmitOne | src/inference/scheduler/batch_scheduler.cpp:249-391 | one turn of the admission loop: refused for an empty or too long prompt; or in the slot it should have, of the slots as they were, behind the tokens it should reuse; or stuck, with every slot busy and nothing changed |
| BatchScheduler.ContinuousBatchScheduler.TryAdmitPending | src/inference/scheduler/batch_scheduler.cpp:241-392 | takes requests strictly from the front until the queue is empty or every slot is busy, each to the slot it should have at its turn, touching no busy slot |
| BatchScheduler.ContinuousBatchScheduler.SampleSlot | src/inference/scheduler/batch_scheduler.cpp:533-595 | one sample for one slot: a token more or a clean answer, whose tokens and text are those so far and the one drawn, every other slot and cache untouched |
| BatchScheduler.ContinuousBatchScheduler.AcceptToken | src/inference/scheduler/batch_scheduler.cpp:567-595 | a counted token either ends the request with its justified answer or leaves the slot ready |
| BatchScheduler.ContinuousBatchScheduler.FinishSampled | src/inference/scheduler/batch_scheduler.cpp:561-565 | a clean completion in the middle of a batch keeps the slot invariant for the rest of it |
| BatchScheduler.ContinuousBatchScheduler.SampleChunk | src/inference/scheduler/batch_scheduler.cpp:528-596 | samples exactly the slots whose last entry lies in the chunk, once each |
| BatchScheduler.ContinuousBatchScheduler.FailUnprocessed | src/inference/scheduler/batch_scheduler.cpp:509-514 | fails exactly the slots with unprocessed entries, empties their caches, leaves a valid scheduler |
| BatchScheduler.ContinuousBatchScheduler.DecodeChunk | src/inference/scheduler/batch_scheduler.cpp:485-522 | success advances every slot, a retryable code changes nothing, a fatal one harms only slots with unprocessed entries |
| BatchScheduler.ContinuousBatchScheduler.DecodeBatch | src/inference/scheduler/batch_scheduler.cpp:480-599 | the halving loop calls decode as planned, each time on the planned piece of the batch (half the limit after a retryable failure, the full one after a success, fatal only on a negative code or at limit 1); every busy slot was either sampled once or failed with an empty cache, none left half advanced |
| BatchScheduler.OneMoreAttempt | src/inference/scheduler/batch_scheduler.cpp:497-525 | a planned attempt after attempts none of which was fatal extends a planned sequence |
| BatchScheduler.PlanStep | src/inference/scheduler/batch_scheduler.cpp:480-525 | after a success the next attempt has the full limit, after a retryable failure half of it at the same place |
| BatchScheduler.ContinuousBatchScheduler.LedgerAtLoopTop | src/inference/scheduler/batch_scheduler.cpp:413-475 | a busy slot's ledger is prompt and generated tokens; prefilled, its position is prompt + generated - 1, its next input the last token and its cache everything before it; not prefilled, the ledger is what is cached followed by the pending prompt; with the whole prompt matched the cache is right below the position that is computed again |
| BatchScheduler.ContinuousBatchScheduler.AnsweredSequentially | src/inference/scheduler/batch_scheduler.cpp:171-189 | in every reachable state an answer that is Ok, from a slot without a hole and under the agreement condition, is the sequential engine's |
| BatchScheduler.ContinuousBatchScheduler.AnsweredWithin | src/inference/scheduler/batch_scheduler.cpp:372 | in every reachable state an answer has at most the request's max_tokens, or else the configured ones, but possibly one; an Ok answer on a model that does not end generation and without stops has exactly that many, with "length" |
| BatchScheduler.ContinuousBatchScheduler.AnsweredOnItsOwn | src/inference/scheduler/batch_scheduler.cpp:171-189 | in every reachable state an Ok answer from a slot without a hole is, on the fields, the generation of its request alone |
| BatchScheduler.ContinuousBatchScheduler.AddEntries | src/inference/scheduler/batch_scheduler.cpp:436-474 | the entries and position bookkeeping of the three build paths; only the last entry asks for logits |
| BatchScheduler.ContinuousBatchScheduler.AddToBatch | src/inference/scheduler/batch_scheduler.cpp:433-475 | one slot's turn in the build loop keeps every slot's invariant |
| BatchScheduler.ContinuousBatchScheduler.BuildBatch | src/inference/scheduler/batch_scheduler.cpp:431-475 | every busy slot has its entries in the batch, which is not empty when a slot is busy; requests are otherwise unchanged |
| BatchScheduler.ContinuousBatchScheduler.ServeStep | src/inference/scheduler/batch_scheduler.cpp:418-600 | a step keeps the invariant and gives each request in a slot one token or its answer; a request fails only when the step's last decode call failed |
| BatchScheduler.ContinuousBatchScheduler.SubmitAll | src/inference/scheduler/batch_scheduler.cpp:101-118 | submissions are refused from the first that finds the queue full, and otherwise wait in order of arrival |
| BatchScheduler.ContinuousBatchScheduler.WorkerStep | src/inference/scheduler/batch_scheduler.cpp:413-601 | one turn of the loop, with submissions arriving in the middle: each request that leaves the queue goes to the slot it should have, each request in a slot gets a token or its answer, and the first n submissions come nearer to theirs |
| BatchScheduler.ContinuousBatchScheduler.DrainSlot | src/inference/scheduler/batch_scheduler.cpp:605-617 | shutdown frees the slot, answers its request Unavailable with the tokens so far and empties its cache; no other answer changes |
| BatchScheduler.ContinuousBatchScheduler.DrainSlots | src/inference/scheduler/batch_scheduler.cpp:605-617 | afterwards every slot is free, and every request that was in one is answered with its tokens so far |
| BatchScheduler.ContinuousBatchScheduler.DrainQueue | src/inference/scheduler/batch_scheduler.cpp:618-626 | every request that was waiting is answered Unavailable, without tokens |
| BatchScheduler.ContinuousBatchScheduler.Drain | src/inference/scheduler/batch_scheduler.cpp:603-627 | after shutdown every submission so far has a justified answer, requests in slots with their tokens so far and waiting ones with none, every slot is free and every cache empty |
| BatchScheduler.ContinuousBatchScheduler.Run | src/inference/scheduler/batch_scheduler.cpp:405-601 | for any schedule of arrivals the invariant holds, answers stay, a request in a slot is answered within its remaining budget of steps, and everything submitted before is answered once the run is as long as what was owed, whatever arrives |
| BatchScheduler.ContinuousBatchScheduler.RunUntilAnswered | src/inference/scheduler/batch_scheduler.cpp:405-601 | with no more arrivals the loop ends with every submission answered |
| SessionReuse.AdmitFirst | src/inference/scheduler/batch_scheduler.cpp:249-391 | a first request takes the only slot without a hole |
| SessionReuse.FirstStep | src/inference/scheduler/batch_scheduler.cpp:430-600 | a request for one token is answered in one step, and its slot stays warm with the prompt and that token |
| SessionReuse.AdmitContinuation | src/inference/scheduler/batch_scheduler.cpp:342-351 | a request that continues past the whole ledger takes the warm slot and gets a hole |
| SessionReuse.ContinueAfterLength | src/inference/engine_interface.h:107-114 | a run from a new scheduler, on any model that does not end generation, to a request admitted with a hole |
| BlockAccounting.HeldIsCounted | src/inference/backends/cuda/cuda_allocator.cpp:134-150 | a block in some table has a positive count and is not free |
| BlockAccounting.AccountsAlloc | src/inference/backends/cuda/cuda_allocator.cpp:134-141 | popping a block into a table keeps counts equal to table occurrences and the free stack exact; no table held the block |
| BlockAccounting.AccountsFree | src/inference/backends/cuda/cuda_allocator.cpp:143-150 | giving a block back keeps the accounts, and frees it exactly with its last holder |
| BlockAccounting.FreeOrHeld | src/inference/backends/cuda/cuda_allocator.cpp:134-150 | a block is free if and only if no table holds it |
| BlockAccounting.UsedPlusFree | src/inference/backends/cuda/cuda_allocator.cpp:299-307 | used + free = total |
| BlockAccounting.TablesDetermineFree | src/inference/backends/cuda/cuda_allocator.cpp:198-209 | the tables determine the counts and the set of free blocks, so restoring the tables restores the pool |
| BlockAccounting.BumpedOnce | src/inference/backends/cuda/cuda_allocator.cpp:219-220 | copying adds exactly one to the count of each block of the source |
| BlockAccounting.CopyKeeps | src/inference/backends/cuda/cuda_allocator.cpp:211-223 | copying onto a new or empty destination keeps the accounts |
| BlockAccounting.CopyLeaks | src/inference/backends/cuda/cuda_allocator.cpp:217-218 | each block of an overwritten destination ends up counted once too often |
| BlockAccounting.CopyCondition | src/inference/backends/cuda/cuda_allocator.cpp:211-223 | copying keeps the accounts if and only if the destination had no blocks |
| BlockAccounting.SlotsInjective | src/inference/backends/cuda/cuda_allocator.cpp:268-274 | within a sequence distinct positions have distinct slots, all inside the pool |
| BlockAccounting.SlotsMeet | src/inference/backends/cuda/cuda_allocator.cpp:268-274 | slots of two sequences meet only at the same offset of a block counted at least twice |
| BlockAccounting.TableFitsPool | src/inference/backends/cuda/cuda_allocator.cpp:156-196 | a table is no longer than the pool |
| KvLayout.LayoutsAgreeIff | src/inference/backends/cuda/cuda_allocator.h:91-111 | eviction's block-major bytes are the kernels' layer-major bytes of the block if and only if the pool has one block |
| KvLayout.UnitReloadIff | src/inference/backends/cuda/cuda_allocator.cpp:340-374 | over the pool's bytes, evicting a block and reloading it restores what the kernels see, for all contents, if and only if the pool has one block |
| KvLayout.SparesOthersIff | src/inference/backends/cuda/cuda_allocator.cpp:367-375 | over the pool's bytes, a reload leaves the other blocks alone, for all contents, if and only if there are none |
| KvLayout.LaunchStaysInIff | third_party/custom_kernels/megakernel.cu:220-233 | over the bytes it writes, a launch touches only its sequence's blocks if and only if the sequence owns, for each head, every block that reaches into the head's stretch, for caches of either element width |
| KvLayout.LaunchInPlaneIff | src/inference/backends/cuda/cuda_allocator.h:179-182 | within the pool's positions a launch stays inside its plane if and only if the cache has two-byte elements, or one head and at least twice the positions |
| KvLayout.VectorInBlock | third_party/custom_kernels/megakernel.cu:224-229 | with two-byte elements a position's vector lies in one block, that of (head * positions + position) / (heads * block size) |
| KvLayout.SpillsOver | src/inference/backends/cuda/cuda_engine.cpp:408-411 | with an FP8 cache a launch inside the plane writes a second block for its first position |
| KvLayout.PrefillWritesBlockZero | third_party/custom_kernels/megakernel.cu:220-229 | a prefill stays in a sequence's blocks only if these include physical block 0 |
| BlockPool.CudaAllocator.AllocBlockLocked | src/inference/backends/cuda/cuda_allocator.cpp:134-141 | the top of the free stack with count 1, or -1 exactly when it is empty |
| BlockPool.CudaAllocator.FreeBlockLocked | src/inference/backends/cuda/cuda_allocator.cpp:143-150 | one holder less; pushed back exactly when it was the last |
| BlockPool.CudaAllocator.AllocateSequence | src/inference/backends/cuda/cuda_allocator.cpp:156-183 | all of max(1, ceil(tokens / block size)) blocks or none; the rollback branch is unreachable |
| BlockPool.CudaAllocator.ExtendSequence | src/inference/backends/cuda/cuda_allocator.cpp:185-196 | one more block from the top of the stack, or -1 with nothing changed |
| BlockPool.CudaAllocator.FreeSequence | src/inference/backends/cuda/cuda_allocator.cpp:198-209 | the table is gone, each block has lost one holder, the rest is untouched |
| BlockPool.CudaAllocator.CopySequence | src/inference/backends/cuda/cuda_allocator.cpp:211-223 | shares the source's blocks, each counted once more; the allocator stays valid if and only if the destination had none |
| BlockPool.CudaAllocator.SlotMapping | src/inference/backends/cuda/cuda_allocator.cpp:255-280 | the slot of every covered position |
| BlockPool.CudaAllocator.FamiliesApart | src/inference/backends/cuda/cuda_allocator.cpp:211-274 | sequences without common copy ancestry never share a slot |
| BlockPool.CudaAllocator.EvictSequence | src/inference/backends/cuda/cuda_allocator.cpp:318-354 | over whole blocks, the table's contents go to the front of the host buffer, which grows to twice what is needed when it is too small, and its blocks back to the pool; repeated eviction changes nothing |
| BlockPool.CudaAllocator.ReloadSequence | src/inference/backends/cuda/cuda_allocator.cpp:356-380 | over whole blocks, and with no other eviction in between, the contents are restored if and only if the table was empty, so not by a retry after a partial reload; with too few blocks it stops half way with the accounts intact |
| BlockPool.CudaAllocator.EvictBothReload | src/inference/backends/cuda/cuda_allocator.cpp:331-376 | two evictions and a reload of the first give its contents overlaid with the second one's, whether or not the buffer is grown in between |
| BlockPool.OneBlockEach | src/inference/backends/cuda/cuda_allocator.cpp:345 | a run in which a sequence comes back with another one's contents |
| BlockPool.SecondEvictionCondition | src/inference/backends/cuda/cuda_allocator.cpp:345 | the first eviction survives the second, whatever the contents, if and only if one of the two sequences had no blocks |
| CudaEngineModule.CudaEngine.PrefillLegacy | src/inference/backends/cuda/cuda_engine.cpp:842-859 | one forward pass for each prompt token in order, until one fails or a block cannot be had; every position written is covered by the block table; the table then holds the reserved blocks and one for each boundary passed |
| CudaEngineModule.CudaEngine.PrefillMegakernel | src/inference/backends/cuda/cuda_engine.cpp:807-824 | fails as exhausted exactly when the pool has fewer blocks than the prompt has boundaries, else one launch of the whole prompt; the table holds as many blocks as on the legacy path; the launch is within the pool's positions and stays inside the planes exactly when these have room for two-byte elements; which blocks it writes is not up to the table |
| CudaEngineModule.CudaEngine.Prefill | src/inference/backends/cuda/cuda_engine.cpp:804-859 | either path, with its passes on record; on the megakernel path the session is then as long as the prompt |
| CudaEngineModule.CudaEngine.DecodeStep | src/inference/backends/cuda/cuda_engine.cpp:893-910 | on the legacy path the position is covered before it is written and the table holds the reserved blocks plus position / block size; on the megakernel path the number of blocks suffices, and the launch stays inside the planes exactly when these have room for two-byte elements |
| CudaEngineModule.CudaEngine.RunForwardMegakernel | src/inference/backends/cuda/cuda_engine.cpp:408-411 | within the pool's positions a launch stays inside the planes exactly when these have room for two-byte elements, which an FP8 cache has only with one head and half the positions |
| CudaEngineModule.CudaEngine.DecodeTurn | src/inference/backends/cuda/cuda_engine.cpp:887-920 | what the callback injects, a decode step and the session's new length keep the session valid and the blocks sufficient; no pass runs exactly when a block was needed and none was free |
| CudaEngineModule.CudaEngine.DecodeRound | src/inference/backends/cuda/cuda_engine.cpp:888-919 | one more token's pass and the next draw; or the end of the generation, for a failed pass or an exhausted pool |
| CudaEngineModule.CudaEngine.DecodeLoop | src/inference/backends/cuda/cuda_engine.cpp:878-921 | the tokens are the draws up to the first stop or end token, failed pass, exhausted pool or max_tokens; the blocks suffice for every position reached and on the legacy path cover it; each callback's injection is asked for at its step and gets no further than the blocks only as an append; other sessions and tables are untouched |
| CudaEngineModule.DecodingFails | src/inference/backends/cuda/cuda_engine.cpp:893-911 | a step without a successful pass ends the generation with the token it was for |
| CudaEngineModule.DecodingEnds | src/inference/backends/cuda/cuda_engine.cpp:878-885 | a stop or end token, or the limit, ends the generation with the tokens so far |
| CudaEngineModule.ServedWhole | src/inference/backends/cuda/cuda_engine.cpp:804-921 | a complete prefill followed by a decode is a request served |
| CudaEngineModule.CudaEngine.Generate | src/inference/backends/cuda/cuda_engine.cpp:751-935 | refused before anything runs exactly when the pool is too small for the request's tokens; else the result is the prefill's failure, or the draws up to the first stop or end token, failed pass, exhausted pool or max_tokens; on every path, with injections from callbacks and after the free, the tables, the counts and the set of free blocks are what they were, and the request's session entry is gone |
| CudaEngineModule.CudaEngine.Begin | src/inference/backends/cuda/cuda_engine.cpp:761-784 | Ok exactly when there are enough free blocks for the whole request; then its table and a valid session, else nothing |
| CudaEngineModule.CudaEngine.Serve | src/inference/backends/cuda/cuda_engine.cpp:804-921 | prefill and decode, as recorded in the passes and draws, keep the request's session registered and valid |
| CudaEngineModule.CudaEngine.Forget | src/inference/backends/cuda/cuda_engine.cpp:773-780 | the session's entry goes; an injection that comes just before finds the blocks gone and leaves no trace in the pool |
| CudaEngineModule.CudaEngine.UpdateSessionKvLen | src/inference/backends/cuda/cuda_engine.cpp:1383-1390 | changes one registered session's length and nothing else, within the sequence's blocks |
| CudaEngineModule.SessionsGrow | src/inference/backends/cuda/cuda_engine.cpp:1456-1466 | extending tables keeps every session valid |
| CudaEngineModule.CudaEngine.PrefillsCollide | src/inference/backends/cuda/cuda_engine.cpp:450-454 | of two sequences without common copy ancestry at most one owns all the blocks its megakernel prefill writes |
| CudaEngineModule.TwoPrefills | src/inference/backends/cuda/cuda_engine.cpp:816-818 | two live sequences, with any head dimension, the second of which prefills the first one's block and none of its own |
| CudaEngineModule.CudaEngine.InjectTokens | src/inference/backends/cuda/cuda_engine.cpp:1413-1491 | at any time: each refusal for its cause and nothing launched; Ok only at the session's end, whose length grows by the tokens, after one launch of them there; while the sequence has a table the call fails as exhausted exactly when the pool has fewer blocks than the append has boundaries; after it has been freed nothing is reserved, and the call fails so exactly when the append crosses a boundary |
| CudaEngineModule.CudaEngine.ReserveAppend | src/inference/backends/cuda/cuda_engine.cpp:1456-1466 | exhausted exactly when the append passes more boundaries than the pool has blocks, or after the free any; else the session is valid at the new length |
| CudaEngineModule.BoundariesStep | src/inference/backends/cuda/cuda_engine.cpp:843 | how the number of block boundaries passed changes from one position to the next |
| CudaEngineModule.BoundariesBeyond | src/inference/backends/cuda/cuda_engine.cpp:807 | more than k boundaries lie before a position beyond the next |
| CudaEngineModule.BoundariesGrow | src/inference/backends/cuda/cuda_engine.cpp:843 | a later position has no fewer boundaries before it |
| CudaEngineModule.NextCovered | src/inference/backends/cuda/cuda_engine.cpp:893-898 | one block at each boundary is enough to cover the next position |
| ToolGlob.ToolGlobMatch | src/server/anthropic_router.cpp:290-301 | the loop ends, by a lexicographic measure, and computes the backtracking function the lemmas below are about |
| ToolGlob.Sound | src/server/anthropic_router.cpp:290-301 | from every loop state, acceptance implies that something still to be tried matches |
| ToolGlob.AcceptsOnlyMatches | src/server/anthropic_router.cpp:287-290 | every accepted pair matches: '*' stands for any run and the rest is literal |
| ToolGlob.LaterStarSuffices | src/server/anthropic_router.cpp:295 | forgetting the choices of an earlier star loses no match |
| ToolGlob.Complete | src/server/anthropic_router.cpp:292-298 | backtracking to the latest star only never loses a match, for names with no '*' before their last character |
| ToolGlob.InnerStarRefused | src/server/anthropic_router.cpp:294-295 | for a name with an inner '*' its prefix ending there is a matching pattern prefix that the code refuses |
| ToolGlob.AgreementCondition | src/server/anthropic_router.cpp:287-301 | code and meaning agree on all patterns if and only if the name has no '*' before its last character |
| ToolGlob.GateTools | src/server/anthropic_router.cpp:343-354 | the subsequence of the tools at the places that some pattern accepts, and all of them without patterns; for names without an inner '*' exactly the tools some pattern means |
| ToolGlob.GatedAtMore | src/server/anthropic_router.cpp:346-352 | one more tool is appended exactly when it is permitted |
| ToolGlob.OfferedMeans | src/server/anthropic_router.cpp:341-354 | a tool is offered exactly when it is there and there are no patterns or some pattern's meaning covers its name |
| RateLimiter.RateLimiter.TryAcquire | src/policy/rate_limiter.cpp:36-56 | grants exactly when a whole token is available at that instant; the bucket's new level |
| RateLimiter.RateLimiter.Refill | src/policy/rate_limiter.cpp:80-87 | brings a bucket up to date without changing what it holds at any later time; no token is lost and none beyond the burst is gained |
| RateLimiter.RateLimiter.Reset | src/policy/rate_limiter.cpp:58-62 | the key is offered the full burst at any time, every other key what it was offered before |
| RateLimiter.RateLimiter.EvictStale | src/policy/rate_limiter.cpp:64-75 | keeps exactly the buckets whose age is at most max_age |
| RateLimiter.AvailableLater | src/policy/rate_limiter.cpp:80-87 | the level at one time decides the level at any later time |
| RateLimiter.GrantsArePaid | src/policy/rate_limiter.cpp:36-56 | over any run the grants to a key are at most what it had and what time has added |
| RateLimiter.WindowBound | src/policy/rate_limiter.cpp:36-87 | in any window of any run of calls a key gets at most burst + rate * length grants |
| RateLimiter.VolleyGranted | src/policy/rate_limiter.cpp:51-54 | the bound is reached: a key with k tokens gets k grants at once |
| RateLimiter.SameTokensSameGrants | src/policy/rate_limiter.cpp:36-56 | two limiters that offer every key the same tokens decide alike for ever |
| RateLimiter.AfterOk | src/policy/rate_limiter.cpp:36-56 | after any run every bucket holds between nothing and the burst and was used no later than now |
| RateLimiter.Drained | src/policy/rate_limiter.cpp:51-54 | a run that leaves a key with less than a token, and with none at all when tokens come back; it has been granted all the rest |
| RateLimiter.EvictionChangesNothing | src/policy/rate_limiter.cpp:64-75 | under the condition eviction changes no later decision, however the buckets came about |
| RateLimiter.EvictionShows | src/policy/rate_limiter.cpp:64-75 | when the condition fails, a run from the start after which eviction gives an extra grant, and with it more than the limit |
| RateLimiter.EvictionCondition | src/policy/rate_limiter.cpp:64-75 | for any max_age, eviction changes no later decision after any run if and only if rate * max_age >= burst, or burst < 1 |
| RateLimiter.EvictionsUnnoticed | src/policy/rate_limiter.cpp:64-75 | under the condition evictions anywhere in a run, however many, change no decision of it |
| RateLimiter.WindowWithEvictions | src/policy/rate_limiter.cpp:36-75 | under the condition any window of any run with evictions grants a key at most burst + rate * length |
| RateLimiter.LimitBroken | src/policy/rate_limiter.cpp:64-75 | when the condition fails, a run from the start with one eviction that exceeds the limit |
| RateLimiter.LimitCondition | src/policy/rate_limiter.cpp:36-75 | for any max_age, the limit holds in every window of every run with evictions if and only if rate * max_age >= burst, or burst < 1 |
| Utf8Stream.SanitizeUtf8 | src/server/openai_router.cpp:49-72 | cuts after the last complete character the scan meets |
| Utf8Stream.BytePatterns | src/server/openai_router.cpp:54-66 | which bytes begin a character of which length, and which continue one, as ranges |
| Utf8Stream.PrefixSplits | src/server/openai_router.cpp:49-72 | a prefix of well-formed text is cut at its last boundary, with fewer than four bytes held back |
| Utf8Stream.CutOnce | src/server/openai_router.cpp:1690-1692 | what is emitted is whole characters, what is held back completes with the rest of the text, nothing is held back at the end |
| Utf8Stream.ChunkStream.OnToken | src/server/openai_router.cpp:1685-1694 | for any bytes nothing is lost, added or reordered between deltas and carry |
| Utf8Stream.ChunkStream.StreamPiece | src/server/openai_router.cpp:1690-1693 | one piece of a well-formed text keeps every delta whole and the carry under four bytes |
| Utf8Stream.ChunkStream.Stream | src/server/openai_router.cpp:1685-1694 | however any beginning of a well-formed text is cut, every delta is whole characters, nothing is lost and fewer than four bytes are held back; nothing is when the text is complete |
| Utf8Stream.SanitizedIsWellFormedIff | src/server/openai_router.cpp:43-47 | for arbitrary bytes the result is well-formed if and only if, after the first bad byte, no complete character comes before a truncated lead byte |
| Utf8Stream.ScanKeepsNothingIff | src/server/openai_router.cpp:53-69 | from a bad byte on the scan keeps nothing exactly when it meets a truncated lead byte, or the end, before a complete character |
| Utf8Stream.StrayByteIsKept | src/server/openai_router.cpp:61 | a concrete input whose result is not well-formed |
| IpcClientModule.FirstReplyIsEarliest | src/plugin_bridge/ipc/ipc_client.cpp:29-56 | the reply a call should get is the message at the earliest place that answers its id |
| IpcClientModule.AnswersMeans | src/plugin_bridge/ipc/ipc_client.cpp:37-56 | on the fields: a message answers an id exactly when it carries it, under the old spelling if the new one is missing, and is an acknowledgement or response, or a status report without a callback |
| IpcClientModule.ReplyMeans | src/plugin_bridge/ipc/ipc_client.cpp:37-70 | the first reply among some messages is, on their fields, the first that carries the id and is a reply, and there is none when none does |
| IpcClientModule.StatusReportsNeverAnswerIff | src/plugin_bridge/ipc/ipc_client.cpp:45-48 | no status report ever ends a call if and only if a status callback is set |
| IpcClientModule.CallOkReceives | src/plugin_bridge/ipc/ipc_client.cpp:58-70 | one more message keeps what every call has to show for itself |
| IpcClientModule.StagesGrow | src/plugin_bridge/ipc/ipc_client.cpp:87-138 | in any run no call is ever set back |
| IpcClientModule.EveryCallReturns | src/plugin_bridge/ipc/ipc_client.cpp:87-138 | in any run a call that has been given its own steps has returned, whatever other calls and messages do in between |
| IpcClientModule.IpcClient.BeginCall | src/plugin_bridge/ipc/ipc_client.h:121 | a new call with the counter's next id, which wraps at 2^64 |
| IpcClientModule.IpcClient.RegisterCall | src/plugin_bridge/ipc/ipc_client.cpp:92-98 | the promise is registered under the call's id; when the id is taken, which needs more than 2^64 calls, the call throws and the entry stays |
| IpcClientModule.IpcClient.SendReturns | src/plugin_bridge/ipc/ipc_client.cpp:114-120 | a refused send leads to the erase, an accepted one to the wait |
| IpcClientModule.IpcClient.EraseAndReturn | src/plugin_bridge/ipc/ipc_client.cpp:117-130 | the entry under the call's id is gone and its promise destroyed unset, whosever it was, and the outcome is the failure that led here |
| IpcClientModule.IpcClient.WaitReturns | src/plugin_bridge/ipc/ipc_client.cpp:75-82 | a set promise is returned even at the deadline, and it is the first reply with the call's id since registration; a promise destroyed unset makes the call throw at once, which needs more than 2^64 calls; an unset one means no reply has come |
| IpcClientModule.IpcClient.Resolve | src/plugin_bridge/ipc/ipc_client.cpp:58-70 | sets and removes the entry of that id, ignores unknown ids |
| IpcClientModule.IpcClient.OnMessage | src/plugin_bridge/ipc/ipc_client.cpp:29-56 | a pending call whose id the message carries gets it, and loses its entry, exactly for acknowledgements, responses and, without a callback, status reports; garbage, announcements, late and duplicate replies change no call |
| IpcClientModule.IpcClient.Take | src/plugin_bridge/ipc/ipc_client.cpp:29-138 | each atomic section changes the map, the promises and the calls as the state machine says, and nothing when its call is not at that point |
| IpcClientModule.IpcClient.Run | src/plugin_bridge/ipc/ipc_client.cpp:87-138 | any schedule of calls, replies, failures and timeouts is a run of the state machine; it keeps the invariant, and no returned outcome ever changes |
| IpcClientModule.IpcClient.ReturnedCall | src/plugin_bridge/ipc/ipc_client.cpp:87-138 | a returned call has no entry left; a reply is, on its fields, the first message with its id since it registered; a timeout means none had come; only after 2^64 calls does one throw |
| IpcClientModule.IpcClient.IdsAreUnique | src/plugin_bridge/ipc/ipc_client.h:121 | for the first 2^64 calls ids are distinct, none throws and none under way loses its promise |
| IpcClientModule.SharedId | src/plugin_bridge/ipc/ipc_client.h:121 | two calls share an id only when the counter has come round between them |
| IpcClientModule.PendingErase | src/plugin_bridge/ipc/ipc_client.cpp:117-130 | an erase keeps the pending map exact: the entry it takes, by mistake another call's, has its promise broken |
| IpcClientModule.IpcClient.RepliesAreNotShared | src/plugin_bridge/ipc/ipc_client.cpp:58-70 | two calls never return the same received message, whatever their ids |
| IpcClientModule.IpcClient.IdleMeansEmpty | src/plugin_bridge/ipc/ipc_client.cpp:116-130 | with no call under way the pending map is empty |
| IpcTransportModule.Header | src/plugin_bridge/ipc/ipc_transport.cpp:132-137 | four bytes, the least significant first, from which the receiver reads the length back |
| IpcTransportModule.ParseWire | src/plugin_bridge/ipc/ipc_transport.cpp:186-219 | the receiver gets the payloads up to the first refused length |
| IpcTransportModule.RoundTripIff | src/plugin_bridge/ipc/ipc_transport.cpp:128-219 | the receiver gets exactly what was sent if and only if every length is in 1 .. 16 MiB |
| IpcTransportModule.CutDeliversPrefix | src/plugin_bridge/ipc/ipc_transport.cpp:189-211 | a stream cut anywhere delivers a prefix |
| IpcTransportModule.CutAfterWholeFrames | src/plugin_bridge/ipc/ipc_transport.cpp:189-211 | every payload whose frame was complete before the cut is delivered |
| IpcTransportModule.FailedSendHarmlessIff | src/plugin_bridge/ipc/ipc_transport.cpp:139-143 | behind a cut frame all later payloads arrive, whatever they are, if and only if nothing of it was written |
| IpcTransportModule.IpcTransport.WriteToFd | src/plugin_bridge/ipc/ipc_transport.cpp:251-262 | all of the data, or a proper prefix of it and false, for any short writes |
| IpcTransportModule.IpcTransport.Send | src/plugin_bridge/ipc/ipc_transport.cpp:128-144 | a whole frame, or a proper prefix of one and false |
| IpcTransportModule.IpcTransport.ReadExact | src/plugin_bridge/ipc/ipc_transport.cpp:264-273 | exactly the next n bytes for any short reads; succeeds whenever they are there and the kernel keeps answering |
| IpcTransportModule.IpcTransport.RecvLoop | src/plugin_bridge/ipc/ipc_transport.cpp:186-219 | delivers a prefix of what the stream parses to, and all of it when the kernel keeps answering |
| IpcTransportModule.Transfer | src/plugin_bridge/ipc/ipc_transport.cpp:128-219 | end to end, for any short writes and reads, the receiver gets a prefix of the payloads, and all accepted ones when the kernel keeps answering |
| TokenSelection.PositionsExact | src/inference/backends/cuda/compression/compression_scoring_pass.cpp:216-220 | a kept set is turned into a subsequence with each kept position once, in order |
| Compression.BestMatchIsBest | src/inference/backends/cuda/compression/compression_scoring_pass.cpp:280-291 | the inner loop finds the first of the unmerged odd positions that no other one beats |
| Compression.MergedBounds | src/inference/backends/cuda/compression/compression_scoring_pass.cpp:280-296 | merging removes at most r positions, at most one for each even one, all odd |
| Compression.MatchingIsGreedy | src/inference/backends/cuda/compression/compression_scoring_pass.cpp:231-296 | every match is positively similar and beaten by nothing left over; nothing is taken twice; below r, an unmatched even position is similar to nothing left |
| Compression.LastSurvivesIff | src/inference/backends/cuda/compression/compression_scoring_pass.cpp:276-296 | the last position is never merged, whatever the similarities, if and only if their number is odd or r <= 0 |
| Compression.KeptSize | src/inference/backends/cuda/compression/compression_scoring_pass.cpp:207-214 | at least the chosen number survive and at most nine more; no more exactly when the first and the last eight were chosen |
| Compression.PrunedScoreLow | src/inference/backends/cuda/compression/compression_scoring_pass.cpp:201-209 | nothing pruned scores above anything chosen |
| Compression.PartialSort | src/inference/backends/cuda/compression/compression_scoring_pass.cpp:201-205 | the first k indices are the highest scored, in descending order, and the indices stay a permutation |
| Compression.SortedPrefixIsTop | src/inference/backends/cuda/compression/compression_scoring_pass.cpp:201-209 | the first k sorted indices are k positions that nothing else outscores |
| Compression.CompressionScoringPass.KeepN | src/inference/backends/cuda/compression/compression_scoring_pass.cpp:198-200 | between 1 and n, and the fraction of n rounded up |
| Compression.CompressionScoringPass.ApplyPresis | src/inference/backends/cuda/compression/compression_scoring_pass.cpp:191-221 | keeps exactly KeepN top-scored positions, the first and the last eight, in order; a wrong number of scores keeps everything |
| Compression.CompressionScoringPass.MergeLoop | src/inference/backends/cuda/compression/compression_scoring_pass.cpp:276-296 | the nested loops remove exactly the greedily matched positions |
| Compression.CompressionScoringPass.ApplyTome | src/inference/backends/cuda/compression/compression_scoring_pass.cpp:231-304 | the tokens at all other positions, in order; nothing is removed when disabled, without a cache or below two positions |
| Compression.CompressionScoringPass.CompressTokens | src/inference/backends/cuda/compression/compression_scoring_pass.cpp:63-121 | on the fields: merging exactly when the cache is as long as the request; pruning to the positions that score highest by attention when it is there for just the merged tokens, within the length limit and with some positive score, else by TF-IDF, with the first and the last eight |
| Compression.CompressionScoringPass.CompressedOnFields | src/inference/backends/cuda/compression/compression_scoring_pass.cpp:63-121 | the stages of the code, composed, are that |
| Compression.CompressionScoringPass.CompressedShape | src/inference/backends/cuda/compression/compression_scoring_pass.cpp:63-121 | the result is a subsequence that begins with the first token; the bounds on how much each stage removes |

## Left out

- The inner workings of samplers and grammars, and lazy grammars: a draw is an unknown function, and a clock reading that seeds a sampler is one unknown value for each place where samplers are made.
- Time stamps in results, error texts, the on_token callbacks and logging: they do not feed back into the state.
- The preallocated batch arrays: the batch is a sequence, so their capacity is not a limit here.
- Slots are values in a sequence that the methods reassign, not separate objects.
- Submissions after the shutdown drain: the drain is the last thing the worker does, so they would never be answered; the model stops at the drain.
- Two slots may hold the same session, contrary to the comment at `src/inference/scheduler/batch_scheduler.cpp:303`; the model allows it and relies on nothing else.
- Model loading checks and exceptions of the CUDA engine, what kernels compute, streams, asynchronous copies and pinned memory.
- CudaEngineModule.CudaEngine.InjectTokens: does not promise that injected tokens survive, because generate keeps its own position and writes its next token over them.
- Block size, pool size and max_blocks_per_seq auto-sizing, and the padded device block table.
- RateLimiter.RateLimiter.Refill: does not model floating-point rounding; time and tokens are real numbers.
- Guardrail presets: constants.
- Utf8Stream.ChunkStream.Stream: does not check overlong forms or surrogates, because the code checks lead and continuation patterns only.
- Field types of a parsed message, response fields and abort_call of the IPC client.
- Closing a transport while its receive loop runs, the Windows pipe variant, and interleaved writes of concurrent senders, which the code does not lock.
- Attention and TF-IDF score formulas, F16 decoding, NaN scores, and copying device tensors into the caches: scores and similarities are arbitrary real functions.
- Collecting tool patterns from a request's skills (splitting and trimming comma lists): only easy members.
- HTTP, JSON building, authentication, plugin processes and configuration.
