# SCIPACK pseudorandom engine, modelled in Dafny

This project models the pseudorandom number engine of SCIPACK (`src/random/`). The library has two generations of one API:

- **The one-value-per-call API** (`random_sisd.c`): a `u64_generator` object with `next`, `randint`, `bernoulli` and `binomial`, plus error descriptions.
- **The buffer-filling API** (`generator_sisd.c`): an `spk_generator` whose `next`, `rand` and `bias` fill a caller's array.

Both run the same two engines:

- **PCG64 insecure** (rxs-m-xs). The output is a permutation of the state *before* the LCG update `state * 0x5851F42D4C957F2D + increment`.
- **Marsaglia's xorshift64.** Shifts of 13 left, 7 right and 17 left; the output is the new state.

Both are seeded either from a non-zero seed through the splitmix64 finalizer, or from the `rdrand` hardware source.

Layout:

- `bits.dfy` (`Bits`): the 64-bit primitives on `bv64`. These are the seed mixer `Hash`, `PcgStep`, `PcgOut` and `XshStep`, single lanes of a word, and `Popcount`.
- `engine.dfy` (`Engine`):
  - A generator state is a value `Gen`; `Output`, `Step`, `Advance` and `Draws` define its stream once for both APIs.
  - Seeding: `Seeded`, `FromWords`.
  - The hardware source is an oracle `Entropy`: a sequence of attempt outcomes given in advance. `TryRdRand` models the shared ten-attempt retry loop.
- `sampling.dfy` (`Sampling`): the sampling algorithms as functions of the state.
  - Bitmask rejection: `Mask`, `Candidate`, `Reject`, `Fill`.
  - The bit-trie biased word: `BiasWalk`, `Bernoulli`, its lanes and its probability.
  - The two element loops of `VecBias`: `VecBiasCarry` as written and `VecBiasFresh` corrected.
  - The binomial counter: `Binomial`.
- `generator.dfy` (`GeneratorSisd`): the buffer API.
  - The class `Generator` keeps its state words in an `array<bv64>` buffer.
  - Its `Pcg64iNext`, `Xsh64Next`, `RandInt` and `VecBias` are loops proved against the functions above.
  - Creation: `Pcg64iNew`, `Xsh64New`, `GeneratorNew`.
- `random.dfy` (`RandomSisd`): the one-value-per-call API.
  - The class `U64Generator` keeps `state` and `increment` fields.
  - `RandInt64`, `Bernoulli64` and `Binomial64` are loops proved against the same functions.
  - `InitPcg64Insecure` and `InitXorshift64` model creation; `ErrorDesc` models the error descriptions.

Integer-valued C scalars are `int`s restricted to `[0, 2^64)` (`Sampling.u64`): bounds, counts, the numerator `n`, and results of `randint`. Words drawn from the engine stay `bv64`, so wrap-around multiplication and shifts are native. The C builtins with undefined inputs become preconditions:

- `__builtin_clzll(0)` requires `min < max`.
- `__builtin_ctzll(0)` requires `n > 0`.
- A shift by 64 requires `m <= 64` and `k >= 1`.

Where the documented contract and the code disagree, the model follows the code:

- `include/random_sisd.h:69-76` documents `0 < n < 2^m` and `0 < m <= 64` for the biased generators. Neither the biased word of the one-value API nor `VecBias` of the buffer API checks these bounds, and no argument-bounds error is returned.
- `RandInt` does not apply its mask (see Findings).
- `VecBias` does not reset its accumulator (see Findings).

`generator_sisd.c` does not compile as written, and the model follows its evident intent:

- Semicolons are missing at lines 112, 142, 145 and 178.
- `SIZEOF_INTERFACE++ SIZEOF_PCG64I` appears at line 130, and `SIZEOF_INTERFACE++ SIZEOF_XSH64` at line 167.
- The generator identifiers are defined with `||` in `include/generator_sisd.h:23-26`, so all of them evaluate to 1. The model uses `(1 << 8) | 64` and `(2 << 8) | 64`.

The error codes of the buffer API are never given values, so they are a datatype.

## Model

| member | source | states |
|---|---|---|
| Bits.Hash | src/random/generator_sisd.c:36-49 | the splitmix64 finalizer (the same function as `random_hash` at src/random/random_sisd.c:64-77) gives 0 exactly when its input is 0, so a non-zero seed never hashes to the all-zero state |
| Bits.PcgStep | src/random/generator_sisd.c:234 | the low two bits of the new state are those of state + increment, because the multiplier is 1 mod 4; with an odd increment this is the full-period condition of the LCG |
| Bits.PcgOut | src/random/generator_sisd.c:236-238 | the rxs-m-xs output of state 0 is 0 |
| Bits.XshStep | src/random/generator_sisd.c:253-255 | one xorshift round gives 0 exactly when the state is 0 |
| Bits.Popcount | src/random/random_sisd.c:391 | a popcount lies in [0, 64] |
| Bits.OrOneIsOdd | src/random/generator_sisd.c:150 | OR-ing 1 into a word makes it odd, as the PCG increment must be |
| Bits.PopcountShifted | src/random/random_sisd.c:394-395 | after a right shift by s, at most 64 - s lanes are set |
| Bits.PopcountBelow | src/random/random_sisd.c:391 | a word whose lanes from k upward are clear has a popcount of at most k |
| Bits.LaneShiftRight | src/random/random_sisd.c:394 | after a right shift by s, lane p holds what lane p + s held |
| Bits.PopcountMovedDown | src/random/random_sisd.c:394-395 | a word whose lanes are those of x moved down by s, with the top s lanes clear, has as many set lanes as x has from lane s upward |
| Bits.TopLanes | src/random/random_sisd.c:394-395 | the popcount of x >> s counts exactly the set lanes of x at positions s..63 |
| Engine.Output | src/random/generator_sisd.c:230-239 | PCG outputs the rxs-m-xs permutation of the current state; xorshift outputs the state after its round, which is 0 exactly when the current state is 0 |
| Engine.Step | src/random/generator_sisd.c:230-239 | a step keeps the engine kind and, for PCG, the increment |
| Engine.Advance | src/random/generator_sisd.c:230-239 | any number of steps keeps the engine kind and, for PCG, the increment |
| Engine.Draws | src/random/generator_sisd.c:230-239 | n calls of `next` yield exactly n words |
| Engine.DrawAt | src/random/generator_sisd.c:230-239 | draw i of the stream is the output of the state after i steps |
| Engine.DrawsSplit | src/random/generator_sisd.c:226-242 | a+b draws are a draws followed by b draws from the state after the first a, so filling one buffer or two in turn gives the same words |
| Engine.DrawsSnoc | src/random/generator_sisd.c:230-239 | n+1 draws are n draws plus the output of the state after n steps |
| Engine.AdvanceAdd | src/random/generator_sisd.c:230-239 | a+b steps are a steps then b steps |
| Engine.PcgDrawAt | src/random/generator_sisd.c:232-238 | PCG draw i is the rxs-m-xs permutation of the state before step i+1, the pre-update state |
| Engine.XshDrawAt | src/random/generator_sisd.c:253-257 | xorshift draw i is the state after i+1 rounds, the post-update state |
| Engine.XshZeroStuck | src/random/generator_sisd.c:253-257 | the xorshift state 0 is a fixed point and its stream is all zeros |
| Engine.XshNonzeroStream | src/random/generator_sisd.c:253-257 | from a non-zero xorshift state every later state and every draw is non-zero |
| Engine.Seeded | src/random/generator_sisd.c:133-150 | seeding gives the requested kind and an odd PCG increment, and a non-zero seed gives a non-zero state |
| Engine.SeededXshNeverStuck | src/random/generator_sisd.c:170-173 | a non-zero seed needs no zero guard: the seeded xorshift stream has no zero draw |
| Engine.PcgFrom | src/random/generator_sisd.c:150 | PCG state built from two words has an odd increment |
| Engine.FirstSuccess | src/random/generator_sisd.c:63-74 | the first successful attempt within the limit, with every earlier attempt failed; none exactly when every attempt within the limit fails |
| Engine.Entropy.Attempt | src/random/generator_sisd.c:67 | one `_rdrand64_step` consumes one outcome and reports whether it holds a word |
| Engine.TryRdRand | src/random/generator_sisd.c:63-74 | the retry loop succeeds exactly when an attempt within the limit succeeds, yields that attempt's word and consumes the outcomes up to it; on failure it has made at most `limit` attempts and consumed exactly the first `limit` outcomes, or all of them when fewer remain |
| Engine.RdRandWords | src/random/random_sisd.c:168-180 | a run of retry loops, when it succeeds, yields one word per loop |
| Engine.RdRandWordsStep | src/random/generator_sisd.c:140-146 | after a loop succeeds at attempt j, the remaining loops run on the outcomes after j and the word of j comes first |
| Engine.RdRandWordsStop | src/random/generator_sisd.c:140-146 | a loop that exhausts its attempts makes the whole run fail |
| Engine.RdRandWordsAllSucceed | src/random/random_sisd.c:168-180 | when every attempt succeeds, the words are the outcomes in order and exactly count outcomes are consumed |
| Engine.FromWords | src/random/random_sisd.c:168-183 | the state built from hardware words has the requested kind |
| Engine.RdRandZeroWordStuck | src/random/random_sisd.c:256-263 | the `rdrand` path installs its word unguarded: a zero word gives the xorshift state 0, whose stream is all zeros |
| Sampling.Clz | src/random/random_sisd.c:303 | `clz(ceil)` is the r with 2^(63 - r) <= ceil < 2^(64 - r) |
| Sampling.Mask | src/random/random_sisd.c:303 | the mask `~0 >> clz(ceil)` is 2^L - 1 for the bit length L of ceil; it is at least ceil and below 2 * ceil |
| Sampling.MaskIsLeastCover | src/random/random_sisd.c:303 | the mask is no larger than any all-ones block 2^j - 1 covering ceil |
| Sampling.FullMask | src/random/random_sisd.c:302-309 | for the full range the mask is all ones and masking leaves a draw unchanged |
| Sampling.MaskedBelow | src/random/random_sisd.c:307 | a masked draw is at most the mask |
| Sampling.Candidate | src/random/random_sisd.c:307 | the masked candidate never exceeds the mask |
| Sampling.Reject | src/random/random_sisd.c:305-309 | an accepted value is at most ceil |
| Sampling.RejectFirst | src/random/random_sisd.c:305-309 | the loop accepts the first candidate at most ceil, and the state after it is the state after that many draws plus one |
| Sampling.RejectNone | src/random/random_sisd.c:305-309 | the loop accepts nothing within the bound exactly when every candidate within it exceeds ceil |
| Sampling.RejectFullRange | src/random/random_sisd.c:302-309 | over the full range the first draw is accepted unchanged, with or without the mask |
| Sampling.Fill | src/random/generator_sisd.c:283-292 | filling n elements gives exactly n values |
| Sampling.FillRange | src/random/generator_sisd.c:283-292 | every filled value lies in [min, max] |
| Sampling.FillFullRange | test/random/test_generator_sisd.c:182-230 | `RandInt(n, 0, UINT64_MAX)` rejects nothing: its output is the raw `next(n)` from the same state, and it consumes n draws |
| Sampling.Ctz | src/random/random_sisd.c:361 | `ctz(n)` is the position of the lowest set bit: that bit is 1 and every bit below it is 0 |
| Sampling.CtzBelow | src/random/random_sisd.c:361 | a numerator below 2^m has its lowest set bit below m |
| Sampling.CtzPow2 | src/random/random_sisd.c:361 | the lowest set bit of 2^k is k |
| Sampling.NBit | src/random/random_sisd.c:363 | `(n >> pc) & 1` is 0 or 1 |
| Sampling.Mix | src/random/random_sisd.c:363-371 | on a 1-bit the result covers every set bit of both the accumulator and the draw; on a 0-bit every set bit of the result is set in both |
| Sampling.BiasWalk | src/random/random_sisd.c:361-373 | the walk from bit pc to m - 1 consumes exactly m - pc draws |
| Sampling.Bernoulli | src/random/random_sisd.c:357-376 | the biased word consumes exactly m - ctz(n) draws |
| Sampling.Accumulate | src/random/random_sisd.c:363-371 | the switch ANDs the draw into the accumulator on a 0-bit and ORs it in on a 1-bit |
| Sampling.WalkStep | src/random/random_sisd.c:361-373 | one loop iteration advances the walk by one bit and one draw |
| Sampling.BernoulliFirstStep | src/random/random_sisd.c:359-371 | the first step, at the lowest set bit, is always an OR into 0, so it yields the raw draw |
| Sampling.BernoulliHalf | src/random/random_sisd.c:357-376 | at n = 2^(m-1), probability one half, the biased word is one raw draw |
| Sampling.MixLane | src/random/random_sisd.c:363-371 | lane q of a mixed accumulator depends only on lane q of the accumulator and of the draw |
| Sampling.BiasWalkLane | src/random/random_sisd.c:314-376 | lane q of the biased word is the bit walk over lane q of the draws alone, so the 64 lanes are 64 separate trials |
| Sampling.ProbWalkFrom | src/random/random_sisd.c:320-345 | the recurrence p/2 on a 0-bit and (p+1)/2 on a 1-bit, started from the value of the low bits, ends at the value of the low m bits over 2^m |
| Sampling.BernoulliProbWalk | src/random/random_sisd.c:320-345 | started at 0 from ctz(n), the recurrence ends at exactly n/2^m for 0 < n < 2^m |
| Sampling.ProbWalkAffine | src/random/random_sisd.c:320-345 | the recurrence is affine in its start value, with slope 2^-(m - pc) |
| Sampling.LaneProbIsWalk | src/random/random_sisd.c:320-345 | the probability that a lane ends at 1, over independent fair draw bits, follows the recurrence |
| Sampling.LaneProbability | src/random/random_sisd.c:314-345 | each lane of `random_bernoulli_64` is 1 with probability exactly n/2^m |
| Sampling.VecBiasCarry | src/random/generator_sisd.c:349-371 | `VecBias` as written yields len elements |
| Sampling.VecBiasFresh | src/random/random_sisd.c:357-376 | the corrected `VecBias` yields len elements |
| Sampling.AdvanceBlocksCount | src/random/generator_sisd.c:352-356 | i blocks of S draws are i * S steps |
| Sampling.VecBiasFreshAt | src/random/random_sisd.c:357-376 | element i of the corrected vector is `random_bernoulli_64` from the state after i blocks of m - ctz(n) draws, and the vector costs len such blocks |
| Sampling.VecBiasCarryEnd | src/random/generator_sisd.c:352-371 | `VecBias` as written costs len blocks of m - ctz(n) draws |
| Sampling.VecBiasCarryHead | src/random/generator_sisd.c:349-370 | element 0 of `VecBias` as written is the walk from the initial accumulator |
| Sampling.VecBiasCarryAt | src/random/generator_sisd.c:349-370 | element i > 0 of `VecBias` as written is the walk started from element i - 1, not from 0 |
| Sampling.HalfWalk | src/random/generator_sisd.c:354-367 | at n = 2^(m-1) the walk is one OR of a draw into the accumulator |
| Sampling.VecBiasHalf | src/random/generator_sisd.c:349-370 | at probability one half, element i of `VecBias` as written is element i - 1 OR-ed with draw i, so a set lane stays set |
| Sampling.VecBiasHalfFresh | src/random/random_sisd.c:357-376 | at probability one half, the corrected vector is the raw stream |
| Sampling.HalfBlocks | src/random/random_sisd.c:361 | at probability one half, each element costs one draw |
| Sampling.VecBiasNoResetDiffers | src/random/generator_sisd.c:349-352 | from xorshift state 1 with n = 1, m = 1, element 1 of `VecBias` as written differs from the corrected one |
| Sampling.RandIntUnmaskedRejects | src/random/generator_sisd.c:281-289 | for [0, 1] from xorshift state 1 the unmasked loop rejects the first draw, and the masked loop accepts it |
| Sampling.Binomial | src/random/random_sisd.c:383-398 | the count lies in [0, k] |
| Sampling.TopCount | src/random/random_sisd.c:394-395 | after the shift by 64 - k, at most k lanes remain set |
| Sampling.ShiftedCountTopLanes | src/random/random_sisd.c:394-395 | the popcount after a right shift by s is the number of set lanes of the word at positions s..63 |
| Sampling.TopCountTopLanes | src/random/random_sisd.c:394-395 | the last round counts exactly the set lanes of the biased word at positions 64 - k..63 |
| Sampling.BinomialDraws | src/random/random_sisd.c:388-395 | the count calls `bernoulli` ceil(k/64) times, each costing m - ctz(n) draws |
| Sampling.LowBounds | src/random/random_sisd.c:361-373 | the low j bits of n are below 2^j, and equal n when n is below 2^j |
| Sampling.AndOnes | src/random/random_sisd.c:307 | AND with 2^j - 1 keeps the low j bits |
| GeneratorSisd.Generator.constructor | src/random/generator_sisd.c:130 | the allocated block has one state word for xorshift and two for PCG |
| GeneratorSisd.Generator.Pcg64iNext | src/random/generator_sisd.c:226-242 | dest[0..n) is the first n PCG draws, nothing else in dest changes, the state is n steps on, and buffer[1], the increment, is unchanged |
| GeneratorSisd.Generator.Xsh64Next | src/random/generator_sisd.c:249-261 | dest[0..n) is the first n xorshift draws, nothing else in dest changes, and the state is n rounds on |
| GeneratorSisd.Generator.Next | src/random/generator_sisd.c:153 | `next` is the kind's own fill, with the same contract |
| GeneratorSisd.Generator.NextWord | src/random/generator_sisd.c:287 | a one-word `next` yields the current output and steps once |
| GeneratorSisd.Generator.RejectLoop | src/random/generator_sisd.c:285-289 | the do-while loop yields the value and the state of the rejection function |
| GeneratorSisd.Generator.SampleOne | src/random/generator_sisd.c:285-291 | one element is the accepted value plus min |
| GeneratorSisd.Generator.SampleTrace | src/random/generator_sisd.c:283-292 | the element loop writes the values of a trace of rejection runs |
| GeneratorSisd.Generator.Sample | src/random/generator_sisd.c:283-292 | dest[0..n) is the fill function's values, nothing else in dest changes, and the state is the fill's final state |
| GeneratorSisd.Generator.RandInt | src/random/generator_sisd.c:270-295 | `RandInt` as written, without the mask: the fill with raw candidates, reporting success |
| GeneratorSisd.Generator.RandIntMasked | src/random/generator_sisd.c:270-295 | `RandInt` with its mask applied: the fill with masked candidates, reporting success |
| GeneratorSisd.Generator.Walk | src/random/generator_sisd.c:354-368 | the inner loop yields the bit-trie walk's word and state |
| GeneratorSisd.Generator.Element | src/random/generator_sisd.c:354-370 | one element is the walk from the carried accumulator, stored at dest[i] |
| GeneratorSisd.Generator.VecBias | src/random/generator_sisd.c:340-374 | dest[0..len) is `VecBias` as written, with the accumulator carried across elements; the state is after len blocks |
| GeneratorSisd.Generator.VecBiasReset | src/random/generator_sisd.c:340-374 | dest[0..len) is the corrected vector, each element a fresh `bernoulli` |
| GeneratorSisd.TraceAt | src/random/generator_sisd.c:283-292 | in a trace, run i from state i accepts value i - min and ends at state i + 1 |
| GeneratorSisd.TraceCons | src/random/generator_sisd.c:283-292 | a run followed by a trace is a trace |
| GeneratorSisd.FillTrace | src/random/generator_sisd.c:283-292 | the fill's values and intermediate states form a trace ending at the fill's final state |
| GeneratorSisd.FillCons | src/random/generator_sisd.c:283-292 | filling n elements is one run then n - 1 elements |
| GeneratorSisd.VecBiasCarryCons | src/random/generator_sisd.c:352-370 | `VecBias` as written is one walk from the carried accumulator, then the rest from its result |
| GeneratorSisd.VecBiasFreshCons | src/random/generator_sisd.c:352-370 | the corrected vector is one walk from 0, then the rest |
| GeneratorSisd.RdRandPcg | src/random/generator_sisd.c:140-146 | seed 0: both PCG words come from the retry loops, and failure is reported exactly when a loop fails |
| GeneratorSisd.ForceOdd | src/random/generator_sisd.c:150 | forcing the increment odd makes the buffer the PCG state of its two words |
| GeneratorSisd.Pcg64iNew | src/random/generator_sisd.c:128-159 | a non-zero seed gives the state `[Hash(s), Hash(Hash(s)) OR 1]`; seed 0 succeeds exactly when both retry loops succeed and then holds their words |
| GeneratorSisd.Xsh64New | src/random/generator_sisd.c:165-189 | a non-zero seed gives the state `Hash(s)`; seed 0 succeeds exactly when the retry loop succeeds and then holds its word |
| GeneratorSisd.GeneratorNew | src/random/generator_sisd.c:107-122 | the two identifiers dispatch to their creators; a non-zero seed always succeeds; any other identifier gives `ArgBounds` and no generator |
| GeneratorSisd.DeterministicSeed | test/random/test_generator_sisd.c:28-77 | two generators of one kind created from one non-zero seed fill identical arrays, namely the seeded stream |
| RandomSisd.ErrorDesc | src/random/random_sisd.c:25-33 | codes from SUCCESS up to but excluding UNDEFINED_ERROR get their table entry; every other code gets "invalid error code" |
| RandomSisd.ErrorDescIdentifies | src/random/random_sisd.c:18-23 | each defined code has its own description, distinct from the invalid-code text |
| RandomSisd.U64Generator.constructor | src/random/random_sisd.c:152 | the allocated struct has the requested kind |
| RandomSisd.U64Generator.NextPcg64 | src/random/random_sisd.c:220-231 | returns the permutation of the pre-update state, steps the state, and leaves the increment unchanged |
| RandomSisd.U64Generator.NextXorshift64 | src/random/random_sisd.c:281-290 | returns the post-update state, which is the stream's next word |
| RandomSisd.U64Generator.Next | src/random/random_sisd.c:188 | `next` is the kind's own step and keeps the increment odd |
| RandomSisd.U64Generator.RandInt64 | src/random/random_sisd.c:299-312 | the result lies in [min, max] and is the masked rejection function's value plus min, with the state it leaves |
| RandomSisd.U64Generator.Bernoulli64 | src/random/random_sisd.c:357-376 | the result and the state are the bit-trie walk from ctz(n) with accumulator 0 |
| RandomSisd.U64Generator.Binomial64 | src/random/random_sisd.c:383-398 | the count and the state are the binomial function's, so the count is at most k |
| RandomSisd.U64Generator.RdRandPcg | src/random/random_sisd.c:168-180 | seed 0: both PCG words come from the retry loops, and failure is reported exactly when a loop fails |
| RandomSisd.U64Generator.ForceOdd | src/random/random_sisd.c:183 | forcing the increment odd makes the struct the PCG state of its two words |
| RandomSisd.BinomialCons | src/random/random_sisd.c:388-395 | one round of the count: all lanes of a word while more than 64 trials remain, else the top k lanes |
| RandomSisd.InitPcg64Insecure | src/random/random_sisd.c:148-196 | a non-zero seed gives state h(s) and increment h(h(s)) OR 1 with SUCCESS; seed 0 returns null with RDRAND_FAIL exactly when a retry loop fails |
| RandomSisd.InitXorshift64 | src/random/random_sisd.c:237-276 | a non-zero seed gives state h(s) with SUCCESS; seed 0 returns null with RDRAND_FAIL exactly when the retry loop fails |

## Left out

- Allocation: `malloc` failure (`SPK_ERROR_STDMALLOC`, `RANDOM_SISD_MALLOC_FAIL`), `free`, `spk_GeneratorDelete` and the pointer layout of the interface after the state block. Dafny's `new` cannot fail and memory is not freed.
- On an `rdrand` failure the C creators leak the block. The buffer API also returns it through `*rng`; the model returns the unusable generator or null.
- The `error` pointer of `random_sisd_init_*` may be NULL. The model always returns the code.
- The uniform-real sampler `unid` is never implemented (NULL hook) and is floating point.
- Seeding from `rdrand` installs the word without a zero check (src/random/generator_sisd.c:178-179, src/random/random_sisd.c:258-262). A zero word leaves xorshift stuck at 0 forever. The model keeps this behaviour (`Engine.RdRandZeroWordStuck`); a zero word has probability 2^-64.
- Bits.PcgOut: states only that state 0 outputs 0. That rxs-m-xs is a permutation is not proved: inverting the 64-bit multiplications is beyond the solver's budget.
- Bits.PcgStep: states the relation of the low two bits, not that the LCG step is a bijection, for the same reason.
- `_rdrand64_step` is a hardware instruction. It is an oracle of outcomes given in advance; the word a failed attempt writes is not modelled.
- GeneratorSisd.Generator.RandInt: the do-while rejection loops have no bound, so each sampling method takes a ghost `fuel` and requires acceptance within it. A run that never accepts is not modelled.
- RandomSisd.U64Generator.RandInt64: same ghost `fuel` bound as `RandInt`.
- `min >= max` is excluded by precondition: `__builtin_clzll(0)` is undefined at `min == max`, and `max - min` wraps when `min > max`.
- `n == 0` and `m > 64` are excluded: `__builtin_ctzll(0)` and shifts of 64 or more are undefined. `k == 0` in the binomial count is excluded for the same reason.
- The `success` counter of `random_binomial_64` is an unbounded integer. It cannot exceed k, so it never wraps.
- The statistical tests (the pi estimate and the bias frequencies) are probabilistic. The per-lane probability is proved instead (`Sampling.LaneProbability`).
- The timer module, the benchmarks and the bit climber are outside the engine.
- The function-pointer hooks are replaced by a dispatch on the generator's kind.

## Findings

| source | as written | input that shows it | evidently intended | confidence | as-written member | corrected member |
|---|---|---|---|---|---|---|
| src/random/generator_sisd.c:281-289 | `RandInt` computes `mask` but compares the raw draw with `ceil`, so a draw is accepted only when its full 64-bit value is at most `max - min` | range [0, 1] from xorshift state 1: the first draw 0x40822041 is rejected; only 2 of 2^64 words are ever accepted | each draw is ANDed with the mask before the comparison, as `random_int_64` does at src/random/random_sisd.c:307 | high; not executed | GeneratorSisd.Generator.RandInt, Sampling.RandIntUnmaskedRejects | GeneratorSisd.Generator.RandIntMasked |
| src/random/generator_sisd.c:349-370 | the accumulator of `VecBias` is set to 0 once, before the element loop, so each element's walk starts from the previous element | n = 1, m = 1, two elements from xorshift state 1: element 1 is 0x1000_4106_4c83_3441, the OR of both draws, instead of the second draw 0x1000_4106_0c01_1441 | the accumulator is reset to 0 for each element, as `random_bernoulli_64` does at src/random/random_sisd.c:359 | high; not executed | GeneratorSisd.Generator.VecBias, Sampling.VecBiasNoResetDiffers, Sampling.VecBiasHalf | GeneratorSisd.Generator.VecBiasReset, Sampling.VecBiasFreshAt, Sampling.VecBiasHalfFresh |
