/** The one-value-per-call generator API (`u64_generator`): a generator
    object whose state struct is updated by each call, with the raw `next`,
    a bounded integer, 64 biased bits and a binomial count, plus the error
    descriptions of the creation functions.

    The C object reaches its state through a `void *` and its operations
    through function pointers set at creation; here the generator records
    its kind and holds the state words as fields, and each operation
    dispatches on the kind. */
module RandomSisd {
  import opened Bits
  import opened Engine
  import opened Sampling

  /* ---------------------------------------------------------------------
     Error codes
     --------------------------------------------------------------------- */

  const ErrorSuccess: int := 0
  const ErrorRdRandFail: int := 1
  const ErrorMallocFail: int := 2
  const ErrorUndefined: int := 3

  /** The description table, indexed by the codes below `ErrorUndefined`. */
  const ErrorLookup: seq<string> := [
    "subroutine terminated successfully",
    "x86 rdrand instruction has failed",
    "stdlib malloc call has failed"
  ]

  const InvalidCode: string := "invalid error code"

  /** `random_sisd_error_desc`: the table entry for a code from
      `ErrorSuccess` up to but excluding `ErrorUndefined`, and the invalid
      code text for every other integer, `ErrorUndefined` included. */
  function ErrorDesc(error: int): (r: string)
    ensures ErrorSuccess <= error < ErrorUndefined ==> r == ErrorLookup[error]
    ensures !(ErrorSuccess <= error < ErrorUndefined) ==> r == InvalidCode
  {
    if ErrorSuccess <= error && error < ErrorUndefined then ErrorLookup[error] else InvalidCode
  }

  /** Each defined code has its own description, and none of them reads
      as an invalid code, so a description identifies its code. */
  lemma ErrorDescIdentifies(a: int, b: int)
    requires ErrorSuccess <= a < ErrorUndefined
    ensures ErrorDesc(a) != InvalidCode
    ensures ErrorDesc(a) == ErrorDesc(b) <==> a == b
  {
    assert ErrorLookup[0][0] == 's' && ErrorLookup[1][0] == 'x' && ErrorLookup[2][0] == 's';
    assert ErrorLookup[0][1] == 'u' && ErrorLookup[2][1] == 't';
    assert InvalidCode[0] == 'i';
  }

  /** The number of `rdrand` attempts `random_try_rdrand` is given per word. */
  const RdRandLimit: nat := 10

  /* ---------------------------------------------------------------------
     The generator object
     --------------------------------------------------------------------- */

  /** A generator and its state struct: PCG keeps `state` and `increment`;
      xorshift keeps only `state`, and its `increment` is unused. */
  class U64Generator {
    const kind: Kind
    var state: bv64
    var increment: bv64

    /** A PCG increment is odd. */
    ghost predicate Valid()
      reads this
    {
      kind == Pcg64i ==> increment & 1 == 1
    }

    /** The engine state the struct holds. */
    ghost function Gen(): (g: Gen)
      reads this
      ensures g.KindOf() == kind
    {
      match kind
      case Pcg64i => Pcg(state, increment)
      case Xsh64 => Xsh(state)
    }

    /** The block `malloc` returns: the state words are not set yet. */
    constructor (kind: Kind)
      ensures this.kind == kind
    {
      this.kind := kind;
      state, increment := 0, 0;
    }

    /** `random_next_pcg64_insecure`: the rxs-m-xs output of the state
        before the LCG update; only `state` changes. */
    method NextPcg64() returns (x: bv64)
      requires kind == Pcg64i
      modifies this
      ensures x == Output(old(Gen())) && Gen() == Step(old(Gen()))
      ensures increment == old(increment)
    {
      hide PcgOut, PcgStep, XshStep;
      var s := state;
      state := PcgStep(state, increment);
      x := PcgOut(s);
    }

    /** `random_next_xorshift64`: the state after one round, which is also
        the output. */
    method NextXorshift64() returns (x: bv64)
      requires kind == Xsh64
      modifies this
      ensures x == Output(old(Gen())) && Gen() == Step(old(Gen()))
      ensures x == state && increment == old(increment)
    {
      hide PcgOut, PcgStep, XshStep;
      state := XshStep(state);
      x := state;
    }

    /** `rng->next(rng->state)`: the `next` this generator was created
        with. It yields the next word of the stream and keeps the struct
        valid. */
    method Next() returns (x: bv64)
      requires Valid()
      modifies this
      ensures Valid()
      ensures x == Output(old(Gen())) && Gen() == Step(old(Gen()))
    {
      hide PcgOut, PcgStep, XshStep;
      if kind == Pcg64i {
        x := NextPcg64();
      } else {
        x := NextXorshift64();
      }
    }

    /** `random_int_64`: the mask is the smallest block of one-bits covering
        ceil = max - min; each pass draws one word and ANDs it with the mask,
        until the masked draw is at most ceil; the result is that value plus
        min. The loop has no bound of its own: `fuel` is a ghost bound
        within which a draw is assumed to be accepted. */
    method RandInt64(min: u64, max: u64, ghost fuel: nat) returns (r: u64)
      requires Valid() && min < max
      requires Reject(Gen(), max - min, true, fuel).Some?
      modifies this
      ensures Valid()
      ensures min <= r <= max
      ensures Reject(old(Gen()), max - min, true, fuel) == Some((r - min, Gen()))
    {
      hide PcgOut, PcgStep, XshStep, Valid;
      var ceil: u64 := max - min;
      var mask := Mask(ceil);
      ghost var gp := Gen();
      ghost var f := fuel;
      var x := Next();
      var outp := AndInt(x as int, mask);
      while outp > ceil
        invariant Valid() && f > 0
        invariant Reject(gp, ceil, true, f) == Reject(old(Gen()), ceil, true, fuel)
        invariant outp == Candidate(gp, ceil, true) && Gen() == Step(gp)
        decreases f
      {
        gp, f := Step(gp), f - 1;
        x := Next();
        outp := AndInt(x as int, mask);
      }
      r := outp + min;
    }

    /** `random_bernoulli_64`: the accumulator starts at 0 and, for each bit
        pc of n from ctz(n) up to m - 1, one draw is ANDed in on a 0-bit and
        ORed in on a 1-bit. */
    method Bernoulli64(n: u64, m: int) returns (r: bv64)
      requires Valid() && n > 0 && m <= 64
      modifies this
      ensures Valid()
      ensures (r, Gen()) == Bernoulli(old(Gen()), n, m)
    {
      hide PcgOut, PcgStep, XshStep, Valid;
      ghost var g0 := Gen();
      r := 0;
      var pc := Ctz(n);
      while pc < m
        invariant Valid()
        invariant BiasWalk(Gen(), n, pc, m, r) == BiasWalk(g0, n, Ctz(n), m, 0)
        decreases m - pc
      {
        ghost var g := Gen();
        ghost var r0 := r;
        var d := Next();
        r := Accumulate(r, NBit(n, pc), d);
        WalkStep(g, n, pc, m, r0, r);
        pc := pc + 1;
      }
    }

    /** `random_binomial_64`: while more than 64 trials remain, one biased
        word is drawn and all its lanes are counted; the last word is
        shifted right by 64 - k so that only its top k lanes are counted. */
    method Binomial64(k: u64, n: u64, m: int) returns (success: u64)
      requires Valid() && k >= 1 && n > 0 && m <= 64
      modifies this
      ensures Valid()
      ensures (success as int, Gen()) == Binomial(old(Gen()), k, n, m)
      ensures success <= k
    {
      hide PcgOut, PcgStep, XshStep, Valid, Bernoulli, Binomial, Popcount, Gen;
      ghost var total := Binomial(Gen(), k, n, m);
      ghost var k0 := k;
      var left := k;
      success := 0;
      while left > 64
        invariant 1 <= left <= k0 && Valid()
        invariant success <= k0 - left
        invariant success + Binomial(Gen(), left, n, m).0 == total.0
        invariant Binomial(Gen(), left, n, m).1 == total.1
        decreases left
      {
        BinomialCons(Gen(), left, n, m);
        var trials := Bernoulli64(n, m);
        success := success + Popcount(trials);
        left := left - 64;
      }
      BinomialCons(Gen(), left, n, m);
      var trials := Bernoulli64(n, m);
      success := success + TopCount(trials, left);
    }

    /** The seed-0 path of PCG creation: a retry loop for the state, then,
        if it succeeded, one for the increment. */
    method RdRandPcg(entropy: Entropy) returns (ok: bool)
      requires kind == Pcg64i
      modifies this, entropy
      ensures var words := RdRandWords(old(entropy.pending), 2, RdRandLimit);
        (ok <==> words.Some?) &&
        (ok ==> [state, increment] == words.value.0 && entropy.pending == words.value.1)
    {
      hide PcgOut, PcgStep, XshStep;
      ghost var p0 := entropy.pending;
      var x;
      ok, x := TryRdRand(entropy, RdRandLimit);
      if !ok {
        RdRandWordsStop(p0, 2, RdRandLimit);
        return;
      }
      state := x;
      ghost var p1 := entropy.pending;
      ok, x := TryRdRand(entropy, RdRandLimit);
      RdRandWordsStep(p0, 2, RdRandLimit);
      if !ok {
        RdRandWordsStop(p1, 1, RdRandLimit);
        return;
      }
      increment := x;
      RdRandWordsStep(p1, 1, RdRandLimit);
    }

    /** The last step of PCG creation: the increment's low bit is set, so the
        two struct words become the state `PcgFrom` describes. */
    method ForceOdd()
      requires kind == Pcg64i
      modifies this
      ensures Valid() && Gen() == PcgFrom(old(state), old(increment))
    {
      hide PcgOut, PcgStep, XshStep;
      OrOneIsOdd(increment);
      increment := increment | 1;
    }
  }

  /** One round of the binomial loop: a biased word, then either all its
      lanes and the remaining trials, or the top k lanes of it. */
  lemma BinomialCons(g: Gen, k: nat, n: nat, m: int)
    requires k >= 1 && n > 0
    ensures var w := Bernoulli(g, n, m);
      Binomial(g, k, n, m) ==
        if k > 64 then (Popcount(w.0) + Binomial(w.1, k - 64, n, m).0, Binomial(w.1, k - 64, n, m).1)
        else (TopCount(w.0, k), w.1)
  {
    hide PcgOut, PcgStep, XshStep, Bernoulli;
  }

  /* ---------------------------------------------------------------------
     Creation
     --------------------------------------------------------------------- */

  /** `random_sisd_init_pcg64_insecure`: a non-zero seed is hashed in place
      twice, giving the state and then the increment; seed 0 asks the
      hardware source for both words, ten attempts each, and a failure
      returns null with `ErrorRdRandFail`. The increment's low bit is then
      forced on. */
  method InitPcg64Insecure(seed: bv64, entropy: Entropy) returns (rng: U64Generator?, error: int)
    modifies entropy
    ensures rng != null ==> fresh(rng) && rng.kind == Pcg64i && rng.Valid() && error == ErrorSuccess
    ensures rng == null ==> error == ErrorRdRandFail
    ensures seed != 0 ==> rng != null && rng.Gen() == Seeded(Pcg64i, seed)
    ensures seed != 0 ==> entropy.pending == old(entropy.pending)
    ensures seed == 0 ==> (rng != null <==> RdRandWords(old(entropy.pending), 2, RdRandLimit).Some?)
    ensures seed == 0 && rng != null ==>
      rng.Gen() == FromWords(Pcg64i, RdRandWords(old(entropy.pending), 2, RdRandLimit).value.0) &&
      entropy.pending == RdRandWords(old(entropy.pending), 2, RdRandLimit).value.1
  {
    hide PcgOut, PcgStep, XshStep, Hash;
    var g := new U64Generator(Pcg64i);
    if seed != 0 {
      var s := Hash(seed);
      g.state := s;
      s := Hash(s);
      g.increment := s;
    } else {
      var ok := g.RdRandPcg(entropy);
      if !ok {
        return null, ErrorRdRandFail;
      }
    }
    g.ForceOdd();
    rng, error := g, ErrorSuccess;
  }

  /** `random_sisd_init_xorshift64`: a non-zero seed is hashed once into the
      state; seed 0 asks the hardware source for the state word, ten
      attempts, and a failure returns null with `ErrorRdRandFail`. */
  method InitXorshift64(seed: bv64, entropy: Entropy) returns (rng: U64Generator?, error: int)
    modifies entropy
    ensures rng != null ==> fresh(rng) && rng.kind == Xsh64 && rng.Valid() && error == ErrorSuccess
    ensures rng == null ==> error == ErrorRdRandFail
    ensures seed != 0 ==> rng != null && rng.Gen() == Seeded(Xsh64, seed)
    ensures seed != 0 ==> entropy.pending == old(entropy.pending)
    ensures seed == 0 ==> (rng != null <==> RdRandWords(old(entropy.pending), 1, RdRandLimit).Some?)
    ensures seed == 0 && rng != null ==>
      rng.Gen() == FromWords(Xsh64, RdRandWords(old(entropy.pending), 1, RdRandLimit).value.0) &&
      entropy.pending == RdRandWords(old(entropy.pending), 1, RdRandLimit).value.1
  {
    hide PcgOut, PcgStep, XshStep, Hash;
    var g := new U64Generator(Xsh64);
    if seed != 0 {
      g.state := Hash(seed);
    } else {
      ghost var p0 := entropy.pending;
      var ok, x := TryRdRand(entropy, RdRandLimit);
      if !ok {
        RdRandWordsStop(p0, 1, RdRandLimit);
        return null, ErrorRdRandFail;
      }
      g.state := x;
      RdRandWordsStep(p0, 1, RdRandLimit);
    }
    rng, error := g, ErrorSuccess;
  }
}
