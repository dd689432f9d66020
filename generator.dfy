/** The buffer-filling generator API (`spk_generator`): a heap block that
    holds the generator's state words, and the operations that fill a
    caller's array with raw words, bounded integers or biased bit vectors.

    The C interface stores the operations as function pointers chosen at
    creation time; here the generator records its kind and each operation
    dispatches on it, which is the same choice made once. */
module GeneratorSisd {
  import opened Bits
  import opened Engine
  import opened Sampling

  /** The error codes the buffer API returns. The library never defines
      their numeric values, so they are modelled by name. */
  datatype SpkError = Success | ArgBounds | RdRand | StdMalloc | Undefined

  /** The public generator identifiers: the family in the high byte and the
      word width (64) in the low byte. */
  const Pcg64iId: int := 0x140
  const Xsh64Id: int := 0x240

  /** The number of `rdrand` attempts `RdRandRetry` makes per word. */
  const RdRandLimit: nat := 10

  /** A generator: its kind (which fixes the `next` it was given) and its
      state words. PCG keeps the state in buffer[0] and the increment in
      buffer[1]; xorshift keeps its one state word in buffer[0]. */
  class Generator {
    const kind: Kind
    const buffer: array<bv64>

    /** The buffer is as long as the kind needs, and a PCG increment is odd. */
    ghost predicate Valid()
      reads this, buffer
    {
      buffer.Length == (if kind == Pcg64i then 2 else 1) &&
      (kind == Pcg64i ==> buffer[1] & 1 == 1)
    }

    /** The engine state the buffer holds. */
    ghost function Gen(): (g: Gen)
      reads this, buffer
      requires Valid()
      ensures g.KindOf() == kind
    {
      if kind == Pcg64i then Pcg(buffer[0], buffer[1]) else Xsh(buffer[0])
    }

    /** The block `malloc` returns: the state words are not set yet. */
    constructor (kind: Kind)
      ensures this.kind == kind && fresh(buffer)
      ensures buffer.Length == (if kind == Pcg64i then 2 else 1)
    {
      this.kind := kind;
      buffer := new bv64[if kind == Pcg64i then 2 else 1];
    }

    /** `Pcg64iNext`: writes n outputs to dest, each the rxs-m-xs output
        of the state before its LCG update. */
    method Pcg64iNext(dest: array<bv64>, n: nat)
      requires Valid() && kind == Pcg64i && n <= dest.Length && dest != buffer
      modifies buffer, dest
      ensures Valid() && buffer[1] == old(buffer[1])
      ensures dest[..n] == Draws(old(Gen()), n)
      ensures dest[n..] == old(dest[n..])
      ensures Gen() == Advance(old(Gen()), n)
    {
      hide PcgOut, PcgStep, XshStep;
      ghost var g0 := Gen();
      var i := 0;
      while i < n
        invariant 0 <= i <= n
        invariant Valid() && buffer[1] == old(buffer[1])
        invariant dest[..i] == Draws(g0, i)
        invariant dest[n..] == old(dest[n..])
        invariant Gen() == Advance(g0, i)
      {
        var x := buffer[0];
        buffer[0] := PcgStep(buffer[0], buffer[1]);
        dest[i] := PcgOut(x);
        DrawsSnoc(g0, i);
        i := i + 1;
      }
    }

    /** `Xsh64Next`: writes n outputs to dest, each the state after its
        xorshift round. */
    method Xsh64Next(dest: array<bv64>, n: nat)
      requires Valid() && kind == Xsh64 && n <= dest.Length && dest != buffer
      modifies buffer, dest
      ensures Valid()
      ensures dest[..n] == Draws(old(Gen()), n)
      ensures dest[n..] == old(dest[n..])
      ensures Gen() == Advance(old(Gen()), n)
    {
      hide PcgOut, PcgStep, XshStep;
      ghost var g0 := Gen();
      var i := 0;
      while i < n
        invariant 0 <= i <= n
        invariant Valid()
        invariant dest[..i] == Draws(g0, i)
        invariant dest[n..] == old(dest[n..])
        invariant Gen() == Advance(g0, i)
      {
        buffer[0] := XshStep(buffer[0]);
        dest[i] := buffer[0];
        DrawsSnoc(g0, i);
        i := i + 1;
      }
    }

    /** `rng->next`: the `next` this generator was created with. */
    method Next(dest: array<bv64>, n: nat)
      requires Valid() && n <= dest.Length && dest != buffer
      modifies buffer, dest
      ensures Valid()
      ensures dest[..n] == Draws(old(Gen()), n)
      ensures dest[n..] == old(dest[n..])
      ensures Gen() == Advance(old(Gen()), n)
    {
      hide PcgOut, PcgStep, XshStep;
      if kind == Pcg64i {
        Pcg64iNext(dest, n);
      } else {
        Xsh64Next(dest, n);
      }
    }

    /** One call `rng->next(rng, &outp, 1)` into a one-word buffer. */
    method NextWord(outp: array<bv64>)
      requires Valid() && outp.Length == 1 && outp != buffer
      modifies buffer, outp
      ensures Valid()
      ensures outp[0] == Output(old(Gen()))
      ensures Gen() == Step(old(Gen()))
    {
      hide PcgOut, PcgStep, XshStep;
      ghost var g := Gen();
      Next(outp, 1);
      assert outp[..1] == Draws(g, 1) == [Output(g)];
      assert Advance(g, 1) == Step(g);
    }

    /** The do-while loop of `RandInt` for one element: draws until the
        candidate (the raw draw, or the draw ANDed with mask when masked)
        is at most ceil. `fuel` is a ghost bound within which a candidate
        is assumed to be accepted, since the loop has no bound of its own. */
    method RejectLoop(outp: array<bv64>, ceil: u64, mask: nat, masked: bool, ghost fuel: nat) returns (v: nat)
      requires Valid() && outp.Length == 1 && outp != buffer && ceil > 0 && mask == Mask(ceil)
      requires Reject(Gen(), ceil, masked, fuel).Some?
      modifies buffer, outp
      ensures Valid()
      ensures v <= ceil
      ensures Reject(old(Gen()), ceil, masked, fuel) == Some((v, Gen()))
    {
      hide PcgOut, PcgStep, XshStep;
      ghost var gp := Gen();
      ghost var f := fuel;
      NextWord(outp);
      v := if masked then AndInt(outp[0] as int, mask) else outp[0] as int;
      while v > ceil
        invariant Valid() && f > 0
        invariant Reject(gp, ceil, masked, f) == Reject(old(Gen()), ceil, masked, fuel)
        invariant v == Candidate(gp, ceil, masked) && Gen() == Step(gp)
        decreases f
      {
        gp, f := Step(gp), f - 1;
        NextWord(outp);
        v := if masked then AndInt(outp[0] as int, mask) else outp[0] as int;
      }
    }

    /** One element of `RandInt`: the rejection loop, then the accepted
        candidate plus min. */
    method SampleOne(outp: array<bv64>, min: u64, ceil: u64, mask: nat, masked: bool,
                     ghost fuel: nat, ghost w: int, ghost g1: Gen) returns (x: u64)
      requires Valid() && outp.Length == 1 && outp != buffer
      requires ceil > 0 && min + ceil < Word && mask == Mask(ceil)
      requires Reject(Gen(), ceil, masked, fuel).Some?
      requires Reject(Gen(), ceil, masked, fuel).value == (w - min, g1)
      modifies buffer, outp
      ensures Valid() && Gen() == g1 && x == w
    {
      hide PcgOut, PcgStep, XshStep;
      var v := RejectLoop(outp, ceil, mask, masked, fuel);
      x := v + min;
    }

    /** The element loop of `RandInt`, with the candidate either the raw
        draw (masked false, as the code is written) or the masked draw
        (masked true). */
    method Sample(dest: array<u64>, n: nat, min: u64, max: u64, masked: bool, ghost fuel: nat)
      requires Valid() && n <= dest.Length && dest as object != buffer && min < max
      requires Fill(Gen(), n, min, max - min, masked, fuel).Some?
      modifies buffer, dest
      ensures Valid()
      ensures dest[..n] == Fill(old(Gen()), n, min, max - min, masked, fuel).value.0
      ensures dest[n..] == old(dest[n..])
      ensures Gen() == Fill(old(Gen()), n, min, max - min, masked, fuel).value.1
    {
      hide PcgOut, PcgStep, XshStep;
      var ceil: u64 := max - min;
      ghost var g0 := Gen();
      ghost var total := Fill(g0, n, min, ceil, masked, fuel).value;
      ghost var states := FillStates(g0, n, min, ceil, masked, fuel);
      FillTrace(g0, n, min, ceil, masked, fuel);
      SampleTrace(dest, n, min, ceil, masked, fuel, total.0, states);
    }

    /** The element loop of `RandInt`, run along a trace of rejection runs:
        element i is the run from state i, plus min, ending at state i + 1. */
    method SampleTrace(dest: array<u64>, n: nat, min: u64, ceil: u64, masked: bool, ghost fuel: nat,
                       ghost vals: seq<nat>, ghost states: seq<Gen>)
      requires Valid() && n <= dest.Length && dest as object != buffer
      requires ceil > 0 && min + ceil < Word
      requires |vals| == n && |states| == n + 1 && states[0] == Gen()
      requires IsTrace(states, vals, min, ceil, masked, fuel)
      modifies buffer, dest
      ensures Valid() && Gen() == states[n]
      ensures dest[..n] == vals
      ensures dest[n..] == old(dest[n..])
    {
      hide PcgOut, PcgStep, XshStep, Output, Step, Candidate;
      var outp := new bv64[1];
      var mask := Mask(ceil);
      var i := 0;
      while i < n
        invariant 0 <= i <= n && Valid() && Gen() == states[i]
        invariant dest[..i] == vals[..i]
        invariant dest[n..] == old(dest[n..])
      {
        TraceAt(states, vals, min, ceil, masked, fuel, i);
        var x := SampleOne(outp, min, ceil, mask, masked, fuel, vals[i], states[i + 1]);
        dest[i] := x;
        i := i + 1;
      }
    }

    /** `RandInt` as written: the mask is computed but never applied, so a
        draw is accepted only when its full 64-bit value is at most
        max - min. Always reports success. */
    method RandInt(dest: array<u64>, n: nat, min: u64, max: u64, ghost fuel: nat) returns (err: SpkError)
      requires Valid() && n <= dest.Length && dest as object != buffer && min < max
      requires Fill(Gen(), n, min, max - min, false, fuel).Some?
      modifies buffer, dest
      ensures err == Success && Valid()
      ensures dest[..n] == Fill(old(Gen()), n, min, max - min, false, fuel).value.0
      ensures dest[n..] == old(dest[n..])
      ensures Gen() == Fill(old(Gen()), n, min, max - min, false, fuel).value.1
    {
      hide PcgOut, PcgStep, XshStep;
      Sample(dest, n, min, max, false, fuel);
      err := Success;
    }

    /** `RandInt` as its bitmask rejection is meant to work: each draw is
        ANDed with the least all-ones mask covering max - min before the
        comparison, so at least half of all draws are accepted. */
    method RandIntMasked(dest: array<u64>, n: nat, min: u64, max: u64, ghost fuel: nat) returns (err: SpkError)
      requires Valid() && n <= dest.Length && dest as object != buffer && min < max
      requires Fill(Gen(), n, min, max - min, true, fuel).Some?
      modifies buffer, dest
      ensures err == Success && Valid()
      ensures dest[..n] == Fill(old(Gen()), n, min, max - min, true, fuel).value.0
      ensures dest[n..] == old(dest[n..])
      ensures Gen() == Fill(old(Gen()), n, min, max - min, true, fuel).value.1
    {
      hide PcgOut, PcgStep, XshStep;
      Sample(dest, n, min, max, true, fuel);
      err := Success;
    }

    /** The inner loop of `VecBias`: for each bit pc of n from ctz(n) up to
        m - 1, one draw, ANDed into the accumulator on a 0-bit and ORed in
        on a 1-bit. */
    method Walk(n: u64, m: int, acc: bv64, output: array<bv64>) returns (r: bv64)
      requires Valid() && n > 0 && m <= 64 && output.Length == 1 && output != buffer
      modifies buffer, output
      ensures Valid()
      ensures (r, Gen()) == BiasWalk(old(Gen()), n, Ctz(n), m, acc)
    {
      hide PcgOut, PcgStep, XshStep;
      ghost var g0 := Gen();
      r := acc;
      var pc := Ctz(n);
      while pc < m
        invariant Valid()
        invariant BiasWalk(Gen(), n, pc, m, r) == BiasWalk(g0, n, Ctz(n), m, acc)
        decreases m - pc
      {
        ghost var g := Gen();
        ghost var r0 := r;
        NextWord(output);
        r := Accumulate(r, NBit(n, pc), output[0]);
        WalkStep(g, n, pc, m, r0, r);
        pc := pc + 1;
      }
    }

    /** One element of `VecBias`: the walk from acc, stored at dest[i]. */
    method Element(dest: array<bv64>, i: nat, n: u64, m: int, acc: bv64, output: array<bv64>) returns (r: bv64)
      requires Valid() && i < dest.Length && dest != buffer && n > 0 && m <= 64
      requires output.Length == 1 && output != buffer && output != dest
      modifies buffer, dest, output
      ensures Valid()
      ensures (r, Gen()) == BiasWalk(old(Gen()), n as nat, Ctz(n as nat), m, acc)
      ensures dest[..i + 1] == old(dest[..i]) + [r]
      ensures dest[i + 1..] == old(dest[i + 1..])
    {
      hide PcgOut, PcgStep, XshStep;
      r := Walk(n, m, acc, output);
      dest[i] := r;
    }

    /** `VecBias` as written: len biased words into dest, the accumulator
        set to 0 once before the element loop and carried from each
        element's walk into the next. */
    method VecBias(dest: array<bv64>, len: nat, n: u64, m: int) returns (err: SpkError)
      requires Valid() && len <= dest.Length && dest != buffer && n > 0 && m <= 64
      modifies buffer, dest
      ensures err == Success && Valid()
      ensures dest[..len] == VecBiasCarry(old(Gen()), len, n as nat, m, 0).0
      ensures dest[len..] == old(dest[len..])
      ensures Gen() == VecBiasCarry(old(Gen()), len, n as nat, m, 0).1
    {
      hide PcgOut, PcgStep, XshStep, BiasWalk, Output, Step, Valid, Gen;
      ghost var total := VecBiasCarry(Gen(), len, n as nat, m, 0);
      var accumulator: bv64 := 0;
      var output := new bv64[1];
      var i := 0;
      ghost var left := len;
      while i < len
        invariant 0 <= i <= len && left == len - i
        invariant Valid()
        invariant total.0 == dest[..i] + VecBiasCarry(Gen(), left, n as nat, m, accumulator).0
        invariant total.1 == VecBiasCarry(Gen(), left, n as nat, m, accumulator).1
        invariant dest[len..] == old(dest[len..])
      {
        ghost var g := Gen();
        ghost var acc0 := accumulator;
        ghost var done := dest[..i];
        VecBiasCarryCons(g, left, n as nat, m, acc0);
        accumulator := Element(dest, i, n, m, accumulator, output);
        ghost var rest := VecBiasCarry(Gen(), left - 1, n as nat, m, accumulator).0;
        assert total.0 == done + ([accumulator] + rest);
        assert done + ([accumulator] + rest) == (done + [accumulator]) + rest;
        i, left := i + 1, left - 1;
      }
      err := Success;
    }

    /** `VecBias` with the accumulator reset to 0 for each element, as
        `random_bernoulli_64` starts each word: every element is an
        independent biased word. */
    method VecBiasReset(dest: array<bv64>, len: nat, n: u64, m: int) returns (err: SpkError)
      requires Valid() && len <= dest.Length && dest != buffer && n > 0 && m <= 64
      modifies buffer, dest
      ensures err == Success && Valid()
      ensures dest[..len] == VecBiasFresh(old(Gen()), len, n as nat, m).0
      ensures dest[len..] == old(dest[len..])
      ensures Gen() == VecBiasFresh(old(Gen()), len, n as nat, m).1
    {
      hide PcgOut, PcgStep, XshStep, BiasWalk, Output, Step, Valid, Gen;
      ghost var total := VecBiasFresh(Gen(), len, n as nat, m);
      var output := new bv64[1];
      var i := 0;
      ghost var left := len;
      while i < len
        invariant 0 <= i <= len && left == len - i
        invariant Valid()
        invariant total.0 == dest[..i] + VecBiasFresh(Gen(), left, n as nat, m).0
        invariant total.1 == VecBiasFresh(Gen(), left, n as nat, m).1
        invariant dest[len..] == old(dest[len..])
      {
        ghost var g := Gen();
        ghost var done := dest[..i];
        VecBiasFreshCons(g, left, n as nat, m);
        var accumulator := Element(dest, i, n, m, 0, output);
        ghost var rest := VecBiasFresh(Gen(), left - 1, n as nat, m).0;
        assert total.0 == done + ([accumulator] + rest);
        assert done + ([accumulator] + rest) == (done + [accumulator]) + rest;
        i, left := i + 1, left - 1;
      }
      err := Success;
    }
  }

  /** A fill of n > 0 elements is one accepted rejection run, whose value
      plus min is its first element, followed by the fill of the other
      n - 1 elements from where that run stopped. */
  lemma FillCons(g: Gen, n: nat, min: u64, ceil: u64, masked: bool, fuel: nat)
    requires ceil > 0 && min + ceil < Word && n > 0 && Fill(g, n, min, ceil, masked, fuel).Some?
    ensures Reject(g, ceil, masked, fuel).Some?
    ensures Fill(Reject(g, ceil, masked, fuel).value.1, n - 1, min, ceil, masked, fuel).Some?
    ensures Fill(g, n, min, ceil, masked, fuel).value.0 ==
      [Reject(g, ceil, masked, fuel).value.0 + min] + Fill(Reject(g, ceil, masked, fuel).value.1, n - 1, min, ceil, masked, fuel).value.0
    ensures Fill(g, n, min, ceil, masked, fuel).value.1 ==
      Fill(Reject(g, ceil, masked, fuel).value.1, n - 1, min, ceil, masked, fuel).value.1
  {
    hide PcgOut, PcgStep, XshStep, Output, Step, Mask, Candidate;
  }

  /** The states a fill passes through: state j is where element j's
      rejection run starts, and the last is where the fill ends. */
  ghost function FillStates(g: Gen, n: nat, min: u64, ceil: u64, masked: bool, fuel: nat): (r: seq<Gen>)
    requires ceil > 0 && min + ceil < Word && Fill(g, n, min, ceil, masked, fuel).Some?
    ensures |r| == n + 1 && r[0] == g
    decreases n
  {
    if n == 0 then [g]
    else
      FillCons(g, n, min, ceil, masked, fuel);
      [g] + FillStates(Reject(g, ceil, masked, fuel).value.1, n - 1, min, ceil, masked, fuel)
  }

  /** A trace of rejection runs: run j starts at state j, accepts
      vals[j] - min and ends at state j + 1. */
  ghost predicate IsTrace(states: seq<Gen>, vals: seq<nat>, min: u64, ceil: u64, masked: bool, fuel: nat)
    requires ceil > 0
    requires |states| == |vals| + 1
    decreases |vals|
  {
    |vals| == 0 ||
    (vals[0] >= min && Reject(states[0], ceil, masked, fuel).Some? &&
     Reject(states[0], ceil, masked, fuel).value == (vals[0] - min, states[1]) &&
     IsTrace(states[1..], vals[1..], min, ceil, masked, fuel))
  }

  /** One step of a trace, read off at index j. */
  lemma {:induction false} TraceAt(states: seq<Gen>, vals: seq<nat>, min: u64, ceil: u64, masked: bool, fuel: nat, j: nat)
    requires ceil > 0 && |states| == |vals| + 1 && j < |vals|
    requires IsTrace(states, vals, min, ceil, masked, fuel)
    ensures vals[j] >= min
    ensures Reject(states[j], ceil, masked, fuel).Some?
    ensures Reject(states[j], ceil, masked, fuel).value == (vals[j] - min, states[j + 1])
    decreases j
  {
    hide PcgOut, PcgStep, XshStep;
    if j > 0 {
      TraceAt(states[1..], vals[1..], min, ceil, masked, fuel, j - 1);
      assert states[1..][j - 1] == states[j] && states[1..][j] == states[j + 1];
    }
  }

  /** A rejection run from g accepting v and ending at g1, followed by a
      trace from g1, is a trace from g. */
  lemma TraceCons(g: Gen, v: nat, g1: Gen, states: seq<Gen>, vals: seq<nat>, min: u64, ceil: u64, masked: bool, fuel: nat)
    requires ceil > 0 && |states| == |vals| + 1 && states[0] == g1
    requires Reject(g, ceil, masked, fuel) == Some((v, g1))
    requires IsTrace(states, vals, min, ceil, masked, fuel)
    ensures IsTrace([g] + states, [v + min] + vals, min, ceil, masked, fuel)
  {
    hide PcgOut, PcgStep, XshStep;
    assert ([g] + states)[1..] == states && ([v + min] + vals)[1..] == vals;
  }

  /** The elements of a fill and the states it passes through form a
      trace, and the last state is where the fill ends. */
  lemma {:induction false} FillTrace(g: Gen, n: nat, min: u64, ceil: u64, masked: bool, fuel: nat)
    requires ceil > 0 && min + ceil < Word && Fill(g, n, min, ceil, masked, fuel).Some?
    ensures IsTrace(FillStates(g, n, min, ceil, masked, fuel), Fill(g, n, min, ceil, masked, fuel).value.0, min, ceil, masked, fuel)
    ensures FillStates(g, n, min, ceil, masked, fuel)[n] == Fill(g, n, min, ceil, masked, fuel).value.1
    decreases n
  {
    hide PcgOut, PcgStep, XshStep, Output, Step, Candidate, Reject;
    if n > 0 {
      hide IsTrace;
      FillCons(g, n, min, ceil, masked, fuel);
      var r := Reject(g, ceil, masked, fuel).value;
      var states := FillStates(g, n, min, ceil, masked, fuel);
      var restStates := FillStates(r.1, n - 1, min, ceil, masked, fuel);
      var vals := Fill(g, n, min, ceil, masked, fuel).value.0;
      var rest := Fill(r.1, n - 1, min, ceil, masked, fuel).value.0;
      FillTrace(r.1, n - 1, min, ceil, masked, fuel);
      assert states == [g] + restStates;
      assert vals == [r.0 + min] + rest;
      TraceCons(g, r.0, r.1, restStates, rest, min, ceil, masked, fuel);
    }
  }

  /** One element of `VecBias` as written: the walk from the carried
      accumulator, then the rest of the vector from where it stopped. */
  lemma VecBiasCarryCons(g: Gen, len: nat, n: nat, m: int, acc: bv64)
    requires n > 0 && len > 0
    ensures VecBiasCarry(g, len, n, m, acc).0 ==
      [BiasWalk(g, n, Ctz(n), m, acc).0] + VecBiasCarry(BiasWalk(g, n, Ctz(n), m, acc).1, len - 1, n, m, BiasWalk(g, n, Ctz(n), m, acc).0).0
    ensures VecBiasCarry(g, len, n, m, acc).1 ==
      VecBiasCarry(BiasWalk(g, n, Ctz(n), m, acc).1, len - 1, n, m, BiasWalk(g, n, Ctz(n), m, acc).0).1
  {
    hide PcgOut, PcgStep, XshStep, BiasWalk;
  }

  /** One element of the corrected `VecBias`: a fresh biased word, then the
      rest of the vector from where it stopped. */
  lemma VecBiasFreshCons(g: Gen, len: nat, n: nat, m: int)
    requires n > 0 && len > 0
    ensures VecBiasFresh(g, len, n, m).0 ==
      [BiasWalk(g, n, Ctz(n), m, 0).0] + VecBiasFresh(BiasWalk(g, n, Ctz(n), m, 0).1, len - 1, n, m).0
    ensures VecBiasFresh(g, len, n, m).1 == VecBiasFresh(BiasWalk(g, n, Ctz(n), m, 0).1, len - 1, n, m).1
  {
    hide PcgOut, PcgStep, XshStep, BiasWalk;
  }

  /* ---------------------------------------------------------------------
     Creation
     --------------------------------------------------------------------- */

  /** `Pcg64iNew`: a non-zero seed is hashed in place twice, giving the
      state and then the increment; seed 0 asks the hardware source for
      both words, ten attempts each. The increment's low bit is then forced
      on. When the hardware source fails the generator is left allocated
      and unusable and the error is returned. */
  method Pcg64iNew(seed: bv64, entropy: Entropy) returns (err: SpkError, rng: Generator)
    modifies entropy
    ensures fresh(rng) && fresh(rng.buffer) && rng.kind == Pcg64i
    ensures err == Success || err == RdRand
    ensures seed != 0 ==> err == Success && rng.Valid() && rng.Gen() == Seeded(Pcg64i, seed)
    ensures seed != 0 ==> entropy.pending == old(entropy.pending)
    ensures seed == 0 ==> (err == Success <==> RdRandWords(old(entropy.pending), 2, RdRandLimit).Some?)
    ensures seed == 0 && err == Success ==>
      rng.Valid() && rng.Gen() == FromWords(Pcg64i, RdRandWords(old(entropy.pending), 2, RdRandLimit).value.0) &&
      entropy.pending == RdRandWords(old(entropy.pending), 2, RdRandLimit).value.1
  {
    hide PcgOut, PcgStep, XshStep, Hash;
    rng := new Generator(Pcg64i);
    if seed != 0 {
      var s := Hash(seed);
      rng.buffer[0] := s;
      s := Hash(s);
      rng.buffer[1] := s;
    } else {
      var ok := RdRandPcg(rng, entropy);
      if !ok {
        return RdRand, rng;
      }
    }
    ForceOdd(rng);
    err := Success;
  }

  /** `Xsh64New`: a non-zero seed is hashed once into the state; seed 0 asks
      the hardware source for the state word, ten attempts. No zero guard is
      applied to the state (see `Engine.SeededXshNeverStuck`). */
  method Xsh64New(seed: bv64, entropy: Entropy) returns (err: SpkError, rng: Generator)
    modifies entropy
    ensures fresh(rng) && fresh(rng.buffer) && rng.kind == Xsh64
    ensures err == Success || err == RdRand
    ensures seed != 0 ==> err == Success && rng.Valid() && rng.Gen() == Seeded(Xsh64, seed)
    ensures seed != 0 ==> entropy.pending == old(entropy.pending)
    ensures seed == 0 ==> (err == Success <==> RdRandWords(old(entropy.pending), 1, RdRandLimit).Some?)
    ensures seed == 0 && err == Success ==>
      rng.Valid() && rng.Gen() == FromWords(Xsh64, RdRandWords(old(entropy.pending), 1, RdRandLimit).value.0) &&
      entropy.pending == RdRandWords(old(entropy.pending), 1, RdRandLimit).value.1
  {
    hide PcgOut, PcgStep, XshStep, Hash;
    rng := new Generator(Xsh64);
    if seed != 0 {
      rng.buffer[0] := Hash(seed);
    } else {
      ghost var p0 := entropy.pending;
      var ok, x := TryRdRand(entropy, RdRandLimit);
      if !ok {
        RdRandWordsStop(p0, 1, RdRandLimit);
        return RdRand, rng;
      }
      rng.buffer[0] := x;
      RdRandWordsStep(p0, 1, RdRandLimit);
    }
    err := Success;
  }

  /** `spk_GeneratorNew`: dispatch on the generator identifier; any other
      identifier is an argument-bounds error and no generator is made. */
  method GeneratorNew(identifier: int, seed: bv64, entropy: Entropy) returns (err: SpkError, rng: Generator?)
    modifies entropy
    ensures identifier != Pcg64iId && identifier != Xsh64Id ==>
      err == ArgBounds && rng == null && entropy.pending == old(entropy.pending)
    ensures identifier == Pcg64iId ==> rng != null && fresh(rng) && fresh(rng.buffer) && rng.kind == Pcg64i
    ensures identifier == Xsh64Id ==> rng != null && fresh(rng) && fresh(rng.buffer) && rng.kind == Xsh64
    ensures (identifier == Pcg64iId || identifier == Xsh64Id) && seed != 0 ==> err == Success
    ensures rng != null && err == Success ==> rng.Valid()
    ensures rng != null && err == Success && seed != 0 ==> rng.Gen() == Seeded(rng.kind, seed)
    ensures rng != null && seed == 0 ==>
      var words := RdRandWords(old(entropy.pending), StateWords(rng.kind), RdRandLimit);
      (err == Success <==> words.Some?) &&
      (err == Success ==> rng.Gen() == FromWords(rng.kind, words.value.0) && entropy.pending == words.value.1)
  {
    hide PcgOut, PcgStep, XshStep, Hash;
    if identifier == Pcg64iId {
      var g;
      err, g := Pcg64iNew(seed, entropy);
      rng := g;
    } else if identifier == Xsh64Id {
      var g;
      err, g := Xsh64New(seed, entropy);
      rng := g;
    } else {
      err, rng := ArgBounds, null;
    }
  }

  /** The seed-0 path of PCG creation: `RdRandRetry` into buffer[0], then,
      if it succeeded, into buffer[1]. */
  method RdRandPcg(rng: Generator, entropy: Entropy) returns (ok: bool)
    requires rng.kind == Pcg64i && rng.buffer.Length == 2
    modifies rng.buffer, entropy
    ensures var words := RdRandWords(old(entropy.pending), 2, RdRandLimit);
      (ok <==> words.Some?) &&
      (ok ==> rng.buffer[..] == words.value.0 && entropy.pending == words.value.1)
  {
    hide PcgOut, PcgStep, XshStep;
    ghost var p0 := entropy.pending;
    var x;
    ok, x := TryRdRand(entropy, RdRandLimit);
    if !ok {
      RdRandWordsStop(p0, 2, RdRandLimit);
      return;
    }
    rng.buffer[0] := x;
    ghost var p1 := entropy.pending;
    ok, x := TryRdRand(entropy, RdRandLimit);
    RdRandWordsStep(p0, 2, RdRandLimit);
    if !ok {
      RdRandWordsStop(p1, 1, RdRandLimit);
      return;
    }
    rng.buffer[1] := x;
    RdRandWordsStep(p1, 1, RdRandLimit);
    assert rng.buffer[..] == [rng.buffer[0], x];
  }

  /** The last step of PCG creation: the increment's low bit is set, so the
      two stored words become the state `PcgFrom` describes. */
  method ForceOdd(rng: Generator)
    requires rng.kind == Pcg64i && rng.buffer.Length == 2
    modifies rng.buffer
    ensures rng.Valid() && rng.Gen() == PcgFrom(old(rng.buffer[0]), old(rng.buffer[1]))
  {
    rng.buffer[1] := rng.buffer[1] | 1;
    OrOneIsOdd(rng.buffer[1]);
  }

  /** Two generators of one kind created from the same non-zero seed give
      the same stream: after each fills n words, the two arrays are equal,
      and both hold the first n draws of the seeded state. */
  method DeterministicSeed(identifier: int, seed: bv64, n: nat, e1: Entropy, e2: Entropy)
    returns (out1: array<bv64>, out2: array<bv64>)
    requires identifier == Pcg64iId || identifier == Xsh64Id
    requires seed != 0
    modifies e1, e2
    ensures out1[..] == out2[..]
    ensures out1[..] == Draws(Seeded(if identifier == Pcg64iId then Pcg64i else Xsh64, seed), n)
  {
    hide PcgOut, PcgStep, XshStep, Hash;
    var err1, rng1 := GeneratorNew(identifier, seed, e1);
    var err2, rng2 := GeneratorNew(identifier, seed, e2);
    out1 := new bv64[n];
    out2 := new bv64[n];
    rng1.Next(out1, n);
    rng2.Next(out2, n);
    assert out1[..] == out1[..n] && out2[..] == out2[..n];
  }
}
