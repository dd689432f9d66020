/** The sampling algorithms built on the raw stream, as functions of the
    generator state: the bitmask rejection sampler for an inclusive range,
    the bit-trie construction of 64 biased bits at once, and the binomial
    counter over those. Integer-valued scalars (bounds, counts, the
    numerator n and the exponent m) are integers; C's unsigned arithmetic on
    them is written out with halving, so `x >> k` is k halvings and `x & y`
    is taken bit by bit. Words drawn from the generator stay `bv64`. */
module Sampling {
  import opened Bits
  import opened Engine

  /** A C `uint64_t` read as an integer. */
  type u64 = x: int | 0 <= x < 0x1_0000_0000_0000_0000

  const Word: int := 0x1_0000_0000_0000_0000

  /* ---------------------------------------------------------------------
     Unsigned integers bit by bit
     --------------------------------------------------------------------- */

  function Pow2(k: nat): (r: nat)
    ensures r >= 1
  {
    if k == 0 then 1 else 2 * Pow2(k - 1)
  }

  lemma {:induction false} Pow2Mono(a: nat, b: nat)
    requires a <= b
    ensures Pow2(a) <= Pow2(b)
    decreases b
  {
    if a < b {
      Pow2Mono(a, b - 1);
    }
  }

  lemma Pow2Word()
    ensures Pow2(64) == Word
  {
    assert Pow2(0) == 1;
    hide Pow2;
    Pow2Byte(0);
    Pow2Byte(8);
    Pow2Byte(16);
    Pow2Byte(24);
    Pow2Byte(32);
    Pow2Byte(40);
    Pow2Byte(48);
    Pow2Byte(56);
  }

  /** Eight more bits multiply by 256. */
  lemma Pow2Byte(k: nat)
    ensures Pow2(k + 8) == 256 * Pow2(k)
  {
    assert Pow2(k + 8) == 2 * Pow2(k + 7);
    assert Pow2(k + 7) == 2 * Pow2(k + 6);
    assert Pow2(k + 6) == 2 * Pow2(k + 5);
    assert Pow2(k + 5) == 2 * Pow2(k + 4);
    assert Pow2(k + 4) == 2 * Pow2(k + 3);
    assert Pow2(k + 3) == 2 * Pow2(k + 2);
    assert Pow2(k + 2) == 2 * Pow2(k + 1);
    assert Pow2(k + 1) == 2 * Pow2(k);
  }

  lemma {:induction false} Pow2Add(a: nat, b: nat)
    ensures Pow2(a + b) == Pow2(a) * Pow2(b)
    decreases b
  {
    if b > 0 {
      Pow2Add(a, b - 1);
    }
  }

  /** Bit pc of n: `(n >> pc) & 1`. */
  function NBit(n: nat, pc: nat): (r: nat)
    ensures r == 0 || r == 1
    decreases pc
  {
    if pc == 0 then n % 2 else NBit(n / 2, pc - 1)
  }

  /** The low j bits of n, read as a number. */
  function Low(n: nat, j: nat): nat
    decreases j
  {
    if j == 0 then 0 else n % 2 + 2 * Low(n / 2, j - 1)
  }

  lemma {:induction false} LowBounds(n: nat, j: nat)
    ensures Low(n, j) < Pow2(j)
    ensures n < Pow2(j) ==> Low(n, j) == n
    decreases j
  {
    if j > 0 {
      LowBounds(n / 2, j - 1);
    }
  }

  /** Adding bit j to the low j bits gives the low j + 1 bits. */
  lemma {:induction false} LowSucc(n: nat, j: nat)
    ensures Low(n, j + 1) == Low(n, j) + (if NBit(n, j) == 1 then Pow2(j) else 0)
    decreases j
  {
    if j > 0 {
      LowSucc(n / 2, j - 1);
    }
  }

  /** `x >> k` on an unsigned integer: k halvings. */
  function ShiftRight(x: nat, k: nat): nat
    decreases k
  {
    if k == 0 then x else ShiftRight(x / 2, k - 1)
  }

  /** Shifting a block of a + b one-bits right by b leaves a one-bits. */
  lemma {:induction false} ShiftOnes(a: nat, b: nat)
    ensures ShiftRight(Pow2(a + b) - 1, b) == Pow2(a) - 1
    decreases b
  {
    if b > 0 {
      assert (Pow2(a + b) - 1) / 2 == Pow2(a + b - 1) - 1;
      ShiftOnes(a, b - 1);
    }
  }

  /** `x & y` on unsigned integers. */
  function AndInt(x: nat, y: nat): nat
    decreases x
  {
    if x == 0 || y == 0 then 0
    else 2 * AndInt(x / 2, y / 2) + (if x % 2 == 1 && y % 2 == 1 then 1 else 0)
  }

  lemma {:induction false} LowZero(j: nat)
    ensures Low(0, j) == 0
    decreases j
  {
    if j > 0 {
      LowZero(j - 1);
    }
  }

  /** ANDing with a block of j one-bits keeps exactly the low j bits. */
  lemma {:induction false} AndOnes(x: nat, j: nat)
    ensures AndInt(x, Pow2(j) - 1) == Low(x, j)
    decreases j
  {
    if j > 0 {
      if x == 0 {
        LowZero(j);
      } else {
        assert (Pow2(j) - 1) / 2 == Pow2(j - 1) - 1;
        AndOnes(x / 2, j - 1);
      }
    }
  }

  /** The number of significant bits of x: 64 minus `__builtin_clzll(x)`. */
  function BitLength(x: nat): (r: nat)
    ensures x < Pow2(r)
    ensures x > 0 ==> r >= 1 && Pow2(r - 1) <= x
    decreases x
  {
    if x == 0 then 0 else 1 + BitLength(x / 2)
  }

  lemma BitLengthOfWord(x: u64)
    ensures BitLength(x) <= 64
    ensures x == Word - 1 ==> BitLength(x) == 64
  {
    Pow2Word();
    if BitLength(x) > 64 {
      Pow2Mono(64, BitLength(x) - 1);
    }
    if x == Word - 1 && BitLength(x) < 64 {
      Pow2Mono(BitLength(x), 64 - 1);
    }
  }

  /** `__builtin_clzll(ceil)`, undefined for ceil == 0: the number of zero
      bits above the highest set bit, so that bit is bit 63 - r. */
  function Clz(ceil: u64): (r: nat)
    requires ceil > 0
    ensures r <= 63 && Pow2(63 - r) <= ceil < Pow2(64 - r)
  {
    BitLengthOfWord(ceil);
    64 - BitLength(ceil)
  }

  /** The rejection mask `~((uint64_t) 0) >> __builtin_clzll(ceil)`: the
      block of L one-bits for the bit length L of ceil. It is at least ceil
      and less than 2 * ceil, so more than half of the masked draws are
      accepted. */
  function Mask(ceil: u64): (r: nat)
    requires ceil > 0
    ensures r == Pow2(BitLength(ceil)) - 1
    ensures ceil <= r < 2 * ceil
  {
    var L := BitLength(ceil);
    BitLengthOfWord(ceil);
    Pow2Word();
    ShiftOnes(L, 64 - L);
    assert Pow2(L) == 2 * Pow2(L - 1);
    ShiftRight(Word - 1, Clz(ceil))
  }

  /** The mask is the smallest block of one-bits covering ceil: no larger
      than any other block of one-bits at least ceil. */
  lemma MaskIsLeastCover(ceil: u64)
    requires ceil > 0
    ensures forall j: nat :: ceil <= Pow2(j) - 1 ==> Mask(ceil) <= Pow2(j) - 1
  {
    var L := BitLength(ceil);
    forall j: nat | ceil <= Pow2(j) - 1
      ensures Mask(ceil) <= Pow2(j) - 1
    {
      if j < L {
        Pow2Mono(j, L - 1);
      } else {
        Pow2Mono(L, j);
      }
    }
  }

  /** A masked value never exceeds the mask. */
  lemma MaskedBelow(x: nat, ceil: u64)
    requires ceil > 0
    ensures AndInt(x, Mask(ceil)) <= Mask(ceil)
  {
    MaskIsLeastCover(ceil);
    AndOnes(x, BitLength(ceil));
    LowBounds(x, BitLength(ceil));
  }

  /** Over the full range the mask is all ones and keeps every word whole. */
  lemma FullMask(x: u64)
    ensures Mask(Word - 1) == Word - 1
    ensures AndInt(x, Mask(Word - 1)) == x
  {
    hide PcgOut, PcgStep, XshStep;
    BitLengthOfWord(Word - 1);
    MaskIsLeastCover(Word - 1);
    Pow2Word();
    AndOnes(x, 64);
    LowBounds(x, 64);
  }

  /* ---------------------------------------------------------------------
     Bitmask rejection sampling
     --------------------------------------------------------------------- */

  /** A raw draw read as an unsigned integer. */
  function Draw(g: Gen): nat {
    Output(g) as int
  }

  /** The value a draw offers for acceptance: the draw itself in the
      buffer API's `RandInt` as written (it computes the mask but never
      applies it), the masked draw in `random_int_64`. */
  function Candidate(g: Gen, ceil: u64, masked: bool): (r: nat)
    requires ceil > 0
    ensures masked ==> r <= Mask(ceil)
  {
    if masked then MaskedBelow(Draw(g), ceil); AndInt(Draw(g), Mask(ceil)) else Draw(g)
  }

  /** The do-while rejection loop: draw until the candidate is at most
      ceil. Rejection has no bound on its number of draws: `fuel` caps it,
      and None means nothing was accepted within `fuel` draws. The result
      is the accepted value and the state after its draw. */
  function Reject(g: Gen, ceil: u64, masked: bool, fuel: nat): (r: Option<(nat, Gen)>)
    requires ceil > 0
    ensures r.Some? ==> r.value.0 <= ceil
    decreases fuel
  {
    if fuel == 0 then None
    else if Candidate(g, ceil, masked) <= ceil then Some((Candidate(g, ceil, masked), Step(g)))
    else Reject(Step(g), ceil, masked, fuel - 1)
  }

  /** The sampler returns the first acceptable candidate of the stream,
      consuming the draws up to and including it. */
  lemma {:induction false} RejectFirst(g: Gen, ceil: u64, masked: bool, fuel: nat, j: nat)
    requires ceil > 0 && j < fuel
    requires forall i :: 0 <= i < j ==> Candidate(Advance(g, i), ceil, masked) > ceil
    requires Candidate(Advance(g, j), ceil, masked) <= ceil
    ensures Reject(g, ceil, masked, fuel) == Some((Candidate(Advance(g, j), ceil, masked), Advance(g, j + 1)))
    decreases j
  {
    hide PcgOut, PcgStep, XshStep;
    if j == 0 {
      assert Advance(g, 1) == Step(g);
    } else {
      assert Candidate(Advance(g, 0), ceil, masked) > ceil;
      forall i | 0 <= i < j - 1
        ensures Candidate(Advance(Step(g), i), ceil, masked) > ceil
      {
        assert Advance(g, i + 1) == Advance(Step(g), i);
      }
      RejectFirst(Step(g), ceil, masked, fuel - 1, j - 1);
    }
  }

  /** The sampler fails exactly when every candidate within the fuel is
      above ceil. */
  lemma {:induction false} RejectNone(g: Gen, ceil: u64, masked: bool, fuel: nat)
    requires ceil > 0
    ensures Reject(g, ceil, masked, fuel).None? <==>
      forall i :: 0 <= i < fuel ==> Candidate(Advance(g, i), ceil, masked) > ceil
    decreases fuel
  {
    hide PcgOut, PcgStep, XshStep, Output, Step, Candidate;
    if fuel > 0 {
      assert Advance(g, 0) == g;
      if Candidate(g, ceil, masked) <= ceil {
        assert Reject(g, ceil, masked, fuel).Some?;
        assert Candidate(Advance(g, 0), ceil, masked) <= ceil;
      } else {
        assert Reject(g, ceil, masked, fuel) == Reject(Step(g), ceil, masked, fuel - 1);
        RejectNone(Step(g), ceil, masked, fuel - 1);
        AllAboveShift(g, ceil, masked, fuel);
      }
    }
  }

  /** Past a rejected first candidate, "all candidates rejected" is the same
      statement about the rest of the stream. */
  lemma AllAboveShift(g: Gen, ceil: u64, masked: bool, fuel: nat)
    requires ceil > 0 && fuel > 0 && Candidate(g, ceil, masked) > ceil
    ensures (forall i :: 0 <= i < fuel ==> Candidate(Advance(g, i), ceil, masked) > ceil) <==>
      (forall i :: 0 <= i < fuel - 1 ==> Candidate(Advance(Step(g), i), ceil, masked) > ceil)
  {
    hide PcgOut, PcgStep, XshStep, Output, Step, Candidate;
    assert Advance(g, 0) == g;
    forall i | 0 < i < fuel
      ensures Advance(g, i) == Advance(Step(g), i - 1)
    {}
    if forall i :: 0 <= i < fuel - 1 ==> Candidate(Advance(Step(g), i), ceil, masked) > ceil {
      forall i | 0 <= i < fuel
        ensures Candidate(Advance(g, i), ceil, masked) > ceil
      {
        if i > 0 {
          assert Candidate(Advance(Step(g), i - 1), ceil, masked) > ceil;
        }
      }
    } else {
      var i :| 0 <= i < fuel - 1 && Candidate(Advance(Step(g), i), ceil, masked) <= ceil;
      assert Advance(g, i + 1) == Advance(Step(g), i);
      assert 0 <= i + 1 < fuel && Candidate(Advance(g, i + 1), ceil, masked) <= ceil;
    }
  }

  /** Over the full range nothing is rejected, masked or not: one draw, and
      the value is the raw draw. */
  lemma RejectFullRange(g: Gen, masked: bool, fuel: nat)
    requires fuel > 0
    ensures Reject(g, Word - 1, masked, fuel) == Some((Draw(g), Step(g)))
  {
    hide PcgOut, PcgStep, XshStep;
    FullMask(Draw(g));
  }

  /** The words of a stream read as unsigned integers. */
  function Words(ds: seq<bv64>): seq<nat> {
    if ds == [] then [] else [ds[0] as int] + Words(ds[1..])
  }

  /** The buffer API's `RandInt` over n elements: each element is one run
      of the rejection loop, plus min. */
  function Fill(g: Gen, n: nat, min: u64, ceil: u64, masked: bool, fuel: nat): (r: Option<(seq<nat>, Gen)>)
    requires ceil > 0 && min + ceil < Word
    ensures r.Some? ==> |r.value.0| == n
    decreases n
  {
    if n == 0 then Some(([], g))
    else match Reject(g, ceil, masked, fuel)
      case None => None
      case Some((v, g1)) =>
        match Fill(g1, n - 1, min, ceil, masked, fuel)
        case None => None
        case Some((rest, g2)) => Some(([v + min] + rest, g2))
  }

  /** A fill has n elements, each in [min, min + ceil]: the bounds are
      inclusive and every element fits in 64 bits. */
  lemma {:induction false} FillRange(g: Gen, n: nat, min: u64, ceil: u64, masked: bool, fuel: nat)
    requires ceil > 0 && min + ceil < Word
    ensures Fill(g, n, min, ceil, masked, fuel).Some? ==>
      forall i :: 0 <= i < n ==> min <= Fill(g, n, min, ceil, masked, fuel).value.0[i] <= min + ceil
    decreases n
  {
    hide PcgOut, PcgStep, XshStep;
    var r := Fill(g, n, min, ceil, masked, fuel);
    if n > 0 && r.Some? {
      var (v, g1) := Reject(g, ceil, masked, fuel).value;
      FillRange(g1, n - 1, min, ceil, masked, fuel);
      var rest := Fill(g1, n - 1, min, ceil, masked, fuel).value.0;
      assert r.value.0 == [v + min] + rest;
    }
  }

  /** Over the full range [0, 2^64 - 1] the fill never rejects: it consumes
      one draw per element and returns exactly the raw stream. */
  lemma {:induction false} FillFullRange(g: Gen, n: nat, masked: bool, fuel: nat)
    requires fuel > 0
    ensures Fill(g, n, 0, Word - 1, masked, fuel) == Some((Words(Draws(g, n)), Advance(g, n)))
    decreases n
  {
    hide PcgOut, PcgStep, XshStep;
    if n > 0 {
      RejectFullRange(g, masked, fuel);
      FillFullRange(Step(g), n - 1, masked, fuel);
      assert Words(Draws(g, n)) == [Draw(g)] + Words(Draws(Step(g), n - 1));
    }
  }

  /* ---------------------------------------------------------------------
     The bit trie: 64 biased bits at once
     --------------------------------------------------------------------- */

  /** `__builtin_ctzll(n)`, undefined for n == 0: the position of the lowest
      set bit. */
  function Ctz(n: nat): (r: nat)
    requires n > 0
    ensures NBit(n, r) == 1 && Low(n, r) == 0
    ensures forall i :: 0 <= i < r ==> NBit(n, i) == 0
    decreases n
  {
    if n % 2 == 1 then 0 else 1 + Ctz(n / 2)
  }

  /** A numerator below 2^j has its lowest set bit below j. */
  lemma {:induction false} CtzBelow(n: nat, j: nat)
    requires 0 < n < Pow2(j)
    ensures Ctz(n) < j
    decreases n
  {
    if n % 2 == 0 {
      CtzBelow(n / 2, j - 1);
    }
  }

  /** The number of draws one biased word costs: one per bit of n from
      ctz(n) up to m - 1. */
  function Steps(pc: nat, m: int): nat {
    if pc < m then m - pc else 0
  }

  /** The accumulator update for bit pc of n: AND the draw on a 0-bit, OR it
      on a 1-bit. A 1-bit only sets lanes, keeping every lane set in the
      accumulator or the draw; a 0-bit only clears them, keeping a lane
      only where both have it set. */
  function Mix(acc: bv64, bit: nat, d: bv64): (r: bv64)
    ensures bit == 1 ==> acc & !r == 0 && d & !r == 0
    ensures bit != 1 ==> r & !acc == 0 && r & !d == 0
  {
    if bit == 1 then acc | d else acc & d
  }

  /** The inner loop of `VecBias` and `random_bernoulli_64`, from bit pc of
      n upward to m - 1, starting from accumulator acc: the final
      accumulator and the state after the draws. It consumes exactly one
      draw per bit it visits. */
  function BiasWalk(g: Gen, n: nat, pc: nat, m: int, acc: bv64): (r: (bv64, Gen))
    ensures r.1 == Advance(g, Steps(pc, m))
    decreases Steps(pc, m)
  {
    if pc >= m then (acc, g)
    else BiasWalk(Step(g), n, pc + 1, m, Mix(acc, NBit(n, pc), Output(g)))
  }

  /** The switch in `VecBias` and `random_bernoulli_64`: on a 0-bit the draw is ANDed into the
      accumulator, on a 1-bit it is ORed in. */
  method Accumulate(acc: bv64, bit: nat, d: bv64) returns (r: bv64)
    requires bit <= 1
    ensures r == Mix(acc, bit, d)
  {
    match bit
    case 0 => r := acc & d;
    case 1 => r := acc | d;
  }

  /** One iteration of the walk: the draw of g mixed into the accumulator. */
  lemma WalkStep(g: Gen, n: nat, pc: nat, m: int, r0: bv64, r: bv64)
    requires pc < m && r == Mix(r0, NBit(n, pc), Output(g))
    ensures BiasWalk(Step(g), n, pc + 1, m, r) == BiasWalk(g, n, pc, m, r0)
  {}

  /** `random_bernoulli_64`: the walk from ctz(n), accumulator 0. One
      biased word costs m - ctz(n) draws. */
  function Bernoulli(g: Gen, n: nat, m: int): (r: (bv64, Gen))
    requires n > 0
    ensures r.1 == Advance(g, Steps(Ctz(n), m))
  {
    BiasWalk(g, n, Ctz(n), m, 0)
  }

  /** The first step of the walk is always an OR, so with the accumulator
      at 0 it starts from the first draw itself. */
  lemma BernoulliFirstStep(g: Gen, n: nat, m: int)
    requires n > 0 && Ctz(n) < m
    ensures Bernoulli(g, n, m) == BiasWalk(Step(g), n, Ctz(n) + 1, m, Output(g))
  {
    hide PcgOut, PcgStep, XshStep;
    assert Mix(0, 1, Output(g)) == Output(g);
  }

  /** With n = 2^(m-1), probability one half, the result is one raw draw. */
  lemma BernoulliHalf(g: Gen, m: nat)
    requires 1 <= m
    ensures Ctz(Pow2(m - 1)) == m - 1
    ensures Bernoulli(g, Pow2(m - 1), m) == (Output(g), Step(g))
  {
    hide PcgOut, PcgStep, XshStep;
    CtzPow2(m - 1);
    BernoulliFirstStep(g, Pow2(m - 1), m);
  }

  lemma {:induction false} CtzPow2(k: nat)
    ensures Ctz(Pow2(k)) == k
    decreases k
  {
    hide PcgOut, PcgStep, XshStep;
    if k > 0 {
      assert Pow2(k) / 2 == Pow2(k - 1);
      CtzPow2(k - 1);
    }
  }

  /* ---------------------------------------------------------------------
     One lane of the walk
     --------------------------------------------------------------------- */

  /** One lane's accumulator update: AND on a 0-bit, OR on a 1-bit. */
  function MixBit(a: bool, bit: nat, d: bool): bool {
    if bit == 1 then a || d else a && d
  }

  /** The walk as one lane sees it: bit pc of n upward, with the lane's bits
      of the successive draws. */
  function LaneWalk(n: nat, pc: nat, m: int, a: bool, bits: seq<bool>): bool
    decreases |bits|
  {
    if pc >= m || bits == [] then a
    else LaneWalk(n, pc + 1, m, MixBit(a, NBit(n, pc), bits[0]), bits[1..])
  }

  /** Lane q of each draw of a stream. */
  function LaneBits(ds: seq<bv64>, q: bv7): (r: seq<bool>)
    requires q < 64
    ensures |r| == |ds|
  {
    if ds == [] then [] else [Lane(ds[0], q) == 1] + LaneBits(ds[1..], q)
  }

  lemma MixLane(acc: bv64, bit: nat, d: bv64, q: bv7)
    requires q < 64
    ensures (Lane(Mix(acc, bit, d), q) == 1) == MixBit(Lane(acc, q) == 1, bit, Lane(d, q) == 1)
  {
    LaneIsBinary(acc, q);
    LaneIsBinary(d, q);
    if bit == 1 {
      LaneOr(acc, d, q);
    } else {
      LaneAnd(acc, d, q);
    }
  }

  /** Lane q of the walk's result depends on nothing but lane q of the
      accumulator and of the draws: the 64 lanes are 64 separate walks. */
  lemma {:induction false} BiasWalkLane(g: Gen, n: nat, pc: nat, m: int, acc: bv64, q: bv7)
    requires q < 64
    ensures (Lane(BiasWalk(g, n, pc, m, acc).0, q) == 1)
      == LaneWalk(n, pc, m, Lane(acc, q) == 1, LaneBits(Draws(g, Steps(pc, m)), q))
    decreases Steps(pc, m)
  {
    hide PcgOut, PcgStep, XshStep;
    if pc < m {
      var acc' := Mix(acc, NBit(n, pc), Output(g));
      MixLane(acc, NBit(n, pc), Output(g), q);
      BiasWalkLane(Step(g), n, pc + 1, m, acc', q);
      var ds := Draws(g, Steps(pc, m));
      assert ds == [Output(g)] + Draws(Step(g), Steps(pc + 1, m));
      assert ds[1..] == Draws(Step(g), Steps(pc + 1, m));
    }
  }

  /* ---------------------------------------------------------------------
     Probability of a lane
     --------------------------------------------------------------------- */

  /** The traversal of the probability tree: p/2 on a 0-bit, (p + 1)/2 on a
      1-bit, for bits pc..m-1 of n. */
  function ProbWalk(n: nat, pc: nat, m: int, p: real): real
    decreases Steps(pc, m)
  {
    if pc >= m then p
    else ProbWalk(n, pc + 1, m, if NBit(n, pc) == 1 then (p + 1.0) / 2.0 else p / 2.0)
  }

  /** After the low pc bits the walk stands at their value over 2^pc. */
  lemma {:induction false} ProbWalkFrom(n: nat, pc: nat, m: nat)
    requires pc <= m
    ensures ProbWalk(n, pc, m, Low(n, pc) as real / Pow2(pc) as real) == Low(n, m) as real / Pow2(m) as real
    decreases m - pc
  {
    if pc < m {
      LowSucc(n, pc);
      if NBit(n, pc) == 1 {
        HalfUp(Low(n, pc) as real, Pow2(pc) as real);
      } else {
        Half(Low(n, pc) as real, Pow2(pc) as real);
      }
      ProbWalkFrom(n, pc + 1, m);
    }
  }

  /** The traversal from the root ends at exactly n / 2^m. */
  lemma BernoulliProbWalk(n: nat, m: nat)
    requires 0 < n < Pow2(m)
    ensures ProbWalk(n, Ctz(n), m, 0.0) == n as real / Pow2(m) as real
  {
    var c := Ctz(n);
    CtzBelow(n, m);
    assert Low(n, c) == 0;
    assert Low(n, c) as real / Pow2(c) as real == 0.0;
    ProbWalkFrom(n, c, m);
    LowBounds(n, m);
    assert Low(n, m) == n;
  }

  /** The probability that one lane's walk ends at 1 when each draw bit is
      a fair coin, independent of the others: the average over the two
      values of the next bit. */
  function LaneProb(n: nat, pc: nat, m: int, a: bool): real
    decreases Steps(pc, m)
  {
    if pc >= m then (if a then 1.0 else 0.0)
    else (LaneProb(n, pc + 1, m, MixBit(a, NBit(n, pc), false))
          + LaneProb(n, pc + 1, m, MixBit(a, NBit(n, pc), true))) / 2.0
  }

  lemma Half(a: real, b: real)
    requires b > 0.0
    ensures (a / b) / 2.0 == a / (2.0 * b)
  {}

  lemma HalfUp(a: real, b: real)
    requires b > 0.0
    ensures (a / b + 1.0) / 2.0 == (a + b) / (2.0 * b)
  {
    var q := a / b;
    assert q * b == a;
    assert (q + 1.0) * b == a + b;
    assert (q + 1.0) / 2.0 * (2.0 * b) == a + b;
    Quotient((q + 1.0) / 2.0, 2.0 * b, a + b);
  }

  lemma Quotient(x: real, c: real, y: real)
    requires c > 0.0 && x * c == y
    ensures x == y / c
  {}

  lemma HalfUpSplit(p: real, k: real)
    requires k > 0.0
    ensures ((p + 1.0) / 2.0) / k == 0.5 / k + p / (2.0 * k)
  {}

  lemma HalfUpAverage(x: real, k: real)
    requires k > 0.0
    ensures ((x + 1.0) / 2.0) / k == (x / k + 1.0 / k) / 2.0
  {}

  lemma HalfAverage(x: real, k: real)
    requires k > 0.0
    ensures (x / 2.0) / k == (x / k) / 2.0
  {}

  /** The tree walk is affine in its starting value. */
  lemma {:induction false} ProbWalkAffine(n: nat, pc: nat, m: int, p: real)
    ensures ProbWalk(n, pc, m, p) == ProbWalk(n, pc, m, 0.0) + p / Pow2(Steps(pc, m)) as real
    decreases Steps(pc, m)
  {
    if pc < m {
      var k := Pow2(Steps(pc + 1, m)) as real;
      assert Pow2(Steps(pc, m)) as real == 2.0 * k;
      if NBit(n, pc) == 1 {
        ProbWalkAffine(n, pc + 1, m, (p + 1.0) / 2.0);
        ProbWalkAffine(n, pc + 1, m, 0.5);
        HalfUpSplit(p, k);
      } else {
        ProbWalkAffine(n, pc + 1, m, p / 2.0);
        ProbWalkAffine(n, pc + 1, m, 0.0);
        Half(p, k);
      }
    }
  }

  /** A lane ends at 1 with the probability the tree walk computes. */
  lemma {:induction false} LaneProbIsWalk(n: nat, pc: nat, m: int, a: bool)
    ensures LaneProb(n, pc, m, a) == ProbWalk(n, pc, m, if a then 1.0 else 0.0)
    decreases Steps(pc, m)
  {
    if pc < m {
      var bit := NBit(n, pc);
      LaneProbIsWalk(n, pc + 1, m, MixBit(a, bit, false));
      LaneProbIsWalk(n, pc + 1, m, MixBit(a, bit, true));
      var k := Pow2(Steps(pc + 1, m)) as real;
      var x := if a then 1.0 else 0.0;
      ProbWalkAffine(n, pc + 1, m, 0.0);
      ProbWalkAffine(n, pc + 1, m, 1.0);
      ProbWalkAffine(n, pc + 1, m, x);
      if bit == 1 {
        ProbWalkAffine(n, pc + 1, m, (x + 1.0) / 2.0);
        HalfUpAverage(x, k);
      } else {
        ProbWalkAffine(n, pc + 1, m, x / 2.0);
        HalfAverage(x, k);
      }
    }
  }

  /** Each of the 64 lanes of `random_bernoulli_64` is 1 with probability
      exactly n / 2^m, given fair and independent draw bits. */
  lemma LaneProbability(n: nat, m: nat)
    requires 0 < n < Pow2(m)
    ensures LaneProb(n, Ctz(n), m, false) == n as real / Pow2(m) as real
  {
    hide PcgOut, PcgStep, XshStep;
    LaneProbIsWalk(n, Ctz(n), m, false);
    BernoulliProbWalk(n, m);
  }

  /* ---------------------------------------------------------------------
     Vectors of biased words
     --------------------------------------------------------------------- */

  /** The buffer API's `VecBias` as written: the accumulator is declared
      once, outside the element loop, so each element's walk starts from
      the previous element's value rather than from 0. */
  function VecBiasCarry(g: Gen, len: nat, n: nat, m: int, acc: bv64): (r: (seq<bv64>, Gen))
    requires n > 0
    ensures |r.0| == len
    decreases len
  {
    if len == 0 then ([], g)
    else
      var (v, g1) := BiasWalk(g, n, Ctz(n), m, acc);
      var (rest, g2) := VecBiasCarry(g1, len - 1, n, m, v);
      ([v] + rest, g2)
  }

  /** `VecBias` with the accumulator reset for every element, as
      `random_bernoulli_64` does: each element is one biased word. */
  function VecBiasFresh(g: Gen, len: nat, n: nat, m: int): (r: (seq<bv64>, Gen))
    requires n > 0
    ensures |r.0| == len
    decreases len
  {
    if len == 0 then ([], g)
    else
      var (v, g1) := Bernoulli(g, n, m);
      var (rest, g2) := VecBiasFresh(g1, len - 1, n, m);
      ([v] + rest, g2)
  }

  /** The state after i blocks of S draws each. */
  function AdvanceBlocks(g: Gen, i: nat, S: nat): Gen
    decreases i
  {
    if i == 0 then g else AdvanceBlocks(Advance(g, S), i - 1, S)
  }

  /** i blocks of S draws are i * S draws. */
  lemma {:induction false} AdvanceBlocksCount(g: Gen, i: nat, S: nat)
    ensures AdvanceBlocks(g, i, S) == Advance(g, i * S)
    decreases i
  {
    hide PcgOut, PcgStep, XshStep;
    if i > 0 {
      AdvanceBlocksCount(Advance(g, S), i - 1, S);
      AdvanceAdd(g, S, (i - 1) * S);
      assert S + (i - 1) * S == i * S;
    }
  }

  /** Element i of the corrected vector is the biased word drawn after the
      m - ctz(n) draws of each element before it, and the vector ends after
      len such blocks. */
  lemma {:induction false} VecBiasFreshAt(g: Gen, len: nat, n: nat, m: int, i: nat)
    requires n > 0 && i < len
    ensures VecBiasFresh(g, len, n, m).0[i] == Bernoulli(AdvanceBlocks(g, i, Steps(Ctz(n), m)), n, m).0
    ensures VecBiasFresh(g, len, n, m).1 == AdvanceBlocks(g, len, Steps(Ctz(n), m))
    decreases len
  {
    hide PcgOut, PcgStep, XshStep;
    var g1 := Bernoulli(g, n, m).1;
    var r := VecBiasFresh(g, len, n, m);
    var rest := VecBiasFresh(g1, len - 1, n, m);
    assert r.0 == [Bernoulli(g, n, m).0] + rest.0 && r.1 == rest.1;
    if len > 1 {
      VecBiasFreshAt(g1, len - 1, n, m, if i == 0 then 0 else i - 1);
      if i > 0 {
        assert r.0[i] == rest.0[i - 1];
      }
    }
  }

  /** `VecBias` as written costs the same len blocks of draws. */
  lemma {:induction false} VecBiasCarryEnd(g: Gen, len: nat, n: nat, m: int, acc: bv64)
    requires n > 0
    ensures VecBiasCarry(g, len, n, m, acc).1 == AdvanceBlocks(g, len, Steps(Ctz(n), m))
    decreases len
  {
    hide PcgOut, PcgStep, XshStep;
    if len > 0 {
      var w := BiasWalk(g, n, Ctz(n), m, acc);
      VecBiasCarryEnd(w.1, len - 1, n, m, w.0);
    }
  }

  lemma VecBiasCarryHead(g: Gen, len: nat, n: nat, m: int, acc: bv64)
    requires n > 0 && 0 < len
    ensures VecBiasCarry(g, len, n, m, acc).0[0] == BiasWalk(g, n, Ctz(n), m, acc).0
  {}

  /** Element i > 0 of `VecBias` as written is the walk from the state after
      the earlier elements' draws, started from element i - 1 instead of
      from 0; element 0 is the walk from the caller's accumulator. */
  lemma {:induction false} VecBiasCarryAt(g: Gen, len: nat, n: nat, m: int, acc: bv64, i: nat)
    requires n > 0 && 0 < i < len
    ensures VecBiasCarry(g, len, n, m, acc).0[i] ==
      BiasWalk(AdvanceBlocks(g, i, Steps(Ctz(n), m)), n, Ctz(n), m, VecBiasCarry(g, len, n, m, acc).0[i - 1]).0
    decreases i
  {
    hide PcgOut, PcgStep, XshStep;
    var w := BiasWalk(g, n, Ctz(n), m, acc);
    var r := VecBiasCarry(g, len, n, m, acc).0;
    var rest := VecBiasCarry(w.1, len - 1, n, m, w.0).0;
    assert r == [w.0] + rest;
    assert r[i] == rest[i - 1];
    if i == 1 {
      assert AdvanceBlocks(g, 1, Steps(Ctz(n), m)) == w.1;
      VecBiasCarryHead(w.1, len - 1, n, m, w.0);
    } else {
      VecBiasCarryAt(w.1, len - 1, n, m, w.0, i - 1);
      assert r[i - 1] == rest[i - 2];
    }
  }

  /** The one step of a walk over the single bit m - 1 of n = 2^(m-1). */
  lemma HalfWalk(h: Gen, m: nat, acc: bv64)
    requires m >= 1
    ensures Ctz(Pow2(m - 1)) == m - 1 && Steps(m - 1, m) == 1
    ensures BiasWalk(h, Pow2(m - 1), m - 1, m, acc).0 == acc | Output(h)
  {
    hide PcgOut, PcgStep, XshStep;
    CtzPow2(m - 1);
  }

  /** With n = 2^(m-1), probability one half, `VecBias` as written ORs each
      new draw into the previous element, so a lane once set stays set for
      the rest of the vector. */
  lemma VecBiasHalf(g: Gen, len: nat, m: nat, i: nat)
    requires m >= 1 && 0 < i < len
    ensures VecBiasCarry(g, len, Pow2(m - 1), m, 0).0[i] ==
      VecBiasCarry(g, len, Pow2(m - 1), m, 0).0[i - 1] | Draws(g, len)[i]
  {
    hide PcgOut, PcgStep, XshStep;
    var n := Pow2(m - 1);
    var prev := VecBiasCarry(g, len, n, m, 0).0[i - 1];
    CtzPow2(m - 1);
    HalfBlocks(g, m, i);
    HalfWalk(Advance(g, i), m, prev);
    VecBiasCarryAt(g, len, n, m, 0, i);
    DrawAt(g, len, i);
  }

  /** With n = 2^(m-1), the corrected vector is the raw stream. */
  lemma VecBiasHalfFresh(g: Gen, len: nat, m: nat, i: nat)
    requires m >= 1 && i < len
    ensures VecBiasFresh(g, len, Pow2(m - 1), m).0[i] == Draws(g, len)[i]
  {
    hide PcgOut, PcgStep, XshStep;
    CtzPow2(m - 1);
    HalfBlocks(g, m, i);
    VecBiasFreshAt(g, len, Pow2(m - 1), m, i);
    BernoulliHalf(Advance(g, i), m);
    DrawAt(g, len, i);
  }

  /** At probability one half each element costs one draw. */
  lemma HalfBlocks(g: Gen, m: nat, i: nat)
    requires m >= 1
    ensures AdvanceBlocks(g, i, Steps(Ctz(Pow2(m - 1)), m)) == Advance(g, i)
  {
    hide PcgOut, PcgStep, XshStep;
    CtzPow2(m - 1);
    AdvanceBlocksCount(g, i, 1);
  }

  /** A concrete case where the two differ: p = 1/2 (n = 1, m = 1), two
      elements, xorshift state 1. Element 1 as written is the OR of both
      draws; reset, it is the second draw alone. */
  lemma VecBiasNoResetDiffers()
    ensures VecBiasCarry(Xsh(1), 2, 1, 1, 0).0[1] == 0x1000_4106_4c83_3441
    ensures VecBiasFresh(Xsh(1), 2, 1, 1).0[1] == 0x1000_4106_0c01_1441
  {
    VecBiasHalf(Xsh(1), 2, 1, 1);
    VecBiasCarryAt(Xsh(1), 2, 1, 1, 0, 1);
    HalfWalk(Xsh(1), 1, 0);
    assert XshStep(1) == 0x4082_2041;
    assert XshStep(0x4082_2041) == 0x1000_4106_0c01_1441;
    assert Draws(Xsh(1), 2) == [0x4082_2041, 0x1000_4106_0c01_1441];
  }

  /** The rejection loop as written over the range [0, 1]: the first raw
      draw from xorshift state 1 is rejected, while the masked loop takes
      its low bit. Without the mask a draw is accepted only when it is 0 or
      1, two words out of 2^64. */
  lemma RandIntUnmaskedRejects()
    ensures Reject(Xsh(1), 1, false, 1).None?
    ensures Reject(Xsh(1), 1, true, 1) == Some((1, Xsh(0x4082_2041)))
  {
    assert XshStep(1) == 0x4082_2041;
    assert Draw(Xsh(1)) == 0x4082_2041;
    MaskIsLeastCover(1);
    assert BitLength(1) == 1;
    assert Mask(1) == 1;
    AndOnes(0x4082_2041, 1);
  }

  /* ---------------------------------------------------------------------
     Binomial counts
     --------------------------------------------------------------------- */

  /** `random_binomial_64`: one biased word per 64 trials, counting all 64
      lanes of each word while more than 64 trials remain, then the top k
      lanes of the last word (k now 1..64) through a shift by 64 - k. */
  function Binomial(g: Gen, k: nat, n: nat, m: int): (r: (int, Gen))
    requires k >= 1 && n > 0
    ensures 0 <= r.0 <= k
    decreases k
  {
    var w := Bernoulli(g, n, m);
    if k > 64 then
      var rest := Binomial(w.1, k - 64, n, m);
      (Popcount(w.0) + rest.0, rest.1)
    else
      (TopCount(w.0, k), w.1)
  }

  /** The shift amount 64 - k of the last word, for k in 1..64. */
  function ShiftFor(k: int): (s: bv7)
    requires 1 <= k <= 64
    ensures s < 64 && s as int == 64 - k
  {
    PosFromInt(64 - k);
    (64 - k) as bv7
  }

  /** The set lanes of t left after shifting it right by s. */
  function ShiftedCount(t: bv64, s: bv7): (r: int)
    requires s < 64
    ensures 0 <= r <= 64 - s as int
  {
    PopcountShifted(t, s);
    Popcount(t >> s)
  }

  /** A right shift by s keeps exactly the lanes s..63 of t. */
  lemma ShiftedCountTopLanes(t: bv64, s: bv7)
    requires s < 64
    ensures ShiftedCount(t, s) == PopcountFrom(t, s)
  {
    TopLanes(t, s);
  }

  /** `__builtin_popcountll(t >> (64 - k))` for k in 1..64: the set lanes
      left after shifting out all but k of them. */
  function TopCount(t: bv64, k: int): (r: int)
    requires 1 <= k <= 64
    ensures 0 <= r <= k
  {
    ShiftedCount(t, ShiftFor(k))
  }

  /** The shift keeps exactly the top k lanes: the count is the number of
      set lanes of t at positions 64 - k..63. */
  lemma TopCountTopLanes(t: bv64, k: int)
    requires 1 <= k <= 64
    ensures TopCount(t, k) == PopcountFrom(t, ShiftFor(k))
  {
    hide ShiftedCount, ShiftFor, Lane, PopcountFrom, Popcount;
    ShiftedCountTopLanes(t, ShiftFor(k));
  }

  /** The number of biased words k trials take: ceil(k / 64). */
  function Words64(k: nat): nat {
    (k + 63) / 64
  }

  /** The count costs ceil(k / 64) biased words of m - ctz(n) draws each. */
  lemma {:induction false} BinomialDraws(g: Gen, k: nat, n: nat, m: int)
    requires k >= 1 && n > 0
    ensures Binomial(g, k, n, m).1 == AdvanceBlocks(g, Words64(k), Steps(Ctz(n), m))
    decreases k
  {
    hide PcgOut, PcgStep, XshStep;
    var g1 := Bernoulli(g, n, m).1;
    if k > 64 {
      BinomialDraws(g1, k - 64, n, m);
      assert Words64(k) == 1 + Words64(k - 64);
    } else {
      assert Words64(k) == 1;
    }
  }
}
