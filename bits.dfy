/** Bit-level primitives shared by both generations of the generator API:
    the splitmix64 seed mixer, the PCG64 "insecure" (rxs-m-xs) output and LCG
    step, the Marsaglia xorshift64 round, single bits of a word and the
    population count.

    Words are `bv64`, so multiplication and shifts wrap exactly as C's
    `uint64_t` does. A bit position inside a word is a `bv7` (0..127), wide
    enough for every position 0..64 the C code shifts by; contracts about
    positions compare them as integers (`p as int`). */
module Bits {

  /* ---------------------------------------------------------------------
     Seed mixer: the splitmix64 finalizer
     --------------------------------------------------------------------- */

  /** The splitmix64 finalizer applied to a seed: xor-shift right 30,
      multiply by 0xbf58476d1ce4e5b9, xor-shift right 27, multiply by
      0x94d049bb133111eb, xor-shift right 31. Both versions of the library use
      this same function; the C code also writes the result back through its
      argument, which the seeding code uses to chain two calls. 0 is the only
      seed the mixer sends to 0, so a non-zero seed never hashes to the
      all-zero state. */
  function Hash(x: bv64): (r: bv64)
    ensures r == 0 <==> x == 0
  {
    var a := x ^ (x >> 30);
    var b := a * 0xbf58476d1ce4e5b9;
    var c := b ^ (b >> 27);
    var d := c * 0x94d049bb133111eb;
    d ^ (d >> 31)
  }

  /* ---------------------------------------------------------------------
     PCG64 insecure: LCG step and rxs-m-xs output
     --------------------------------------------------------------------- */

  /** The LCG update of the PCG state: multiply by 0x5851F42D4C957F2D and add
      the increment, both modulo 2^64. The multiplier is 1 modulo 4, so the
      low two bits of the new state are those of state + increment; with an
      odd increment this is the condition for the full period 2^64. */
  function PcgStep(state: bv64, increment: bv64): (r: bv64)
    ensures r & 3 == (state + increment) & 3
  {
    state * 0x5851F42D4C957F2D + increment
  }

  /** The rxs-m-xs output of a state x: a xor-shift right whose amount (5 to
      36) is read from the top five bits of x, a multiplication by
      0xAEF17502108EF2D9, and a final xor-shift right by 43. The state 0
      outputs 0. */
  function PcgOut(x: bv64): (r: bv64)
    ensures x == 0 ==> r == 0
  {
    var fx := ((x >> ((x >> 59) + 5)) ^ x) * 0xAEF17502108EF2D9;
    (fx >> 43) ^ fx
  }

  /** Forcing the low bit makes a word odd, as the PCG increment must be. */
  lemma OrOneIsOdd(x: bv64)
    ensures (x | 1) & 1 == 1
  {}

  /* ---------------------------------------------------------------------
     Marsaglia xorshift64
     --------------------------------------------------------------------- */

  /** One xorshift64 round: shift 13 left, 7 right, 17 left, each xored back
      into the state, in that order. 0 is a fixed point of the round, and no
      other state ever reaches it. */
  function XshStep(s: bv64): (r: bv64)
    ensures r == 0 <==> s == 0
  {
    var a := s ^ (s << 13);
    var b := a ^ (a >> 7);
    b ^ (b << 17)
  }

  /* ---------------------------------------------------------------------
     Positions as integers
     --------------------------------------------------------------------- */

  lemma PosSucc(p: bv7)
    requires p as int < 127
    ensures (p + 1) as int == p as int + 1
  {}

  lemma PosBelow(p: bv7, q: bv7)
    requires p as int < q as int
    ensures p < q
  {}

  lemma PosAbove(p: bv7, q: bv7)
    requires p < q
    ensures p as int < q as int
  {}

  lemma PosFromInt(i: int)
    requires 0 <= i <= 64
    ensures (i as bv7) as int == i
  {}

  /* ---------------------------------------------------------------------
     Lanes: single bits of a word
     --------------------------------------------------------------------- */

  /** Bit p of x, as the word 0 or 1: `(x >> p) & 1`. Each of the 64 bit
      positions of a word is one lane of the vectorised samplers. */
  function Lane(x: bv64, p: bv7): bv64
    requires p < 64
  {
    (x >> p) & 1
  }

  lemma LaneIsBinary(x: bv64, p: bv7)
    requires p < 64
    ensures Lane(x, p) == 0 || Lane(x, p) == 1
  {}

  lemma LaneAnd(x: bv64, y: bv64, p: bv7)
    requires p < 64
    ensures Lane(x & y, p) == Lane(x, p) & Lane(y, p)
  {}

  lemma LaneOr(x: bv64, y: bv64, p: bv7)
    requires p < 64
    ensures Lane(x | y, p) == Lane(x, p) | Lane(y, p)
  {}

  /** Shifting right by s clears the top s positions. */
  lemma LaneShiftedOut(x: bv64, s: bv7, p: bv7)
    requires s < 64 && p < 64 && 64 - s <= p
    ensures Lane(x >> s, p) == 0
  {}

  /* ---------------------------------------------------------------------
     Population count
     --------------------------------------------------------------------- */

  /** The number of set bits of x at positions p..63. */
  function PopcountFrom(x: bv64, p: bv7): int
    requires p as int <= 64
    decreases 64 - p as int
  {
    if p as int == 64 then 0
    else
      PosBelow(p, 64);
      PosSucc(p);
      (if Lane(x, p) == 1 then 1 else 0) + PopcountFrom(x, p + 1)
  }

  /** __builtin_popcountll: the number of set bits of x, between 0 and 64. */
  function Popcount(x: bv64): (r: int)
    ensures 0 <= r <= 64
  {
    PopcountBelow(x, 64, 0);
    PopcountFrom(x, 0)
  }

  /** One step of the count: the bit at p plus the count above it. */
  lemma PopcountFromStep(x: bv64, p: bv7)
    requires p as int < 64
    ensures p < 64 && p as int + 1 <= 64 && (p + 1) as int == p as int + 1
    ensures PopcountFrom(x, p) == (if Lane(x, p) == 1 then 1 else 0) + PopcountFrom(x, p + 1)
  {
    PosBelow(p, 64);
    PosSucc(p);
  }

  /** A word whose lanes from k upward are clear has at most k - p set bits
      at positions p..63 (none once p reaches k). */
  lemma {:induction false} PopcountBelow(y: bv64, k: int, p: bv7)
    requires 0 <= k <= 64 && p as int <= 64
    requires forall q: bv7 :: q < 64 && k <= q as int ==> Lane(y, q) == 0
    ensures 0 <= PopcountFrom(y, p) <= if p as int <= k then k - p as int else 0
    decreases 64 - p as int
  {
    if p as int < 64 {
      PopcountFromStep(y, p);
      PopcountBelow(y, k, p + 1);
    }
  }

  lemma ShiftedOutPosition(s: bv7, p: bv7)
    requires s as int < 64 && p as int < 64 && 64 - s as int <= p as int
    ensures 64 - s <= p
  {
    PosBelow(s, 64);
    PosFromInt(64 - s as int);
    assert (64 - s as int) as bv7 == 64 - s;
    if p < 64 - s {
      PosAbove(p, 64 - s);
    }
  }

  /** A word shifted right by s has between 0 and 64 - s set bits. */
  lemma PopcountShifted(x: bv64, s: bv7)
    requires s as int < 64
    ensures 0 <= Popcount(x >> s) <= 64 - s as int
  {
    ShiftedLanesClear(x, s, x >> s);
    PopcountBelow(x >> s, 64 - s as int, 0);
  }

  lemma ShiftedLanesClear(x: bv64, s: bv7, y: bv64)
    requires s as int < 64 && y == x >> s
    ensures forall q: bv7 :: q < 64 && 64 - s as int <= q as int ==> Lane(y, q) == 0
  {
    PosBelow(s, 64);
    forall q: bv7 | q < 64 && 64 - s as int <= q as int
      ensures Lane(y, q) == 0
    {
      PosAbove(q, 64);
      ShiftedOutPosition(s, q);
      LaneShiftedOut(x, s, q);
    }
  }
  /** Shifting right by s moves lane p + s down to lane p. The proof is
      split by the range of s so that each bit-vector proof stays small. */
  lemma LaneShiftRight(x: bv64, s: bv7, p: bv7)
    requires s < 64 && p < 64 - s
    ensures Lane(x >> s, p) == Lane(x, p + s)
  {
    if s < 8 {
      LaneShiftBelow8(x, s, p);
    } else if s < 16 {
      LaneShiftBelow16(x, s, p);
    } else if s < 32 {
      LaneShiftBelow32(x, s, p);
    } else {
      LaneShiftBelow64(x, s, p);
    }
  }

  lemma LaneShiftBelow8(x: bv64, s: bv7, p: bv7)
    requires s < 8 && p < 64 - s
    ensures Lane(x >> s, p) == Lane(x, p + s)
  {}

  lemma LaneShiftBelow16(x: bv64, s: bv7, p: bv7)
    requires 8 <= s < 16 && p < 64 - s
    ensures Lane(x >> s, p) == Lane(x, p + s)
  {}

  lemma LaneShiftBelow32(x: bv64, s: bv7, p: bv7)
    requires 16 <= s < 32 && p < 64 - s
    ensures Lane(x >> s, p) == Lane(x, p + s)
  {}

  lemma LaneShiftBelow64(x: bv64, s: bv7, p: bv7)
    requires 32 <= s < 64 && p < 64 - s
    ensures Lane(x >> s, p) == Lane(x, p + s)
  {}

  /** A word y whose lanes are those of x moved down by s, with its top s
      lanes clear, has as many set bits from position p up as x has from
      p + s up. */
  lemma {:induction false} PopcountMovedDown(x: bv64, y: bv64, s: bv7, p: bv7)
    requires s < 64 && p <= 64 - s
    requires forall q: bv7 :: q < 64 - s ==> Lane(y, q) == Lane(x, q + s)
    requires forall q: bv7 :: 64 - s <= q < 64 ==> Lane(y, q) == 0
    ensures PopcountFrom(y, p) == PopcountFrom(x, p + s)
    decreases 64 - p as int
  {
    hide Lane, PopcountFrom;
    if p == 64 - s {
      MovedTop(s, p);
      PopcountClear(y, p);
      PopcountClear(x, p + s);
    } else {
      MovedStep(s, p);
      PopcountFromStep(y, p);
      PopcountFromStep(x, p + s);
      PopcountMovedDown(x, y, s, p + 1);
    }
  }

  /** A word with no set lane from p up counts 0 there. */
  lemma {:induction false} PopcountClear(y: bv64, p: bv7)
    requires p <= 64
    requires forall q: bv7 :: p <= q < 64 ==> Lane(y, q) == 0
    ensures p as int <= 64 && PopcountFrom(y, p) == 0
    decreases 64 - p as int
  {
    if p < 64 {
      PopcountFromStep(y, p);
      PopcountClear(y, p + 1);
    }
  }

  lemma MovedTop(s: bv7, p: bv7)
    requires s < 64 && p == 64 - s
    ensures p as int == 64 - s as int && (p + s) as int == 64
  {}

  lemma MovedStep(s: bv7, p: bv7)
    requires s < 64 && p < 64 - s
    ensures p as int < 64 && (p + s) as int < 64 && p + 1 <= 64 - s
    ensures (p + 1) + s == (p + s) + 1
  {}

  /** The popcount of x >> s counts exactly the set lanes of x at positions
      s..63. */
  lemma TopLanes(x: bv64, s: bv7)
    requires s < 64
    ensures Popcount(x >> s) == PopcountFrom(x, s)
  {
    hide Lane;
    var y := x >> s;
    forall q: bv7 | q < 64 - s
      ensures Lane(y, q) == Lane(x, q + s)
    {
      LaneShiftRight(x, s, q);
    }
    forall q: bv7 | 64 - s <= q < 64
      ensures Lane(y, q) == 0
    {
      LaneShiftedOut(x, s, q);
    }
    PopcountMovedDown(x, y, s, 0);
  }
}
