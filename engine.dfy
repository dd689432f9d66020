/** The generator engines as values: a generator is its state words, one call
    of `next` yields an output word and the successor state, and a stream of
    n draws is the outputs of n successive states. Both versions of the
    library (the buffer-filling API and the one-value-per-call API) run these
    same two engines, so their streams are defined once, here.

    Also here: the deterministic seeding of each engine from a non-zero
    seed, and the hardware random source used when the seed is 0, as an
    oracle whose attempt outcomes are given in advance. */
module Engine {
  import opened Bits

  datatype Option<T> = None | Some(value: T)

  /** The two generator kinds: PCG64 insecure and xorshift64. */
  datatype Kind = Pcg64i | Xsh64

  /** The state words of one generator. */
  datatype Gen =
    | Pcg(state: bv64, increment: bv64)
    | Xsh(state: bv64)
  {
    function KindOf(): Kind {
      if Pcg? then Pcg64i else Xsh64
    }
  }

  /** The word one call of `next` returns. PCG returns the rxs-m-xs
      permutation of the state BEFORE its update, whatever the increment;
      xorshift returns the state AFTER its update, which is 0 only from 0. */
  function Output(g: Gen): (r: bv64)
    ensures g.Pcg? ==> r == PcgOut(g.state)
    ensures g.Xsh? ==> r == Step(g).state && (r == 0 <==> g.state == 0)
  {
    match g
    case Pcg(s, _) => PcgOut(s)
    case Xsh(s) => XshStep(s)
  }

  /** The state after one call of `next`: the same kind, and the PCG
      increment never changes. */
  function Step(g: Gen): (r: Gen)
    ensures r.Pcg? == g.Pcg?
    ensures g.Pcg? ==> r.increment == g.increment
  {
    match g
    case Pcg(s, inc) => Pcg(PcgStep(s, inc), inc)
    case Xsh(s) => Xsh(XshStep(s))
  }

  /** The state after n calls of `next`: a PCG generator stays a PCG
      generator with the same increment, an xorshift generator stays an
      xorshift generator. */
  function Advance(g: Gen, n: nat): (r: Gen)
    ensures r.Pcg? == g.Pcg?
    ensures g.Pcg? ==> r.increment == g.increment
    decreases n
  {
    if n == 0 then g else Advance(Step(g), n - 1)
  }

  /** The words n successive calls of `next` return, in order. */
  function Draws(g: Gen, n: nat): (r: seq<bv64>)
    ensures |r| == n
    decreases n
  {
    if n == 0 then [] else [Output(g)] + Draws(Step(g), n - 1)
  }

  /* ---------------------------------------------------------------------
     Streams
     --------------------------------------------------------------------- */

  /** Advancing a + b steps is advancing a steps, then b. */
  lemma {:induction false} AdvanceAdd(g: Gen, a: nat, b: nat)
    ensures Advance(g, a + b) == Advance(Advance(g, a), b)
    decreases a
  {
    hide PcgOut, PcgStep, XshStep;
    if a > 0 {
      AdvanceAdd(Step(g), a - 1, b);
    }
  }

  /** A stream of a + b draws is the first a draws followed by the b draws
      from where they left off: filling a buffer in two calls gives the same
      words as one call. */
  lemma {:induction false} DrawsSplit(g: Gen, a: nat, b: nat)
    ensures Draws(g, a + b) == Draws(g, a) + Draws(Advance(g, a), b)
    decreases a
  {
    hide PcgOut, PcgStep, XshStep;
    if a > 0 {
      var rest := Draws(Step(g), a - 1 + b);
      DrawsSplit(Step(g), a - 1, b);
      assert rest == Draws(Step(g), a - 1) + Draws(Advance(Step(g), a - 1), b);
      assert Draws(g, a + b) == [Output(g)] + rest;
      assert Draws(g, a) == [Output(g)] + Draws(Step(g), a - 1);
      assert Advance(g, a) == Advance(Step(g), a - 1);
    }
  }

  /** One more draw appends the output of the state reached so far. */
  lemma DrawsSnoc(g: Gen, n: nat)
    ensures Draws(g, n + 1) == Draws(g, n) + [Output(Advance(g, n))]
    ensures Advance(g, n + 1) == Step(Advance(g, n))
  {
    hide PcgOut, PcgStep, XshStep;
    DrawsSplit(g, n, 1);
    AdvanceAdd(g, n, 1);
  }

  /** Draw i of a stream is the output of the state after i steps. */
  lemma {:induction false} DrawAt(g: Gen, n: nat, i: nat)
    requires i < n
    ensures Draws(g, n)[i] == Output(Advance(g, i))
    decreases i
  {
    hide PcgOut, PcgStep, XshStep;
    var ds := Draws(g, n);
    assert ds == [Output(g)] + Draws(Step(g), n - 1);
    if i > 0 {
      DrawAt(Step(g), n - 1, i - 1);
      assert ds[i] == Draws(Step(g), n - 1)[i - 1];
    }
  }

  /** PCG draw i is the output permutation of the state before step i. */
  lemma PcgDrawAt(g: Gen, n: nat, i: nat)
    requires g.Pcg? && i < n
    ensures Advance(g, i).Pcg?
    ensures Draws(g, n)[i] == PcgOut(Advance(g, i).state)
  {
    hide PcgOut, PcgStep, XshStep;
    DrawAt(g, n, i);
  }

  /** Xorshift draw i is the state after i + 1 rounds. */
  lemma XshDrawAt(g: Gen, n: nat, i: nat)
    requires g.Xsh? && i < n
    ensures Advance(g, i + 1).Xsh?
    ensures Draws(g, n)[i] == Advance(g, i + 1).state
  {
    hide PcgOut, PcgStep, XshStep;
    DrawAt(g, n, i);
    AdvanceAdd(g, i, 1);
  }

  /** The all-zero xorshift state is stuck: it never moves and every draw
      is 0. */
  lemma {:induction false} XshZeroStuck(n: nat)
    ensures Advance(Xsh(0), n) == Xsh(0)
    ensures forall i :: 0 <= i < n ==> Draws(Xsh(0), n)[i] == 0
    decreases n
  {
    hide PcgOut, PcgStep, XshStep;
    if n > 0 {
      XshZeroStuck(n - 1);
    }
  }

  /** From any non-zero xorshift state, the state and every draw stay
      non-zero. */
  lemma {:induction false} XshNonzeroStream(s: bv64, n: nat)
    requires s != 0
    ensures Advance(Xsh(s), n).Xsh? && Advance(Xsh(s), n).state != 0
    ensures forall i :: 0 <= i < n ==> Draws(Xsh(s), n)[i] != 0
    decreases n
  {
    hide PcgOut, PcgStep, XshStep;
    if n > 0 {
      XshNonzeroStream(XshStep(s), n - 1);
    }
  }

  /* ---------------------------------------------------------------------
     Deterministic seeding
     --------------------------------------------------------------------- */

  /** A PCG generator built from two state words: the second becomes the
      increment with its low bit forced on, since the increment must be odd. */
  function PcgFrom(w0: bv64, w1: bv64): (g: Gen)
    ensures g.Pcg? && g.increment & 1 == 1
  {
    OrOneIsOdd(w1);
    Pcg(w0, w1 | 1)
  }

  /** The state a non-zero seed gives: the hashed seed, and for PCG the
      hash of that as the increment (the C code hashes the seed in place, so
      its second call hashes the first result). The generator has the
      requested kind, a PCG increment is odd, and a non-zero seed never
      gives the state 0. */
  function Seeded(kind: Kind, seed: bv64): (g: Gen)
    ensures g.KindOf() == kind
    ensures g.Pcg? ==> g.increment & 1 == 1
    ensures seed != 0 ==> g.state != 0
  {
    match kind
    case Pcg64i => PcgFrom(Hash(seed), Hash(Hash(seed)))
    case Xsh64 => Xsh(Hash(seed))
  }

  /** Xorshift seeding from a seed has no zero guard, and a non-zero seed
      needs none: it hashes to a non-zero state, so the stream never sticks
      at 0. */
  lemma SeededXshNeverStuck(seed: bv64, n: nat)
    requires seed != 0
    ensures forall i :: 0 <= i < n ==> Draws(Seeded(Xsh64, seed), n)[i] != 0
  {
    hide PcgOut, PcgStep, XshStep;
    XshNonzeroStream(Hash(seed), n);
  }

  /* ---------------------------------------------------------------------
     The hardware random source
     --------------------------------------------------------------------- */

  /** The index of the first successful attempt among the first `limit`
      outcomes, if there is one. */
  function FirstSuccess(outcomes: seq<Option<bv64>>, limit: nat): (r: Option<nat>)
    ensures r.Some? ==> r.value < limit && r.value < |outcomes| && outcomes[r.value].Some?
    ensures r.Some? ==> forall j :: 0 <= j < r.value ==> outcomes[j].None?
    ensures r.None? ==> forall j :: 0 <= j < limit && j < |outcomes| ==> outcomes[j].None?
    decreases limit
  {
    if limit == 0 || |outcomes| == 0 then None
    else if outcomes[0].Some? then Some(0)
    else match FirstSuccess(outcomes[1..], limit - 1)
      case None => None
      case Some(i) => Some(i + 1)
  }

  /** The x86 `rdrand` instruction, as an oracle: the outcomes of the
      attempts still to come, each a failure or a random word. Attempts
      beyond the end of the sequence fail. */
  class Entropy {
    var pending: seq<Option<bv64>>

    constructor (outcomes: seq<Option<bv64>>)
      ensures pending == outcomes
    {
      pending := outcomes;
    }

    /** One `_rdrand64_step`: consumes one outcome. */
    method Attempt() returns (ok: bool, x: bv64)
      modifies this
      ensures old(pending) == [] ==> !ok && x == 0 && pending == []
      ensures old(pending) != [] ==> pending == old(pending)[1..]
      ensures old(pending) != [] ==> (ok <==> old(pending)[0].Some?)
      ensures old(pending) != [] && ok ==> x == old(pending)[0].value
    {
      if pending == [] {
        ok, x := false, 0;
      } else {
        ok := pending[0].Some?;
        x := if ok then pending[0].value else 0;
        pending := pending[1..];
      }
    }
  }

  /** The retry loop shared by `RdRandRetry` and `random_try_rdrand`: up to
      `limit` attempts, stopping at the first success. It succeeds exactly
      when one of the first `limit` outcomes is a success, and then yields
      that word and consumes the outcomes up to and including it; otherwise
      it has consumed exactly `limit` outcomes, or all there were. */
  method TryRdRand(e: Entropy, limit: nat) returns (ok: bool, x: bv64)
    modifies e
    ensures ok <==> FirstSuccess(old(e.pending), limit).Some?
    ensures ok ==> x == old(e.pending)[FirstSuccess(old(e.pending), limit).value].value
    ensures ok ==> e.pending == old(e.pending)[FirstSuccess(old(e.pending), limit).value + 1..]
    ensures !ok ==> e.pending == old(e.pending)[if limit <= |old(e.pending)| then limit else |old(e.pending)|..]
  {
    ghost var start := e.pending;
    FirstSuccessIsFrom(start, limit);
    var i := 0;
    while i < limit
      invariant 0 <= i <= limit
      invariant i <= |start| ==> e.pending == start[i..]
      invariant i > |start| ==> e.pending == []
      invariant FirstSuccess(start, limit) == FirstSuccessFrom(start, limit, i)
      decreases limit - i
    {
      ok, x := e.Attempt();
      if ok {
        FirstSuccessHere(start, limit, i);
        return;
      }
      FirstSuccessSkip(start, limit, i);
      i := i + 1;
    }
    FirstSuccessNone(start, limit);
    ok, x := false, 0;
  }

  /** `count` retry loops of `limit` attempts each, run one after another
      over the outcomes: the words they yield and the outcomes left over,
      or None as soon as one loop fails. */
  function RdRandWords(outcomes: seq<Option<bv64>>, count: nat, limit: nat): (r: Option<(seq<bv64>, seq<Option<bv64>>)>)
    ensures r.Some? ==> |r.value.0| == count
    decreases count
  {
    if count == 0 then Some(([], outcomes))
    else match FirstSuccess(outcomes, limit)
      case None => None
      case Some(j) =>
        match RdRandWords(outcomes[j + 1..], count - 1, limit)
        case None => None
        case Some((ws, left)) => Some(([outcomes[j].value] + ws, left))
  }

  /** A retry loop that succeeds at attempt j yields outcome j, and the
      remaining loops run on the outcomes after it. */
  lemma RdRandWordsStep(outcomes: seq<Option<bv64>>, count: nat, limit: nat)
    requires count > 0 && FirstSuccess(outcomes, limit).Some?
    ensures var j := FirstSuccess(outcomes, limit).value;
      var rest := RdRandWords(outcomes[j + 1..], count - 1, limit);
      RdRandWords(outcomes, count, limit) ==
        if rest.None? then None else Some(([outcomes[j].value] + rest.value.0, rest.value.1))
  {}

  /** A retry loop that exhausts its attempts ends the sequence of loops. */
  lemma RdRandWordsStop(outcomes: seq<Option<bv64>>, count: nat, limit: nat)
    requires count > 0 && FirstSuccess(outcomes, limit).None?
    ensures RdRandWords(outcomes, count, limit).None?
  {}

  /** When every attempt succeeds, the words are the first `count` outcomes
      in order and nothing else is consumed. */
  lemma {:induction false} RdRandWordsAllSucceed(outcomes: seq<Option<bv64>>, count: nat, limit: nat)
    requires limit > 0 && count <= |outcomes|
    requires forall j :: 0 <= j < count ==> outcomes[j].Some?
    ensures RdRandWords(outcomes, count, limit).Some?
    ensures forall j :: 0 <= j < count ==> RdRandWords(outcomes, count, limit).value.0[j] == outcomes[j].value
    ensures RdRandWords(outcomes, count, limit).value.1 == outcomes[count..]
    decreases count
  {
    if count > 0 {
      assert FirstSuccess(outcomes, limit) == Some(0);
      var tail := outcomes[1..];
      RdRandWordsAllSucceed(tail, count - 1, limit);
      var ws := RdRandWords(tail, count - 1, limit).value.0;
      assert RdRandWords(outcomes, count, limit).value.0 == [outcomes[0].value] + ws;
      assert tail[count - 1..] == outcomes[count..];
    }
  }

  /** The number of state words each kind draws from the hardware source. */
  function StateWords(kind: Kind): nat {
    if kind == Pcg64i then 2 else 1
  }

  /** Nor is there a zero guard on the hardware path: a zero word from
      `rdrand` becomes the xorshift state 0, whose stream is all zeros. */
  lemma RdRandZeroWordStuck(n: nat)
    ensures FromWords(Xsh64, [0]) == Xsh(0)
    ensures forall i :: 0 <= i < n ==> Draws(FromWords(Xsh64, [0]), n)[i] == 0
  {
    hide PcgOut, PcgStep, XshStep;
    XshZeroStuck(n);
  }

  /** The state built from hardware words: PCG takes the state and the
      (forced odd) increment, xorshift its one word as it comes. */
  function FromWords(kind: Kind, ws: seq<bv64>): (g: Gen)
    requires |ws| == StateWords(kind)
    ensures g.KindOf() == kind
  {
    if kind == Pcg64i then PcgFrom(ws[0], ws[1]) else Xsh(ws[0])
  }

  /** FirstSuccess restricted to the indices from i upward, with all earlier
      attempts failed. */
  ghost function FirstSuccessFrom(outcomes: seq<Option<bv64>>, limit: nat, i: nat): Option<nat>
    decreases limit - i
  {
    if i >= limit || i >= |outcomes| then None
    else if outcomes[i].Some? then Some(i)
    else FirstSuccessFrom(outcomes, limit, i + 1)
  }

  lemma {:induction false} FirstSuccessFromShift(outcomes: seq<Option<bv64>>, limit: nat, i: nat)
    requires |outcomes| > 0 && limit > 0
    ensures FirstSuccessFrom(outcomes, limit, i + 1) ==
      match FirstSuccessFrom(outcomes[1..], limit - 1, i)
      case None => None
      case Some(j) => Some(j + 1)
    decreases limit - i
  {
    if i + 1 < limit && i + 1 < |outcomes| && outcomes[i + 1].None? {
      FirstSuccessFromShift(outcomes, limit, i + 1);
    }
  }

  lemma FirstSuccessIsFrom(outcomes: seq<Option<bv64>>, limit: nat)
    ensures FirstSuccess(outcomes, limit) == FirstSuccessFrom(outcomes, limit, 0)
    decreases limit
  {
    if limit > 0 && |outcomes| > 0 && outcomes[0].None? {
      FirstSuccessIsFrom(outcomes[1..], limit - 1);
      FirstSuccessFromShift(outcomes, limit, 0);
    }
  }

  lemma FirstSuccessHere(outcomes: seq<Option<bv64>>, limit: nat, i: nat)
    requires i < limit && i < |outcomes| && outcomes[i].Some?
    ensures FirstSuccessFrom(outcomes, limit, i) == Some(i)
  {}

  lemma FirstSuccessSkip(outcomes: seq<Option<bv64>>, limit: nat, i: nat)
    requires i < limit && (i >= |outcomes| || outcomes[i].None?)
    ensures FirstSuccessFrom(outcomes, limit, i) == FirstSuccessFrom(outcomes, limit, i + 1)
  {}

  lemma FirstSuccessNone(outcomes: seq<Option<bv64>>, limit: nat)
    ensures FirstSuccessFrom(outcomes, limit, limit) == None
  {}
}
