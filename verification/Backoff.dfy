/** The attempt-budgeted `Backoff`: five constructors and one method that hands out the next delay,
    on 64-bit words whose left shift drops the top bit. */
module AttemptBackoff {
  import opened Machine

  datatype Kind = NoneKind | NoJitter | FullJitter | EqualJitter | DecorrelatedJitter

  datatype State = State(
    kind: Kind,
    attempts: nat,
    maxAttempts: nat,
    base: U64,
    current: U64,
    maxDelay: U64)

  /** What a call does: a delay, no more delays, or a panic because the random range is empty. */
  datatype Outcome = Delay(ms: U64) | Stop | EmptyRange

  function NoBackoff(): State
  {
    State(NoneKind, 0, 0, 0, 0, 0)
  }

  function NoJitterBackoff(base: U64, maxDelay: U64, maxAttempts: nat): State
  {
    State(NoJitter, 0, maxAttempts, base, base, maxDelay)
  }

  function FullJitterBackoff(base: U64, maxDelay: U64, maxAttempts: nat): State
  {
    State(FullJitter, 0, maxAttempts, Max(base, 1), Max(base, 1), Max(maxDelay, 1))
  }

  function EqualJitterBackoff(base: U64, maxDelay: U64, maxAttempts: nat): State
  {
    State(EqualJitter, 0, maxAttempts, Max(base, 2), Max(base, 2), Max(maxDelay, 2))
  }

  function DecorrelatedJitterBackoff(base: U64, maxDelay: U64, maxAttempts: nat): State
  {
    var base := Max(base, 1);
    State(DecorrelatedJitter, 0, maxAttempts, base, base, Max(maxDelay, base))
  }

  /** `x << 1` on a 64-bit word. */
  function ShiftLeft(x: U64): U64
  {
    Word(2 * x)
  }

  function DecorrSpan(b: State): U64
  {
    Max(SatSubU64(SatMulU64(b.current, 3), b.base), 1)
  }

  /** The delay drawn from a non-empty range, before the state moves on. */
  function Draw(b: State, draw: nat): Outcome
  {
    var capped := Min(b.maxDelay, b.current);
    match b.kind
    case NoneKind => Stop
    case NoJitter => Delay(capped)
    case FullJitter => if capped == 0 then EmptyRange else Delay(GenRange(draw, capped))
    case EqualJitter =>
      var half := capped / 2;
      if half == 0 then EmptyRange else Delay(GenRange(draw, half) + half)
    case DecorrelatedJitter => Delay(Min(GenRange(draw, DecorrSpan(b)) + b.base, b.maxDelay))
  }

  function NextCurrent(b: State, out: Outcome): U64
  {
    match out
    case Delay(ms) => if b.kind.DecorrelatedJitter? then ms else ShiftLeft(b.current)
    case _ => b.current
  }

  function NextDelay(b: State, draw: nat): (State, Outcome)
  {
    if b.attempts >= b.maxAttempts then (b, Stop)
    else
      var out := Draw(b, draw);
      (b.(attempts := b.attempts + 1, current := NextCurrent(b, out)), out)
  }

  /** The state after one call per draw. */
  function After(b: State, draws: seq<nat>): State
  {
    if draws == [] then b
    else NextDelay(After(b, draws[..|draws| - 1]), draws[|draws| - 1]).0
  }

  /** The outcome of call number `|draws|`. */
  function Call(b: State, draws: seq<nat>, draw: nat): Outcome
  {
    NextDelay(After(b, draws), draw).1
  }

  ghost predicate Built(b: State)
  {
    || b == NoBackoff()
    || exists base: U64, maxDelay: U64, n: nat :: BuiltFrom(b, base, maxDelay, n)
  }

  predicate BuiltFrom(b: State, base: U64, maxDelay: U64, n: nat)
  {
    || b == NoJitterBackoff(base, maxDelay, n)
    || b == FullJitterBackoff(base, maxDelay, n)
    || b == EqualJitterBackoff(base, maxDelay, n)
    || b == DecorrelatedJitterBackoff(base, maxDelay, n)
  }

  predicate Shifts(kind: Kind)
  {
    kind.NoJitter? || kind.FullJitter? || kind.EqualJitter?
  }

  /** `base * 2^k` over unbounded integers. */
  function Product(base: U64, k: nat): nat
  {
    ProductNonNegative(base, Pow2(k));
    base * Pow2(k)
  }

  lemma ProductDoubles(base: U64, k: nat)
    ensures Product(base, k + 1) == 2 * Product(base, k)
    ensures Product(base, 0) == base
    ensures Product(base, k) >= base
  {
    ProductMonotone(base, 1, Pow2(k));
  }

  /** What the delay word holds after k calls: `base * 2^k` modulo 2^64. */
  lemma {:induction false} CurrentAfter(b: State, draws: seq<nat>)
    requires Built(b) && Shifts(b.kind)
    ensures var s := After(b, draws);
            && s.(attempts := 0, current := b.current) == b
            && s.attempts == Min(|draws|, b.maxAttempts)
            && s.current == Word(Product(b.base, s.attempts))
            && (s.attempts == 0 || s.current % 2 == 0)
    decreases |draws|
  {
    if draws == [] {
      ProductDoubles(b.base, 0);
    } else {
      var p := draws[..|draws| - 1];
      CurrentAfter(b, p);
      var s := After(b, p);
      ProductDoubles(b.base, s.attempts);
      WordDouble(Product(b.base, s.attempts));
      WordEven(Product(b.base, s.attempts));
      if s.attempts < s.maxAttempts {
        ProductDoubles(b.base, 0);
        EmptyRangeIsZero(b, s, draws[|draws| - 1]);
      }
    }
  }

  /** The range is empty exactly when every bit has been shifted out. */
  lemma EmptyRangeIsZero(b: State, s: State, draw: nat)
    requires Built(b) && Shifts(b.kind) && s.(attempts := 0, current := b.current) == b
    requires s.attempts == 0 ==> s.current == b.base
    requires s.attempts == 0 || s.current % 2 == 0
    ensures Draw(s, draw).EmptyRange? <==> !b.kind.NoJitter? && s.current == 0
    ensures !Draw(s, draw).Stop?
  {
  }

  /** Call number k (from 0) of an exponential back-off, exactly: `min(max, base * 2^k mod 2^64)`
      without jitter, and a panic under jitter just when 2^64 divides `base * 2^k`. */
  lemma NthDelay(b: State, draws: seq<nat>, draw: nat)
    requires Built(b) && Shifts(b.kind) && |draws| < b.maxAttempts
    ensures var word := Word(Product(b.base, |draws|));
            var out := Call(b, draws, draw);
            && (b.kind.NoJitter? ==> out == Delay(Min(b.maxDelay, word)))
            && (!b.kind.NoJitter? ==> (out.EmptyRange? <==> word == 0))
            && (b.kind.FullJitter? && word != 0 ==> out.Delay? && out.ms < Min(b.maxDelay, word))
            && (b.kind.EqualJitter? && word != 0 ==>
                  var half := Min(b.maxDelay, word) / 2; out.Delay? && half <= out.ms < 2 * half)
  {
    CurrentAfter(b, draws);
    ProductDoubles(b.base, 0);
    EmptyRangeIsZero(b, After(b, draws), draw);
  }

  /** Without jitter, in the caller's own terms: call k hands out `min(max, base * 2^k mod 2^64)`, up to
      the number of attempts asked for. */
  lemma NoJitterDelays(base: U64, maxDelay: U64, maxAttempts: nat, draws: seq<nat>, draw: nat)
    ensures Call(NoJitterBackoff(base, maxDelay, maxAttempts), draws, draw) ==
            if |draws| < maxAttempts then Delay(Min(maxDelay, Word(Product(base, |draws|)))) else Stop
  {
    var b := NoJitterBackoff(base, maxDelay, maxAttempts);
    assert BuiltFrom(b, base, maxDelay, maxAttempts);
    if |draws| < maxAttempts {
      NthDelay(b, draws, draw);
    } else {
      ShiftingStops(b, draws, draw);
    }
  }

  /** The documented delay `min(max, base * 2^k)` comes out exactly when the product fits in 64
      bits, or what is left of it is still above the maximum. */
  lemma DocumentedDelayIff(base: U64, maxDelay: U64, maxAttempts: nat, draws: seq<nat>, draw: nat)
    requires |draws| < maxAttempts
    ensures var product := Product(base, |draws|);
            Call(NoJitterBackoff(base, maxDelay, maxAttempts), draws, draw) == Delay(Min(maxDelay, product)) <==>
              product <= U64_MAX || Word(product) >= maxDelay
  {
    NoJitterDelays(base, maxDelay, maxAttempts, draws, draw);
  }

  /** While the product fits, no call panics and every delay is a documented one. */
  lemma DocumentedRanges(b: State, draws: seq<nat>, draw: nat)
    requires Built(b) && Shifts(b.kind) && !b.kind.NoJitter? && |draws| < b.maxAttempts
    requires Product(b.base, |draws|) <= U64_MAX
    ensures var top := Min(b.maxDelay, Product(b.base, |draws|));
            var out := Call(b, draws, draw);
            && out.Delay? && out.ms < top
            && (b.kind.EqualJitter? ==> top / 2 <= out.ms)
  {
    ProductDoubles(b.base, |draws|);
    NthDelay(b, draws, draw);
  }

  /** A base of 1 panics under full jitter at its 65th call. */
  lemma FullJitterCanPanic(draws: seq<nat>, draw: nat, maxAttempts: nat)
    requires |draws| == 64 < maxAttempts
    ensures Call(FullJitterBackoff(1, 500, maxAttempts), draws, draw) == EmptyRange
  {
    var b := FullJitterBackoff(1, 500, maxAttempts);
    assert BuiltFrom(b, 1, 500, maxAttempts);
    Pow2At64();
    NthDelay(b, draws, draw);
  }

  /** Decorrelated delays stay between base and maximum for ever, each below three times the one
      before (the first below three times the base) as far as a word holds that, and nothing overflows. */
  lemma {:induction false} DecorrelatedStays(base: U64, maxDelay: U64, maxAttempts: nat, draws: seq<nat>, draw: nat)
    ensures var b := DecorrelatedJitterBackoff(base, maxDelay, maxAttempts);
            var s := After(b, draws);
            && s.kind == b.kind && s.base == b.base && s.maxDelay == b.maxDelay && s.maxAttempts == maxAttempts
            && s.attempts == Min(|draws|, maxAttempts)
            && b.base <= s.current <= b.maxDelay
            && (draws == [] ==> s.current == b.base)
            && (0 < |draws| <= maxAttempts ==>
                  Call(b, draws[..|draws| - 1], draws[|draws| - 1]) == Delay(s.current))
            && GenRange(draw, DecorrSpan(s)) + s.base <= U64_MAX
            && (|draws| < maxAttempts ==>
                  && Call(b, draws, draw).Delay?
                  && b.base <= Call(b, draws, draw).ms <= b.maxDelay
                  && Call(b, draws, draw).ms <= Max(SatMulU64(s.current, 3) - 1, b.base))
    decreases |draws|
  {
    if draws != [] {
      DecorrelatedStays(base, maxDelay, maxAttempts, draws[..|draws| - 1], draws[|draws| - 1]);
    }
  }

  /** The documented ranges are tight: every delay in them is handed out for some draw. */
  lemma DelayReaches(s: State, ms: U64) returns (draw: nat)
    requires s.attempts < s.maxAttempts
    requires match s.kind
             case FullJitter => ms < Min(s.maxDelay, s.current)
             case EqualJitter => var half := Min(s.maxDelay, s.current) / 2; half <= ms < 2 * half
             case DecorrelatedJitter => s.base <= ms <= Min(s.maxDelay, Max(SatMulU64(s.current, 3) - 1, s.base))
             case _ => false
    ensures NextDelay(s, draw).1 == Delay(ms)
  {
    match s.kind
    case FullJitter => draw := ms;
    case EqualJitter => draw := ms - Min(s.maxDelay, s.current) / 2;
    case DecorrelatedJitter => draw := ms - s.base;
  }

  /** The delays documented for a jittered call whose exponential is `top`. */
  predicate Documented(kind: Kind, top: nat, ms: U64)
  {
    if kind.FullJitter? then ms < top else top / 2 <= ms < 2 * (top / 2)
  }

  /** What a jittered call hands out over all draws: the documented delays of its delay word, and
      nothing where that word is 0. */
  lemma JitterRange(b: State, draws: seq<nat>, ms: U64)
    requires Built(b) && (b.kind.FullJitter? || b.kind.EqualJitter?) && |draws| < b.maxAttempts
    ensures (exists draw: nat :: Call(b, draws, draw) == Delay(ms)) <==>
            Documented(b.kind, Min(b.maxDelay, Word(Product(b.base, |draws|))), ms)
  {
    CurrentAfter(b, draws);
    forall draw: nat | Call(b, draws, draw) == Delay(ms)
      ensures Documented(b.kind, Min(b.maxDelay, Word(Product(b.base, |draws|))), ms)
    {
      NthDelay(b, draws, draw);
    }
    if Documented(b.kind, Min(b.maxDelay, Word(Product(b.base, |draws|))), ms) {
      var draw := DelayReaches(After(b, draws), ms);
      assert Call(b, draws, draw) == Delay(ms);
    }
  }

  /** Two exponentials document the same delays exactly when they agree, or under equal jitter when
      their halves do. */
  lemma DocumentedSame(kind: Kind, top: nat, other: nat)
    requires top <= U64_MAX && other <= U64_MAX
    ensures (forall ms: U64 :: Documented(kind, top, ms) <==> Documented(kind, other, ms)) <==>
            if kind.FullJitter? then top == other else top / 2 == other / 2
  {
    if kind.FullJitter? {
      var low: U64 := Min(top, other);
      assert top != other ==> !(Documented(kind, top, low) <==> Documented(kind, other, low));
    } else if top / 2 != other / 2 {
      var more := Max(top, other);
      var last: U64 := 2 * (more / 2) - 1;
      assert Documented(kind, more, last) && !Documented(kind, Min(top, other), last);
    }
  }

  /** Full jitter in the caller's own terms, floors included: which outcomes call k can have. */
  lemma FullJitterDelays(base: U64, maxDelay: U64, maxAttempts: nat, draws: seq<nat>, out: Outcome)
    ensures (exists draw: nat :: Call(FullJitterBackoff(base, maxDelay, maxAttempts), draws, draw) == out) <==>
            var top := Min(Max(maxDelay, 1), Word(Product(Max(base, 1), |draws|)));
            if |draws| >= maxAttempts then out == Stop
            else if top == 0 then out == EmptyRange
            else out.Delay? && out.ms < top
  {
    var b := FullJitterBackoff(base, maxDelay, maxAttempts);
    assert BuiltFrom(b, base, maxDelay, maxAttempts);
    JitterOutcomes(b, draws, out);
  }

  /** And equal jitter. */
  lemma EqualJitterDelays(base: U64, maxDelay: U64, maxAttempts: nat, draws: seq<nat>, out: Outcome)
    ensures (exists draw: nat :: Call(EqualJitterBackoff(base, maxDelay, maxAttempts), draws, draw) == out) <==>
            var half := Min(Max(maxDelay, 2), Word(Product(Max(base, 2), |draws|))) / 2;
            if |draws| >= maxAttempts then out == Stop
            else if half == 0 then out == EmptyRange
            else out.Delay? && half <= out.ms < 2 * half
  {
    var b := EqualJitterBackoff(base, maxDelay, maxAttempts);
    assert BuiltFrom(b, base, maxDelay, maxAttempts);
    JitterOutcomes(b, draws, out);
    CurrentAfter(b, draws);
    ProductDoubles(Max(base, 2), 0);
  }

  lemma JitterOutcomes(b: State, draws: seq<nat>, out: Outcome)
    requires Built(b) && (b.kind.FullJitter? || b.kind.EqualJitter?)
    ensures (exists draw: nat :: Call(b, draws, draw) == out) <==>
            var word := Word(Product(b.base, |draws|));
            if |draws| >= b.maxAttempts then out == Stop
            else if word == 0 then out == EmptyRange
            else out.Delay? && Documented(b.kind, Min(b.maxDelay, word), out.ms)
  {
    forall draw: nat
      ensures Call(b, draws, draw).Stop? <==> |draws| >= b.maxAttempts
      ensures |draws| < b.maxAttempts ==> (Call(b, draws, draw).EmptyRange? <==> Word(Product(b.base, |draws|)) == 0)
    {
      ShiftingStops(b, draws, draw);
      if |draws| < b.maxAttempts {
        NthDelay(b, draws, draw);
      }
    }
    assert Call(b, draws, 0).Stop? <==> |draws| >= b.maxAttempts;
    if |draws| < b.maxAttempts && out.Delay? {
      JitterRange(b, draws, out.ms);
      DocumentedNothing(b.kind, Min(b.maxDelay, Word(Product(b.base, |draws|))), out.ms);
    }
  }

  lemma DocumentedNothing(kind: Kind, top: nat, ms: U64)
    ensures Documented(kind, top, ms) ==> top > 0
  {
  }

  /** Decorrelated jitter: each delay is drawn from the base up to three times the one before, saturated
      and capped. */
  lemma DecorrelatedDelays(base: U64, maxDelay: U64, maxAttempts: nat, draws: seq<nat>, out: Outcome)
    ensures var b := DecorrelatedJitterBackoff(base, maxDelay, maxAttempts);
            (exists draw: nat :: Call(b, draws, draw) == out) <==>
            if |draws| >= maxAttempts then out == Stop
            else
              var low, k := Max(base, 1), |draws| - 1;
              var last := if draws == [] then Delay(low) else Call(b, draws[..k], draws[k]);
              && last.Delay? && out.Delay?
              && low <= out.ms <= Min(Max(maxDelay, low), Max(SatMulU64(last.ms, 3) - 1, low))
  {
    var b := DecorrelatedJitterBackoff(base, maxDelay, maxAttempts);
    forall draw: nat
      ensures Call(b, draws, draw).Stop? <==> |draws| >= maxAttempts
    {
      DecorrelatedStops(base, maxDelay, maxAttempts, draws, draw);
    }
    assert Call(b, draws, 0).Stop? <==> |draws| >= maxAttempts;
    if |draws| < maxAttempts {
      DecorrelatedReached(base, maxDelay, maxAttempts, draws, out);
    }
  }

  lemma DecorrelatedReached(base: U64, maxDelay: U64, maxAttempts: nat, draws: seq<nat>, out: Outcome)
    requires |draws| < maxAttempts
    ensures var b := DecorrelatedJitterBackoff(base, maxDelay, maxAttempts);
            (exists draw: nat :: Call(b, draws, draw) == out) <==>
            var low, k := Max(base, 1), |draws| - 1;
            var last := if draws == [] then Delay(low) else Call(b, draws[..k], draws[k]);
            && last.Delay? && out.Delay?
            && low <= out.ms <= Min(Max(maxDelay, low), Max(SatMulU64(last.ms, 3) - 1, low))
  {
    var b := DecorrelatedJitterBackoff(base, maxDelay, maxAttempts);
    forall draw: nat | Call(b, draws, draw) == out
      ensures out.Delay? && Max(base, 1) <= out.ms <= Max(maxDelay, Max(base, 1))
      ensures out.ms <= Max(SatMulU64(After(b, draws).current, 3) - 1, Max(base, 1))
    {
      DecorrelatedStays(base, maxDelay, maxAttempts, draws, draw);
    }
    DecorrelatedStays(base, maxDelay, maxAttempts, draws, 0);
    var s := After(b, draws);
    if out.Delay? && s.base <= out.ms <= Min(s.maxDelay, Max(SatMulU64(s.current, 3) - 1, s.base)) {
      var draw := DelayReaches(s, out.ms);
      assert Call(b, draws, draw) == out;
    }
  }

  /** The jittered ranges are the documented ones, of `min(max, base * 2^k)`, if and only if the
      product fits in 64 bits or what is left of it still reaches the maximum (under equal jitter, up
      to the bit that halving drops). */
  lemma DocumentedRangesIff(b: State, draws: seq<nat>)
    requires Built(b) && (b.kind.FullJitter? || b.kind.EqualJitter?) && |draws| < b.maxAttempts
    ensures var product := Product(b.base, |draws|);
            (forall ms: U64 ::
               (exists draw: nat :: Call(b, draws, draw) == Delay(ms)) <==>
               Documented(b.kind, Min(b.maxDelay, product), ms)) <==>
            || product <= U64_MAX
            || (if b.kind.FullJitter? then Word(product) >= b.maxDelay else Word(product) / 2 >= b.maxDelay / 2)
  {
    var product := Product(b.base, |draws|);
    forall ms: U64
      ensures (exists draw: nat :: Call(b, draws, draw) == Delay(ms)) <==>
              Documented(b.kind, Min(b.maxDelay, Word(product)), ms)
    {
      JitterRange(b, draws, ms);
    }
    DocumentedSame(b.kind, Min(b.maxDelay, Word(product)), Min(b.maxDelay, product));
  }

  lemma ShiftingStops(b: State, draws: seq<nat>, draw: nat)
    requires Built(b) && Shifts(b.kind)
    ensures Call(b, draws, draw).Stop? <==> |draws| >= b.maxAttempts
  {
    CurrentAfter(b, draws);
    ProductDoubles(b.base, 0);
    EmptyRangeIsZero(b, After(b, draws), draw);
  }

  lemma DecorrelatedStops(base: U64, maxDelay: U64, maxAttempts: nat, draws: seq<nat>, draw: nat)
    ensures Call(DecorrelatedJitterBackoff(base, maxDelay, maxAttempts), draws, draw).Stop? <==> |draws| >= maxAttempts
  {
    DecorrelatedStays(base, maxDelay, maxAttempts, draws, draw);
  }

  /** Exactly the first `maxAttempts` calls are served; every later one says stop. */
  lemma StopsExactly(b: State, draws: seq<nat>, draw: nat)
    requires Built(b)
    ensures Call(b, draws, draw).Stop? <==> |draws| >= b.maxAttempts
  {
    if Shifts(b.kind) {
      ShiftingStops(b, draws, draw);
    } else if b.kind.DecorrelatedJitter? {
      var base: U64, maxDelay: U64, n: nat :| BuiltFrom(b, base, maxDelay, n);
      DecorrelatedStops(base, maxDelay, n, draws, draw);
    } else {
      NoneNeverMoves(draws);
    }
  }

  lemma {:induction false} NoneNeverMoves(draws: seq<nat>)
    ensures After(NoBackoff(), draws) == NoBackoff()
    decreases |draws|
  {
    if draws != [] {
      NoneNeverMoves(draws[..|draws| - 1]);
    }
  }

  class Backoff {
    var kind: Kind
    var currentAttempts: nat
    var maxAttempts: nat
    var baseDelayMs: U64
    var currentDelayMs: U64
    var maxDelayMs: U64

    ghost function Value(): State
      reads this
    {
      State(kind, currentAttempts, maxAttempts, baseDelayMs, currentDelayMs, maxDelayMs)
    }

    constructor (b: State)
      ensures Value() == b
    {
      kind, currentAttempts, maxAttempts := b.kind, b.attempts, b.maxAttempts;
      baseDelayMs, currentDelayMs, maxDelayMs := b.base, b.current, b.maxDelay;
    }

    /** `next_delay_duration`. */
    method NextDelayDuration(draw: nat) returns (out: Outcome)
      modifies this
      ensures (Value(), out) == NextDelay(old(Value()), draw)
    {
      if currentAttempts >= maxAttempts {
        return Stop;
      }
      currentAttempts := currentAttempts + 1;
      match kind
      case NoneKind =>
        return Stop;
      case NoJitter =>
        var delayMs := Min(maxDelayMs, currentDelayMs);
        currentDelayMs := ShiftLeft(currentDelayMs);
        return Delay(delayMs);
      case FullJitter =>
        var delayMs := Min(maxDelayMs, currentDelayMs);
        if delayMs == 0 {
          return EmptyRange;
        }
        delayMs := GenRange(draw, delayMs);
        currentDelayMs := ShiftLeft(currentDelayMs);
        return Delay(delayMs);
      case EqualJitter =>
        var delayMs := Min(maxDelayMs, currentDelayMs);
        var halfDelayMs := delayMs / 2;
        if halfDelayMs == 0 {
          return EmptyRange;
        }
        delayMs := GenRange(draw, halfDelayMs) + halfDelayMs;
        currentDelayMs := ShiftLeft(currentDelayMs);
        return Delay(delayMs);
      case DecorrelatedJitter =>
        var upperExclusive := Max(SatSubU64(SatMulU64(currentDelayMs, 3), baseDelayMs), 1);
        var delayMs := Min(GenRange(draw, upperExclusive) + baseDelayMs, maxDelayMs);
        currentDelayMs := delayMs;
        return Delay(delayMs);
    }
  }
}
