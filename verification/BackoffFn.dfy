/** One exponential back-off function with jitter: the arithmetic of `expo` and of a single sleep. */
module BackoffFn {
  import opened Machine

  datatype Jitter = No | Full | Equal | Decorr

  /** `1u64.checked_shl(attempts).unwrap_or(u64::MAX)`. */
  function Multiplier(attempts: nat): U64
  {
    if attempts < 64 then ShiftFits(attempts); Pow2(attempts) else U64_MAX
  }

  function Expo(base: U64, cap: U64, attempts: nat): U64
  {
    Min(SatMulU64(base, Multiplier(attempts)), cap)
  }

  lemma ShiftFits(attempts: nat)
    requires attempts < 64
    ensures Pow2(attempts) <= U64_MAX
  {
    Pow2Monotone(attempts, 63);
    Pow2At64();
  }

  /** Beyond 63 shifts both the saturated and the true product exceed every cap. */
  lemma BeyondWord(base: U64, attempts: nat)
    requires attempts >= 64 && base > 0
    ensures base * U64_MAX >= U64_MAX && base * Pow2(attempts) > U64_MAX
  {
    Pow2Monotone(64, attempts);
    Pow2At64();
    ProductMonotone(U64_MAX, 1, base);
    ProductMonotone(Pow2(attempts), 1, base);
  }

  /** `expo` is the capped exponential over unbounded integers: neither the missing shift beyond 63
      nor the saturating product ever shows. */
  lemma ExpoExact(base: U64, cap: U64, attempts: nat)
    ensures Expo(base, cap, attempts) == Min(base * Pow2(attempts), cap)
  {
    if attempts < 64 {
      ShiftFits(attempts);
    } else if base > 0 {
      BeyondWord(base, attempts);
    }
  }

  lemma ExpoMonotone(base: U64, cap: U64, m: nat, n: nat)
    requires m <= n
    ensures Expo(base, cap, m) <= Expo(base, cap, n)
  {
    ExpoExact(base, cap, m);
    ExpoExact(base, cap, n);
    Pow2Monotone(m, n);
    ProductMonotone(base, Pow2(m), Pow2(n));
  }

  lemma ExpoBetween(base: U64, cap: U64, attempts: nat)
    requires base <= cap
    ensures base <= Expo(base, cap, attempts) <= cap
  {
    ExpoExact(base, cap, attempts);
    ProductMonotone(base, 1, Pow2(attempts));
  }

  /** `BackoffFnState`. */
  datatype FnState = FnState(base: U64, cap: U64, jitter: Jitter, attempts: U32, last: U64)

  function NewFnState(base: U64, cap: U64, jitter: Jitter): (st: FnState)
    ensures Ready(st) && st.cap == Max(cap, Max(base, 2))
  {
    var base := Max(base, 2);
    FnState(base, Max(cap, base), jitter, 0, base)
  }

  /** What every state reached from `NewFnState` satisfies. */
  predicate Ready(st: FnState)
  {
    2 <= st.base <= st.cap && st.last <= st.cap && (st.jitter.Decorr? ==> st.base <= st.last)
  }

  function DecorrSpan(st: FnState): U64
  {
    Max(SatSubU64(SatMulU64(st.last, 3), st.base), 1)
  }

  /** The sleep before the per-call limit. The `GenRange` calls are in range and the sum stays
      below 2^64 because the state is `Ready`. */
  function Sleep(st: FnState, draw: nat): (sleep: U64)
    requires Ready(st)
    ensures sleep <= st.cap
    ensures st.jitter.No? ==> sleep == Expo(st.base, st.cap, st.attempts)
    ensures st.jitter.Full? ==> sleep < Expo(st.base, st.cap, st.attempts)
    ensures st.jitter.Equal? ==>
              var v := Expo(st.base, st.cap, st.attempts); v / 2 <= sleep < 2 * (v / 2)
    ensures st.jitter.Decorr? ==> st.base <= sleep <= Max(SatMulU64(st.last, 3) - 1, st.base)
    ensures !st.jitter.Full? ==> sleep >= 1
  {
    ExpoBetween(st.base, st.cap, st.attempts);
    var v := Expo(st.base, st.cap, st.attempts);
    match st.jitter
    case No => v
    case Full => GenRange(draw, v)
    case Equal => v / 2 + GenRange(draw, v / 2)
    case Decorr =>
      var grown: U64 := st.base + GenRange(draw, DecorrSpan(st));
      Min(grown, st.cap)
  }

  /** `+= 1` on a 32-bit word. */
  function Increment(attempts: U32): U32
  {
    (attempts + 1) % 0x1_0000_0000
  }

  /** `backoff_ms`: the sleep cut down to the per-call limit, and the state it leaves, which
      remembers the sleep before the cut. */
  function BackoffMs(st: FnState, limit: Option<U64>, draw: nat): (r: (U64, FnState))
    requires Ready(st)
    ensures Ready(r.1) && r.1.cap == st.cap && r.1.base == st.base && r.1.jitter == st.jitter
    ensures r.1.attempts == Increment(st.attempts) && r.1.last == Sleep(st, draw) && r.0 <= st.cap
    ensures r.0 == if limit.Some? then Min(r.1.last, limit.value) else r.1.last
    ensures !st.jitter.Full? && (limit.Some? ==> limit.value >= 1) ==> r.0 >= 1
  {
    var sleep := Sleep(st, draw);
    (if limit.Some? then Min(sleep, limit.value) else sleep, st.(attempts := Increment(st.attempts), last := sleep))
  }

  /** Every value of the documented range is slept for some draw, so the bounds above are tight. */
  lemma SleepReaches(st: FnState, sleep: U64) returns (draw: nat)
    requires Ready(st)
    requires match st.jitter
             case No => sleep == Expo(st.base, st.cap, st.attempts)
             case Full => sleep < Expo(st.base, st.cap, st.attempts)
             case Equal => var v := Expo(st.base, st.cap, st.attempts); v / 2 <= sleep < 2 * (v / 2)
             case Decorr => st.base <= sleep <= Min(Max(SatMulU64(st.last, 3) - 1, st.base), st.cap)
    ensures Sleep(st, draw) == sleep
  {
    ExpoBetween(st.base, st.cap, st.attempts);
    match st.jitter
    case No => draw := 0;
    case Full => draw := sleep;
    case Equal => draw := sleep - Expo(st.base, st.cap, st.attempts) / 2;
    case Decorr => draw := sleep - st.base;
  }

  /** The sleeps of a whole run of one function, for any draws and per-call limits. */
  ghost function After(st: FnState, limits: seq<Option<U64>>, draws: seq<nat>): FnState
    requires Ready(st) && |limits| == |draws|
    ensures Ready(After(st, limits, draws))
  {
    if draws == [] then st
    else
      var n := |draws| - 1;
      BackoffMs(After(st, limits[..n], draws[..n]), limits[n], draws[n]).1
  }

  /** The low 32 bits of a number. */
  function Wrapped(n: nat): U32
  {
    n % 0x1_0000_0000
  }

  lemma IncrementWraps(n: nat)
    ensures Increment(Wrapped(n)) == Wrapped(n + 1)
  {
  }

  /** A run leaves base, cap and jitter alone, and counts its calls modulo 2^32. */
  lemma {:induction false} RunCounts(st: FnState, limits: seq<Option<U64>>, draws: seq<nat>)
    requires Ready(st) && |limits| == |draws| && st.attempts == 0
    ensures var after := After(st, limits, draws);
            && after.attempts == Wrapped(|draws|)
            && after.base == st.base && after.cap == st.cap && after.jitter == st.jitter
    decreases |draws|
  {
    if draws != [] {
      var n := |draws| - 1;
      RunCounts(st, limits[..n], draws[..n]);
      IncrementWraps(n);
    }
  }

  /** Call number `k` of a run without jitter sleeps `min(cap, base * 2^(k mod 2^32))`, cut down to
      its limit. */
  lemma RunSleepsExponentially(base: U64, cap: U64, limits: seq<Option<U64>>, draws: seq<nat>,
                               limit: Option<U64>, draw: nat)
    requires |limits| == |draws|
    ensures var st := After(NewFnState(base, cap, No), limits, draws);
            var full := Min(Max(base, 2) * Pow2(Wrapped(|draws|)), Max(cap, Max(base, 2)));
            BackoffMs(st, limit, draw).0 == if limit.Some? then Min(full, limit.value) else full
  {
    RunCounts(NewFnState(base, cap, No), limits, draws);
    ExpoExact(Max(base, 2), Max(cap, Max(base, 2)), Wrapped(|draws|));
  }

  lemma CappedIff(lower: U64, upper: U64, k: nat)
    requires 0 < lower <= upper
    ensures Min(lower * Pow2(Wrapped(k)), upper) == Min(lower * Pow2(k), upper) <==>
            k < U32_SPAN || lower * Pow2(Wrapped(k)) >= upper
  {
    if k < U32_SPAN {
      assert Wrapped(k) == k;
    } else {
      BeyondWord(lower, k);
      MinSame(lower * Pow2(Wrapped(k)), lower * Pow2(k), upper);
    }
  }

  lemma MinSame(a: int, b: int, upper: int)
    requires b >= upper
    ensures Min(a, upper) == Min(b, upper) <==> a >= upper
  {
  }

  /** Call number `k` without jitter and limit sleeps the documented `min(cap, base * 2^k)`, if and
      only if the attempt counter has not wrapped or what is left of it already reaches the cap. */
  lemma DocumentedSleepIff(base: U64, cap: U64, limits: seq<Option<U64>>, draws: seq<nat>, draw: nat)
    requires |limits| == |draws|
    ensures var lower, upper := Max(base, 2), Max(cap, Max(base, 2));
            var st := After(NewFnState(base, cap, No), limits, draws);
            BackoffMs(st, None, draw).0 == Min(lower * Pow2(|draws|), upper) <==>
            |draws| < U32_SPAN || lower * Pow2(Wrapped(|draws|)) >= upper
  {
    RunSleepsExponentially(base, cap, limits, draws, None, draw);
    CappedIff(Max(base, 2), Max(cap, Max(base, 2)), |draws|);
  }
}
