/** Which back-off function a call of a budget runs: one per configuration name, made by the first
    accepted call on it with that call's configuration, and moved on by every accepted call since. So
    the sleeps of a budget are those of separate runs of back-off functions, and a clone or fork
    starts all of them over. */
module BudgetFns {
  import opened Machine
  import opened BackoffFn
  import opened Budget
  import opened Contexts
  import opened BudgetRuns
  import BudgetHistory

  /** The calls on one configuration name. */
  function On(calls: seq<Call>, name: string): seq<Call>
  {
    if calls == [] then []
    else
      var last := calls[|calls| - 1];
      On(calls[..|calls| - 1], name) + if last.cfg.name == name then [last] else []
  }

  function Limits(calls: seq<Call>): (limits: seq<Option<U64>>)
    ensures |limits| == |calls|
  {
    seq(|calls|, i requires 0 <= i < |calls| => calls[i].limit)
  }

  function Draws(calls: seq<Call>): (draws: seq<nat>)
    ensures |draws| == |calls|
  {
    seq(|calls|, i requires 0 <= i < |calls| => calls[i].draw)
  }

  /** A new back-off function for the configuration: the lock-fast one takes its base from the caller's
      variables. */
  function NewFor(vars: Vars, cfg: BackoffConfig): (st: FnState)
    ensures Ready(st) && st.attempts == 0
  {
    NewFnState(if cfg.name == "txnLockFast" then vars.lockFastMs else cfg.fnCfg.base, cfg.fnCfg.cap, cfg.fnCfg.jitter)
  }

  /** The back-off function that a call runs after the given calls on the same name. */
  ghost function FnAfter(vars: Vars, on: seq<Call>, call: Call): (st: FnState)
    ensures Ready(st)
  {
    After(NewFor(vars, if on == [] then call.cfg else on[0].cfg), Limits(on), Draws(on))
  }

  ghost predicate FnTells(b: Budget, calls: seq<Call>, name: string)
  {
    var on := On(calls, name);
    && (name in b.fns <==> on != [])
    && (on != [] ==> b.fns[name] == FnAfter(b.vars, on, on[0]))
  }

  ghost predicate FnsTell(b: Budget, calls: seq<Call>)
  {
    forall name :: FnTells(b, calls, name)
  }

  lemma OnMore(calls: seq<Call>, call: Call, name: string)
    ensures On(calls + [call], name) == On(calls, name) + if call.cfg.name == name then [call] else []
  {
    assert (calls + [call])[..|calls|] == calls;
  }

  lemma FnAfterMore(vars: Vars, on: seq<Call>, call: Call)
    ensures var more := on + [call];
            FnAfter(vars, more, more[0]) == BackoffMs(FnAfter(vars, on, call), call.limit, call.draw).1
  {
    var more := on + [call];
    assert Limits(more)[..|on|] == Limits(on) && Draws(more)[..|on|] == Draws(on);
  }

  /** An accepted call runs the function that its predecessors on the same name have left. */
  lemma SleptByFn(b: Budget, calls: seq<Call>, call: Call)
    requires FnsReady(b) && FnsTell(b, calls)
    ensures FnFor(b, call.cfg) == FnAfter(b.vars, On(calls, call.cfg.name), call)
    ensures Accept(b, call).total - b.total
         == BackoffMs(FnAfter(b.vars, On(calls, call.cfg.name), call), call.limit, call.draw).0
  {
    assert FnTells(b, calls, call.cfg.name);
    var on := On(calls, call.cfg.name);
    if on != [] {
      assert FnAfter(b.vars, on, on[0]) == FnAfter(b.vars, on, call);
    }
  }

  lemma AcceptFns(b: Budget, call: Call)
    requires FnsReady(b)
    ensures var b' := Accept(b, call);
            && b'.vars == b.vars
            && b'.fns == b.fns[call.cfg.name := BackoffMs(FnFor(b, call.cfg), call.limit, call.draw).1]
  {
  }

  lemma OtherTells(b: Budget, b': Budget, calls: seq<Call>, call: Call, fn: FnState, name: string)
    requires FnTells(b, calls, name) && name != call.cfg.name && b'.vars == b.vars
    requires b'.fns == b.fns[call.cfg.name := fn]
    ensures FnTells(b', calls + [call], name)
  {
    OnMore(calls, call, name);
    assert On(calls, name) + [] == On(calls, name);
  }

  lemma OwnTells(b: Budget, b': Budget, calls: seq<Call>, call: Call)
    requires b'.vars == b.vars
    requires var fn := FnAfter(b.vars, On(calls, call.cfg.name), call);
             b'.fns == b.fns[call.cfg.name := BackoffMs(fn, call.limit, call.draw).1]
    ensures FnTells(b', calls + [call], call.cfg.name)
  {
    OnMore(calls, call, call.cfg.name);
    FnAfterMore(b.vars, On(calls, call.cfg.name), call);
  }

  lemma AcceptTells(b: Budget, calls: seq<Call>, call: Call)
    requires FnsReady(b) && FnsTell(b, calls)
    ensures FnsTell(Accept(b, call), calls + [call])
  {
    SleptByFn(b, calls, call);
    AcceptFns(b, call);
    var b', fn := Accept(b, call), BackoffMs(FnFor(b, call.cfg), call.limit, call.draw).1;
    forall name
      ensures FnTells(b', calls + [call], name)
    {
      if name == call.cfg.name {
        OwnTells(b, b', calls, call);
      } else {
        assert FnTells(b, calls, name);
        OtherTells(b, b', calls, call, fn, name);
      }
    }
  }

  // Plain runs.

  /** The accepted calls among the first `n`. */
  ghost function AcceptedOf(attempts: seq<Attempt>, outs: seq<Outcome>, n: nat): seq<Call>
    requires n <= |attempts| == |outs|
  {
    if n == 0 then []
    else AcceptedOf(attempts, outs, n - 1) + if outs[n - 1].Slept? then [attempts[n - 1].call] else []
  }

  lemma {:induction false} RunTells(busyLimit: U64, states: seq<Budget>, attempts: seq<Attempt>, outs: seq<Outcome>,
                                    n: nat)
    requires IsRun(busyLimit, states, attempts, outs) && n < |states| && states[0].fns == map[]
    ensures FnsTell(states[n], AcceptedOf(attempts, outs, n))
    decreases n
  {
    if n > 0 {
      RunTells(busyLimit, states, attempts, outs, n - 1);
      var calls := AcceptedOf(attempts, outs, n - 1);
      if outs[n - 1].Slept? {
        AcceptTells(states[n - 1], calls, attempts[n - 1].call);
      } else {
        assert calls + [] == calls;
      }
    }
  }

  lemma {:induction false} OnCounts(attempts: seq<Attempt>, outs: seq<Outcome>, name: string, n: nat)
    requires n <= |attempts| == |outs|
    ensures |On(AcceptedOf(attempts, outs, n), name)| == TimesOn(attempts, outs, name, n)
    decreases n
  {
    if n > 0 {
      OnCounts(attempts, outs, name, n - 1);
      if outs[n - 1].Slept? {
        OnMore(AcceptedOf(attempts, outs, n - 1), attempts[n - 1].call, name);
      } else {
        assert AcceptedOf(attempts, outs, n - 1) + [] == AcceptedOf(attempts, outs, n - 1);
      }
    }
  }

  /** In a run from a new budget, an accepted call sleeps what a back-off function made for the name's
      first configuration sleeps after the calls accepted on that name so far. */
  lemma RunSleeps(ctx: nat, maxSleep: U64, vars: Vars, busyLimit: U64, states: seq<Budget>,
                  attempts: seq<Attempt>, outs: seq<Outcome>, n: nat)
    requires IsRun(busyLimit, states, attempts, outs) && states[0] == NewBudget(ctx, maxSleep, vars)
    requires n < |attempts| && outs[n].Slept?
    ensures var call := attempts[n].call;
            var on := On(AcceptedOf(attempts, outs, n), call.cfg.name);
            states[n + 1].total - states[n].total == BackoffMs(FnAfter(vars, on, call), call.limit, call.draw).0
  {
    RunKeeps(busyLimit, states, attempts, outs, n);
    RunTells(busyLimit, states, attempts, outs, n);
    assert Backs(attempts[n].canceled, busyLimit, states[n], attempts[n].call, states[n + 1], outs[n]);
    SleptByFn(states[n], AcceptedOf(attempts, outs, n), attempts[n].call);
  }

  /** The sleep, before any limit, that `attempts` earlier calls on a configuration leave possible, when
      the last of them drew `last`. */
  predicate InRange(jitter: Jitter, low: U64, high: U64, attempts: U32, last: U64, sleep: U64)
  {
    var v := Min(low * Pow2(attempts), high);
    match jitter
    case No => sleep == v
    case Full => sleep < v
    case Equal => v / 2 <= sleep < 2 * (v / 2)
    case Decorr => low <= sleep <= Min(Max(SatMulU64(last, 3) - 1, low), high)
  }

  lemma FnInRange(st: FnState, draw: nat)
    requires Ready(st)
    ensures InRange(st.jitter, st.base, st.cap, st.attempts, st.last, Sleep(st, draw))
  {
    ExpoExact(st.base, st.cap, st.attempts);
  }

  lemma FnAfterFacts(vars: Vars, on: seq<Call>, call: Call)
    ensures var st, cfg := FnAfter(vars, on, call), if on == [] then call.cfg else on[0].cfg;
            && st.attempts == Wrapped(|on|) && st.jitter == cfg.fnCfg.jitter
            && st.base == NewFor(vars, cfg).base && st.cap == NewFor(vars, cfg).cap
            && (on == [] ==> st.last == st.base)
  {
    RunCounts(NewFor(vars, if on == [] then call.cfg else on[0].cfg), Limits(on), Draws(on));
  }

  /** In a run whose names determine their configurations, an accepted call that comes after j accepted
      calls on its configuration sleeps, cut down to its limit, in the range of its jitter for
      `min(cap, base * 2^j)`, base and cap as floored by the constructor. */
  lemma RunSleepsByAttempt(ctx: nat, maxSleep: U64, vars: Vars, busyLimit: U64, states: seq<Budget>,
                           attempts: seq<Attempt>, outs: seq<Outcome>, n: nat) returns (last: U64, sleep: U64)
    requires IsRun(busyLimit, states, attempts, outs) && states[0] == NewBudget(ctx, maxSleep, vars)
    requires n < |attempts| && outs[n].Slept?
    requires forall i, j :: 0 <= i < |attempts| && 0 <= j < |attempts| ==>
               attempts[i].call.cfg.name == attempts[j].call.cfg.name ==> attempts[i].call.cfg == attempts[j].call.cfg
    ensures var call := attempts[n].call;
            var times := TimesOn(attempts, outs, call.cfg.name, n);
            var low := Max(if call.cfg.name == "txnLockFast" then vars.lockFastMs else call.cfg.fnCfg.base, 2);
            && InRange(call.cfg.fnCfg.jitter, low, Max(call.cfg.fnCfg.cap, low), Wrapped(times), last, sleep)
            && (times == 0 ==> last == low)
            && states[n + 1].total - states[n].total == if call.limit.Some? then Min(sleep, call.limit.value) else sleep
  {
    var call := attempts[n].call;
    var on := On(AcceptedOf(attempts, outs, n), call.cfg.name);
    RunSleeps(ctx, maxSleep, vars, busyLimit, states, attempts, outs, n);
    OnCounts(attempts, outs, call.cfg.name, n);
    OnIsOfRun(attempts, outs, call, n);
    FnAfterFacts(vars, on, call);
    var st := FnAfter(vars, on, call);
    FnInRange(st, call.draw);
    last, sleep := st.last, Sleep(st, call.draw);
  }

  /** Calls on a name are calls of the run, so they have its configuration. */
  lemma {:induction false} OnIsOfRun(attempts: seq<Attempt>, outs: seq<Outcome>, call: Call, n: nat)
    requires n <= |attempts| == |outs|
    requires forall i :: 0 <= i < |attempts| && attempts[i].call.cfg.name == call.cfg.name ==>
               attempts[i].call.cfg == call.cfg
    ensures forall c :: c in On(AcceptedOf(attempts, outs, n), call.cfg.name) ==> c.cfg == call.cfg
    decreases n
  {
    if n > 0 {
      OnIsOfRun(attempts, outs, call, n - 1);
      if outs[n - 1].Slept? {
        OnMore(AcceptedOf(attempts, outs, n - 1), attempts[n - 1].call, call.cfg.name);
      } else {
        assert AcceptedOf(attempts, outs, n - 1) + [] == AcceptedOf(attempts, outs, n - 1);
      }
    }
  }

  // Families.

  /** The calls that the member accepted in operations `i` to `n`. */
  ghost function AcceptedBy(busyLimit: U64, families: seq<Family>, ops: seq<FamilyOp>, m: nat, i: nat, n: nat)
    : seq<Call>
    requires IsFamilyRun(busyLimit, families, ops) && i <= n < |families| && m < |families[i].members|
    decreases n
  {
    if n == i then []
    else
      BudgetHistory.MembersStay(busyLimit, families, ops, i, n - 1);
      AcceptedBy(busyLimit, families, ops, m, i, n - 1) + AcceptedNow(busyLimit, families[n - 1], ops[n - 1], m)
  }

  ghost function AcceptedNow(busyLimit: U64, f: Family, op: FamilyOp, m: nat): seq<Call>
    requires MembersPlaced(f) && m < |f.members|
  {
    if op.Back? && op.member == m && BudgetHistory.Accepts(busyLimit, f, m, op.call) then [op.call] else []
  }

  lemma FamilyTellsStep(busyLimit: U64, f: Family, op: FamilyOp, f': Family, m: nat, calls: seq<Call>)
    requires MembersPlaced(f) && FamilyNext(busyLimit, f, op, f') && m < |f.members| && m < |f'.members|
    requires FnsTell(f.members[m], calls)
    ensures FnsTell(f'.members[m], calls + AcceptedNow(busyLimit, f, op, m))
  {
    if op.Back? && op.member == m && BudgetHistory.Accepts(busyLimit, f, m, op.call) {
      AcceptTells(f.members[m], calls, op.call);
    } else {
      assert calls + [] == calls;
      SameFns(f.members[m], f'.members[m], calls);
    }
  }

  lemma SameFns(b: Budget, b': Budget, calls: seq<Call>)
    requires FnsTell(b, calls) && b'.fns == b.fns && b'.vars == b.vars
    ensures FnsTell(b', calls)
  {
    forall name
      ensures FnTells(b', calls, name)
    {
      assert FnTells(b, calls, name);
    }
  }

  lemma {:induction false} FamilyTells(busyLimit: U64, families: seq<Family>, ops: seq<FamilyOp>, m: nat, i: nat,
                                       n: nat)
    requires IsFamilyRun(busyLimit, families, ops) && i <= n < |families|
    requires m < |families[i].members| <= |families[n].members| && families[i].members[m].fns == map[]
    ensures FnsTell(families[n].members[m], AcceptedBy(busyLimit, families, ops, m, i, n))
    decreases n
  {
    if i < n {
      BudgetHistory.MembersStay(busyLimit, families, ops, i, n - 1);
      FamilyTells(busyLimit, families, ops, m, i, n - 1);
      FamilyTellsStep(busyLimit, families[n - 1], ops[n - 1], families[n], m,
                      AcceptedBy(busyLimit, families, ops, m, i, n - 1));
    }
  }

  /** A clone or fork starts over: whatever its parent has slept, and whatever is merged, a call it
      accepts sleeps what a new back-off function sleeps after the calls accepted by itself. */
  lemma RestartedSleeps(busyLimit: U64, families: seq<Family>, ops: seq<FamilyOp>, i: nat, n: nat)
    requires IsFamilyRun(busyLimit, families, ops) && i < n < |ops| && (ops[i].Clone? || ops[i].Fork?)
    requires var m := |families[i].members|;
             m < |families[n].members| && ops[n].Back? && ops[n].member == m
             && BudgetHistory.Accepts(busyLimit, families[n], m, ops[n].call)
    ensures var m, call := |families[i].members|, ops[n].call;
            && m < |families[i + 1].members| && m < |families[n + 1].members|
            && var on := On(AcceptedBy(busyLimit, families, ops, m, i + 1, n), call.cfg.name);
               families[n + 1].members[m].total - families[n].members[m].total
               == BackoffMs(FnAfter(families[n].members[m].vars, on, call), call.limit, call.draw).0
  {
    var m, call := |families[i].members|, ops[n].call;
    assert families[i + 1].members[m].fns == map[];
    BudgetHistory.MembersStay(busyLimit, families, ops, i + 1, n);
    FamilyTells(busyLimit, families, ops, m, i + 1, n);
    SleptByFn(families[n].members[m], AcceptedBy(busyLimit, families, ops, m, i + 1, n), call);
    BackAccepts(busyLimit, families[n], ops[n], families[n + 1]);
  }

  lemma BackAccepts(busyLimit: U64, f: Family, op: FamilyOp, f': Family)
    requires MembersPlaced(f) && FamilyNext(busyLimit, f, op, f') && op.Back?
    requires BudgetHistory.Accepts(busyLimit, f, op.member, op.call)
    ensures f'.members == f.members[op.member := Accept(f.members[op.member], op.call)]
  {
  }

  // The client's own configurations.

  /** The exponential of the configuration's call number `j`, in milliseconds. */
  function Scheduled(vars: Vars, name: string, j: nat): nat
  {
    if name == "tikvRPC" then Min(100 * Pow2(j), 2000)
    else if name == "regionMiss" || name == "txnNotFound" then Min(2 * Pow2(j), 500)
    else if name == "tikvServerBusy" then Min(2000 * Pow2(j), 10_000)
    else if name == "regionRecoveryInProgress" then Min(100 * Pow2(j), 10_000)
    else if name == "regionNotInitialized" then Min(2 * Pow2(j), 1000)
    else if name == "isWitness" then Min(1000 * Pow2(j), 10_000)
    else Min(Max(vars.lockFastMs, 2) * Pow2(j), Max(3000, vars.lockFastMs))
  }

  /** Each configuration of the client has a name of its own, sleeps by its schedule, and reports its
      own kind of error; the three that wait for routing or for another transaction to show up sleep the
      whole exponential, the others between half of it and all of it. */
  lemma TableSchedule(vars: Vars, cfg: BackoffConfig, other: BackoffConfig, j: nat)
    requires cfg in TABLE && other in TABLE
    ensures cfg.name == other.name ==> cfg == other
    ensures Expo(NewFor(vars, cfg).base, NewFor(vars, cfg).cap, j) == Scheduled(vars, cfg.name, j)
    ensures cfg.fnCfg.jitter == if cfg.name in {"regionMiss", "txnNotFound", "regionNotInitialized"} then No else Equal
    ensures cfg.errKind == match cfg.name
              case "tikvRPC" => TiKVServerTimeout
              case "regionMiss" => RegionUnavailable
              case "tikvServerBusy" => TiKVServerBusy
              case "regionRecoveryInProgress" => RegionRecoveryInProgress
              case "regionNotInitialized" => RegionNotInitialized
              case "isWitness" => IsWitness
              case _ => ResolveLockTimeout
  {
    ExpoExact(NewFor(vars, cfg).base, NewFor(vars, cfg).cap, j);
  }

  /** A budget made without variables allows twice the sleep asked for, and sleeps from 10 ms on a fast
      lock. */
  lemma DefaultVars(ctx: nat, maxSleep: U64)
    ensures NewBudget(ctx, maxSleep, DEFAULT_VARS).maxSleep == Min(2 * maxSleep, U64_MAX)
    ensures NewFor(DEFAULT_VARS, BO_TXN_LOCK_FAST).base == 10
  {
  }
}
