/** `Backoffer` as the client runs it: counters, vectors and maps updated in place, and loops over
    maps in no particular order. Each method is proved against the values of module `Budget`. */
module Backoffers {
  import opened Machine
  import opened BackoffFn
  import opened Budget
  import opened Contexts

  class Backoffer {
    var ctx: nat
    var maxSleepMs: U64
    var totalSleepMs: nat
    var excludedSleepMs: nat
    var vars: Vars
    var noop: bool
    var errors: seq<string>
    var configs: seq<BackoffConfig>
    var backoffSleepMs: map<string, nat>
    var backoffTimes: map<string, nat>
    var fns: map<string, FnState>

    ghost function Value(): Budget
      reads this
    {
      Budget(ctx, maxSleepMs, totalSleepMs, excludedSleepMs, vars, noop, errors, configs, backoffSleepMs,
             backoffTimes, fns)
    }

    /** `new_with_vars`. */
    constructor WithVars(ctx: nat, maxSleepMs: U64, vars: Option<Vars>)
      ensures Value() == NewBudget(ctx, maxSleepMs, if vars.Some? then vars.value else DEFAULT_VARS)
      ensures Balanced(Value()) && Keyed(Value())
    {
      var v := if vars.Some? then vars.value else DEFAULT_VARS;
      this.ctx, this.maxSleepMs, this.vars, noop := ctx, SatMulU64(maxSleepMs, v.weight), v, false;
      totalSleepMs, excludedSleepMs, errors, configs := 0, 0, [], [];
      backoffSleepMs, backoffTimes, fns := map[], map[], map[];
    }

    /** `new_noop`. */
    constructor Noop(ctx: nat)
      ensures Value() == NewNoop(ctx) && Balanced(Value()) && Keyed(Value())
    {
      this.ctx, maxSleepMs, vars, noop := ctx, 0, DEFAULT_VARS, true;
      totalSleepMs, excludedSleepMs, errors, configs := 0, 0, [], [];
      backoffSleepMs, backoffTimes, fns := map[], map[], map[];
    }

    constructor Copy(other: Backoffer, ctx: nat)
      ensures Value() == ForkOf(other.Value(), ctx)
    {
      this.ctx, maxSleepMs, vars, noop := ctx, other.maxSleepMs, other.vars, other.noop;
      totalSleepMs, excludedSleepMs := other.totalSleepMs, other.excludedSleepMs;
      errors, configs := other.errors, other.configs;
      backoffSleepMs, backoffTimes, fns := other.backoffSleepMs, other.backoffTimes, map[];
    }

    /** `clone`. */
    method Clone() returns (copy: Backoffer)
      ensures fresh(copy) && copy.Value() == CloneOf(Value())
      ensures Balanced(Value()) ==> Balanced(copy.Value())
    {
      copy := new Backoffer.Copy(this, ctx);
    }

    /** `fork`: the copy lives in a new context right below this one's. */
    method Fork(forest: ContextForest) returns (child: Backoffer)
      requires WellFormed(forest.nodes) && ctx < |forest.nodes|
      modifies forest
      ensures fresh(child) && child.Value() == ForkOf(Value(), |old(forest.nodes)|)
      ensures WellFormed(forest.nodes) && forest.nodes == old(forest.nodes) + [Node(Some(ctx), false)]
      ensures StrictlyAbove(forest.nodes, ctx, child.ctx)
      ensures Balanced(Value()) ==> Balanced(child.Value())
    {
      AboveUnfolds(forest.nodes, ctx, ctx);
      var childCtx := forest.WithCancel(ctx);
      child := new Backoffer.Copy(this, childCtx);
    }

    /** `update_using_forked`: nothing changes unless the argument's context is a strict descendant. */
    method UpdateUsingForked(forest: ContextForest, forked: Backoffer)
      requires WellFormed(forest.nodes) && forked.ctx < |forest.nodes|
      modifies this
      ensures Value() ==
              if StrictlyAbove(forest.nodes, old(ctx), old(forked.ctx)) then Merge(old(Value()), old(forked.Value()))
              else old(Value())
      ensures old(Balanced(Value()) && Balanced(forked.Value())) ==> Balanced(Value())
    {
      var descends := forest.StrictHasAncestor(forked.ctx, ctx);
      if !descends {
        return;
      }
      totalSleepMs := forked.totalSleepMs;
      excludedSleepMs := forked.excludedSleepMs;
      errors := forked.errors;
      backoffSleepMs := forked.backoffSleepMs;
      backoffTimes := forked.backoffTimes;
    }

    /** `longest_sleep_cfg`, for any iteration order of the map. */
    method LongestSleepCfg() returns (r: Option<(BackoffConfig, nat)>)
      ensures Longest(Value(), r) && SleptLongest(Value(), r)
    {
      var candidate: Option<(string, nat)> := None;
      var left := backoffSleepMs.Keys;
      ghost var order: seq<string> := [];
      while left != {}
        invariant left <= backoffSleepMs.Keys
        invariant forall n :: n in order <==> n in backoffSleepMs && n !in left
        invariant forall i, j :: 0 <= i < j < |order| ==> order[i] != order[j]
        invariant candidate == Candidate(Value(), order)
        decreases |left|
      {
        var name :| name in left;
        left := left - {name};
        if name != BUSY && (candidate.None? || backoffSleepMs[name] > candidate.value.1) {
          candidate := Some((name, backoffSleepMs[name]));
        }
        assert (order + [name])[..|order|] == order;
        order := order + [name];
      }
      assert IsOrder(Value(), order);
      OrderFindsLongest(Value(), order);
      if candidate.None? {
        return None;
      }
      var (name, slept) := candidate.value;
      for i := 0 to |configs|
        invariant Find(configs[i..], name) == Find(configs, name)
      {
        if configs[i].name == name {
          return Some((configs[i], slept));
        }
        assert configs[i..][1..] == configs[i + 1..];
      }
      return None;
    }

    /** `backoff_with_cfg_and_max_sleep`. */
    method Backoff(forest: ContextForest, busyLimit: U64, call: Call) returns (out: Outcome)
      requires WellFormed(forest.nodes) && ctx < |forest.nodes| && Balanced(Value())
      modifies this
      ensures Backs(Contexts.Canceled(forest.nodes, old(ctx)), busyLimit, old(Value()), call, Value(), out)
      ensures Balanced(Value()) && (old(Keyed(Value())) ==> Keyed(Value()))
    {
      var canceled := forest.IsCanceled(ctx);
      if canceled {
        return Refused(BackofferError.Canceled(call.message));
      }
      if noop {
        return Refused(Other(call.message));
      }
      ExcludedWithinTotal(Value());
      var counted: nat := totalSleepMs - excludedSleepMs;
      var maxBackoffTimeExceeded := maxSleepMs > 0 && counted >= maxSleepMs;
      var maxExcludedTimeExceeded :=
        call.cfg.name == BUSY && excludedSleepMs >= busyLimit && excludedSleepMs >= maxSleepMs;
      if maxSleepMs > 0 && (maxBackoffTimeExceeded || maxExcludedTimeExceeded) {
        var longest := LongestSleepCfg();
        if longest.Some? {
          return Refused(MaxSleepExceeded(longest.value.0.errKind));
        } else {
          return Refused(Other(call.message));
        }
      }
      ghost var before := Value();
      AcceptBalanced(before, call);
      if Keyed(before) {
        AcceptKeyed(before, call);
      }
      Record(call);
      return Slept;
    }

    /** The accepting half of a back-off call: draw a sleep, and enter it in the books. */
    method Record(call: Call)
      requires FnsReady(Value())
      modifies this
      ensures Value() == Accept(old(Value()), call)
    {
      var cfg := call.cfg;
      var baseMs := if cfg.name == TXN_LOCK_FAST then vars.lockFastMs else cfg.fnCfg.base;
      var state := if cfg.name in fns then fns[cfg.name] else NewFnState(baseMs, cfg.fnCfg.cap, cfg.fnCfg.jitter);
      var (realSleepMs, nextState) := BackoffMs(state, call.limit, call.draw);
      RecordCall(call, nextState);
      RecordTotal(cfg.name, realSleepMs);
      RecordEntry(cfg.name, realSleepMs);
    }

    method RecordCall(call: Call, state: FnState)
      modifies this
      ensures Value() == BookCall(old(Value()), call, state)
    {
      errors := errors + [call.message];
      configs := configs + [call.cfg];
      fns := fns[call.cfg.name := state];
    }

    method RecordTotal(name: string, realSleepMs: U64)
      modifies this
      ensures Value() == BookTotal(old(Value()), name, realSleepMs)
    {
      totalSleepMs := totalSleepMs + realSleepMs;
      if name == BUSY {
        excludedSleepMs := excludedSleepMs + realSleepMs;
      }
    }

    method RecordEntry(name: string, realSleepMs: U64)
      modifies this
      ensures Value() == BookEntry(old(Value()), name, realSleepMs)
    {
      backoffSleepMs := backoffSleepMs[name := Get(backoffSleepMs, name) + realSleepMs];
      backoffTimes := backoffTimes[name := Get(backoffTimes, name) + 1];
    }
  }
}
