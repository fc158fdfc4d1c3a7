/** Whole runs of back-off budgets: how much a run can sleep, how many calls it can accept, and what
    clones, forks and merges keep. */
module BudgetRuns {
  import opened Machine
  import opened BackoffFn
  import opened Budget
  import opened Contexts

  /** A call together with whether the caller's context was canceled at the time. */
  datatype Attempt = Attempt(canceled: bool, call: Call)

  /** `states[i]` becomes `states[i + 1]` by attempt `i`, with outcome `outs[i]`. */
  ghost predicate IsRun(busyLimit: U64, states: seq<Budget>, attempts: seq<Attempt>, outs: seq<Outcome>)
  {
    && |states| == |attempts| + 1 == |outs| + 1
    && forall i :: 0 <= i < |attempts| ==>
         FnsReady(states[i]) &&
         Backs(attempts[i].canceled, busyLimit, states[i], attempts[i].call, states[i + 1], outs[i])
  }

  /** The larger of the two limits that the excluded sleep has to pass before it is refused. */
  function BusyBudget(busyLimit: U64, maxSleep: U64): U64
  {
    Max(busyLimit, maxSleep)
  }

  /** The configuration's effective cap stays within `busyCap` for the busy one and `cap` for the rest. */
  predicate CapWithin(vars: Vars, cfg: BackoffConfig, cap: nat, busyCap: nat)
  {
    var base := if cfg.name == TXN_LOCK_FAST then vars.lockFastMs else cfg.fnCfg.base;
    Max(cfg.fnCfg.cap, Max(base, 2)) <= if cfg.name == BUSY then busyCap else cap
  }

  ghost predicate FnCapsWithin(b: Budget, cap: nat, busyCap: nat)
  {
    forall name :: name in b.fns ==> b.fns[name].cap <= if name == BUSY then busyCap else cap
  }

  /** The overshoot is bounded: one sleep past each limit and no more. */
  ghost predicate Within(b: Budget, busyLimit: U64, cap: nat, busyCap: nat)
  {
    && Balanced(b) && FnCapsWithin(b, cap, busyCap)
    && (b.maxSleep > 0 ==>
          && Counted(b) <= b.maxSleep - 1 + cap
          && b.excluded <= BusyBudget(busyLimit, b.maxSleep) - 1 + busyCap)
  }

  lemma BacksWithin(canceled: bool, busyLimit: U64, b: Budget, call: Call, b': Budget, out: Outcome,
                    cap: nat, busyCap: nat)
    requires Within(b, busyLimit, cap, busyCap) && CapWithin(b.vars, call.cfg, cap, busyCap)
    requires Backs(canceled, busyLimit, b, call, b', out)
    ensures Within(b', busyLimit, cap, busyCap)
    ensures b'.maxSleep == b.maxSleep && b'.vars == b.vars && b'.ctx == b.ctx && b'.noop == b.noop
  {
    if out.Slept? {
      AcceptBalanced(b, call);
    }
  }

  /** Over a whole run, in every state: non-excluded sleep never exceeds `maxSleep - 1` plus the
      largest effective cap used, and excluded sleep never exceeds the larger of the two limits,
      less one, plus the busy cap. */
  lemma {:induction false} BoundedOvershoot(busyLimit: U64, states: seq<Budget>, attempts: seq<Attempt>,
                                            outs: seq<Outcome>, cap: nat, busyCap: nat, n: nat)
    requires IsRun(busyLimit, states, attempts, outs) && n < |states|
    requires Within(states[0], busyLimit, cap, busyCap)
    requires forall i :: 0 <= i < |attempts| ==> CapWithin(states[0].vars, attempts[i].call.cfg, cap, busyCap)
    ensures Within(states[n], busyLimit, cap, busyCap)
    ensures states[n].vars == states[0].vars && states[n].maxSleep == states[0].maxSleep
    decreases n
  {
    if n > 0 {
      BoundedOvershoot(busyLimit, states, attempts, outs, cap, busyCap, n - 1);
      BacksWithin(attempts[n - 1].canceled, busyLimit, states[n - 1], attempts[n - 1].call, states[n], outs[n - 1],
                  cap, busyCap);
    }
  }

  /** A new budget starts within any caps. */
  lemma NewWithin(ctx: nat, maxSleep: U64, vars: Vars, busyLimit: U64, cap: nat, busyCap: nat)
    ensures Within(NewBudget(ctx, maxSleep, vars), busyLimit, cap, busyCap)
  {
  }

  // How many calls a run accepts.

  /** How many of the first `n` attempts were accepted, counting busy calls or the others. */
  ghost function AcceptedCalls(attempts: seq<Attempt>, outs: seq<Outcome>, busy: bool, n: nat): nat
    requires n <= |attempts| == |outs|
  {
    if n == 0 then 0
    else
      AcceptedCalls(attempts, outs, busy, n - 1)
      + if outs[n - 1].Slept? && (attempts[n - 1].call.cfg.name == BUSY) == busy then 1 else 0
  }

  /** A call that cannot sleep zero: no full jitter, no zero per-call limit. */
  predicate SleepsForSure(call: Call)
  {
    !call.cfg.fnCfg.jitter.Full? && (call.limit.Some? ==> call.limit.value >= 1)
  }

  ghost predicate NoFullJitter(b: Budget)
  {
    forall name :: name in b.fns ==> !b.fns[name].jitter.Full?
  }

  ghost predicate Paid(b: Budget, busyLimit: U64, accepted: nat, acceptedBusy: nat)
  {
    && Balanced(b) && NoFullJitter(b) && b.maxSleep > 0
    && accepted <= Counted(b) && accepted <= b.maxSleep
    && acceptedBusy <= b.excluded && acceptedBusy <= BusyBudget(busyLimit, b.maxSleep)
  }

  lemma BacksPaid(canceled: bool, busyLimit: U64, b: Budget, call: Call, b': Budget, out: Outcome,
                  accepted: nat, acceptedBusy: nat)
    requires Paid(b, busyLimit, accepted, acceptedBusy) && SleepsForSure(call)
    requires Backs(canceled, busyLimit, b, call, b', out)
    ensures var one := if out.Slept? then 1 else 0;
            if call.cfg.name == BUSY then Paid(b', busyLimit, accepted, acceptedBusy + one)
            else Paid(b', busyLimit, accepted + one, acceptedBusy)
  {
    if out.Slept? {
      AcceptBalanced(b, call);
      assert SleptFor(b, call) >= 1;
    }
  }

  lemma {:induction false} RunPaid(busyLimit: U64, states: seq<Budget>, attempts: seq<Attempt>, outs: seq<Outcome>,
                                   n: nat)
    requires IsRun(busyLimit, states, attempts, outs) && n < |states|
    requires Paid(states[0], busyLimit, 0, 0)
    requires forall i :: 0 <= i < |attempts| ==> SleepsForSure(attempts[i].call)
    ensures Paid(states[n], busyLimit, AcceptedCalls(attempts, outs, false, n), AcceptedCalls(attempts, outs, true, n))
    ensures states[n].maxSleep == states[0].maxSleep
    decreases n
  {
    if n > 0 {
      RunPaid(busyLimit, states, attempts, outs, n - 1);
      BacksPaid(attempts[n - 1].canceled, busyLimit, states[n - 1], attempts[n - 1].call, states[n], outs[n - 1],
                AcceptedCalls(attempts, outs, false, n - 1), AcceptedCalls(attempts, outs, true, n - 1));
    }
  }

  /** Every call on a configuration has slept at least a millisecond there. */
  ghost predicate EachPaid(b: Budget)
  {
    NoFullJitter(b) && forall name :: Get(b.times, name) <= Get(b.sleepMs, name)
  }

  lemma BacksEachPaid(canceled: bool, busyLimit: U64, b: Budget, call: Call, b': Budget, out: Outcome)
    requires FnsReady(b) && EachPaid(b) && SleepsForSure(call) && Backs(canceled, busyLimit, b, call, b', out)
    ensures EachPaid(b')
  {
    if out.Slept? {
      assert SleptFor(b, call) >= 1;
      forall name
        ensures Get(b'.times, name) <= Get(b'.sleepMs, name)
      {
        BacksLedger(canceled, busyLimit, b, call, b', out, name);
      }
    }
  }

  lemma {:induction false} RunEachPaid(busyLimit: U64, states: seq<Budget>, attempts: seq<Attempt>, outs: seq<Outcome>,
                                       n: nat)
    requires IsRun(busyLimit, states, attempts, outs) && n < |states| && EachPaid(states[0])
    requires forall i :: 0 <= i < |attempts| ==> SleepsForSure(attempts[i].call)
    ensures EachPaid(states[n])
    decreases n
  {
    if n > 0 {
      RunEachPaid(busyLimit, states, attempts, outs, n - 1);
      BacksEachPaid(attempts[n - 1].canceled, busyLimit, states[n - 1], attempts[n - 1].call, states[n], outs[n - 1]);
    }
  }

  /** When the limits and caps leave room in 64 bits, no sleep counter overflows. */
  lemma NoOverflow(b: Budget, busyLimit: U64, cap: nat, busyCap: nat)
    requires Within(b, busyLimit, cap, busyCap) && b.maxSleep > 0
    requires b.maxSleep + cap + BusyBudget(busyLimit, b.maxSleep) + busyCap <= U64_MAX
    ensures b.total <= U64_MAX && b.excluded <= b.total
    ensures forall name :: name in b.sleepMs ==> b.sleepMs[name] <= U64_MAX
    ensures EachPaid(b) ==> forall name :: name in b.times ==> b.times[name] <= U64_MAX
  {
    ExcludedWithinTotal(b);
    forall name | name in b.sleepMs
      ensures b.sleepMs[name] <= b.total
    {
      EntryWithinSum(b.sleepMs, name);
    }
    if EachPaid(b) {
      forall name | name in b.times
        ensures b.times[name] <= U64_MAX
      {
        assert Get(b.times, name) <= Get(b.sleepMs, name);
      }
    }
  }

  /** Over a whole run from a new budget whose calls sleep for sure, no counter overflows, the number
      of calls on each configuration included, when limits and caps leave room. */
  lemma RunNoOverflow(ctx: nat, maxSleep: U64, vars: Vars, busyLimit: U64, states: seq<Budget>,
                      attempts: seq<Attempt>, outs: seq<Outcome>, cap: nat, busyCap: nat, n: nat)
    requires IsRun(busyLimit, states, attempts, outs) && states[0] == NewBudget(ctx, maxSleep, vars) && n < |states|
    requires forall i :: 0 <= i < |attempts| ==>
               SleepsForSure(attempts[i].call) && CapWithin(vars, attempts[i].call.cfg, cap, busyCap)
    requires var effective := SatMulU64(maxSleep, vars.weight);
             effective > 0 && effective + cap + BusyBudget(busyLimit, effective) + busyCap <= U64_MAX
    ensures var b := states[n];
            && b.total <= U64_MAX && b.excluded <= b.total
            && (forall name :: name in b.sleepMs ==> b.sleepMs[name] <= U64_MAX)
            && (forall name :: name in b.times ==> b.times[name] <= U64_MAX)
  {
    NewWithin(ctx, maxSleep, vars, busyLimit, cap, busyCap);
    BoundedOvershoot(busyLimit, states, attempts, outs, cap, busyCap, n);
    RunEachPaid(busyLimit, states, attempts, outs, n);
    NoOverflow(states[n], busyLimit, cap, busyCap);
  }

  /** A run from a new budget with a positive effective maximum accepts at most `maxSleep` calls of
      the counted kind and at most the busy budget of the excluded kind, however long it is. */
  lemma AcceptedCallsBounded(ctx: nat, maxSleep: U64, vars: Vars, busyLimit: U64,
                             states: seq<Budget>, attempts: seq<Attempt>, outs: seq<Outcome>)
    requires IsRun(busyLimit, states, attempts, outs) && states[0] == NewBudget(ctx, maxSleep, vars)
    requires SatMulU64(maxSleep, vars.weight) > 0
    requires forall i :: 0 <= i < |attempts| ==> SleepsForSure(attempts[i].call)
    ensures var effective := SatMulU64(maxSleep, vars.weight);
            && AcceptedCalls(attempts, outs, false, |attempts|) <= effective
            && AcceptedCalls(attempts, outs, true, |attempts|) <= BusyBudget(busyLimit, effective)
  {
    RunPaid(busyLimit, states, attempts, outs, |attempts|);
  }

  /** The client's own configurations meet the condition whenever they are called without a
      per-call limit. */
  lemma TableSleepsForSure(call: Call)
    requires call.cfg in TABLE && call.limit.None?
    ensures SleepsForSure(call)
  {
  }

  /** A call that adds nothing to a budget that could be spent. */
  predicate CostsNothing(b: Budget, call: Call)
  {
    b.maxSleep == 0 || call.limit == Some(0) || (FnFor(b, call.cfg).jitter.Full? && call.draw == 0)
  }

  lemma CostsNothingAgain(busyLimit: U64, b: Budget, call: Call)
    requires FnsReady(b) && !Exhausted(b, call.cfg.name, busyLimit) && CostsNothing(b, call)
    ensures var b' := Accept(b, call); !Exhausted(b', call.cfg.name, busyLimit) && CostsNothing(b', call)
  {
    assert b.maxSleep > 0 ==> SleptFor(b, call) == 0;
  }

  /** Such calls are accepted for ever. */
  lemma {:induction false} FreeCallsNeverEnd(busyLimit: U64, b: Budget, call: Call, n: nat)
      returns (states: seq<Budget>, attempts: seq<Attempt>, outs: seq<Outcome>)
    requires Balanced(b) && !b.noop && !Exhausted(b, call.cfg.name, busyLimit) && CostsNothing(b, call)
    ensures IsRun(busyLimit, states, attempts, outs) && |attempts| == n && states[0] == b
    ensures forall i :: 0 <= i < n ==> outs[i].Slept? && attempts[i].call == call
    decreases n
  {
    if n == 0 {
      states, attempts, outs := [b], [], [];
    } else {
      AcceptBalanced(b, call);
      CostsNothingAgain(busyLimit, b, call);
      var ss, aa, oo := FreeCallsNeverEnd(busyLimit, Accept(b, call), call, n - 1);
      states, attempts, outs := [b] + ss, [Attempt(false, call)] + aa, [Slept] + oo;
    }
  }

  /** A run of calls with the configuration and limit of `call`, whatever they draw. */
  ghost predicate IsRunOf(busyLimit: U64, call: Call, states: seq<Budget>, attempts: seq<Attempt>, outs: seq<Outcome>)
  {
    && IsRun(busyLimit, states, attempts, outs)
    && forall i :: 0 <= i < |attempts| ==> attempts[i].call.cfg == call.cfg && attempts[i].call.limit == call.limit
  }

  /** No run of such calls accepts more than `bound` of them. */
  ghost predicate AcceptsAtMost(busyLimit: U64, b: Budget, call: Call, bound: nat)
  {
    forall states, attempts, outs ::
      IsRunOf(busyLimit, call, states, attempts, outs) && states[0] == b ==>
        AcceptedCalls(attempts, outs, call.cfg.name == BUSY, |attempts|) <= bound
  }

  lemma {:induction false} AllAccepted(attempts: seq<Attempt>, outs: seq<Outcome>, busy: bool, n: nat)
    requires n <= |attempts| == |outs|
    requires forall i :: 0 <= i < n ==> outs[i].Slept? && (attempts[i].call.cfg.name == BUSY) == busy
    ensures AcceptedCalls(attempts, outs, busy, n) == n
    decreases n
  {
    if n > 0 {
      AllAccepted(attempts, outs, busy, n - 1);
    }
  }

  lemma FreeCallsExceed(ctx: nat, maxSleep: U64, vars: Vars, busyLimit: U64, call: Call, bound: nat)
    requires SatMulU64(maxSleep, vars.weight) == 0 || !SleepsForSure(call)
    ensures !AcceptsAtMost(busyLimit, NewBudget(ctx, maxSleep, vars), call, bound)
  {
    var free := call.(draw := 0);
    var states, attempts, outs := FreeCallsNeverEnd(busyLimit, NewBudget(ctx, maxSleep, vars), free, bound + 1);
    AllAccepted(attempts, outs, call.cfg.name == BUSY, bound + 1);
    assert IsRunOf(busyLimit, call, states, attempts, outs);
  }

  /** The number of accepted calls is bounded over all runs from a new budget, if and only if the
      effective maximum is positive and the calls sleep for sure. */
  lemma BoundedIffSleepsForSure(ctx: nat, maxSleep: U64, vars: Vars, busyLimit: U64, call: Call)
    ensures (exists bound: nat :: AcceptsAtMost(busyLimit, NewBudget(ctx, maxSleep, vars), call, bound)) <==>
            SatMulU64(maxSleep, vars.weight) > 0 && SleepsForSure(call)
  {
    var b := NewBudget(ctx, maxSleep, vars);
    if b.maxSleep > 0 && SleepsForSure(call) {
      var bound := Max(b.maxSleep, BusyBudget(busyLimit, b.maxSleep));
      forall states, attempts, outs | IsRunOf(busyLimit, call, states, attempts, outs) && states[0] == b
        ensures AcceptedCalls(attempts, outs, call.cfg.name == BUSY, |attempts|) <= bound
      {
        AcceptedCallsBounded(ctx, maxSleep, vars, busyLimit, states, attempts, outs);
      }
      assert AcceptsAtMost(busyLimit, b, call, bound);
    } else {
      forall bound: nat
        ensures !AcceptsAtMost(busyLimit, b, call, bound)
      {
        FreeCallsExceed(ctx, maxSleep, vars, busyLimit, call, bound);
      }
    }
  }

  /** Once the counted budget is spent every later call is refused and changes nothing. */
  lemma {:induction false} SpentStaysSpent(busyLimit: U64, states: seq<Budget>, attempts: seq<Attempt>,
                                           outs: seq<Outcome>, i: nat)
    requires IsRun(busyLimit, states, attempts, outs) && i < |attempts|
    requires states[0].maxSleep > 0 && Counted(states[0]) >= states[0].maxSleep
    ensures states[i + 1] == states[0] && outs[i].Refused?
    decreases i
  {
    if i > 0 {
      SpentStaysSpent(busyLimit, states, attempts, outs, i - 1);
    }
  }

  lemma {:induction false} RunBooks(busyLimit: U64, states: seq<Budget>, attempts: seq<Attempt>, outs: seq<Outcome>,
                                    i: nat)
    requires IsRun(busyLimit, states, attempts, outs) && i < |states|
    requires Balanced(states[0]) && Keyed(states[0])
    ensures Balanced(states[i]) && Keyed(states[i])
    decreases i
  {
    if i > 0 {
      RunBooks(busyLimit, states, attempts, outs, i - 1);
      if outs[i - 1].Slept? {
        AcceptBalanced(states[i - 1], attempts[i - 1].call);
        AcceptKeyed(states[i - 1], attempts[i - 1].call);
      }
    }
  }

  lemma ExhaustedReport(busyLimit: U64, b: Budget, call: Call, b': Budget, out: Outcome)
    requires FnsReady(b) && Keyed(b) && !b.noop && Exhausted(b, call.cfg.name, busyLimit)
    requires Backs(false, busyLimit, b, call, b', out)
    ensures out.Refused?
    ensures out.error.MaxSleepExceeded? <==> exists j :: 0 <= j < |b.configs| && b.configs[j].name != BUSY
    ensures out.error.MaxSleepExceeded? ==>
              exists cfg :: cfg in b.configs && cfg.errKind == out.error.kind && Dominant(b, cfg.name)
  {
    var r :| Longest(b, r) &&
             out == Refused(if r.Some? then MaxSleepExceeded(r.value.0.errKind) else Other(call.message));
    LongestOfKeyed(b, r);
  }

  /** In a run of `backoff` calls from a new budget, for every iteration order of the map: a
      budget-exceeded error carries the kind of a configuration accepted earlier in the run whose
      sleep is the longest of the non-excluded ones, and an exhausted budget is reported that way
      exactly when such a configuration has been accepted. */
  lemma ExceededNamesDominant(ctx: nat, maxSleep: U64, vars: Vars, busyLimit: U64,
                              states: seq<Budget>, attempts: seq<Attempt>, outs: seq<Outcome>, i: nat)
    requires IsRun(busyLimit, states, attempts, outs) && states[0] == NewBudget(ctx, maxSleep, vars) && i < |attempts|
    ensures var b := states[i];
            && (outs[i].Refused? && outs[i].error.MaxSleepExceeded? ==>
                  exists cfg :: cfg in b.configs && cfg.errKind == outs[i].error.kind && Dominant(b, cfg.name))
            && (!attempts[i].canceled && !b.noop && Exhausted(b, attempts[i].call.cfg.name, busyLimit) ==>
                  (outs[i].Refused? && outs[i].error.MaxSleepExceeded? <==>
                    exists j :: 0 <= j < |b.configs| && b.configs[j].name != BUSY))
  {
    RunBooks(busyLimit, states, attempts, outs, i);
    var b, call := states[i], attempts[i].call;
    assert Backs(attempts[i].canceled, busyLimit, b, call, states[i + 1], outs[i]);
    if !attempts[i].canceled && !b.noop && Exhausted(b, call.cfg.name, busyLimit) {
      ExhaustedReport(busyLimit, b, call, states[i + 1], outs[i]);
    }
  }

  /** The messages of the accepted calls among the first `n`, in order. */
  ghost function AcceptedMessages(attempts: seq<Attempt>, outs: seq<Outcome>, n: nat): seq<string>
    requires n <= |attempts| == |outs|
  {
    if n == 0 then []
    else AcceptedMessages(attempts, outs, n - 1) + if outs[n - 1].Slept? then [attempts[n - 1].call.message] else []
  }

  ghost function AcceptedConfigs(attempts: seq<Attempt>, outs: seq<Outcome>, n: nat): seq<BackoffConfig>
    requires n <= |attempts| == |outs|
  {
    if n == 0 then []
    else AcceptedConfigs(attempts, outs, n - 1) + if outs[n - 1].Slept? then [attempts[n - 1].call.cfg] else []
  }

  ghost predicate AcceptedFor(attempts: seq<Attempt>, outs: seq<Outcome>, name: string, i: nat)
    requires i < |attempts| == |outs|
  {
    outs[i].Slept? && attempts[i].call.cfg.name == name
  }

  /** The number of accepted calls on a configuration among the first `n`. */
  ghost function TimesOn(attempts: seq<Attempt>, outs: seq<Outcome>, name: string, n: nat): nat
    requires n <= |attempts| == |outs|
  {
    if n == 0 then 0
    else TimesOn(attempts, outs, name, n - 1) + if AcceptedFor(attempts, outs, name, n - 1) then 1 else 0
  }

  /** The sum of what these calls added to the total sleep. */
  ghost function SleptOn(states: seq<Budget>, attempts: seq<Attempt>, outs: seq<Outcome>, name: string, n: nat): int
    requires n <= |attempts| == |outs| && |states| == |attempts| + 1
  {
    if n == 0 then 0
    else
      SleptOn(states, attempts, outs, name, n - 1)
      + if AcceptedFor(attempts, outs, name, n - 1) then states[n].total - states[n - 1].total else 0
  }

  lemma BacksLedger(canceled: bool, busyLimit: U64, b: Budget, call: Call, b': Budget, out: Outcome, name: string)
    requires FnsReady(b) && Backs(canceled, busyLimit, b, call, b', out)
    ensures b'.errors == b.errors + if out.Slept? then [call.message] else []
    ensures b'.configs == b.configs + if out.Slept? then [call.cfg] else []
    ensures Get(b'.times, name) == Get(b.times, name) + if out.Slept? && call.cfg.name == name then 1 else 0
    ensures Get(b'.sleepMs, name) ==
            Get(b.sleepMs, name) + if out.Slept? && call.cfg.name == name then b'.total - b.total else 0
  {
  }

  /** The ledger of a run is its history: errors and configurations are those of the accepted calls
      in order, and each configuration's counters are its number of accepted calls and their sleep. */
  lemma {:induction false} LedgerIsHistory(ctx: nat, maxSleep: U64, vars: Vars, busyLimit: U64, states: seq<Budget>,
                                           attempts: seq<Attempt>, outs: seq<Outcome>, name: string, n: nat)
    requires IsRun(busyLimit, states, attempts, outs) && states[0] == NewBudget(ctx, maxSleep, vars) && n < |states|
    ensures states[n].errors == AcceptedMessages(attempts, outs, n)
    ensures states[n].configs == AcceptedConfigs(attempts, outs, n)
    ensures Get(states[n].times, name) == TimesOn(attempts, outs, name, n)
    ensures Get(states[n].sleepMs, name) == SleptOn(states, attempts, outs, name, n)
    decreases n
  {
    if n > 0 {
      LedgerIsHistory(ctx, maxSleep, vars, busyLimit, states, attempts, outs, name, n - 1);
      BacksLedger(attempts[n - 1].canceled, busyLimit, states[n - 1], attempts[n - 1].call, states[n], outs[n - 1],
                  name);
    }
  }

  lemma {:induction false} RunKeeps(busyLimit: U64, states: seq<Budget>, attempts: seq<Attempt>, outs: seq<Outcome>,
                                    n: nat)
    requires IsRun(busyLimit, states, attempts, outs) && n < |states|
    ensures states[n].maxSleep == states[0].maxSleep && states[n].vars == states[0].vars
    ensures states[n].noop == states[0].noop && states[n].ctx == states[0].ctx
    decreases n
  {
    if n > 0 {
      RunKeeps(busyLimit, states, attempts, outs, n - 1);
    }
  }

  /** When a call is accepted, read off the run: unless the caller is canceled, as long as the sleep on
      other than the excluded configuration is below the maximum and, for the excluded one, its own sleep
      is below the limit or below the maximum. Without a maximum every call is. */
  lemma AcceptedIff(ctx: nat, maxSleep: U64, vars: Vars, busyLimit: U64, states: seq<Budget>,
                    attempts: seq<Attempt>, outs: seq<Outcome>, n: nat)
    requires IsRun(busyLimit, states, attempts, outs) && states[0] == NewBudget(ctx, maxSleep, vars)
    requires n < |attempts|
    ensures var effective := Min(maxSleep * vars.weight, U64_MAX);
            var busySlept := SleptOn(states, attempts, outs, BUSY, n);
            outs[n].Slept? <==>
              && !attempts[n].canceled
              && (effective == 0 ||
                  (&& states[n].total - busySlept < effective
                   && (attempts[n].call.cfg.name == "tikvServerBusy" ==>
                         busySlept < busyLimit || busySlept < effective)))
    ensures attempts[n].canceled <==> outs[n] == Refused(BackofferError.Canceled(attempts[n].call.message))
    ensures outs[n].Slept? || outs[n] == Refused(BackofferError.Canceled(attempts[n].call.message))
            || outs[n].error.MaxSleepExceeded? || outs[n] == Refused(Other(attempts[n].call.message))
    ensures outs[n].Refused? ==> states[n + 1] == states[n]
  {
    RunKeeps(busyLimit, states, attempts, outs, n);
    RunBooks(busyLimit, states, attempts, outs, n);
    LedgerIsHistory(ctx, maxSleep, vars, busyLimit, states, attempts, outs, BUSY, n);
    assert Backs(attempts[n].canceled, busyLimit, states[n], attempts[n].call, states[n + 1], outs[n]);
  }

  /** A no-op budget refuses every call, and never changes. */
  lemma {:induction false} NoopRefuses(ctx: nat, busyLimit: U64, states: seq<Budget>, attempts: seq<Attempt>,
                                       outs: seq<Outcome>, n: nat)
    requires IsRun(busyLimit, states, attempts, outs) && states[0] == NewNoop(ctx) && n < |attempts|
    ensures states[n + 1] == states[0]
    ensures outs[n] == Refused(if attempts[n].canceled then BackofferError.Canceled(attempts[n].call.message)
                               else Other(attempts[n].call.message))
    decreases n
  {
    if n > 0 {
      NoopRefuses(ctx, busyLimit, states, attempts, outs, n - 1);
    }
  }

  // Families of budgets related by cloning, forking and merging.

  datatype Family = Family(forest: seq<Node>, members: seq<Budget>)

  datatype FamilyOp =
    | Back(member: nat, call: Call)
    | Clone(member: nat)
    | Fork(member: nat)
    | Update(member: nat, forked: nat)
    | Cancel(ctx: nat)

  ghost predicate MembersPlaced(f: Family)
  {
    WellFormed(f.forest) &&
    forall i :: 0 <= i < |f.members| ==> f.members[i].ctx < |f.forest| && FnsReady(f.members[i])
  }

  ghost predicate FamilyNext(busyLimit: U64, f: Family, op: FamilyOp, f': Family)
    requires MembersPlaced(f)
  {
    match op
    case Back(m, call) =>
      && m < |f.members| && f'.forest == f.forest
      && exists b', out ::
           Backs(Contexts.Canceled(f.forest, f.members[m].ctx), busyLimit, f.members[m], call, b', out)
           && f'.members == f.members[m := b']
    case Clone(m) => m < |f.members| && f' == f.(members := f.members + [CloneOf(f.members[m])])
    case Fork(m) =>
      && m < |f.members|
      && f' == Family(f.forest + [Node(Some(f.members[m].ctx), false)],
                      f.members + [ForkOf(f.members[m], |f.forest|)])
    case Update(m, k) =>
      && m < |f.members| && k < |f.members|
      && f' == f.(members := f.members[m :=
                if StrictlyAbove(f.forest, f.members[m].ctx, f.members[k].ctx)
                then Merge(f.members[m], f.members[k]) else f.members[m]])
    case Cancel(c) =>
      c < |f.forest| && f' == f.(forest := f.forest[c := f.forest[c].(canceled := true)])
  }

  ghost predicate MemberOk(f: Family, i: nat, busyLimit: U64, maxSleep: U64, vars: Vars, cap: nat, busyCap: nat)
    requires i < |f.members|
  {
    var b := f.members[i];
    && b.ctx < |f.forest| && !b.noop && b.maxSleep == maxSleep && b.vars == vars
    && Within(b, busyLimit, cap, busyCap)
  }

  ghost predicate FamilyOk(f: Family, busyLimit: U64, maxSleep: U64, vars: Vars, cap: nat, busyCap: nat)
  {
    WellFormed(f.forest) &&
    forall i :: 0 <= i < |f.members| ==> MemberOk(f, i, busyLimit, maxSleep, vars, cap, busyCap)
  }

  lemma FamilyStep(busyLimit: U64, f: Family, op: FamilyOp, f': Family, maxSleep: U64, vars: Vars,
                   cap: nat, busyCap: nat)
    requires FamilyOk(f, busyLimit, maxSleep, vars, cap, busyCap) && MembersPlaced(f)
    requires op.Back? ==> CapWithin(vars, op.call.cfg, cap, busyCap)
    requires FamilyNext(busyLimit, f, op, f')
    ensures FamilyOk(f', busyLimit, maxSleep, vars, cap, busyCap) && MembersPlaced(f')
  {
    if op.Back? {
      assert MemberOk(f, op.member, busyLimit, maxSleep, vars, cap, busyCap);
      var b', out :|
        Backs(Contexts.Canceled(f.forest, f.members[op.member].ctx), busyLimit, f.members[op.member], op.call, b', out)
        && f'.members == f.members[op.member := b'];
      BacksWithin(Contexts.Canceled(f.forest, f.members[op.member].ctx), busyLimit, f.members[op.member], op.call,
                  b', out, cap, busyCap);
    }
    forall i | 0 <= i < |f'.members|
      ensures MemberOk(f', i, busyLimit, maxSleep, vars, cap, busyCap)
    {
      if i < |f.members| {
        assert MemberOk(f, i, busyLimit, maxSleep, vars, cap, busyCap);
      }
      if op.Clone? || op.Fork? || op.Update? {
        assert MemberOk(f, op.member, busyLimit, maxSleep, vars, cap, busyCap);
      }
      if op.Update? {
        assert MemberOk(f, op.forked, busyLimit, maxSleep, vars, cap, busyCap);
      }
    }
    assert forall i :: 0 <= i < |f'.members| ==> MemberOk(f', i, busyLimit, maxSleep, vars, cap, busyCap);
  }

  ghost predicate IsFamilyRun(busyLimit: U64, families: seq<Family>, ops: seq<FamilyOp>)
  {
    && |families| == |ops| + 1
    && forall i :: 0 <= i < |ops| ==>
         MembersPlaced(families[i]) && FamilyNext(busyLimit, families[i], ops[i], families[i + 1])
  }

  /** Conservation and bounded overshoot over every run of back-offs, clones, forks, merges and
      cancellations that starts from one new budget: in every member of every state the books
      balance and both overshoot bounds hold, even where a merge forgets what the parent slept. */
  lemma {:induction false} FamilyRuns(busyLimit: U64, families: seq<Family>, ops: seq<FamilyOp>, maxSleep: U64,
                                      vars: Vars, cap: nat, busyCap: nat, n: nat)
    requires IsFamilyRun(busyLimit, families, ops) && n < |families|
    requires families[0] == Family([Node(None, false)], [NewBudget(0, maxSleep, vars)])
    requires forall i :: 0 <= i < |ops| && ops[i].Back? ==> CapWithin(vars, ops[i].call.cfg, cap, busyCap)
    ensures FamilyOk(families[n], busyLimit, SatMulU64(maxSleep, vars.weight), vars, cap, busyCap)
    ensures MembersPlaced(families[n])
    decreases n
  {
    if n == 0 {
      NewWithin(0, maxSleep, vars, busyLimit, cap, busyCap);
      assert MemberOk(families[0], 0, busyLimit, SatMulU64(maxSleep, vars.weight), vars, cap, busyCap);
    } else {
      FamilyRuns(busyLimit, families, ops, maxSleep, vars, cap, busyCap, n - 1);
      FamilyStep(busyLimit, families[n - 1], ops[n - 1], families[n], SatMulU64(maxSleep, vars.weight), vars,
                 cap, busyCap);
    }
  }

  ghost predicate AllKeyed(f: Family)
  {
    forall i :: 0 <= i < |f.members| ==> Keyed(f.members[i])
  }

  lemma KeyedStep(busyLimit: U64, f: Family, op: FamilyOp, f': Family)
    requires MembersPlaced(f) && AllKeyed(f) && FamilyNext(busyLimit, f, op, f') && !op.Update?
    ensures AllKeyed(f')
  {
    if op.Back? {
      var m := f.members[op.member];
      var b', out :| Backs(Contexts.Canceled(f.forest, m.ctx), busyLimit, m, op.call, b', out)
                     && f'.members == f.members[op.member := b'];
      if out.Slept? {
        AcceptKeyed(m, op.call);
      }
    } else if op.Clone? || op.Fork? {
      SameBooksKeyed(f.members[op.member], f'.members[|f.members|]);
    }
  }

  lemma SameBooksKeyed(b: Budget, copy: Budget)
    requires Keyed(b) && copy.configs == b.configs && copy.sleepMs == b.sleepMs
    ensures Keyed(copy)
  {
    forall name
      ensures name in copy.sleepMs <==> Recorded(copy, name)
    {
      assert Recorded(b, name) <==> Recorded(copy, name);
    }
  }

  /** In family runs without merges every member's books name exactly its recorded configurations. */
  lemma {:induction false} KeyedWithoutMerges(busyLimit: U64, families: seq<Family>, ops: seq<FamilyOp>, maxSleep: U64,
                                              vars: Vars, n: nat)
    requires IsFamilyRun(busyLimit, families, ops) && n < |families|
    requires families[0] == Family([Node(None, false)], [NewBudget(0, maxSleep, vars)])
    requires forall j :: 0 <= j < |ops| ==> !ops[j].Update?
    ensures AllKeyed(families[n])
    decreases n
  {
    if n > 0 {
      KeyedWithoutMerges(busyLimit, families, ops, maxSleep, vars, n - 1);
      KeyedStep(busyLimit, families[n - 1], ops[n - 1], families[n]);
    }
  }
}
