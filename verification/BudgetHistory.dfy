/** What the members of a family of budgets remember. Every member carries two histories of accepted
    calls: those its sums and errors are about, which a merge replaces by the fork's, and those its
    list of configurations is about, which a merge leaves alone. */
module BudgetHistory {
  import opened Machine
  import opened BackoffFn
  import opened Budget
  import opened Contexts
  import opened BudgetRuns

  /** An accepted call and what it slept. */
  datatype Entry = Entry(cfg: BackoffConfig, message: string, slept: nat)

  datatype History = History(booked: seq<Entry>, recorded: seq<Entry>)

  const NO_HISTORY: History := History([], [])

  function SleptAll(entries: seq<Entry>): nat
  {
    if entries == [] then 0 else SleptAll(entries[..|entries| - 1]) + entries[|entries| - 1].slept
  }

  /** What the calls on one configuration slept. */
  function SleptUnder(entries: seq<Entry>, name: string): nat
  {
    if entries == [] then 0
    else
      var last := entries[|entries| - 1];
      SleptUnder(entries[..|entries| - 1], name) + if last.cfg.name == name then last.slept else 0
  }

  ghost predicate Names(entries: seq<Entry>, name: string)
  {
    exists i :: 0 <= i < |entries| && entries[i].cfg.name == name
  }

  ghost predicate SameNames(a: seq<Entry>, b: seq<Entry>)
  {
    forall name :: Names(a, name) <==> Names(b, name)
  }

  function Configs(entries: seq<Entry>): seq<BackoffConfig>
  {
    seq(|entries|, i requires 0 <= i < |entries| => entries[i].cfg)
  }

  function Messages(entries: seq<Entry>): seq<string>
  {
    seq(|entries|, i requires 0 <= i < |entries| => entries[i].message)
  }

  /** The member accepts the call: it is neither canceled, nor a no-op, nor exhausted. */
  ghost predicate Accepts(busyLimit: U64, f: Family, m: nat, call: Call)
    requires MembersPlaced(f) && m < |f.members|
  {
    var b := f.members[m];
    !Contexts.Canceled(f.forest, b.ctx) && !b.noop && !Exhausted(b, call.cfg.name, busyLimit)
  }

  /** What the operation adds to the calls the member has accepted. */
  ghost function Accepted(busyLimit: U64, f: Family, op: FamilyOp, m: nat): seq<Entry>
    requires MembersPlaced(f) && m < |f.members|
  {
    if op.Back? && op.member == m && Accepts(busyLimit, f, m, op.call)
    then [Entry(op.call.cfg, op.call.message, SleptFor(f.members[m], op.call))]
    else []
  }

  ghost predicate MergesInto(f: Family, op: FamilyOp, m: nat)
    requires MembersPlaced(f)
  {
    && op.Update? && op.member == m && m < |f.members| && op.forked < |f.members|
    && StrictlyAbove(f.forest, f.members[m].ctx, f.members[op.forked].ctx)
  }

  /** The histories after one operation. */
  ghost function Continue(busyLimit: U64, f: Family, op: FamilyOp, hs: seq<History>): (hs': seq<History>)
    requires MembersPlaced(f) && |hs| == |f.members|
    ensures |hs| <= |hs'|
  {
    match op
    case Back(m, _) =>
      if m >= |hs| then hs
      else
        var more := Accepted(busyLimit, f, op, m);
        hs[m := History(hs[m].booked + more, hs[m].recorded + more)]
    case Clone(m) => if m >= |hs| then hs else hs + [hs[m]]
    case Fork(m) => if m >= |hs| then hs else hs + [hs[m]]
    case Update(m, k) => if MergesInto(f, op, m) then hs[m := hs[m].(booked := hs[k].booked)] else hs
    case Cancel(_) => hs
  }

  /** The histories after the first `n` operations of a run from one new budget. */
  ghost function HistoryAt(busyLimit: U64, families: seq<Family>, ops: seq<FamilyOp>, n: nat): (hs: seq<History>)
    requires IsFamilyRun(busyLimit, families, ops) && n < |families| && |families[0].members| == 1
    ensures |hs| == |families[n].members|
  {
    if n == 0 then [NO_HISTORY]
    else Continue(busyLimit, families[n - 1], ops[n - 1], HistoryAt(busyLimit, families, ops, n - 1))
  }

  // The books are the history.

  ghost predicate Tells(h: History, b: Budget)
  {
    && b.total == SleptAll(h.booked)
    && b.errors == Messages(h.booked)
    && b.configs == Configs(h.recorded)
    && (forall name :: Get(b.sleepMs, name) == SleptUnder(h.booked, name))
    && (forall name :: name in b.sleepMs <==> Names(h.booked, name))
  }

  lemma OneMore(entries: seq<Entry>, e: Entry, name: string)
    ensures var more := entries + [e];
            && SleptAll(more) == SleptAll(entries) + e.slept
            && SleptUnder(more, name) == SleptUnder(entries, name) + (if e.cfg.name == name then e.slept else 0)
            && (Names(more, name) <==> Names(entries, name) || e.cfg.name == name)
            && Configs(more) == Configs(entries) + [e.cfg]
            && Messages(more) == Messages(entries) + [e.message]
  {
    var more := entries + [e];
    assert more[..|entries|] == entries;
    assert more[|entries|] == e;
    if Names(entries, name) {
      var i :| 0 <= i < |entries| && entries[i].cfg.name == name;
      assert more[i].cfg.name == name;
    }
  }

  lemma AcceptTells(h: History, b: Budget, call: Call)
    requires FnsReady(b) && Tells(h, b)
    ensures var e := Entry(call.cfg, call.message, SleptFor(b, call));
            Tells(History(h.booked + [e], h.recorded + [e]), Accept(b, call))
  {
    var e := Entry(call.cfg, call.message, SleptFor(b, call));
    var b' := Accept(b, call);
    OneMore(h.recorded, e, "");
    forall name
      ensures b'.total == SleptAll(h.booked + [e]) && b'.errors == Messages(h.booked + [e])
      ensures Get(b'.sleepMs, name) == SleptUnder(h.booked + [e], name)
      ensures name in b'.sleepMs <==> Names(h.booked + [e], name)
    {
      OneMore(h.booked, e, name);
    }
  }

  ghost predicate AllTell(hs: seq<History>, f: Family)
  {
    |hs| == |f.members| && forall i :: 0 <= i < |hs| ==> Tells(hs[i], f.members[i])
  }

  lemma BackTells(busyLimit: U64, f: Family, op: FamilyOp, f': Family, hs: seq<History>)
    requires MembersPlaced(f) && AllTell(hs, f) && FamilyNext(busyLimit, f, op, f') && op.Back?
    ensures AllTell(Continue(busyLimit, f, op, hs), f')
  {
    var m, call := op.member, op.call;
    var b', out :| Backs(Contexts.Canceled(f.forest, f.members[m].ctx), busyLimit, f.members[m], call, b', out)
                   && f'.members == f.members[m := b'];
    if Accepts(busyLimit, f, m, call) {
      AcceptTells(hs[m], f.members[m], call);
    } else {
      assert hs[m].booked + [] == hs[m].booked && hs[m].recorded + [] == hs[m].recorded;
    }
  }

  lemma StepTells(busyLimit: U64, f: Family, op: FamilyOp, f': Family, hs: seq<History>)
    requires MembersPlaced(f) && AllTell(hs, f) && FamilyNext(busyLimit, f, op, f')
    ensures AllTell(Continue(busyLimit, f, op, hs), f')
  {
    if op.Back? {
      BackTells(busyLimit, f, op, f', hs);
    }
  }

  /** Over every run of calls, clones, forks, merges and cancellations, each member's total, errors,
      sleeps and configurations are those of its histories. */
  lemma {:induction false} BooksAreHistory(busyLimit: U64, families: seq<Family>, ops: seq<FamilyOp>, maxSleep: U64,
                                           vars: Vars, n: nat)
    requires IsFamilyRun(busyLimit, families, ops) && n < |families|
    requires families[0] == Family([Node(None, false)], [NewBudget(0, maxSleep, vars)])
    ensures AllTell(HistoryAt(busyLimit, families, ops, n), families[n])
    decreases n
  {
    if n > 0 {
      BooksAreHistory(busyLimit, families, ops, maxSleep, vars, n - 1);
      StepTells(busyLimit, families[n - 1], ops[n - 1], families[n], HistoryAt(busyLimit, families, ops, n - 1));
    }
  }

  lemma ConfigsNamed(h: History, b: Budget, name: string)
    requires Tells(h, b)
    ensures Recorded(b, name) <==> Names(h.recorded, name)
  {
    if Names(h.recorded, name) {
      var i :| 0 <= i < |h.recorded| && h.recorded[i].cfg.name == name;
      assert b.configs[i].name == name;
    }
  }

  lemma TellsKeyed(h: History, b: Budget)
    requires Tells(h, b)
    ensures Keyed(b) <==> SameNames(h.booked, h.recorded)
  {
    forall name
      ensures (name in b.sleepMs <==> Recorded(b, name)) <==> (Names(h.booked, name) <==> Names(h.recorded, name))
    {
      ConfigsNamed(h, b, name);
    }
    if Keyed(b) {
      forall name
        ensures Names(h.booked, name) <==> Names(h.recorded, name)
      {
        assert name in b.sleepMs <==> Recorded(b, name);
      }
    } else {
      var name :| !(name in b.sleepMs <==> Recorded(b, name));
      assert !(Names(h.booked, name) <==> Names(h.recorded, name));
    }
  }

  /** Over every run, merges included: a member's books name exactly its recorded configurations, if
      and only if its two histories name the same ones. */
  lemma KeyedIff(busyLimit: U64, families: seq<Family>, ops: seq<FamilyOp>, maxSleep: U64, vars: Vars, n: nat, m: nat)
    requires IsFamilyRun(busyLimit, families, ops) && n < |families| && m < |families[n].members|
    requires families[0] == Family([Node(None, false)], [NewBudget(0, maxSleep, vars)])
    ensures var h := HistoryAt(busyLimit, families, ops, n)[m];
            Keyed(families[n].members[m]) <==> SameNames(h.booked, h.recorded)
  {
    BooksAreHistory(busyLimit, families, ops, maxSleep, vars, n);
    TellsKeyed(HistoryAt(busyLimit, families, ops, n)[m], families[n].members[m]);
  }

  /** A configuration, not the excluded one, on which no other slept longer. */
  ghost predicate TopName(entries: seq<Entry>, name: string)
  {
    && Names(entries, name) && name != BUSY
    && forall other :: Names(entries, other) && other != BUSY ==>
         SleptUnder(entries, other) <= SleptUnder(entries, name)
  }

  /** Some call was on a configuration other than the excluded one, and each that slept longest is
      on record. */
  ghost predicate TopsRecorded(booked: seq<Entry>, recorded: seq<Entry>)
  {
    && (exists name :: Names(booked, name) && name != BUSY)
    && forall name :: TopName(booked, name) ==> Names(recorded, name)
  }

  ghost predicate AlwaysAnswers(b: Budget)
  {
    forall order :: IsOrder(b, order) ==> LongestIn(b, order).Some?
  }

  lemma TellsDominant(h: History, b: Budget, name: string)
    requires Tells(h, b)
    ensures Dominant(b, name) <==> TopName(h.booked, name)
  {
    if Dominant(b, name) {
      forall other | Names(h.booked, other) && other != BUSY
        ensures SleptUnder(h.booked, other) <= SleptUnder(h.booked, name)
      {
        assert other in b.sleepMs && Get(b.sleepMs, other) <= Get(b.sleepMs, name);
      }
    }
    if TopName(h.booked, name) {
      forall other | other in b.sleepMs && other != BUSY
        ensures b.sleepMs[other] <= b.sleepMs[name]
      {
        assert Get(b.sleepMs, other) <= Get(b.sleepMs, name);
      }
    }
  }

  lemma TellsAnswers(h: History, b: Budget)
    requires Tells(h, b)
    ensures AlwaysAnswers(b) <==> TopsRecorded(h.booked, h.recorded)
  {
    LongestAnswersIff(b);
    forall name
      ensures Dominant(b, name) <==> TopName(h.booked, name)
      ensures Recorded(b, name) <==> Names(h.recorded, name)
      ensures name in b.sleepMs <==> Names(h.booked, name)
    {
      TellsDominant(h, b, name);
      ConfigsNamed(h, b, name);
    }
  }

  /** A merge that takes effect: `longest_sleep_cfg` answers afterwards, in every iteration order, if
      and only if the fork has slept on a non-excluded configuration and the parent has on record
      each one on which the fork slept longest. */
  lemma MergeAnswersIff(busyLimit: U64, families: seq<Family>, ops: seq<FamilyOp>, maxSleep: U64, vars: Vars, n: nat)
    requires IsFamilyRun(busyLimit, families, ops) && n < |ops|
    requires families[0] == Family([Node(None, false)], [NewBudget(0, maxSleep, vars)])
    requires ops[n].Update? && MergesInto(families[n], ops[n], ops[n].member)
    ensures var m, hs := ops[n].member, HistoryAt(busyLimit, families, ops, n);
            AlwaysAnswers(families[n + 1].members[m]) <==> TopsRecorded(hs[ops[n].forked].booked, hs[m].recorded)
  {
    BooksAreHistory(busyLimit, families, ops, maxSleep, vars, n + 1);
    var m := ops[n].member;
    TellsAnswers(HistoryAt(busyLimit, families, ops, n + 1)[m], families[n + 1].members[m]);
  }

  /** And it lowers the parent's total if and only if the calls on the fork's books slept less than
      those on the parent's. */
  lemma MergeLowersIff(busyLimit: U64, families: seq<Family>, ops: seq<FamilyOp>, maxSleep: U64, vars: Vars, n: nat)
    requires IsFamilyRun(busyLimit, families, ops) && n < |ops|
    requires families[0] == Family([Node(None, false)], [NewBudget(0, maxSleep, vars)])
    requires ops[n].Update? && MergesInto(families[n], ops[n], ops[n].member)
    ensures var m, hs := ops[n].member, HistoryAt(busyLimit, families, ops, n);
            families[n + 1].members[m].total < families[n].members[m].total <==>
            SleptAll(hs[ops[n].forked].booked) < SleptAll(hs[m].booked)
  {
    BooksAreHistory(busyLimit, families, ops, maxSleep, vars, n);
    BooksAreHistory(busyLimit, families, ops, maxSleep, vars, n + 1);
  }

  // A fork merged back into the budget it came from.

  /** The calls the member accepted in operations `i` to `n`. */
  ghost function AcceptedSince(busyLimit: U64, families: seq<Family>, ops: seq<FamilyOp>, m: nat, i: nat, n: nat)
    : seq<Entry>
    requires IsFamilyRun(busyLimit, families, ops) && i <= n < |families| && m < |families[i].members|
    decreases n
  {
    if n == i then []
    else
      MembersStay(busyLimit, families, ops, i, n - 1);
      AcceptedSince(busyLimit, families, ops, m, i, n - 1) + Accepted(busyLimit, families[n - 1], ops[n - 1], m)
  }

  lemma {:induction false} MembersStay(busyLimit: U64, families: seq<Family>, ops: seq<FamilyOp>, i: nat, n: nat)
    requires IsFamilyRun(busyLimit, families, ops) && i <= n < |families|
    ensures |families[i].members| <= |families[n].members|
    decreases n
  {
    if i < n {
      MembersStay(busyLimit, families, ops, i, n - 1);
    }
  }

  ghost predicate NoMergeInto(ops: seq<FamilyOp>, m: nat, i: nat, n: nat)
    requires n <= |ops|
  {
    forall j :: i <= j < n && ops[j].Update? ==> ops[j].member != m
  }

  lemma Regroup(a: seq<Entry>, b: seq<Entry>, c: seq<Entry>)
    ensures (a + b) + c == a + (b + c)
  {
  }

  /** A member's record grows by the calls it accepts. */
  lemma {:induction false} RecordGrows(busyLimit: U64, families: seq<Family>, ops: seq<FamilyOp>, m: nat, i: nat,
                                       n: nat)
    requires IsFamilyRun(busyLimit, families, ops) && i <= n < |families| && |families[0].members| == 1
    requires m < |families[i].members| <= |families[n].members|
    ensures HistoryAt(busyLimit, families, ops, n)[m].recorded ==
            HistoryAt(busyLimit, families, ops, i)[m].recorded + AcceptedSince(busyLimit, families, ops, m, i, n)
    decreases n
  {
    if i < n {
      MembersStay(busyLimit, families, ops, i, n - 1);
      RecordGrows(busyLimit, families, ops, m, i, n - 1);
      HistoryStep(busyLimit, families[n - 1], ops[n - 1], HistoryAt(busyLimit, families, ops, n - 1), m);
      Regroup(HistoryAt(busyLimit, families, ops, i)[m].recorded, AcceptedSince(busyLimit, families, ops, m, i, n - 1),
              Accepted(busyLimit, families[n - 1], ops[n - 1], m));
    }
  }

  /** And so do its books while nothing is merged into it. */
  lemma {:induction false} BooksGrow(busyLimit: U64, families: seq<Family>, ops: seq<FamilyOp>, m: nat, i: nat, n: nat)
    requires IsFamilyRun(busyLimit, families, ops) && i <= n < |families| && |families[0].members| == 1
    requires m < |families[i].members| <= |families[n].members| && NoMergeInto(ops, m, i, n)
    ensures HistoryAt(busyLimit, families, ops, n)[m].booked ==
            HistoryAt(busyLimit, families, ops, i)[m].booked + AcceptedSince(busyLimit, families, ops, m, i, n)
    decreases n
  {
    if i < n {
      MembersStay(busyLimit, families, ops, i, n - 1);
      BooksGrow(busyLimit, families, ops, m, i, n - 1);
      HistoryStep(busyLimit, families[n - 1], ops[n - 1], HistoryAt(busyLimit, families, ops, n - 1), m);
      Regroup(HistoryAt(busyLimit, families, ops, i)[m].booked, AcceptedSince(busyLimit, families, ops, m, i, n - 1),
              Accepted(busyLimit, families[n - 1], ops[n - 1], m));
    }
  }

  lemma HistoryStep(busyLimit: U64, f: Family, op: FamilyOp, hs: seq<History>, m: nat)
    requires MembersPlaced(f) && |hs| == |f.members| && m < |hs|
    ensures var h := Continue(busyLimit, f, op, hs)[m];
            var more := Accepted(busyLimit, f, op, m);
            && h.recorded == hs[m].recorded + more
            && (!(op.Update? && op.member == m) ==> h.booked == hs[m].booked + more)
  {
  }

  lemma ForestGrows(busyLimit: U64, f: Family, op: FamilyOp, f': Family, m: nat)
    requires MembersPlaced(f) && FamilyNext(busyLimit, f, op, f') && m < |f.members|
    ensures |f.forest| <= |f'.forest| && forall j :: 0 <= j < |f.forest| ==> f'.forest[j].parent == f.forest[j].parent
    ensures m < |f'.members| && f'.members[m].ctx == f.members[m].ctx
  {
  }

  /** A fork stays strictly below the budget it came from. */
  lemma {:induction false} ForkStaysBelow(busyLimit: U64, families: seq<Family>, ops: seq<FamilyOp>, i: nat, n: nat)
    requires IsFamilyRun(busyLimit, families, ops) && i < n < |ops| && ops[i].Fork?
    ensures var m, k, f := ops[i].member, |families[i].members|, families[n];
            m < k < |f.members| && StrictlyAbove(f.forest, f.members[m].ctx, f.members[k].ctx)
    decreases n
  {
    var m, k := ops[i].member, |families[i].members|;
    if n == i + 1 {
      var f := families[i];
      AboveUnfolds(f.forest, f.members[m].ctx, f.members[m].ctx);
      ForkSitsBelow(f.forest, f.members[m].ctx, f.members[m].ctx, f.members[m].ctx);
    } else {
      ForkStaysBelow(busyLimit, families, ops, i, n - 1);
      var f, f' := families[n - 1], families[n];
      ForestGrows(busyLimit, f, ops[n - 1], f', m);
      ForestGrows(busyLimit, f, ops[n - 1], f', k);
      AboveSameShape(f.forest, f'.forest, f.members[m].ctx, f.members[k].ctx);
    }
  }

  /** Operation `i` forks, operation `n` merges that fork back, and nothing is merged into either
      in between. */
  ghost predicate ForkedAndMerged(busyLimit: U64, families: seq<Family>, ops: seq<FamilyOp>, i: nat, n: nat)
  {
    && IsFamilyRun(busyLimit, families, ops) && i < n < |ops|
    && ops[i].Fork? && ops[n] == Update(ops[i].member, |families[i].members|)
    && NoMergeInto(ops, ops[i].member, i, n) && NoMergeInto(ops, |families[i].members|, i, n)
  }

  lemma {:induction false} SleptAllAdds(a: seq<Entry>, b: seq<Entry>)
    ensures SleptAll(a + b) == SleptAll(a) + SleptAll(b)
    decreases |b|
  {
    if b == [] {
      assert a + b == a;
    } else {
      var n := |b| - 1;
      assert (a + b)[..|a + b| - 1] == a + b[..n];
      SleptAllAdds(a, b[..n]);
    }
  }

  lemma SleptLessSince(was: seq<Entry>, mine: seq<Entry>, theirs: seq<Entry>)
    ensures SleptAll(was + theirs) < SleptAll(was + mine) <==> SleptAll(theirs) < SleptAll(mine)
  {
    SleptAllAdds(was, mine);
    SleptAllAdds(was, theirs);
  }

  /** The histories of the two at the merge: what they shared at the fork, and what each accepted
      since. */
  lemma SinceFork(busyLimit: U64, families: seq<Family>, ops: seq<FamilyOp>, i: nat, n: nat)
    requires ForkedAndMerged(busyLimit, families, ops, i, n) && |families[0].members| == 1
    ensures var m, k := ops[i].member, |families[i].members|;
            && m < k < |families[i + 1].members| && k < |families[n].members|
            && MergesInto(families[n], ops[n], m)
            && var was, hs := HistoryAt(busyLimit, families, ops, i)[m], HistoryAt(busyLimit, families, ops, n);
               && hs[m].booked == was.booked + AcceptedSince(busyLimit, families, ops, m, i + 1, n)
               && hs[m].recorded == was.recorded + AcceptedSince(busyLimit, families, ops, m, i + 1, n)
               && hs[k].booked == was.booked + AcceptedSince(busyLimit, families, ops, k, i + 1, n)
  {
    var m, k := ops[i].member, |families[i].members|;
    ForkStaysBelow(busyLimit, families, ops, i, n);
    MembersStay(busyLimit, families, ops, i + 1, n);
    BooksGrow(busyLimit, families, ops, m, i + 1, n);
    RecordGrows(busyLimit, families, ops, m, i + 1, n);
    BooksGrow(busyLimit, families, ops, k, i + 1, n);
  }

  /** Merging a fork back always takes effect, and lowers the parent's total if and only if the
      calls the parent accepted since the fork slept longer than those the fork accepted. */
  lemma ForkMergeLowersIff(busyLimit: U64, families: seq<Family>, ops: seq<FamilyOp>, maxSleep: U64, vars: Vars,
                           i: nat, n: nat)
    requires ForkedAndMerged(busyLimit, families, ops, i, n)
    requires families[0] == Family([Node(None, false)], [NewBudget(0, maxSleep, vars)])
    ensures var m, k := ops[i].member, |families[i].members|;
            && m < k < |families[i + 1].members| && m < |families[n].members| && m < |families[n + 1].members|
            && (families[n + 1].members[m].total < families[n].members[m].total <==>
                SleptAll(AcceptedSince(busyLimit, families, ops, k, i + 1, n)) <
                SleptAll(AcceptedSince(busyLimit, families, ops, m, i + 1, n)))
  {
    var m, k := ops[i].member, |families[i].members|;
    SinceFork(busyLimit, families, ops, i, n);
    MergeLowersIff(busyLimit, families, ops, maxSleep, vars, n);
    SleptLessSince(HistoryAt(busyLimit, families, ops, i)[m].booked,
                   AcceptedSince(busyLimit, families, ops, m, i + 1, n),
                   AcceptedSince(busyLimit, families, ops, k, i + 1, n));
  }

  /** And leaves `longest_sleep_cfg` answering if and only if each configuration that slept longest
      on the books the fork took along, together with the calls it accepted since, is one the parent
      had on record at the fork or has accepted a call on since. */
  lemma ForkMergeAnswersIff(busyLimit: U64, families: seq<Family>, ops: seq<FamilyOp>, maxSleep: U64, vars: Vars,
                            i: nat, n: nat)
    requires ForkedAndMerged(busyLimit, families, ops, i, n)
    requires families[0] == Family([Node(None, false)], [NewBudget(0, maxSleep, vars)])
    ensures var m, k := ops[i].member, |families[i].members|;
            && m < k < |families[i + 1].members| && m < |families[n + 1].members|
            && var was := HistoryAt(busyLimit, families, ops, i)[m];
               AlwaysAnswers(families[n + 1].members[m]) <==>
               TopsRecorded(was.booked + AcceptedSince(busyLimit, families, ops, k, i + 1, n),
                            was.recorded + AcceptedSince(busyLimit, families, ops, m, i + 1, n))
  {
    SinceFork(busyLimit, families, ops, i, n);
    MergeAnswersIff(busyLimit, families, ops, maxSleep, vars, n);
  }

  // Runs in which a merge forgets.

  lemma FirstForkNotCanceled()
    ensures var forest := [Node(None, false), Node(Some(0), false)];
            && WellFormed(forest) && StrictlyAbove(forest, 0, 1)
            && !Contexts.Canceled(forest, 0) && !Contexts.Canceled(forest, 1)
  {
    var root := [Node(None, false)];
    CanceledUnfolds(root, 0);
    AboveUnfolds(root, 0, 0);
    ForkSitsBelow(root, 0, 0, 0);
    assert root + [Node(Some(0), false)] == [Node(None, false), Node(Some(0), false)];
  }

  lemma ForkStep(busyLimit: U64, b: Budget, f: Family, f': Family)
    requires f == Family([Node(None, false)], [b]) && b.ctx == 0 && FnsReady(b)
    requires f' == Family([Node(None, false), Node(Some(0), false)], [b, ForkOf(b, 1)])
    ensures MembersPlaced(f) && FamilyNext(busyLimit, f, Fork(0), f')
  {
    assert f.forest + [Node(Some(0), false)] == f'.forest;
  }

  lemma BackStep(busyLimit: U64, f: Family, m: nat, call: Call)
    requires MembersPlaced(f) && m < |f.members| && Accepts(busyLimit, f, m, call)
    ensures FamilyNext(busyLimit, f, Back(m, call), f.(members := f.members[m := Accept(f.members[m], call)]))
  {
    assert Backs(false, busyLimit, f.members[m], call, Accept(f.members[m], call), Slept);
  }

  lemma MergeStep(busyLimit: U64, f: Family, f': Family)
    requires f.forest == [Node(None, false), Node(Some(0), false)] && |f.members| == 2
    requires f.members[0].ctx == 0 && f.members[1].ctx == 1 && FnsReady(f.members[0]) && FnsReady(f.members[1])
    requires f' == f.(members := [Merge(f.members[0], f.members[1]), f.members[1]])
    ensures MembersPlaced(f) && FamilyNext(busyLimit, f, Update(0, 1), f')
  {
    FirstForkNotCanceled();
  }

  /** A new budget forks, one of the two accepts one call, and the fork is merged back. */
  lemma ForkBackMerge(busyLimit: U64, maxSleep: U64, vars: Vars, call: Call, m: nat)
      returns (families: seq<Family>, ops: seq<FamilyOp>)
    requires m < 2
    ensures IsFamilyRun(busyLimit, families, ops) && ops == [Fork(0), Back(m, call), Update(0, 1)]
    ensures families[0] == Family([Node(None, false)], [NewBudget(0, maxSleep, vars)])
    ensures var b := NewBudget(0, maxSleep, vars);
            && families[2].members == [b, ForkOf(b, 1)][m := Accept([b, ForkOf(b, 1)][m], call)]
            && families[3].members == [Merge(families[2].members[0], families[2].members[1]), families[2].members[1]]
  {
    var b := NewBudget(0, maxSleep, vars);
    FirstForkNotCanceled();
    var f0 := Family([Node(None, false)], [b]);
    var f1 := Family([Node(None, false), Node(Some(0), false)], [b, ForkOf(b, 1)]);
    var f2 := f1.(members := f1.members[m := Accept(f1.members[m], call)]);
    var f3 := f2.(members := [Merge(f2.members[0], f2.members[1]), f2.members[1]]);
    ForkStep(busyLimit, b, f0, f1);
    BackStep(busyLimit, f1, m, call);
    MergeStep(busyLimit, f2, f3);
    families, ops := [f0, f1, f2, f3], [Fork(0), Back(m, call), Update(0, 1)];
  }

  /** The parent sleeps, the fork does not, and the merge brings the parent's total back to zero. */
  lemma ForgottenSleepRun(busyLimit: U64, maxSleep: U64, vars: Vars, call: Call)
      returns (families: seq<Family>, ops: seq<FamilyOp>)
    requires SleepsForSure(call)
    ensures IsFamilyRun(busyLimit, families, ops) && |families| == 4
    ensures families[0] == Family([Node(None, false)], [NewBudget(0, maxSleep, vars)])
    ensures families[2].members != [] && families[2].members[0].total > 0
    ensures families[3].members != [] && families[3].members[0].total == 0
  {
    families, ops := ForkBackMerge(busyLimit, maxSleep, vars, call, 0);
    assert SleptFor(NewBudget(0, maxSleep, vars), call) >= 1;
  }

  /** The fork sleeps on a configuration the parent never used: after the merge the parent's books
      hold that sleep, and `longest_sleep_cfg` finds no configuration for it in any order. */
  lemma ForgottenConfigRun(busyLimit: U64, maxSleep: U64, vars: Vars, call: Call)
      returns (families: seq<Family>, ops: seq<FamilyOp>)
    requires call.cfg.name != BUSY
    ensures IsFamilyRun(busyLimit, families, ops) && |families| == 4
    ensures families[0] == Family([Node(None, false)], [NewBudget(0, maxSleep, vars)])
    ensures families[3].members != [] && HasCandidate(families[3].members[0]) && !Keyed(families[3].members[0])
    ensures forall order :: IsOrder(families[3].members[0], order) ==> LongestIn(families[3].members[0], order).None?
  {
    families, ops := ForkBackMerge(busyLimit, maxSleep, vars, call, 1);
    var b := families[3].members[0];
    assert call.cfg.name in b.sleepMs && b.configs == [];
    assert !Recorded(b, call.cfg.name);
  }

  // How many calls a member accepts when merges may give its sleep back.

  lemma {:induction false} SincePrefix(busyLimit: U64, families: seq<Family>, ops: seq<FamilyOp>,
                                       longer: seq<Family>, longerOps: seq<FamilyOp>, m: nat, n: nat)
    requires IsFamilyRun(busyLimit, families, ops) && IsFamilyRun(busyLimit, longer, longerOps)
    requires n < |families| <= |longer| && m < |families[0].members|
    requires longer[..|families|] == families && longerOps[..|ops|] == ops
    ensures longer[0] == families[0]
    ensures AcceptedSince(busyLimit, longer, longerOps, m, 0, n) == AcceptedSince(busyLimit, families, ops, m, 0, n)
    decreases n
  {
    assert longer[0] == longer[..|families|][0];
    if n > 0 {
      SincePrefix(busyLimit, families, ops, longer, longerOps, m, n - 1);
      assert longer[n - 1] == longer[..|families|][n - 1] && longerOps[n - 1] == longerOps[..|ops|][n - 1];
    }
  }

  /** A forked budget whose parent's books show no sleep. */
  ghost predicate Rested(f: Family, fork: Budget)
  {
    && f.forest == [Node(None, false), Node(Some(0), false)] && |f.members| == 2
    && f.members[1] == fork && fork.ctx == 1 && FnsReady(fork) && fork.total == 0 && fork.excluded == 0
    && var b := f.members[0];
       b.ctx == 0 && !b.noop && FnsReady(b) && b.total == 0 && b.excluded == 0
  }

  /** The parent accepts a call, and the merge of the fork wipes it off the books. */
  lemma WipingRound(busyLimit: U64, f: Family, fork: Budget, call: Call) returns (f1: Family, f2: Family)
    requires Rested(f, fork)
    ensures MembersPlaced(f) && Accepts(busyLimit, f, 0, call) && FamilyNext(busyLimit, f, Back(0, call), f1)
    ensures MembersPlaced(f1) && FamilyNext(busyLimit, f1, Update(0, 1), f2)
    ensures Rested(f2, fork)
  {
    FirstForkNotCanceled();
    f1 := f.(members := f.members[0 := Accept(f.members[0], call)]);
    BackStep(busyLimit, f, 0, call);
    f2 := f1.(members := [Merge(f1.members[0], f1.members[1]), f1.members[1]]);
    MergeStep(busyLimit, f1, f2);
  }

  lemma ExtendRun(busyLimit: U64, families: seq<Family>, ops: seq<FamilyOp>, op1: FamilyOp, f1: Family,
                  op2: FamilyOp, f2: Family)
    requires IsFamilyRun(busyLimit, families, ops)
    requires var f := families[|ops|]; MembersPlaced(f) && FamilyNext(busyLimit, f, op1, f1)
    requires MembersPlaced(f1) && FamilyNext(busyLimit, f1, op2, f2)
    ensures IsFamilyRun(busyLimit, families + [f1, f2], ops + [op1, op2])
    ensures (families + [f1, f2])[..|families|] == families && (ops + [op1, op2])[..|ops|] == ops
  {
    var longer, longerOps := families + [f1, f2], ops + [op1, op2];
    forall i | 0 <= i < |longerOps|
      ensures MembersPlaced(longer[i]) && FamilyNext(busyLimit, longer[i], longerOps[i], longer[i + 1])
    {
      if i < |ops| {
        assert longer[i] == families[i] && longer[i + 1] == families[i + 1] && longerOps[i] == ops[i];
      }
    }
  }

  /** In family runs the bound on accepted calls is gone: over and over the parent sleeps and the
      unslept fork is merged, and the parent accepts any number of calls. */
  lemma {:induction false} MergesUnboundCalls(busyLimit: U64, maxSleep: U64, vars: Vars, call: Call, n: nat)
      returns (families: seq<Family>, ops: seq<FamilyOp>)
    ensures IsFamilyRun(busyLimit, families, ops)
    ensures families[0] == Family([Node(None, false)], [NewBudget(0, maxSleep, vars)])
    ensures forall i :: 0 <= i < |ops| && ops[i].Back? ==> ops[i].call == call
    ensures |AcceptedSince(busyLimit, families, ops, 0, 0, |ops|)| == n
    ensures Rested(families[|ops|], ForkOf(NewBudget(0, maxSleep, vars), 1))
    decreases n
  {
    var b := NewBudget(0, maxSleep, vars);
    var fork := ForkOf(b, 1);
    if n == 0 {
      var f0 := Family([Node(None, false)], [b]);
      var f1 := Family([Node(None, false), Node(Some(0), false)], [b, fork]);
      ForkStep(busyLimit, b, f0, f1);
      families, ops := [f0, f1], [Fork(0)];
      assert AcceptedSince(busyLimit, families, ops, 0, 0, 0) == [];
    } else {
      var ff, oo := MergesUnboundCalls(busyLimit, maxSleep, vars, call, n - 1);
      var f1, f2 := WipingRound(busyLimit, ff[|oo|], fork, call);
      ExtendRun(busyLimit, ff, oo, Back(0, call), f1, Update(0, 1), f2);
      families, ops := ff + [f1, f2], oo + [Back(0, call), Update(0, 1)];
      RoundCounts(busyLimit, ff, oo, families, ops, call, f1, f2);
    }
  }

  lemma RoundCounts(busyLimit: U64, families: seq<Family>, ops: seq<FamilyOp>, longer: seq<Family>,
                    longerOps: seq<FamilyOp>, call: Call, f1: Family, f2: Family)
    requires IsFamilyRun(busyLimit, families, ops) && IsFamilyRun(busyLimit, longer, longerOps)
    requires longer == families + [f1, f2] && longerOps == ops + [Back(0, call), Update(0, 1)]
    requires 0 < |families[0].members| && MembersPlaced(families[|ops|]) && 0 < |families[|ops|].members|
    requires Accepts(busyLimit, families[|ops|], 0, call)
    ensures longer[0] == families[0]
    ensures |AcceptedSince(busyLimit, longer, longerOps, 0, 0, |longerOps|)|
         == |AcceptedSince(busyLimit, families, ops, 0, 0, |ops|)| + 1
  {
    var n := |ops|;
    SincePrefix(busyLimit, families, ops, longer, longerOps, 0, n);
    MembersStay(busyLimit, longer, longerOps, 0, n);
    MembersStay(busyLimit, longer, longerOps, 0, n + 1);
    assert longer[n] == families[n] && longerOps[n] == Back(0, call) && longerOps[n + 1] == Update(0, 1);
    var upTo := AcceptedSince(busyLimit, longer, longerOps, 0, 0, n + 1);
    assert upTo
        == AcceptedSince(busyLimit, longer, longerOps, 0, 0, n) + Accepted(busyLimit, longer[n], longerOps[n], 0);
    assert AcceptedSince(busyLimit, longer, longerOps, 0, 0, n + 2)
        == upTo + Accepted(busyLimit, longer[n + 1], longerOps[n + 1], 0);
  }

  /** The number of calls on the excluded configuration, or on the others. */
  function CallsIn(entries: seq<Entry>, busy: bool): nat
  {
    if entries == [] then 0
    else
      CallsIn(entries[..|entries| - 1], busy) + if (entries[|entries| - 1].cfg.name == BUSY) == busy then 1 else 0
  }

  lemma CallsInOneMore(entries: seq<Entry>, e: Entry, busy: bool)
    ensures CallsIn(entries + [e], busy) == CallsIn(entries, busy) + if (e.cfg.name == BUSY) == busy then 1 else 0
  {
    assert (entries + [e])[..|entries|] == entries;
  }

  /** No merge into the member gives sleep back. */
  ghost predicate NoSleepBack(families: seq<Family>, ops: seq<FamilyOp>, m: nat, i: nat, n: nat)
    requires n < |families| == |ops| + 1
  {
    forall j :: i <= j < n && ops[j].Update? && ops[j].member == m ==>
      && m < |families[j].members| && m < |families[j + 1].members|
      && Counted(families[j].members[m]) <= Counted(families[j + 1].members[m])
      && families[j].members[m].excluded <= families[j + 1].members[m].excluded
  }

  ghost predicate AllSleepForSure(ops: seq<FamilyOp>)
  {
    forall i :: 0 <= i < |ops| && ops[i].Back? ==> SleepsForSure(ops[i].call)
  }

  ghost predicate FamilyWithoutFullJitter(f: Family)
  {
    forall i :: 0 <= i < |f.members| ==> NoFullJitter(f.members[i])
  }

  lemma BackWithoutFullJitter(busyLimit: U64, f: Family, op: FamilyOp, f': Family)
    requires MembersPlaced(f) && FamilyWithoutFullJitter(f) && FamilyNext(busyLimit, f, op, f')
    requires op.Back? ==> SleepsForSure(op.call)
    ensures FamilyWithoutFullJitter(f')
  {
    if op.Back? {
      var b', out :|
        Backs(Contexts.Canceled(f.forest, f.members[op.member].ctx), busyLimit, f.members[op.member], op.call, b', out)
        && f'.members == f.members[op.member := b'];
      assert NoFullJitter(b');
    }
  }

  lemma {:induction false} RunWithoutFullJitter(busyLimit: U64, families: seq<Family>, ops: seq<FamilyOp>,
                                                maxSleep: U64, vars: Vars, n: nat)
    requires IsFamilyRun(busyLimit, families, ops) && n < |families| && AllSleepForSure(ops)
    requires families[0] == Family([Node(None, false)], [NewBudget(0, maxSleep, vars)])
    ensures FamilyWithoutFullJitter(families[n])
    decreases n
  {
    if n > 0 {
      RunWithoutFullJitter(busyLimit, families, ops, maxSleep, vars, n - 1);
      BackWithoutFullJitter(busyLimit, families[n - 1], ops[n - 1], families[n]);
    }
  }

  /** One operation: what the member has accepted stays paid for. */
  lemma MemberPaidStep(busyLimit: U64, f: Family, op: FamilyOp, f': Family, m: nat, accepted: seq<Entry>)
    requires MembersPlaced(f) && FamilyNext(busyLimit, f, op, f') && m < |f.members| && m < |f'.members|
    requires op.Back? ==> SleepsForSure(op.call)
    requires Paid(f.members[m], busyLimit, CallsIn(accepted, false), CallsIn(accepted, true))
    requires Balanced(f'.members[m]) && NoFullJitter(f'.members[m])
    requires op.Update? && op.member == m ==>
               && Counted(f.members[m]) <= Counted(f'.members[m]) && f.members[m].excluded <= f'.members[m].excluded
    ensures var after := accepted + Accepted(busyLimit, f, op, m);
            Paid(f'.members[m], busyLimit, CallsIn(after, false), CallsIn(after, true))
  {
    var b := f.members[m];
    if op.Back? && op.member == m {
      var canceled := Contexts.Canceled(f.forest, b.ctx);
      var b', out :| Backs(canceled, busyLimit, b, op.call, b', out) && f'.members == f.members[m := b'];
      BacksPaid(canceled, busyLimit, b, op.call, b', out, CallsIn(accepted, false), CallsIn(accepted, true));
      if Accepts(busyLimit, f, m, op.call) {
        var e := Entry(op.call.cfg, op.call.message, SleptFor(b, op.call));
        CallsInOneMore(accepted, e, false);
        CallsInOneMore(accepted, e, true);
      } else {
        assert accepted + [] == accepted;
      }
    } else {
      assert accepted + [] == accepted;
    }
  }

  lemma MemberFacts(busyLimit: U64, families: seq<Family>, ops: seq<FamilyOp>, maxSleep: U64, vars: Vars,
                    m: nat, n: nat)
    requires IsFamilyRun(busyLimit, families, ops) && n < |families| && m < |families[n].members|
    requires AllSleepForSure(ops)
    requires families[0] == Family([Node(None, false)], [NewBudget(0, maxSleep, vars)])
    ensures var b := families[n].members[m];
            Balanced(b) && NoFullJitter(b) && b.maxSleep == SatMulU64(maxSleep, vars.weight) && b.excluded <= b.total
  {
    FamilyRuns(busyLimit, families, ops, maxSleep, vars, U64_MAX, U64_MAX, n);
    RunWithoutFullJitter(busyLimit, families, ops, maxSleep, vars, n);
    assert MemberOk(families[n], m, busyLimit, SatMulU64(maxSleep, vars.weight), vars, U64_MAX, U64_MAX);
    ExcludedWithinTotal(families[n].members[m]);
  }

  ghost predicate PaidSince(busyLimit: U64, families: seq<Family>, ops: seq<FamilyOp>, m: nat, i: nat, n: nat)
    requires IsFamilyRun(busyLimit, families, ops) && i <= n < |families|
    requires m < |families[i].members| <= |families[n].members|
  {
    var since := AcceptedSince(busyLimit, families, ops, m, i, n);
    Paid(families[n].members[m], busyLimit, CallsIn(since, false), CallsIn(since, true))
  }

  lemma PaidSinceStep(busyLimit: U64, families: seq<Family>, ops: seq<FamilyOp>, maxSleep: U64, vars: Vars,
                      m: nat, i: nat, n: nat)
    requires IsFamilyRun(busyLimit, families, ops) && i < n < |families| && AllSleepForSure(ops)
    requires m < |families[i].members| <= |families[n - 1].members| && |families[i].members| <= |families[n].members|
    requires families[0] == Family([Node(None, false)], [NewBudget(0, maxSleep, vars)])
    requires NoSleepBack(families, ops, m, i, n) && PaidSince(busyLimit, families, ops, m, i, n - 1)
    ensures PaidSince(busyLimit, families, ops, m, i, n)
  {
    MemberFacts(busyLimit, families, ops, maxSleep, vars, m, n);
    MemberPaidStep(busyLimit, families[n - 1], ops[n - 1], families[n], m,
                   AcceptedSince(busyLimit, families, ops, m, i, n - 1));
  }

  lemma {:induction false} MemberPaid(busyLimit: U64, families: seq<Family>, ops: seq<FamilyOp>, maxSleep: U64,
                                      vars: Vars, m: nat, i: nat, n: nat)
    requires IsFamilyRun(busyLimit, families, ops) && i <= n < |families|
    requires m < |families[i].members| <= |families[n].members|
    requires families[0] == Family([Node(None, false)], [NewBudget(0, maxSleep, vars)])
    requires SatMulU64(maxSleep, vars.weight) > 0 && AllSleepForSure(ops) && NoSleepBack(families, ops, m, i, n)
    ensures PaidSince(busyLimit, families, ops, m, i, n)
    decreases n
  {
    if i == n {
      MemberFacts(busyLimit, families, ops, maxSleep, vars, m, n);
    } else {
      MembersStay(busyLimit, families, ops, i, n - 1);
      MemberPaid(busyLimit, families, ops, maxSleep, vars, m, i, n - 1);
      PaidSinceStep(busyLimit, families, ops, maxSleep, vars, m, i, n);
    }
  }

  /** While no merge gives a member's sleep back, the bound holds for it in family runs too: it accepts
      at most the maximum of counted calls and the busy budget of the excluded ones. */
  lemma MemberCallsBounded(busyLimit: U64, families: seq<Family>, ops: seq<FamilyOp>, maxSleep: U64, vars: Vars,
                           m: nat, i: nat, n: nat)
    requires IsFamilyRun(busyLimit, families, ops) && i <= n < |families| && m < |families[i].members|
    requires families[0] == Family([Node(None, false)], [NewBudget(0, maxSleep, vars)])
    requires SatMulU64(maxSleep, vars.weight) > 0 && AllSleepForSure(ops) && NoSleepBack(families, ops, m, i, n)
    ensures var since, effective := AcceptedSince(busyLimit, families, ops, m, i, n), SatMulU64(maxSleep, vars.weight);
            CallsIn(since, false) <= effective && CallsIn(since, true) <= BusyBudget(busyLimit, effective)
  {
    MembersStay(busyLimit, families, ops, i, n);
    MemberPaid(busyLimit, families, ops, maxSleep, vars, m, i, n);
    MemberFacts(busyLimit, families, ops, maxSleep, vars, m, n);
  }

  // Cancellation.

  lemma CancelStays(busyLimit: U64, f: Family, op: FamilyOp, f': Family, ctx: nat)
    requires MembersPlaced(f) && FamilyNext(busyLimit, f, op, f') && ctx < |f.forest| && WellFormed(f'.forest)
    requires Contexts.Canceled(f.forest, ctx)
    ensures ctx < |f'.forest| && Contexts.Canceled(f'.forest, ctx)
  {
    if op.Fork? {
      ForkSitsBelow(f.forest, f.members[op.member].ctx, 0, ctx);
    } else if op.Cancel? {
      CancelHitsSubtree(f.forest, op.ctx, ctx);
    }
  }

  /** Once a context is canceled, no member in it or below it, also none forked later, accepts a call. */
  lemma {:induction false} CanceledForever(busyLimit: U64, families: seq<Family>, ops: seq<FamilyOp>, ctx: nat,
                                           i: nat, n: nat)
    requires IsFamilyRun(busyLimit, families, ops) && i < n < |ops| && ops[i] == Cancel(ctx)
    ensures ctx < |families[n].forest| && Contexts.Canceled(families[n].forest, ctx)
    ensures forall m, call ::
              0 <= m < |families[n].members| && Above(families[n].forest, ctx, families[n].members[m].ctx) ==>
              !Accepts(busyLimit, families[n], m, call)
    decreases n
  {
    if n == i + 1 {
      CancelHitsSubtree(families[i].forest, ctx, ctx);
      AboveUnfolds(families[i].forest, ctx, ctx);
    } else {
      CanceledForever(busyLimit, families, ops, ctx, i, n - 1);
      CancelStays(busyLimit, families[n - 1], ops[n - 1], families[n], ctx);
    }
    forall m | 0 <= m < |families[n].members| && Above(families[n].forest, ctx, families[n].members[m].ctx)
      ensures Contexts.Canceled(families[n].forest, families[n].members[m].ctx)
    {
      CanceledBelow(families[n].forest, ctx, families[n].members[m].ctx);
    }
  }

  lemma CanceledBelow(forest: seq<Node>, a: nat, i: nat)
    requires WellFormed(forest) && a < |forest| && i < |forest| && Contexts.Canceled(forest, a) && Above(forest, a, i)
    ensures Contexts.Canceled(forest, i)
  {
    var b: nat :| Above(forest, b, a) && b < |forest| && forest[b].canceled;
    var m: nat :| Up(forest, i, m) == Some(a);
    var n: nat :| Up(forest, a, n) == Some(b);
    UpAdds(forest, i, m, n);
    assert Above(forest, b, i);
  }
}
