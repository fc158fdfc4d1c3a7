/** The scheduler around the latches: the background task that counts releases and starts a recycler
    at the commit of a lock it has just released, and the recycling of a full slot at the start of a
    lock that acquires in it. These are the only clocks at which anything is recycled. */
module LatchScheduler {
  import opened Machine
  import opened Keys
  import opened Latches
  import opened LatchMemory

  /** `clocks` are those of the recyclers started so far; each visits the slots at its own pace. */
  datatype Scheduler = Scheduler(latches: State, lastRecycle: U64, counter: nat, clocks: set<U64>)

  datatype Step =
    | Latch(action: Action)
    | RecycleAll(clock: U64, idle: set<Key>)
    | RecycleSlot(lock: nat, idle: set<Key>)

  const START: Scheduler := Scheduler(INITIAL, 0, 0, {})

  const CHECK_INTERVAL_MS := 60_000
  const CHECK_COUNTER := 50_000
  const LATCH_LIST_COUNT := 5

  function Physical(ts: U64): nat
  {
    ts / 0x4_0000
  }

  /** What the background task does once it has released a lock. */
  function Tick(s: Scheduler, l: Lock): Scheduler
  {
    if l.commitTs > l.startTs
       && (Physical(l.commitTs) - Physical(s.lastRecycle) > CHECK_INTERVAL_MS || s.counter > CHECK_COUNTER)
    then s.(lastRecycle := l.commitTs, counter := 1, clocks := s.clocks + {l.commitTs})
    else s.(counter := s.counter + 1)
  }

  /** The release of a lock starts a recycler if and only if the lock has committed after its start and
      that is more than a minute after the last recycler's clock, or more than 50,000 releases have been
      counted. */
  lemma TickStartsIff(s: Scheduler, l: Lock)
    requires l.commitTs !in s.clocks
    ensures l.commitTs in Tick(s, l).clocks <==>
            && l.startTs < l.commitTs
            && (l.commitTs / 0x4_0000 - s.lastRecycle / 0x4_0000 > 60_000 || s.counter > 50_000)
    ensures Tick(s, l).counter == if l.commitTs in Tick(s, l).clocks then 1 else s.counter + 1
    ensures Tick(s, l).lastRecycle == if l.commitTs in Tick(s, l).clocks then l.commitTs else s.lastRecycle
  {
  }

  /** A slot has at least so many nodes only if the latches have. */
  predicate Enabled(s: Scheduler, step: Step)
  {
    match step
    case Latch(a) => !a.Recycle? && Latches.Enabled(s.latches, a)
    case RecycleAll(clock, idle) => clock in s.clocks && Latches.Enabled(s.latches, Recycle(clock, idle))
    case RecycleSlot(t, idle) =>
      && In(s.latches, t, Acquiring) && |s.latches.nodes| >= LATCH_LIST_COUNT
      && var l := s.latches.locks[t];
         !l.stale && l.acquired < |l.keys| && Latches.Enabled(s.latches, Recycle(l.startTs, idle))
  }

  /** An acquire recycles only where there are at least five nodes, at its own start, and drops only
      free keys that have been idle for two minutes. */
  lemma SlotRecyclesIff(s: Scheduler, t: nat, k: Key)
    requires In(s.latches, t, Acquiring) && k in s.latches.nodes
    ensures Enabled(s, RecycleSlot(t, {k})) <==>
            var l, node := s.latches.locks[t], s.latches.nodes[k];
            && |s.latches.nodes| >= 5 && !l.stale && l.acquired < |l.keys|
            && node.owner == None && l.startTs / 0x4_0000 - node.maxCommitTs / 0x4_0000 >= 120_000
  {
  }

  function ActionOf(s: Scheduler, step: Step): Action
    requires Enabled(s, step)
  {
    match step
    case Latch(a) => a
    case RecycleAll(clock, idle) => Recycle(clock, idle)
    case RecycleSlot(t, idle) => Recycle(s.latches.locks[t].startTs, idle)
  }

  predicate Finishes(s: State, a: Action)
  {
    a.Release? && In(s, a.lock, Releasing) && s.locks[a.lock].acquired == 0
  }

  function Next(s: Scheduler, step: Step): Scheduler
    requires Enabled(s, step)
  {
    var moved := s.(latches := Latches.Next(s.latches, ActionOf(s, step)));
    if step.Latch? && Finishes(s.latches, step.action) then Tick(moved, s.latches.locks[step.action.lock])
    else moved
  }

  ghost predicate IsRun(s: Scheduler, steps: seq<Step>)
    decreases steps
  {
    steps != [] ==> Enabled(s, steps[0]) && IsRun(Next(s, steps[0]), steps[1..])
  }

  ghost function End(s: Scheduler, steps: seq<Step>): Scheduler
    requires IsRun(s, steps)
    decreases steps
  {
    if steps == [] then s else End(Next(s, steps[0]), steps[1..])
  }

  /** The run as the latches see it. */
  ghost function Trace(s: Scheduler, steps: seq<Step>): seq<Action>
    requires IsRun(s, steps)
    decreases steps
  {
    if steps == [] then [] else [ActionOf(s, steps[0])] + Trace(Next(s, steps[0]), steps[1..])
  }

  /** Every run of the scheduler is a run of the latches, so what holds of all of those holds here. */
  lemma {:induction false} TraceIsRun(s: Scheduler, steps: seq<Step>)
    requires IsRun(s, steps)
    ensures Latches.IsRun(s.latches, Trace(s, steps))
    ensures Latches.End(s.latches, Trace(s, steps)) == End(s, steps).latches
    decreases steps
  {
    if steps != [] {
      var rest := Trace(Next(s, steps[0]), steps[1..]);
      TraceIsRun(Next(s, steps[0]), steps[1..]);
      assert ([ActionOf(s, steps[0])] + rest)[1..] == rest;
    }
  }

  /** The clock is the commit, newer than its start, of a lock that has been released. */
  ghost predicate IsCommit(s: State, clock: U64)
  {
    exists t :: In(s, t, Released) && s.locks[t].startTs < clock && s.locks[t].commitTs == clock
  }

  lemma IsCommitStays(s: State, a: Action, clock: U64)
    requires Inv(s) && Latches.Enabled(s, a) && IsCommit(s, clock)
    ensures IsCommit(Latches.Next(s, a), clock)
  {
    var t :| In(s, t, Released) && s.locks[t].startTs < clock && s.locks[t].commitTs == clock;
    OthersLeave(s, a, t);
    assert In(Latches.Next(s, a), t, Released);
  }

  lemma ClockStep(s: Scheduler, step: Step)
    requires Inv(s.latches) && Enabled(s, step) && forall clock :: clock in s.clocks ==> IsCommit(s.latches, clock)
    ensures forall clock :: clock in Next(s, step).clocks ==> IsCommit(Next(s, step).latches, clock)
  {
    var s' := Next(s, step);
    forall clock | clock in s'.clocks
      ensures IsCommit(s'.latches, clock)
    {
      if clock in s.clocks {
        IsCommitStays(s.latches, ActionOf(s, step), clock);
      } else {
        assert In(s'.latches, step.action.lock, Released);
      }
    }
  }

  /** In every run the recyclers' clocks are commits of released locks. */
  lemma {:induction false} ClocksAreCommits(s: Scheduler, steps: seq<Step>)
    requires Inv(s.latches) && IsRun(s, steps) && forall clock :: clock in s.clocks ==> IsCommit(s.latches, clock)
    ensures forall clock :: clock in End(s, steps).clocks ==> IsCommit(End(s, steps).latches, clock)
    decreases steps
  {
    if steps != [] {
      StepKeeps(s.latches, ActionOf(s, steps[0]));
      ClockStep(s, steps[0]);
      ClocksAreCommits(Next(s, steps[0]), steps[1..]);
    }
  }

  /** Nothing is recycled at a clock after `latest`. */
  ghost predicate ClocksUpTo(actions: seq<Action>, latest: U64)
  {
    forall i :: 0 <= i < |actions| && actions[i].Recycle? ==> actions[i].currentTs <= latest
  }

  /** The run ends with a guard that started at `start` overtaken by a commit at `commit`. */
  ghost predicate OvertakesAt(s: State, t: nat, u: nat, k: Key, start: U64, commit: U64)
  {
    Overtakes(s, t, u, k) && s.locks[t].startTs == start && s.locks[u].commitTs == commit
  }

  ghost predicate OvertakenRun(steps: seq<Step>, start: U64, commit: U64, latest: U64)
  {
    && IsRun(START, steps) && ClocksUpTo(Trace(START, steps), latest)
    && exists t, u, k :: OvertakesAt(End(START, steps).latches, t, u, k, start, commit)
  }

  lemma OvertakenNeedsExpiry(steps: seq<Step>, start: U64, commit: U64, latest: U64)
    requires OvertakenRun(steps, start, commit, latest)
    ensures start < commit && Expired(latest, commit)
  {
    var actions := Trace(START, steps);
    TraceIsRun(START, steps);
    var t, u, k :| OvertakesAt(End(START, steps).latches, t, u, k, start, commit);
    NoNewerCommit(actions, t, u, k);
    var i := ForgottenClock(INITIAL, actions, u, k);
    assert actions[i].currentTs <= latest;
  }

  // The converse run.

  lemma {:induction false} RunsCompose(s: Scheduler, first: seq<Step>, rest: seq<Step>)
    requires IsRun(s, first) && IsRun(End(s, first), rest)
    ensures IsRun(s, first + rest) && End(s, first + rest) == End(End(s, first), rest)
    ensures Trace(s, first + rest) == Trace(s, first) + Trace(End(s, first), rest)
    decreases first
  {
    if first == [] {
      assert first + rest == rest;
    } else {
      assert (first + rest)[1..] == first[1..] + rest;
      RunsCompose(Next(s, first[0]), first[1..], rest);
    }
  }

  lemma OneStep(s: Scheduler, step: Step, rest: seq<Step>)
    requires Enabled(s, step) && IsRun(Next(s, step), rest)
    ensures IsRun(s, [step] + rest) && End(s, [step] + rest) == End(Next(s, step), rest)
    ensures Trace(s, [step] + rest) == [ActionOf(s, step)] + Trace(Next(s, step), rest)
  {
    assert ([step] + rest)[1..] == rest;
  }

  function WithKey(s: Scheduler, k: Key, node: Node, t: nat, l: Lock): Scheduler
  {
    s.(latches := State(s.latches.nodes[k := node], s.latches.waiting, s.latches.locks[t := l]))
  }

  /** A lock on one free key without a newer commit is granted it. */
  lemma GrantRun(s: Scheduler, t: nat, start: U64, k: Key) returns (run: seq<Step>)
    requires t !in s.latches.locks && NodeAt(s.latches, k).owner == None && NodeAt(s.latches, k).maxCommitTs <= start
    ensures IsRun(s, run) && ClocksUpTo(Trace(s, run), 0)
    ensures End(s, run) == WithKey(s, k, Node(NodeAt(s.latches, k).maxCommitTs, Some(t)), t,
                                   Lock(start, [k], 1, 0, false, Granted))
  {
    var s1 := Next(s, Latch(Start(t, start, [k])));
    var s2 := Next(s1, Latch(Acquire(t)));
    var s3 := Next(s2, Latch(Acquire(t)));
    assert s3.latches.locks == s.latches.locks[t := Lock(start, [k], 1, 0, false, Granted)];
    OneStep(s2, Latch(Acquire(t)), []);
    OneStep(s1, Latch(Acquire(t)), [Latch(Acquire(t))]);
    OneStep(s, Latch(Start(t, start, [k])), [Latch(Acquire(t)), Latch(Acquire(t))]);
    run := [Latch(Start(t, start, [k]))] + [Latch(Acquire(t)), Latch(Acquire(t))];
  }

  /** It commits and is released, and the background task takes note. */
  lemma CommitRun(s: Scheduler, t: nat, start: U64, k: Key, commit: U64) returns (run: seq<Step>)
    requires s.latches.waiting == [] && t in s.latches.locks && k in s.latches.nodes
    requires s.latches.locks[t] == Lock(start, [k], 1, 0, false, Granted) && s.latches.nodes[k].owner == Some(t)
    ensures IsRun(s, run) && ClocksUpTo(Trace(s, run), 0)
    ensures var l := Lock(start, [k], 0, commit, false, Released);
            End(s, run) == Tick(WithKey(s, k, Node(Max(s.latches.nodes[k].maxCommitTs, commit), None), t, l), l)
  {
    var s1 := Next(s, Latch(SetCommitTs(t, commit)));
    var s2 := Next(s1, Latch(Unlock(t)));
    var s3 := Next(s2, Latch(Release(t)));
    var s4 := Next(s3, Latch(Release(t)));
    assert s4.latches.locks == s.latches.locks[t := Lock(start, [k], 0, commit, false, Released)];
    OneStep(s3, Latch(Release(t)), []);
    OneStep(s2, Latch(Release(t)), [Latch(Release(t))]);
    OneStep(s1, Latch(Unlock(t)), [Latch(Release(t)), Latch(Release(t))]);
    OneStep(s, Latch(SetCommitTs(t, commit)), [Latch(Unlock(t)), Latch(Release(t)), Latch(Release(t))]);
    run := [Latch(SetCommitTs(t, commit))] + [Latch(Unlock(t)), Latch(Release(t)), Latch(Release(t))];
  }

  lemma WithKeyTwice(s: Scheduler, k: Key, t: nat, node: Node, l: Lock, node': Node, l': Lock)
    ensures WithKey(WithKey(s, k, node, t, l), k, node', t, l') == WithKey(s, k, node', t, l')
  {
  }

  /** From start to release. */
  lemma PassRun(s: Scheduler, t: nat, start: U64, k: Key, commit: U64) returns (run: seq<Step>)
    requires s.latches.waiting == [] && t !in s.latches.locks
    requires NodeAt(s.latches, k).owner == None && NodeAt(s.latches, k).maxCommitTs <= start <= commit
    ensures IsRun(s, run) && ClocksUpTo(Trace(s, run), 0)
    ensures var l := Lock(start, [k], 0, commit, false, Released);
            End(s, run) == Tick(WithKey(s, k, Node(commit, None), t, l), l)
  {
    var node, l := Node(NodeAt(s.latches, k).maxCommitTs, Some(t)), Lock(start, [k], 1, 0, false, Granted);
    var first := GrantRun(s, t, start, k);
    var rest := CommitRun(WithKey(s, k, node, t, l), t, start, k, commit);
    RunsCompose(s, first, rest);
    WithKeyTwice(s, k, t, node, l, Node(commit, None), Lock(start, [k], 0, commit, false, Released));
    run := first + rest;
  }

  /** Lock 1 has committed on `k` and is released; the other locks and keys are among those given. */
  ghost predicate Passed(s: State, k: Key, start: U64, commit: U64, keys: set<Key>, locks: set<nat>)
  {
    && s.waiting == [] && s.nodes.Keys <= keys && s.locks.Keys <= locks
    && k in s.nodes && s.nodes[k] == Node(commit, None)
    && 1 in s.locks && s.locks[1] == Lock(start, [k], 0, commit, false, Released)
  }

  lemma OnePassed(start: U64, commit: U64, k: Key) returns (run: seq<Step>)
    requires start < commit
    ensures IsRun(START, run) && ClocksUpTo(Trace(START, run), 0)
    ensures Passed(End(START, run).latches, k, start, commit, {k}, {1}) && End(START, run).lastRecycle <= commit
  {
    run := PassRun(START, 1, start, k, commit);
  }

  /** A commit two minutes after the last recycling starts a recycler. */
  lemma TickStarts(s: Scheduler, l: Lock, commit: U64)
    requires l.startTs < l.commitTs && s.lastRecycle <= commit && Expired(l.commitTs, commit)
    ensures l.commitTs in Tick(s, l).clocks && Tick(s, l).latches == s.latches
  {
  }

  /** Lock 2, on a key of its own, commits at `latest`. */
  lemma OtherPasses(s: Scheduler, start: U64, commit: U64, latest: U64, k: Key, j: Key) returns (run: seq<Step>)
    requires start < commit && Expired(latest, commit) && j != k
    requires Passed(s.latches, k, start, commit, {k}, {1}) && s.lastRecycle <= commit
    ensures IsRun(s, run) && ClocksUpTo(Trace(s, run), 0)
    ensures Passed(End(s, run).latches, k, start, commit, {k, j}, {1, 2}) && latest in End(s, run).clocks
  {
    assert j !in s.latches.nodes && 2 !in s.latches.locks;
    run := PassRun(s, 2, start, j, latest);
    var l := Lock(start, [j], 0, latest, false, Released);
    TickStarts(WithKey(s, j, Node(latest, None), 2, l), l, commit);
  }

  /** A recycler's clock is up: the key's record goes. */
  lemma RecycleRun(s: Scheduler, clock: U64, k: Key) returns (run: seq<Step>)
    requires clock in s.clocks && k in s.latches.nodes && s.latches.nodes[k].owner == None
    requires Expired(clock, s.latches.nodes[k].maxCommitTs)
    ensures IsRun(s, run) && ClocksUpTo(Trace(s, run), clock)
    ensures End(s, run) == s.(latches := s.latches.(nodes := s.latches.nodes - {k}))
  {
    OneStep(s, RecycleAll(clock, {k}), []);
    run := [RecycleAll(clock, {k})] + [];
  }

  /** Lock 0, which started before the first commit, comes late. */
  lemma LateComer(s: Scheduler, start: U64, commit: U64, latest: U64, k: Key, keys: set<Key>) returns (run: seq<Step>)
    requires start < commit && Expired(latest, commit) && latest in s.clocks
    requires Passed(s.latches, k, start, commit, keys, {1, 2})
    ensures IsRun(s, run) && ClocksUpTo(Trace(s, run), latest)
    ensures OvertakesAt(End(s, run).latches, 0, 1, k, start, commit)
  {
    var first := RecycleRun(s, latest, k);
    var recycled := End(s, first);
    var rest := GrantRun(recycled, 0, start, k);
    RunsCompose(s, first, rest);
    run := first + rest;
    assert [k][0] == k;
  }

  /** One lock commits and is released; another, on a key of its own, commits two minutes later, which
      starts a recycler; and a lock that started before the first commit is granted its key. */
  lemma OvertakingRun(start: U64, commit: U64, latest: U64) returns (steps: seq<Step>)
    requires start < commit && Expired(latest, commit)
    ensures OvertakenRun(steps, start, commit, latest)
  {
    var k, j: Key := [], [0];
    var first := OnePassed(start, commit, k);
    var s1 := End(START, first);
    var second := OtherPasses(s1, start, commit, latest, k, j);
    var s2 := End(s1, second);
    var third := LateComer(s2, start, commit, latest, k, {k, j});
    RunsCompose(START, first, second);
    RunsCompose(START, first + second, third);
    steps := first + second + third;
  }

  /** Exactly: a guard that started at `start` can be overtaken by a commit at `commit` while nothing
      is recycled at a clock after `latest`, if and only if the commit is newer than the start and
      two minutes older than `latest`. */
  lemma OvertakenIff(start: U64, commit: U64, latest: U64)
    ensures (exists steps :: OvertakenRun(steps, start, commit, latest)) <==>
            start < commit && latest / 0x4_0000 - commit / 0x4_0000 >= 120_000
  {
    if steps :| OvertakenRun(steps, start, commit, latest) {
      OvertakenNeedsExpiry(steps, start, commit, latest);
    }
    if start < commit && Expired(latest, commit) {
      var steps := OvertakingRun(start, commit, latest);
    }
  }

  /** So a guard is safe from every commit exactly as long as nothing is recycled two minutes after
      its start. */
  lemma SafeIff(start: U64, latest: U64)
    ensures (forall steps, commit :: !OvertakenRun(steps, start, commit, latest)) <==>
            !(start < U64_MAX && latest / 0x4_0000 - (start + 1) / 0x4_0000 >= 120_000)
  {
    if start < U64_MAX && Expired(latest, start + 1) {
      var steps := OvertakingRun(start, start + 1, latest);
    } else {
      forall steps, commit | OvertakenRun(steps, start, commit, latest)
        ensures false
      {
        OvertakenNeedsExpiry(steps, start, commit, latest);
      }
    }
  }
}
