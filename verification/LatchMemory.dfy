/** How long a commit recorded in the latches is remembered: until its key, idle, is recycled at a
    clock two minutes later. Until then no lock that started before the commit gets the key without
    being marked stale. */
module LatchMemory {
  import opened Machine
  import opened Keys
  import opened Latches

  /** The step in which `u` gives up `k` and records its commit there. */
  ghost predicate GivesUp(s: State, a: Action, u: nat, k: Key)
  {
    && a == Release(u) && In(s, u, Releasing)
    && var l := s.locks[u];
       0 < l.acquired <= |l.keys| && l.keys[l.acquired - 1] == k
  }

  /** `k` is recycled at a clock that lets go of a commit at `commit`. */
  ghost predicate Forgets(actions: seq<Action>, k: Key, commit: U64)
  {
    exists i :: 0 <= i < |actions| && actions[i].Recycle? && k in actions[i].idle
                && Expired(actions[i].currentTs, commit)
  }

  /** In the run, `u` gave up `k`, and its commit there was forgotten later on. */
  ghost predicate ForgottenAfterRelease(s: State, actions: seq<Action>, u: nat, k: Key)
    requires IsRun(s, actions)
    decreases actions
  {
    actions != [] &&
    (if GivesUp(s, actions[0], u, k) then Forgets(actions[1..], k, s.locks[u].commitTs)
     else ForgottenAfterRelease(Next(s, actions[0]), actions[1..], u, k))
  }

  lemma CommitStaysOneStep(s: State, a: Action, k: Key, commit: U64)
    requires Enabled(s, a) && commit <= NodeAt(s, k).maxCommitTs
    requires !(a.Recycle? && k in a.idle && Expired(a.currentTs, commit))
    ensures commit <= NodeAt(Next(s, a), k).maxCommitTs
  {
  }

  /** A commit stays on record until its key is recycled two minutes later. */
  lemma {:induction false} CommitStays(s: State, actions: seq<Action>, k: Key, commit: U64)
    requires IsRun(s, actions) && commit <= NodeAt(s, k).maxCommitTs && !Forgets(actions, k, commit)
    ensures commit <= NodeAt(End(s, actions), k).maxCommitTs
    decreases actions
  {
    if actions != [] {
      var a := actions[0];
      assert !(a.Recycle? && k in a.idle && Expired(a.currentTs, commit));
      CommitStaysOneStep(s, a, k, commit);
      assert !Forgets(actions[1..], k, commit);
      CommitStays(Next(s, a), actions[1..], k, commit);
    }
  }

  /** The guard was dropped. */
  predicate Dropped(l: Lock)
  {
    l.phase.Releasing? || l.phase.Released?
  }

  /** What a step leaves of a lock: its keys and start, its staleness, and its commit once dropped. */
  ghost predicate Lasts(l: Lock, l': Lock)
  {
    && l'.keys == l.keys && l'.startTs == l.startTs && (l.stale ==> l'.stale)
    && (Dropped(l) ==> Dropped(l') && l'.commitTs == l.commitTs)
  }

  /** Waking moves a waiter, if anyone, and it then acquires or still waits. */
  lemma WakeMoves(s: State, k: Key, u: nat)
    requires LocksOk(s) && u in s.locks
    ensures var l := s.locks[u];
            && u in WakeFirst(s, k).locks
            && var l' := WakeFirst(s, k).locks[u];
               if l.phase.Waiting? then !Dropped(l') && Lasts(l, l') else l' == l
  {
    assert LockOk(s, u);
    var i := FirstBlocked(s, s.waiting, k);
    if i < |s.waiting| {
      assert s.waiting[i] in s.waiting && LockOk(s, s.waiting[i]);
    }
  }

  /** What a turn of the `release` loop does to each lock. */
  lemma ReleaseMoves(s: State, t: nat, u: nat)
    requires Inv(s) && In(s, t, Releasing) && u in s.locks
    ensures u in ReleaseOne(s, t).locks
    ensures var l, l' := s.locks[u], ReleaseOne(s, t).locks[u];
            if u == t then
              l' == if l.acquired == 0 then l.(phase := Released) else l.(acquired := l.acquired - 1)
            else if l.phase.Waiting? then !Dropped(l') && Lasts(l, l')
            else l' == l
  {
    if s.locks[t].acquired > 0 {
      OwnsLast(s, t);
      DropKeepsLocks(s, t);
      WakeMoves(DropLast(s, t), s.locks[t].keys[s.locks[t].acquired - 1], u);
    }
  }

  lemma StepLasts(s: State, a: Action, u: nat)
    requires Inv(s) && Enabled(s, a) && u in s.locks
    ensures u in Next(s, a).locks && Lasts(s.locks[u], Next(s, a).locks[u])
  {
    if a.Release? {
      ReleaseMoves(s, a.lock, u);
    }
  }

  lemma {:induction false} RunLasts(s: State, actions: seq<Action>, u: nat)
    requires Inv(s) && IsRun(s, actions) && u in s.locks
    ensures u in End(s, actions).locks && Lasts(s.locks[u], End(s, actions).locks[u])
    decreases actions
  {
    if actions != [] {
      StepKeeps(s, actions[0]);
      StepLasts(s, actions[0], u);
      RunLasts(Next(s, actions[0]), actions[1..], u);
    }
  }

  /** A lock that is not stale and has `k` among its keys has not given it up yet. */
  ghost predicate Pending(s: State, u: nat, k: Key)
  {
    u in s.locks && !s.locks[u].stale && k in s.locks[u].keys && Dropped(s.locks[u]) ==>
      s.locks[u].phase.Releasing? && Has(s.locks[u].keys, s.locks[u].acquired, k)
  }

  lemma UnlockPending(s: State, u: nat, k: Key)
    requires Inv(s) && In(s, u, Granted)
    ensures Pending(Next(s, Unlock(u)), u, k)
  {
    assert LockOk(s, u);
    var l := s.locks[u];
    if !l.stale && k in l.keys {
      var i :| 0 <= i < |l.keys| && l.keys[i] == k;
      assert Has(l.keys, l.acquired, k);
    }
  }

  lemma ReleasePending(s: State, u: nat, k: Key)
    requires Inv(s) && In(s, u, Releasing) && Pending(s, u, k) && !GivesUp(s, Release(u), u, k)
    ensures Pending(Next(s, Release(u)), u, k)
  {
    var l := s.locks[u];
    assert LockOk(s, u);
    ReleaseMoves(s, u, u);
    if l.acquired > 0 {
      HasOneMore(l.keys, l.acquired - 1, k);
    }
  }

  /** Until the step that gives the key up. */
  lemma StepPending(s: State, a: Action, u: nat, k: Key)
    requires Inv(s) && Enabled(s, a) && Pending(s, u, k) && !GivesUp(s, a, u, k)
    ensures Pending(Next(s, a), u, k)
  {
    if a == Unlock(u) {
      UnlockPending(s, u, k);
    } else if a == Release(u) {
      ReleasePending(s, u, k);
    } else if u in s.locks {
      OthersLeave(s, a, u);
    }
  }

  /** Other steps move a lock only before its guard is dropped. */
  lemma OthersLeave(s: State, a: Action, u: nat)
    requires Inv(s) && Enabled(s, a) && u in s.locks && a != Unlock(u) && a != Release(u)
    ensures var l, l' := s.locks[u], Next(s, a).locks[u]; if Dropped(l) then l' == l else !Dropped(l')
  {
    if a.Release? {
      ReleaseMoves(s, a.lock, u);
    }
  }

  lemma GivesUpRecords(s: State, a: Action, u: nat, k: Key)
    requires Inv(s) && Enabled(s, a) && GivesUp(s, a, u, k)
    ensures s.locks[u].commitTs <= NodeAt(Next(s, a), k).maxCommitTs
  {
    OwnsLast(s, u);
  }

  /** `u` was not stale, had `k` and has given it up. */
  ghost predicate GaveUp(s: State, u: nat, k: Key)
  {
    && u in s.locks && !s.locks[u].stale && k in s.locks[u].keys
    && Dropped(s.locks[u]) && !Has(s.locks[u].keys, s.locks[u].acquired, k)
  }

  /** A commit is on record at each key its lock has given up, unless it has been forgotten since. */
  lemma {:induction false} CommitOnRecord(s: State, actions: seq<Action>, u: nat, k: Key)
    requires Inv(s) && IsRun(s, actions) && Pending(s, u, k) && !ForgottenAfterRelease(s, actions, u, k)
    requires GaveUp(End(s, actions), u, k)
    ensures End(s, actions).locks[u].commitTs <= NodeAt(End(s, actions), k).maxCommitTs
    decreases actions
  {
    if actions != [] {
      var a, rest := actions[0], actions[1..];
      StepKeeps(s, a);
      if GivesUp(s, a, u, k) {
        GivesUpRecords(s, a, u, k);
        RunLasts(s, actions, u);
        CommitStays(Next(s, a), rest, k, s.locks[u].commitTs);
      } else {
        StepPending(s, a, u, k);
        CommitOnRecord(Next(s, a), rest, u, k);
      }
    }
  }

  /** The guard `t`, not stale, holds a key on which `u` has committed after `t` started. */
  ghost predicate Overtakes(s: State, t: nat, u: nat, k: Key)
  {
    && In(s, t, Granted) && !s.locks[t].stale && k in s.locks[t].keys
    && GaveUp(s, u, k) && s.locks[u].commitTs > s.locks[t].startTs
  }

  /** In every interleaving: a commit overtakes a guard only if, after it was recorded, its key was
      recycled at a clock two minutes later. */
  lemma NoNewerCommit(actions: seq<Action>, t: nat, u: nat, k: Key)
    requires IsRun(INITIAL, actions) && Overtakes(End(INITIAL, actions), t, u, k)
    ensures ForgottenAfterRelease(INITIAL, actions, u, k)
  {
    RunsKeepInv(INITIAL, actions);
    var s := End(INITIAL, actions);
    assert LockOk(s, t) && NotOvertaken(s, t);
    var i :| 0 <= i < |s.locks[t].keys| && s.locks[t].keys[i] == k;
    if !ForgottenAfterRelease(INITIAL, actions, u, k) {
      CommitOnRecord(INITIAL, actions, u, k);
    }
  }

  /** Which clock that was. */
  lemma {:induction false} ForgottenClock(s: State, actions: seq<Action>, u: nat, k: Key) returns (i: nat)
    requires Inv(s) && IsRun(s, actions) && ForgottenAfterRelease(s, actions, u, k)
    ensures u in End(s, actions).locks
    ensures i < |actions| && actions[i].Recycle? && k in actions[i].idle
    ensures Expired(actions[i].currentTs, End(s, actions).locks[u].commitTs)
    decreases actions
  {
    var a, rest := actions[0], actions[1..];
    StepKeeps(s, a);
    if GivesUp(s, a, u, k) {
      RunLasts(s, actions, u);
      var j :| 0 <= j < |rest| && rest[j].Recycle? && k in rest[j].idle
               && Expired(rest[j].currentTs, s.locks[u].commitTs);
      i := j + 1;
    } else {
      var j := ForgottenClock(Next(s, a), rest, u, k);
      i := j + 1;
    }
  }

  // Nobody is turned away without a reason.

  /** The commit that the step records, and at which key. */
  ghost function StepCommits(s: State, a: Action): set<(Key, U64)>
  {
    if a.Release? && In(s, a.lock, Releasing) && 0 < s.locks[a.lock].acquired <= |s.locks[a.lock].keys|
    then {(s.locks[a.lock].keys[s.locks[a.lock].acquired - 1], s.locks[a.lock].commitTs)}
    else {}
  }

  /** The commits recorded in the run. */
  ghost function Commits(s: State, actions: seq<Action>): set<(Key, U64)>
    requires IsRun(s, actions)
    decreases actions
  {
    if actions == [] then {} else StepCommits(s, actions[0]) + Commits(Next(s, actions[0]), actions[1..])
  }

  /** One of the lock's keys was committed after the lock started. */
  ghost predicate Overruled(l: Lock, commits: set<(Key, U64)>)
  {
    exists k, c :: (k, c) in commits && k in l.keys && c > l.startTs
  }

  ghost predicate RecordsExplained(s: State, commits: set<(Key, U64)>)
  {
    forall k :: NodeAt(s, k).maxCommitTs > 0 ==> (k, NodeAt(s, k).maxCommitTs) in commits
  }

  ghost predicate StalesExplained(s: State, commits: set<(Key, U64)>)
  {
    forall t :: t in s.locks && s.locks[t].stale ==> Overruled(s.locks[t], commits)
  }

  /** A step leaves a record as it is, forgets it, or replaces it by the commit it records. */
  lemma RecordMoves(s: State, a: Action, k: Key)
    requires Inv(s) && Enabled(s, a)
    ensures var before, after := NodeAt(s, k).maxCommitTs, NodeAt(Next(s, a), k).maxCommitTs;
            after == before || after == 0 || (k, after) in StepCommits(s, a)
  {
    if a.Release? && s.locks[a.lock].acquired > 0 {
      OwnsLast(s, a.lock);
    }
  }

  lemma RecordStep(s: State, a: Action, commits: set<(Key, U64)>)
    requires Inv(s) && Enabled(s, a) && RecordsExplained(s, commits)
    ensures RecordsExplained(Next(s, a), commits + StepCommits(s, a))
  {
    forall k | NodeAt(Next(s, a), k).maxCommitTs > 0
      ensures (k, NodeAt(Next(s, a), k).maxCommitTs) in commits + StepCommits(s, a)
    {
      RecordMoves(s, a, k);
    }
  }

  lemma OverruledMore(l: Lock, commits: set<(Key, U64)>, more: set<(Key, U64)>)
    requires Overruled(l, commits) && commits <= more
    ensures Overruled(l, more)
  {
    var k, c :| (k, c) in commits && k in l.keys && c > l.startTs;
    assert (k, c) in more;
  }

  lemma OverruledBy(s: State, l: Lock, k: Key, commits: set<(Key, U64)>)
    requires RecordsExplained(s, commits) && k in l.keys && NodeAt(s, k).maxCommitTs > l.startTs
    ensures Overruled(l, commits)
  {
    assert (k, NodeAt(s, k).maxCommitTs) in commits;
  }

  /** A turn of `acquire` makes a lock stale only where a newer commit is on record. */
  lemma AcquireStale(s: State, t: nat, u: nat)
    requires Inv(s) && In(s, t, Acquiring) && u in s.locks && !s.locks[u].stale && AcquireOne(s, t).locks[u].stale
    ensures u == t && s.locks[t].acquired < |s.locks[t].keys|
    ensures NodeAt(s, NextKey(s.locks[t])).maxCommitTs > s.locks[t].startTs
  {
  }

  /** And so does a wake-up. */
  lemma WakeStale(s: State, k: Key, u: nat)
    requires LocksOk(s) && u in s.locks && !s.locks[u].stale && WakeFirst(s, k).locks[u].stale
    ensures k in s.locks[u].keys && NodeAt(WakeFirst(s, k), k).maxCommitTs > s.locks[u].startTs
  {
    var i := FirstBlocked(s, s.waiting, k);
    assert u == s.waiting[i];
  }

  lemma StaleByAcquire(s: State, t: nat, u: nat, commits: set<(Key, U64)>)
    requires Inv(s) && In(s, t, Acquiring) && RecordsExplained(s, commits)
    requires u in s.locks && !s.locks[u].stale && AcquireOne(s, t).locks[u].stale
    ensures Overruled(s.locks[u], commits)
  {
    AcquireStale(s, t, u);
    OverruledBy(s, s.locks[u], NextKey(s.locks[u]), commits);
  }

  lemma StaleByRelease(s: State, t: nat, u: nat, commits: set<(Key, U64)>)
    requires Inv(s) && In(s, t, Releasing) && RecordsExplained(ReleaseOne(s, t), commits)
    requires u in s.locks && !s.locks[u].stale && u in ReleaseOne(s, t).locks && ReleaseOne(s, t).locks[u].stale
    ensures Overruled(s.locks[u], commits)
  {
    OwnsLast(s, t);
    DropKeepsLocks(s, t);
    var l := s.locks[t];
    WakeStale(DropLast(s, t), l.keys[l.acquired - 1], u);
    OverruledBy(ReleaseOne(s, t), s.locks[u], l.keys[l.acquired - 1], commits);
  }

  /** Other steps make no lock stale. */
  lemma StaleByOthers(s: State, a: Action, u: nat)
    requires Enabled(s, a) && !a.Acquire? && !a.Release?
    requires u in Next(s, a).locks && Next(s, a).locks[u].stale
    ensures u in s.locks && s.locks[u].stale
  {
  }

  lemma StaleIsOld(s: State, a: Action, u: nat)
    requires Enabled(s, a) && u in Next(s, a).locks && Next(s, a).locks[u].stale
    ensures u in s.locks
  {
  }

  lemma StaleStep(s: State, a: Action, u: nat, commits: set<(Key, U64)>)
    requires Inv(s) && Enabled(s, a) && StalesExplained(s, commits) && RecordsExplained(s, commits)
    requires RecordsExplained(Next(s, a), commits + StepCommits(s, a))
    requires u in Next(s, a).locks && Next(s, a).locks[u].stale && u in s.locks
    ensures Overruled(Next(s, a).locks[u], commits + StepCommits(s, a))
  {
    var more := commits + StepCommits(s, a);
    StepLasts(s, a, u);
    if !a.Acquire? && !a.Release? {
      StaleByOthers(s, a, u);
    }
    if s.locks[u].stale {
      OverruledMore(s.locks[u], commits, more);
    } else if a.Acquire? {
      StaleByAcquire(s, a.lock, u, commits);
      OverruledMore(s.locks[u], commits, more);
    } else {
      StaleByRelease(s, a.lock, u, more);
    }
    OverruledSame(s.locks[u], Next(s, a).locks[u], more);
  }

  lemma OverruledSame(l: Lock, l': Lock, commits: set<(Key, U64)>)
    requires Overruled(l, commits) && l'.keys == l.keys && l'.startTs == l.startTs
    ensures Overruled(l', commits)
  {
    var k, c :| (k, c) in commits && k in l.keys && c > l.startTs;
    assert k in l'.keys;
  }

  lemma {:induction false} RunExplained(s: State, actions: seq<Action>, commits: set<(Key, U64)>)
    requires Inv(s) && IsRun(s, actions) && RecordsExplained(s, commits) && StalesExplained(s, commits)
    ensures RecordsExplained(End(s, actions), commits + Commits(s, actions))
    ensures StalesExplained(End(s, actions), commits + Commits(s, actions))
    decreases actions
  {
    if actions == [] {
      assert commits + Commits(s, actions) == commits;
    } else {
      var a, s' := actions[0], Next(s, actions[0]);
      var more := commits + StepCommits(s, a);
      StepKeeps(s, a);
      RecordStep(s, a, commits);
      forall u | u in s'.locks && s'.locks[u].stale
        ensures Overruled(s'.locks[u], more)
      {
        StaleIsOld(s, a, u);
        StaleStep(s, a, u, commits);
      }
      RunExplained(s', actions[1..], more);
      assert commits + Commits(s, actions) == more + Commits(s', actions[1..]);
    }
  }

  /** In every interleaving: a lock is stale only if some lock gave up one of its keys with a commit
      newer than its start. */
  lemma StaleOnlyIfCommitted(actions: seq<Action>, t: nat)
    requires IsRun(INITIAL, actions)
    requires t in End(INITIAL, actions).locks && End(INITIAL, actions).locks[t].stale
    ensures Overruled(End(INITIAL, actions).locks[t], Commits(INITIAL, actions))
  {
    RunExplained(INITIAL, actions, {});
    assert {} + Commits(INITIAL, actions) == Commits(INITIAL, actions);
  }

  /** What a turn of `acquire` decides, in every reachable state: a newer commit turns the lock away, a
      free key is taken, and at a key that another lock has it queues up behind all others. */
  lemma AcquireDecides(s: State, t: nat)
    requires Inv(s) && In(s, t, Acquiring) && !s.locks[t].stale && s.locks[t].acquired < |s.locks[t].keys|
    ensures var l, s' := s.locks[t], Next(s, Acquire(t));
            var node := NodeAt(s, NextKey(l));
            && (In(s', t, Waiting) <==> node.owner.Some? && node.maxCommitTs <= l.startTs)
            && (In(s', t, Waiting) ==> s'.waiting == s.waiting + [t] && s'.locks[t].acquired == l.acquired)
            && (s'.locks[t].stale <==> node.maxCommitTs > l.startTs)
            && (In(s', t, Granted) <==> node.maxCommitTs > l.startTs)
            && (In(s', t, Acquiring) ==> s'.locks[t] == l.(acquired := l.acquired + 1)
                                         && NodeAt(s', NextKey(l)) == node.(owner := Some(t)))
  {
  }

  /** And a lock with nothing left to take, or turned away, gets its guard. */
  lemma AcquireEnds(s: State, t: nat)
    requires In(s, t, Acquiring) && (s.locks[t].stale || s.locks[t].acquired >= |s.locks[t].keys|)
    ensures Next(s, Acquire(t)) == s.(locks := s.locks[t := s.locks[t].(phase := Granted)])
  {
  }
}
