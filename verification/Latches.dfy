/** Local transaction latches: transactions that touch common keys commit one after the other. A
    lock takes its keys one at a time in key order, waits where a key is taken, is woken by the
    release of that key, and is turned away as stale where a commit newer than its start is on
    record. A record lasts until the key, idle for two minutes, is recycled.

    The machine's steps are the critical sections of the code: one key taken, one key released, one
    slot recycled. A slot's list of waiters, in which the code looks for the first one blocked on
    the released key, is the part of one global list whose keys hash to that slot. A recycling step
    may carry any clock here; module `LatchScheduler` says which clocks the code has. */
module Latches {
  import opened Machine
  import opened Keys

  datatype Phase =
    | Acquiring   // running `acquire`, at first or after a wake-up
    | Waiting     // in a slot's waiting list
    | Granted     // `lock` has returned its guard
    | Releasing   // the guard was dropped
    | Released

  datatype Lock = Lock(startTs: U64, keys: seq<Key>, acquired: nat, commitTs: U64, stale: bool, phase: Phase)

  datatype Node = Node(maxCommitTs: U64, owner: Option<nat>)

  datatype State = State(nodes: map<Key, Node>, waiting: seq<nat>, locks: map<nat, Lock>)

  datatype Action =
    | Start(lock: nat, startTs: U64, keys: seq<Key>)
    | Acquire(lock: nat)
    | SetCommitTs(lock: nat, commitTs: U64)
    | Unlock(lock: nat)
    | Release(lock: nat)
    | Recycle(currentTs: U64, idle: set<Key>)

  const INITIAL: State := State(map[], [], map[])

  /** The order in which `gen_lock` leaves the keys: sorted, without duplicates. */
  predicate Sorted(keys: seq<Key>)
  {
    forall i, j :: 0 <= i < j < |keys| ==> Less(keys[i], keys[j])
  }

  function NodeAt(s: State, k: Key): Node
  {
    if k in s.nodes then s.nodes[k] else Node(0, None)
  }

  /** Idle for at least two minutes of physical time at `currentTs`. */
  predicate Expired(currentTs: U64, maxCommitTs: U64)
  {
    currentTs / 0x4_0000 - maxCommitTs / 0x4_0000 >= 120_000
  }

  predicate In(s: State, t: nat, phase: Phase)
  {
    t in s.locks && s.locks[t].phase == phase
  }

  predicate Enabled(s: State, a: Action)
  {
    match a
    case Start(t, _, keys) => t !in s.locks && Sorted(keys)
    case Acquire(t) => In(s, t, Acquiring)
    case SetCommitTs(t, _) => In(s, t, Granted)
    case Unlock(t) => In(s, t, Granted)
    case Release(t) => In(s, t, Releasing)
    case Recycle(ts, idle) =>
      forall k :: k in idle && k in s.nodes ==> s.nodes[k].owner.None? && Expired(ts, s.nodes[k].maxCommitTs)
  }

  function SetLock(s: State, t: nat, lock: Lock): State
  {
    s.(locks := s.locks[t := lock])
  }

  function SetNode(s: State, k: Key, node: Node): State
  {
    s.(nodes := s.nodes[k := node])
  }

  /** The key a lock needs next. */
  function NextKey(l: Lock): Key
    requires l.acquired < |l.keys|
  {
    l.keys[l.acquired]
  }

  /** One turn of the `acquire` loop. */
  function AcquireOne(s: State, t: nat): State
    requires t in s.locks
  {
    var l := s.locks[t];
    if l.stale || l.acquired >= |l.keys| then SetLock(s, t, l.(phase := Granted))
    else
      var k := NextKey(l);
      var node := NodeAt(s, k);
      var s' := SetNode(s, k, node);
      if node.maxCommitTs > l.startTs then SetLock(s', t, l.(stale := true, phase := Granted))
      else if node.owner.None? then
        SetLock(SetNode(s, k, node.(owner := Some(t))), t, l.(acquired := l.acquired + 1))
      else SetLock(s'.(waiting := s.waiting + [t]), t, l.(phase := Waiting))
  }

  predicate BlockedOn(s: State, t: nat, k: Key)
  {
    t in s.locks && s.locks[t].acquired < |s.locks[t].keys| && NextKey(s.locks[t]) == k
  }

  /** The position of the first waiter blocked on the key, or the length of the list. */
  function FirstBlocked(s: State, waiting: seq<nat>, k: Key): (i: nat)
    ensures i <= |waiting|
    ensures i < |waiting| ==> BlockedOn(s, waiting[i], k)
    ensures forall j :: 0 <= j < i ==> !BlockedOn(s, waiting[j], k)
  {
    if waiting == [] then 0
    else if BlockedOn(s, waiting[0], k) then 0
    else 1 + FirstBlocked(s, waiting[1..], k)
  }

  /** Takes the first lock waiting for `k` off the list. If it has become stale it is handed the
      key, so that it can release it promptly. */
  function WakeFirst(s: State, k: Key): State
  {
    var i := FirstBlocked(s, s.waiting, k);
    if i == |s.waiting| then s
    else
      var w := s.waiting[i];
      var l := s.locks[w];
      var s' := s.(waiting := s.waiting[..i] + s.waiting[i + 1..]);
      var node := NodeAt(s, k);
      if node.maxCommitTs > l.startTs then
        SetLock(SetNode(s', k, node.(owner := Some(w))), w,
                l.(acquired := l.acquired + 1, stale := true, phase := Acquiring))
      else SetLock(s', w, l.(phase := Acquiring))
  }

  /** The lock's last key given up and its commit recorded. */
  function DropLast(s: State, t: nat): State
    requires t in s.locks && 0 < s.locks[t].acquired <= |s.locks[t].keys|
  {
    var l := s.locks[t];
    var k := l.keys[l.acquired - 1];
    SetNode(SetLock(s, t, l.(acquired := l.acquired - 1)), k, Node(Max(NodeAt(s, k).maxCommitTs, l.commitTs), None))
  }

  /** One turn of the `release` loop. */
  function ReleaseOne(s: State, t: nat): State
    requires t in s.locks
  {
    var l := s.locks[t];
    if l.acquired == 0 || l.acquired > |l.keys| then SetLock(s, t, l.(phase := Released))
    else
      var k := l.keys[l.acquired - 1];
      var node := NodeAt(s, k);
      if node.owner.Some? && node.owner.value != t then SetLock(s, t, l.(acquired := l.acquired - 1))
      else WakeFirst(DropLast(s, t), k)
  }

  function Next(s: State, a: Action): State
    requires Enabled(s, a)
  {
    match a
    case Start(t, startTs, keys) => SetLock(s, t, Lock(startTs, keys, 0, 0, false, Acquiring))
    case Acquire(t) => AcquireOne(s, t)
    case SetCommitTs(t, ts) => SetLock(s, t, s.locks[t].(commitTs := ts))
    case Unlock(t) => SetLock(s, t, s.locks[t].(phase := Releasing))
    case Release(t) => ReleaseOne(s, t)
    case Recycle(_, idle) => s.(nodes := s.nodes - idle)
  }

  // The invariant.

  /** `t` owns exactly the keys it has acquired. */
  ghost predicate OwnsPrefix(s: State, t: nat)
    requires t in s.locks
  {
    var l := s.locks[t];
    && l.acquired <= |l.keys|
    && forall i :: 0 <= i < l.acquired ==> NodeAt(s, l.keys[i]).owner == Some(t)
  }

  ghost predicate LockOk(s: State, t: nat)
    requires t in s.locks
  {
    var l := s.locks[t];
    && Sorted(l.keys)
    && OwnsPrefix(s, t)
    && (l.phase.Granted? && !l.stale ==> l.acquired == |l.keys|)
    && (l.phase.Waiting? ==> l.acquired < |l.keys| && !l.stale)
    && (l.phase.Waiting? <==> t in s.waiting)
    && (l.phase.Released? ==> l.acquired == 0)
  }

  ghost predicate LocksOk(s: State)
  {
    && (forall t :: t in s.locks ==> LockOk(s, t))
    && (forall t :: t in s.waiting ==> t in s.locks)
    && (forall i, j :: 0 <= i < j < |s.waiting| ==> s.waiting[i] != s.waiting[j])
  }

  ghost predicate Has(keys: seq<Key>, acquired: nat, k: Key)
  {
    exists i :: 0 <= i < acquired && i < |keys| && keys[i] == k
  }

  /** A key is owned only by a lock that has acquired it. */
  ghost predicate OwnerOk(s: State, k: Key)
  {
    var owner := NodeAt(s, k).owner;
    owner.Some? ==>
      owner.value in s.locks && Has(s.locks[owner.value].keys, s.locks[owner.value].acquired, k)
  }

  ghost predicate OwnersOk(s: State)
  {
    forall k :: k in s.nodes ==> OwnerOk(s, k)
  }

  /** A lock that has been woken for `k` and will get it unless someone else does first. */
  ghost predicate WillTake(s: State, t: nat, k: Key)
  {
    && In(s, t, Acquiring) && !s.locks[t].stale && BlockedOn(s, t, k)
    && NodeAt(s, k).maxCommitTs <= s.locks[t].startTs
  }

  /** Someone is blocked on the key. */
  ghost predicate Awaited(s: State, k: Key)
  {
    exists t :: t in s.waiting && BlockedOn(s, t, k)
  }

  /** No wake-up is lost: a key that is waited for is owned, or a woken lock is on its way to it. */
  ghost predicate Served(s: State, k: Key)
  {
    Awaited(s, k) ==> NodeAt(s, k).owner.Some? || exists t :: WillTake(s, t, k)
  }

  ghost predicate AllServed(s: State)
  {
    forall k :: Served(s, k)
  }

  /** What a lock holds without being stale carries no commit newer than its start. */
  ghost predicate NotOvertaken(s: State, t: nat)
    requires t in s.locks
  {
    var l := s.locks[t];
    !l.stale ==> forall i :: 0 <= i < l.acquired && i < |l.keys| ==> NodeAt(s, l.keys[i]).maxCommitTs <= l.startTs
  }

  ghost predicate NoneOvertaken(s: State)
  {
    forall t :: t in s.locks ==> NotOvertaken(s, t)
  }

  ghost predicate Inv(s: State)
  {
    LocksOk(s) && OwnersOk(s) && AllServed(s) && NoneOvertaken(s)
  }

  // Every step keeps the invariant.

  lemma SortedDistinct(keys: seq<Key>, i: nat, j: nat)
    requires Sorted(keys) && i < |keys| && j < |keys| && keys[i] == keys[j]
    ensures i == j
  {
    LessIrreflexive(keys[i]);
  }

  lemma HasOneMore(keys: seq<Key>, acquired: nat, k: Key)
    requires acquired < |keys|
    ensures Has(keys, acquired + 1, k) <==> Has(keys, acquired, k) || keys[acquired] == k
  {
    if Has(keys, acquired, k) {
      var i :| 0 <= i < acquired && i < |keys| && keys[i] == k;
      assert 0 <= i < acquired + 1;
    }
    if keys[acquired] == k {
      assert 0 <= acquired < acquired + 1 && keys[acquired] == k;
    }
  }

  lemma AcquireKeepsOther(s: State, t: nat, u: nat)
    requires LocksOk(s) && In(s, t, Acquiring) && u in s.locks && u != t
    ensures LockOk(AcquireOne(s, t), u)
  {
    assert LockOk(s, u);
  }

  lemma AcquireKeepsSelf(s: State, t: nat)
    requires LocksOk(s) && In(s, t, Acquiring)
    ensures LockOk(AcquireOne(s, t), t)
  {
    assert LockOk(s, t);
    assert t !in s.waiting;
  }

  lemma AcquireKeepsLocks(s: State, t: nat)
    requires LocksOk(s) && In(s, t, Acquiring)
    ensures LocksOk(AcquireOne(s, t))
  {
    assert LockOk(s, t);
    forall u | u in s.locks
      ensures LockOk(AcquireOne(s, t), u)
    {
      if u == t {
        AcquireKeepsSelf(s, t);
      } else {
        AcquireKeepsOther(s, t, u);
      }
    }
  }

  lemma AcquireKeepsOwners(s: State, t: nat)
    requires OwnersOk(s) && In(s, t, Acquiring)
    ensures OwnersOk(AcquireOne(s, t))
  {
    var s' := AcquireOne(s, t);
    var l := s.locks[t];
    forall k | k in s'.nodes
      ensures OwnerOk(s', k)
    {
      assert OwnerOk(s, k);
      if l.acquired < |l.keys| {
        HasOneMore(l.keys, l.acquired, k);
      }
    }
  }

  /** Whoever waits for a free key after the step waited for it before. */
  lemma AcquireWaiter(s: State, t: nat, w: nat, k: Key)
    requires In(s, t, Acquiring) && w in AcquireOne(s, t).waiting && BlockedOn(AcquireOne(s, t), w, k)
    requires NodeAt(AcquireOne(s, t), k).owner.None? && t !in s.waiting
    ensures w in s.waiting && BlockedOn(s, w, k) && NodeAt(s, k).owner.None?
  {
  }

  lemma AcquireTaker(s: State, t: nat, u: nat, k: Key)
    requires In(s, t, Acquiring) && WillTake(s, u, k) && NodeAt(AcquireOne(s, t), k).owner.None?
    ensures WillTake(AcquireOne(s, t), u, k)
  {
  }

  lemma AcquireKeepsServed(s: State, t: nat, k: Key)
    requires LocksOk(s) && AllServed(s) && In(s, t, Acquiring)
    ensures Served(AcquireOne(s, t), k)
  {
    assert LockOk(s, t);
    assert Served(s, k);
    if Awaited(AcquireOne(s, t), k) && NodeAt(AcquireOne(s, t), k).owner.None? {
      var w :| w in AcquireOne(s, t).waiting && BlockedOn(AcquireOne(s, t), w, k);
      AcquireWaiter(s, t, w, k);
      var u :| WillTake(s, u, k);
      AcquireTaker(s, t, u, k);
    }
  }

  lemma AcquireNotOvertaken(s: State, t: nat)
    requires Inv(s) && In(s, t, Acquiring)
    ensures NoneOvertaken(AcquireOne(s, t))
  {
    var s' := AcquireOne(s, t);
    forall u | u in s'.locks
      ensures NotOvertaken(s', u)
    {
      assert NotOvertaken(s, u);
    }
  }

  /** Between giving up a key and waking its first waiter only that key may be unserved. */
  ghost predicate Between(s: State, k: Key)
  {
    && LocksOk(s) && OwnersOk(s) && NoneOvertaken(s)
    && k in s.nodes && s.nodes[k].owner.None?
    && forall j :: j != k ==> Served(s, j)
  }

  lemma OwnsLast(s: State, t: nat)
    requires LocksOk(s) && t in s.locks && s.locks[t].acquired > 0
    ensures var l := s.locks[t]; l.acquired <= |l.keys| && NodeAt(s, l.keys[l.acquired - 1]).owner == Some(t)
  {
    assert LockOk(s, t);
  }

  /** No lock is left with the dropped key among those it has acquired. */
  lemma DroppedIsGone(s: State, t: nat, u: nat, i: nat)
    requires LocksOk(s) && In(s, t, Releasing) && 0 < s.locks[t].acquired <= |s.locks[t].keys|
    requires u in s.locks && i < DropLast(s, t).locks[u].acquired
    ensures i < |s.locks[u].keys| && s.locks[u].keys[i] != s.locks[t].keys[s.locks[t].acquired - 1]
    ensures NodeAt(s, s.locks[u].keys[i]).owner == Some(u)
  {
    OwnsLast(s, t);
    assert LockOk(s, u);
    if s.locks[u].keys[i] == s.locks[t].keys[s.locks[t].acquired - 1] {
      assert u == t;
      SortedDistinct(s.locks[t].keys, i, s.locks[t].acquired - 1);
    }
  }

  lemma DropKeepsLock(s: State, t: nat, u: nat)
    requires LocksOk(s) && NoneOvertaken(s) && In(s, t, Releasing) && 0 < s.locks[t].acquired <= |s.locks[t].keys|
    requires u in s.locks
    ensures LockOk(DropLast(s, t), u) && NotOvertaken(DropLast(s, t), u)
  {
    assert LockOk(s, u) && NotOvertaken(s, u);
    forall i: nat | i < DropLast(s, t).locks[u].acquired
      ensures i < |s.locks[u].keys| && s.locks[u].keys[i] != s.locks[t].keys[s.locks[t].acquired - 1]
    {
      DroppedIsGone(s, t, u, i);
    }
  }

  lemma DropKeepsOwners(s: State, t: nat)
    requires OwnersOk(s) && t in s.locks && 0 < s.locks[t].acquired <= |s.locks[t].keys|
    ensures OwnersOk(DropLast(s, t))
  {
    var s' := DropLast(s, t);
    var l := s.locks[t];
    forall j | j in s'.nodes
      ensures OwnerOk(s', j)
    {
      assert OwnerOk(s, j);
      HasOneMore(l.keys, l.acquired - 1, j);
    }
  }

  lemma DropKeepsLocks(s: State, t: nat)
    requires Inv(s) && In(s, t, Releasing) && 0 < s.locks[t].acquired <= |s.locks[t].keys|
    ensures var s' := DropLast(s, t); LocksOk(s') && OwnersOk(s') && NoneOvertaken(s')
  {
    DropKeepsOwners(s, t);
    forall u | u in s.locks
      ensures LockOk(DropLast(s, t), u) && NotOvertaken(DropLast(s, t), u)
    {
      DropKeepsLock(s, t, u);
    }
  }

  lemma DropServes(s: State, t: nat, j: Key)
    requires Inv(s) && In(s, t, Releasing) && 0 < s.locks[t].acquired <= |s.locks[t].keys|
    requires j != s.locks[t].keys[s.locks[t].acquired - 1]
    ensures Served(DropLast(s, t), j)
  {
    var s' := DropLast(s, t);
    assert LockOk(s, t);
    if Awaited(s', j) && NodeAt(s', j).owner.None? {
      var w :| w in s'.waiting && BlockedOn(s', w, j);
      assert w in s.waiting && BlockedOn(s, w, j);
      assert Served(s, j);
      var u :| WillTake(s, u, j);
      assert WillTake(s', u, j);
    }
  }

  lemma RemoveAt(waiting: seq<nat>, i: nat)
    requires i < |waiting| && forall a, b :: 0 <= a < b < |waiting| ==> waiting[a] != waiting[b]
    ensures var rest := waiting[..i] + waiting[i + 1..];
            && (forall a, b :: 0 <= a < b < |rest| ==> rest[a] != rest[b])
            && (forall t :: t in rest <==> t in waiting && t != waiting[i])
  {
    var rest := waiting[..i] + waiting[i + 1..];
    forall t | t in waiting && t != waiting[i]
      ensures t in rest
    {
      var j :| 0 <= j < |waiting| && waiting[j] == t;
      assert rest[if j < i then j else j - 1] == t;
    }
  }

  lemma WakeKeepsOther(s: State, k: Key, u: nat, i: nat)
    requires Between(s, k) && u in s.locks
    requires i == FirstBlocked(s, s.waiting, k) && (i < |s.waiting| ==> s.waiting[i] != u)
    ensures LockOk(WakeFirst(s, k), u) && NotOvertaken(WakeFirst(s, k), u)
  {
    assert LockOk(s, u) && NotOvertaken(s, u);
    if i < |s.waiting| {
      RemoveAt(s.waiting, i);
    }
  }

  lemma WakeKeepsWoken(s: State, k: Key, u: nat, i: nat)
    requires Between(s, k) && i == FirstBlocked(s, s.waiting, k) && i < |s.waiting| && u == s.waiting[i]
    ensures LockOk(WakeFirst(s, k), u) && NotOvertaken(WakeFirst(s, k), u)
  {
    assert u in s.waiting && LockOk(s, u) && NotOvertaken(s, u);
    RemoveAt(s.waiting, i);
  }

  lemma WakeKeepsLock(s: State, k: Key, u: nat)
    requires Between(s, k) && u in s.locks
    ensures LockOk(WakeFirst(s, k), u) && NotOvertaken(WakeFirst(s, k), u)
  {
    var i := FirstBlocked(s, s.waiting, k);
    if i < |s.waiting| && s.waiting[i] == u {
      WakeKeepsWoken(s, k, u, i);
    } else {
      WakeKeepsOther(s, k, u, i);
    }
  }

  lemma WakeKeepsList(s: State, k: Key)
    requires LocksOk(s)
    ensures var s' := WakeFirst(s, k);
            && s'.locks.Keys == s.locks.Keys
            && (forall t :: t in s'.waiting ==> t in s'.locks)
            && (forall i, j :: 0 <= i < j < |s'.waiting| ==> s'.waiting[i] != s'.waiting[j])
  {
    var i := FirstBlocked(s, s.waiting, k);
    if i < |s.waiting| {
      RemoveAt(s.waiting, i);
      assert s.waiting[i] in s.waiting;
    }
  }

  lemma WakeKeepsLocks(s: State, k: Key)
    requires Between(s, k)
    ensures LocksOk(WakeFirst(s, k)) && NoneOvertaken(WakeFirst(s, k))
  {
    WakeKeepsList(s, k);
    forall u | u in s.locks
      ensures LockOk(WakeFirst(s, k), u) && NotOvertaken(WakeFirst(s, k), u)
    {
      WakeKeepsLock(s, k, u);
    }
  }

  lemma WakeKeepsOwners(s: State, k: Key)
    requires OwnersOk(s) && k in s.nodes && s.nodes[k].owner.None?
    ensures OwnersOk(WakeFirst(s, k))
  {
    var s' := WakeFirst(s, k);
    var i := FirstBlocked(s, s.waiting, k);
    if i < |s.waiting| {
      var l := s.locks[s.waiting[i]];
      forall j | j in s'.nodes
        ensures OwnerOk(s', j)
      {
        assert OwnerOk(s, j);
        HasOneMore(l.keys, l.acquired, j);
      }
    }
  }

  lemma WakeServesKey(s: State, k: Key)
    requires LocksOk(s) && k in s.nodes
    ensures Served(WakeFirst(s, k), k)
  {
    var i := FirstBlocked(s, s.waiting, k);
    if i < |s.waiting| {
      var w := s.waiting[i];
      assert w in s.waiting && LockOk(s, w);
      assert NodeAt(WakeFirst(s, k), k).owner.Some? || WillTake(WakeFirst(s, k), w, k);
    } else {
      assert !Awaited(s, k);
    }
  }

  /** Waking a waiter of `k` neither adds a waiter elsewhere nor disturbs a taker. */
  lemma WakeElsewhere(s: State, k: Key, j: Key, x: nat)
    requires LocksOk(s) && j != k
    ensures x in WakeFirst(s, k).waiting && BlockedOn(WakeFirst(s, k), x, j) ==> x in s.waiting && BlockedOn(s, x, j)
    ensures WillTake(s, x, j) ==> WillTake(WakeFirst(s, k), x, j)
    ensures NodeAt(WakeFirst(s, k), j) == NodeAt(s, j)
  {
    var i := FirstBlocked(s, s.waiting, k);
    if i < |s.waiting| {
      var w := s.waiting[i];
      RemoveAt(s.waiting, i);
      assert w in s.waiting && LockOk(s, w);
    }
  }

  lemma WakeServes(s: State, k: Key, j: Key)
    requires Between(s, k)
    ensures Served(WakeFirst(s, k), j)
  {
    if j == k {
      WakeServesKey(s, k);
    } else {
      assert Served(s, j);
      WakeElsewhere(s, k, j, 0);
      if Awaited(WakeFirst(s, k), j) && NodeAt(WakeFirst(s, k), j).owner.None? {
        var x :| x in WakeFirst(s, k).waiting && BlockedOn(WakeFirst(s, k), x, j);
        WakeElsewhere(s, k, j, x);
        var u :| WillTake(s, u, j);
        WakeElsewhere(s, k, j, u);
      }
    }
  }

  lemma ReleaseKeeps(s: State, t: nat)
    requires Inv(s) && In(s, t, Releasing)
    ensures Inv(ReleaseOne(s, t))
  {
    var l := s.locks[t];
    assert LockOk(s, t);
    if l.acquired == 0 {
      PhaseChange(s, t, l.(phase := Released));
    } else {
      OwnsLast(s, t);
      var k := l.keys[l.acquired - 1];
      var mid := DropLast(s, t);
      DropKeepsLocks(s, t);
      forall j | j != k
        ensures Served(mid, j)
      {
        DropServes(s, t, j);
      }
      WakeKeepsLocks(mid, k);
      WakeKeepsOwners(mid, k);
      forall j
        ensures Served(WakeFirst(mid, k), j)
      {
        WakeServes(mid, k, j);
      }
    }
  }

  /** Steps that move one lock that is neither acquiring nor waiting, and none of its keys. */
  lemma PhaseChange(s: State, t: nat, l: Lock)
    requires Inv(s) && (In(s, t, Granted) || In(s, t, Releasing)) && !l.phase.Waiting? && !l.phase.Acquiring?
    requires l == s.locks[t].(phase := l.phase, commitTs := l.commitTs)
    requires l.phase.Granted? ==> s.locks[t].phase.Granted?
    requires l.phase.Released? ==> l.acquired == 0
    ensures Inv(SetLock(s, t, l))
  {
    var s' := SetLock(s, t, l);
    forall u | u in s'.locks
      ensures LockOk(s', u) && NotOvertaken(s', u)
    {
      assert LockOk(s, u) && NotOvertaken(s, u);
    }
    assert forall k :: k in s'.nodes ==> OwnerOk(s, k);
    assert forall k :: k in s'.nodes ==> OwnerOk(s', k);
    forall k
      ensures Served(s', k)
    {
      SameWaiters(s, s', k);
    }
  }

  /** A key stays served when its node keeps its owner, its commit does not grow, and every lock
      that waits or acquires is as before. */
  lemma SameWaiters(s: State, s': State, k: Key)
    requires Served(s, k) && s'.waiting == s.waiting
    requires NodeAt(s', k).owner == NodeAt(s, k).owner && NodeAt(s', k).maxCommitTs <= NodeAt(s, k).maxCommitTs
    requires forall t :: t in s.locks ==>
               t in s'.locks && s'.locks[t].keys == s.locks[t].keys && s'.locks[t].acquired == s.locks[t].acquired
    requires forall t :: In(s, t, Acquiring) ==> s'.locks[t] == s.locks[t]
    requires forall t :: t in s.waiting ==> t in s.locks
    ensures Served(s', k)
  {
    if Awaited(s', k) && NodeAt(s', k).owner.None? {
      var w :| w in s'.waiting && BlockedOn(s', w, k);
      assert BlockedOn(s, w, k);
      var u :| WillTake(s, u, k);
      assert WillTake(s', u, k);
    }
  }

  lemma StartKeeps(s: State, a: Action)
    requires Inv(s) && Enabled(s, a) && a.Start?
    ensures Inv(Next(s, a))
  {
    var s' := Next(s, a);
    assert a.lock !in s.waiting;
    forall u | u in s'.locks
      ensures LockOk(s', u) && NotOvertaken(s', u)
    {
      if u != a.lock {
        assert LockOk(s, u) && NotOvertaken(s, u);
      }
    }
    assert forall k :: k in s'.nodes ==> OwnerOk(s, k);
    assert forall k :: k in s'.nodes ==> OwnerOk(s', k);
    forall k
      ensures Served(s', k)
    {
      SameWaiters(s, s', k);
    }
  }

  lemma RecycleKeeps(s: State, a: Action)
    requires Inv(s) && Enabled(s, a) && a.Recycle?
    ensures Inv(Next(s, a))
  {
    var s' := Next(s, a);
    assert forall k :: NodeAt(s', k).owner == NodeAt(s, k).owner;
    assert forall k :: NodeAt(s', k).maxCommitTs <= NodeAt(s, k).maxCommitTs;
    forall u | u in s'.locks
      ensures LockOk(s', u) && NotOvertaken(s', u)
    {
      assert LockOk(s, u) && NotOvertaken(s, u);
    }
    assert forall k :: k in s'.nodes ==> OwnerOk(s, k);
    assert forall k :: k in s'.nodes ==> OwnerOk(s', k);
    forall k
      ensures Served(s', k)
    {
      SameWaiters(s, s', k);
    }
  }

  lemma StepKeeps(s: State, a: Action)
    requires Inv(s) && Enabled(s, a)
    ensures Inv(Next(s, a))
  {
    match a
    case Start(_, _, _) => StartKeeps(s, a);
    case Acquire(t) =>
      AcquireKeepsLocks(s, t);
      AcquireKeepsOwners(s, t);
      AcquireNotOvertaken(s, t);
      forall k ensures Served(AcquireOne(s, t), k) {
        AcquireKeepsServed(s, t, k);
      }
    case SetCommitTs(t, ts) => PhaseChange(s, t, s.locks[t].(commitTs := ts));
    case Unlock(t) => PhaseChange(s, t, s.locks[t].(phase := Releasing));
    case Release(t) => ReleaseKeeps(s, t);
    case Recycle(_, _) => RecycleKeeps(s, a);
  }

  // Whole runs.

  ghost predicate IsRun(s: State, actions: seq<Action>)
    decreases actions
  {
    actions != [] ==> Enabled(s, actions[0]) && IsRun(Next(s, actions[0]), actions[1..])
  }

  ghost function End(s: State, actions: seq<Action>): State
    requires IsRun(s, actions)
    decreases actions
  {
    if actions == [] then s else End(Next(s, actions[0]), actions[1..])
  }

  lemma {:induction false} RunsKeepInv(s: State, actions: seq<Action>)
    requires Inv(s) && IsRun(s, actions)
    ensures Inv(End(s, actions))
    decreases actions
  {
    if actions != [] {
      StepKeeps(s, actions[0]);
      RunsKeepInv(Next(s, actions[0]), actions[1..]);
    }
  }

  /** In every interleaving: two guards that are not stale have no key in common, and neither has a
      key on which a commit newer than its start is on record. */
  lemma MutualExclusion(actions: seq<Action>, t: nat, u: nat, k: Key)
    requires IsRun(INITIAL, actions)
    requires var s := End(INITIAL, actions);
             t != u && In(s, t, Granted) && In(s, u, Granted) && !s.locks[t].stale && !s.locks[u].stale
    ensures var s := End(INITIAL, actions);
            && !(k in s.locks[t].keys && k in s.locks[u].keys)
            && (k in s.locks[t].keys ==> NodeAt(s, k) == Node(NodeAt(s, k).maxCommitTs, Some(t))
                                         && NodeAt(s, k).maxCommitTs <= s.locks[t].startTs)
  {
    RunsKeepInv(INITIAL, actions);
    var s := End(INITIAL, actions);
    assert LockOk(s, t) && LockOk(s, u) && NotOvertaken(s, t);
    if k in s.locks[t].keys {
      var i :| 0 <= i < |s.locks[t].keys| && s.locks[t].keys[i] == k;
    }
    if k in s.locks[u].keys {
      var i :| 0 <= i < |s.locks[u].keys| && s.locks[u].keys[i] == k;
    }
  }

  /** In every interleaving: a key that someone waits for is owned, or a lock woken for it is on its
      way to take it. */
  lemma NoLostWakeup(actions: seq<Action>, t: nat)
    requires IsRun(INITIAL, actions) && In(End(INITIAL, actions), t, Waiting)
    ensures var s := End(INITIAL, actions);
            s.locks[t].acquired < |s.locks[t].keys| &&
            (NodeAt(s, NextKey(s.locks[t])).owner.Some? || exists u :: WillTake(s, u, NextKey(s.locks[t])))
  {
    RunsKeepInv(INITIAL, actions);
    var s := End(INITIAL, actions);
    assert LockOk(s, t);
    assert Served(s, NextKey(s.locks[t]));
  }

  ghost predicate Active(s: State, t: nat)
  {
    t in s.locks && !s.locks[t].phase.Waiting? && !s.locks[t].phase.Released?
  }

  /** A lock that does not wait owns the key or is about to take it. */
  ghost predicate Leads(s: State, t: nat, k: Key)
  {
    Active(s, t) && (NodeAt(s, k).owner == Some(t) || WillTake(s, t, k))
  }

  ghost predicate GreatestAwaited(s: State, k: Key)
  {
    Awaited(s, k) && forall j :: Awaited(s, j) ==> AtMost(j, k)
  }

  lemma GreatestAwaitedExists(s: State, t: nat) returns (k: Key)
    requires LocksOk(s) && In(s, t, Waiting)
    ensures GreatestAwaited(s, k)
  {
    assert LockOk(s, t);
    var awaited :=
      set w | w in s.waiting && w in s.locks && s.locks[w].acquired < |s.locks[w].keys| :: NextKey(s.locks[w]);
    assert NextKey(s.locks[t]) in awaited;
    k := Last(awaited);
    forall j | Awaited(s, j)
      ensures j in awaited
    {
    }
  }

  /** Locks take their keys in order, so the owner of the greatest key waited for waits for none. */
  lemma GreatestIsLed(s: State, k: Key)
    requires Inv(s) && GreatestAwaited(s, k)
    ensures exists u :: Leads(s, u, k)
  {
    assert Served(s, k);
    if NodeAt(s, k).owner.Some? {
      var u := NodeAt(s, k).owner.value;
      assert OwnerOk(s, k);
      assert LockOk(s, u);
      var l := s.locks[u];
      var i :| 0 <= i < l.acquired && i < |l.keys| && l.keys[i] == k;
      if l.phase.Waiting? {
        assert BlockedOn(s, u, NextKey(l)) && Awaited(s, NextKey(l));
      }
      assert Leads(s, u, k);
    } else {
      var u :| WillTake(s, u, k);
      assert Leads(s, u, k);
    }
  }

  ghost predicate CanStep(s: State, t: nat)
  {
    exists a :: Enabled(s, a) && !a.Recycle? && !a.Start? && a.lock == t
  }

  lemma ActiveCanStep(s: State, t: nat)
    requires Active(s, t)
    ensures CanStep(s, t)
  {
    var a := match s.locks[t].phase
      case Acquiring => Acquire(t)
      case Granted => Unlock(t)
      case Releasing => Release(t);
    assert Enabled(s, a) && a.lock == t;
  }

  /** Deadlock freedom, in every interleaving: whenever a lock waits, some lock that does not wait
      owns, or is about to take, the greatest key waited for, and that lock can step. */
  lemma NoDeadlock(actions: seq<Action>, t: nat) returns (k: Key, u: nat)
    requires IsRun(INITIAL, actions) && In(End(INITIAL, actions), t, Waiting)
    ensures var s := End(INITIAL, actions); GreatestAwaited(s, k) && Leads(s, u, k) && CanStep(s, u)
  {
    RunsKeepInv(INITIAL, actions);
    var s := End(INITIAL, actions);
    k := GreatestAwaitedExists(s, t);
    GreatestIsLed(s, k);
    u :| Leads(s, u, k);
    ActiveCanStep(s, u);
  }

  /** The branches of `release_slot` for a key owned by another lock or by none are never taken. */
  lemma ReleaseOwnsItsKey(actions: seq<Action>, t: nat)
    requires IsRun(INITIAL, actions) && t in End(INITIAL, actions).locks && End(INITIAL, actions).locks[t].acquired > 0
    ensures var s := End(INITIAL, actions);
            var l := s.locks[t];
            l.acquired <= |l.keys| && NodeAt(s, l.keys[l.acquired - 1]).owner == Some(t)
  {
    RunsKeepInv(INITIAL, actions);
    OwnsLast(End(INITIAL, actions), t);
  }
}
