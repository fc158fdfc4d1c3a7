/** The single-flight load protocol of `get_region_by_key` and `get_region_by_id`, as a machine
    whose steps are the points at which the code takes a lock, registers with a `Notify`, calls the
    placement driver or wakes waiters. Any number of tasks run it interleaved with each other and
    with additions, leader updates and invalidations made by others.

    Joining a load (taking the `Notify` out of the in-flight map) and registering on it are two
    separate steps here, as they are in the code. */
module SingleFlight {
  import opened Machine
  import opened Keys
  import opened Regions
  import opened Ttl
  import opened RegionIndex
  import CacheRuns

  /** The two in-flight maps, by key and by id, are one map over the tagged request. */
  datatype Request = ByKey(key: Key) | ById(id: RegionId)

  datatype Reply = Ok(region: RegionWithLeader) | Failed

  datatype Pc =
    | AtCheck(req: Request)                                  // about to try the cache
    | AtJoin(req: Request)                                   // missed; about to lock the in-flight map
    | AtRegister(req: Request, notify: nat)                  // joined a load, not yet listening
    | Waiting(req: Request, notify: nat)                     // listening for the end of a load
    | AtRecheck(req: Request, notify: nat)                   // loader, about to try the cache again
    | AtFetch(req: Request, notify: nat)                     // loader, placement driver call outstanding
    | AtAdd(req: Request, notify: nat, region: RegionWithLeader)  // loader, answer not yet cached
    | AtClear(req: Request, notify: nat, reply: Reply)       // loader, about to remove its marker
    | AtNotify(req: Request, notify: nat, reply: Reply)      // marker removed, waiters not yet woken
    | Finished(req: Request, reply: Reply)

  /** `nextNotify` hands out the identities of `Arc<Notify>` objects; `woken` are those on which
      `notify_waiters` has run. */
  datatype State = State(
    cache: Index,
    inFlight: map<Request, nat>,
    nextNotify: nat,
    woken: set<nat>,
    tasks: map<nat, Pc>)

  datatype Action =
    | Call(task: nat, req: Request)
    | Check(task: nat, now: I64, draw: nat)
    | Join(task: nat)
    | Register(task: nat)
    | Recheck(task: nat, now: I64, draw: nat)
    | Fetch(task: nat, answer: Option<RegionWithLeader>)
    | AddFetched(task: nat, now: I64, draw: nat)
    | Clear(task: nat)
    | Notify(task: nat)
    | Others(op: CacheRuns.Op)

  type World = (RegionId, RegionEpoch) -> (Key, Key)

  predicate Answers(req: Request, r: RegionWithLeader)
  {
    match req
    case ByKey(key) => r.Contains(key)
    case ById(id) => r.Id() == id
  }

  /** A region as the placement driver hands it out: its range holds a key and is the one that goes
      with its id and epoch. */
  predicate Legit(world: World, r: RegionWithLeader)
  {
    GoodRange(r) && world(r.region.id, EpochOf(r)) == r.Range()
  }

  /** A correct answer: the region asked for, with the range of its id and epoch. */
  predicate Serves(world: World, req: Request, r: RegionWithLeader)
  {
    Answers(req, r) && r.Range() == world(r.region.id, EpochOf(r))
  }

  /** The task is at the point in the code that the action is. */
  predicate Placed(s: State, a: Action)
  {
    match a
    case Call(t, _) => t !in s.tasks
    case Check(t, _, _) => t in s.tasks && s.tasks[t].AtCheck?
    case Join(t) => t in s.tasks && s.tasks[t].AtJoin?
    case Register(t) => t in s.tasks && s.tasks[t].AtRegister?
    case Recheck(t, _, _) => t in s.tasks && s.tasks[t].AtRecheck?
    case Fetch(t, _) => t in s.tasks && s.tasks[t].AtFetch?
    case AddFetched(t, _, _) => t in s.tasks && s.tasks[t].AtAdd?
    case Clear(t) => t in s.tasks && s.tasks[t].AtClear?
    case Notify(t) => t in s.tasks && s.tasks[t].AtNotify?
    case Others(_) => true
  }

  /** The placement driver answers what it was asked. */
  predicate AnswersAsked(s: State, a: Action)
    requires Placed(s, a)
  {
    a.Fetch? && a.answer.Some? ==> Answers(s.tasks[a.task].req, a.answer.value)
  }

  predicate Enabled(world: World, s: State, a: Action)
  {
    && Placed(s, a) && AnswersAsked(s, a)
    && (a.Fetch? && a.answer.Some? ==> Legit(world, a.answer.value))
    && (a.Others? && a.op.Add? ==> Legit(world, a.op.region))
  }

  function Lookup(cfg: TtlConfig, c: Index, req: Request, now: I64, draw: nat)
    : (Index, Option<RegionWithLeader>)
  {
    match req
    case ByKey(key) => LookupByKey(cfg, c, key, now, draw)
    case ById(id) => LookupById(cfg, c, id, now, draw)
  }

  function To(s: State, t: nat, pc: Pc): State
  {
    s.(tasks := s.tasks[t := pc])
  }

  /** `notify_waiters`: everyone listening on `n` goes back to the top of its loop. */
  function Wake(tasks: map<nat, Pc>, n: nat): map<nat, Pc>
  {
    map t | t in tasks ::
      if tasks[t].Waiting? && tasks[t].notify == n then AtCheck(tasks[t].req) else tasks[t]
  }

  function Next(cfg: TtlConfig, s: State, a: Action): State
    requires Placed(s, a)
  {
    match a
    case Call(t, req) => To(s, t, AtCheck(req))
    case Check(t, now, draw) =>
      var req := s.tasks[t].req;
      var (cache, hit) := Lookup(cfg, s.cache, req, now, draw);
      To(s.(cache := cache), t, if hit.Some? then Finished(req, Ok(hit.value)) else AtJoin(req))
    case Join(t) =>
      var req := s.tasks[t].req;
      if req in s.inFlight then To(s, t, AtRegister(req, s.inFlight[req]))
      else To(s.(inFlight := s.inFlight[req := s.nextNotify], nextNotify := s.nextNotify + 1),
              t, AtRecheck(req, s.nextNotify))
    case Register(t) => To(s, t, Waiting(s.tasks[t].req, s.tasks[t].notify))
    case Recheck(t, now, draw) =>
      var req, n := s.tasks[t].req, s.tasks[t].notify;
      var (cache, hit) := Lookup(cfg, s.cache, req, now, draw);
      To(s.(cache := cache), t, if hit.Some? then AtClear(req, n, Ok(hit.value)) else AtFetch(req, n))
    case Fetch(t, answer) =>
      var req, n := s.tasks[t].req, s.tasks[t].notify;
      To(s, t, if answer.Some? then AtAdd(req, n, answer.value) else AtClear(req, n, Failed))
    case AddFetched(t, now, draw) =>
      var pc := s.tasks[t];
      To(s.(cache := AddRegion(s.cache, pc.region, cfg.NextTtl(now, draw))),
         t, AtClear(pc.req, pc.notify, Ok(pc.region)))
    case Clear(t) =>
      var pc := s.tasks[t];
      To(s.(inFlight := s.inFlight - {pc.req}), t, AtNotify(pc.req, pc.notify, pc.reply))
    case Notify(t) =>
      var pc := s.tasks[t];
      To(s.(woken := s.woken + {pc.notify}, tasks := Wake(s.tasks, pc.notify)),
         t, Finished(pc.req, pc.reply))
    case Others(op) => s.(cache := CacheRuns.Apply(cfg, s.cache, op))
  }

  const INITIAL: State := State(EMPTY_INDEX, map[], 0, {}, map[])

  /** The task owns the in-flight marker of its request. */
  predicate Holds(pc: Pc)
  {
    pc.AtRecheck? || pc.AtFetch? || pc.AtAdd? || pc.AtClear?
  }

  /** The task is a loader that has not woken its waiters yet. */
  predicate Loads(pc: Pc)
  {
    Holds(pc) || pc.AtNotify?
  }

  predicate Listens(pc: Pc)
  {
    pc.AtRegister? || pc.Waiting?
  }

  ghost predicate CacheOk(world: World, c: Index)
  {
    && Inv(c)
    && forall v :: v in c.regions ==> c.regions[v].region.Range() == world(v.id, RegionEpoch(v.confVer, v.ver))
  }

  ghost predicate PcOk(world: World, s: State, pc: Pc)
  {
    && (Holds(pc) ==> pc.req in s.inFlight && s.inFlight[pc.req] == pc.notify)
    && (Loads(pc) ==> pc.notify < s.nextNotify && pc.notify !in s.woken)
    && (Listens(pc) ==> pc.notify < s.nextNotify)
    && (pc.AtAdd? ==> Legit(world, pc.region) && Answers(pc.req, pc.region))
    && ((pc.AtClear? || pc.AtNotify? || pc.Finished?) && pc.reply.Ok? ==> Serves(world, pc.req, pc.reply.region))
  }

  ghost predicate PcsOk(world: World, s: State)
  {
    && (forall t :: t in s.tasks ==> PcOk(world, s, s.tasks[t]))
    && (forall n :: n in s.woken ==> n < s.nextNotify)
    && (forall req :: req in s.inFlight ==> s.inFlight[req] < s.nextNotify)
  }

  ghost predicate LoadersUnique(s: State)
  {
    forall t, u :: t in s.tasks && u in s.tasks && Loads(s.tasks[t]) && Loads(s.tasks[u]) ==>
      s.tasks[t].notify == s.tasks[u].notify ==> t == u
  }

  ghost predicate IsHolder(s: State, t: nat, req: Request)
  {
    t in s.tasks && Holds(s.tasks[t]) && s.tasks[t].req == req
  }

  ghost predicate IsLoader(s: State, t: nat, n: nat)
  {
    t in s.tasks && Loads(s.tasks[t]) && s.tasks[t].notify == n
  }

  ghost predicate MarkersOwned(s: State)
  {
    forall req :: req in s.inFlight ==> exists t :: IsHolder(s, t, req)
  }

  /** Whoever joined a load either has its loader still ahead of it, or has missed the only wake-up
      that load will ever send. */
  ghost predicate ListenersServed(s: State)
  {
    forall t :: t in s.tasks && Listens(s.tasks[t]) && s.tasks[t].notify !in s.woken ==>
      exists u :: IsLoader(s, u, s.tasks[t].notify)
  }

  ghost predicate Good(world: World, s: State)
  {
    CacheOk(world, s.cache) && Protocol(world, s)
  }

  ghost predicate Protocol(world: World, s: State)
  {
    && PcsOk(world, s)
    && LoadersUnique(s)
    && MarkersOwned(s)
    && ListenersServed(s)
  }

  // Each step keeps each part.

  lemma AddKeepsCacheOk(world: World, c: Index, r: RegionWithLeader, ttl: I64)
    requires CacheOk(world, c) && Legit(world, r)
    ensures CacheOk(world, AddRegion(c, r, ttl))
  {
    if r.VerId() in c.regions {
      CacheRuns.SameRangeSameKeys(c.regions[r.VerId()].region, r);
      GoodRangeIffStart(r);
    }
    AddRegionKeeps(c, r, ttl);
    AddRegionContents(c, r, ttl);
  }

  lemma CachedServes(world: World, c: Index, v: RegionVerId)
    requires CacheOk(world, c) && v in c.regions
    ensures var r := c.regions[v].region; r.Range() == world(r.region.id, EpochOf(r))
  {
    assert EntryOk(c, v);
    VerIdIff(c.regions[v].region, c.regions[v].region);
  }

  lemma SameButTtlCacheOk(world: World, c: Index, d: Index)
    requires CacheOk(world, c) && SameButTtl(c, d)
    ensures CacheOk(world, d)
  {
    SameButTtlKeeps(c, d);
  }

  lemma KeyLookupAnswers(world: World, cfg: TtlConfig, c: Index, key: Key, now: I64, draw: nat)
    requires CacheOk(world, c)
    ensures var (c', hit) := LookupByKey(cfg, c, key, now, draw);
            CacheOk(world, c') && (hit.Some? ==> Serves(world, ByKey(key), hit.value))
  {
    LookupByKeyExact(cfg, c, key, now, draw);
    var (c', hit) := LookupByKey(cfg, c, key, now, draw);
    SameButTtlCacheOk(world, c, c');
    if hit.Some? {
      var v :| v in c.regions && c.regions[v].region == hit.value && hit.value.Contains(key);
      CachedServes(world, c, v);
    }
  }

  lemma IdLookupAnswers(world: World, cfg: TtlConfig, c: Index, id: RegionId, now: I64, draw: nat)
    requires CacheOk(world, c)
    ensures var (c', hit) := LookupById(cfg, c, id, now, draw);
            CacheOk(world, c') && (hit.Some? ==> Serves(world, ById(id), hit.value))
  {
    LookupByIdExact(cfg, c, id, now, draw);
    var (c', hit) := LookupById(cfg, c, id, now, draw);
    SameButTtlCacheOk(world, c, c');
    if hit.Some? {
      var v :| v in c.regions && c.regions[v].region == hit.value && hit.value.Id() == id;
      CachedServes(world, c, v);
    }
  }

  lemma LookupAnswers(world: World, cfg: TtlConfig, c: Index, req: Request, now: I64, draw: nat)
    requires CacheOk(world, c)
    ensures var (c', hit) := Lookup(cfg, c, req, now, draw);
            CacheOk(world, c') && (hit.Some? ==> Serves(world, req, hit.value))
  {
    match req
    case ByKey(key) => KeyLookupAnswers(world, cfg, c, key, now, draw);
    case ById(id) => IdLookupAnswers(world, cfg, c, id, now, draw);
  }

  lemma OthersKeepCacheOk(world: World, cfg: TtlConfig, c: Index, op: CacheRuns.Op)
    requires CacheOk(world, c) && (op.Add? ==> Legit(world, op.region))
    ensures CacheOk(world, CacheRuns.Apply(cfg, c, op))
  {
    match op
    case Add(r, now, draw) => AddKeepsCacheOk(world, c, r, cfg.NextTtl(now, draw));
    case SetLeader(v, leader, now, draw) => UpdateLeaderKeeps(c, v, leader, cfg.NextTtl(now, draw));
    case Drop(v) => InvalidateKeeps(c, v);
    case HitByKey(key, now, draw) => LookupByKeyExact(cfg, c, key, now, draw);
    case HitById(id, now, draw) => LookupByIdExact(cfg, c, id, now, draw);
  }

  lemma StepKeepsCache(world: World, cfg: TtlConfig, s: State, a: Action)
    requires Good(world, s) && Enabled(world, s, a)
    ensures CacheOk(world, Next(cfg, s, a).cache)
    ensures HitAnswers(world, cfg, s, a)
  {
    match a
    case Check(t, now, draw) => LookupAnswers(world, cfg, s.cache, s.tasks[t].req, now, draw);
    case Recheck(t, now, draw) => LookupAnswers(world, cfg, s.cache, s.tasks[t].req, now, draw);
    case AddFetched(t, now, draw) =>
      assert PcOk(world, s, s.tasks[t]);
      AddKeepsCacheOk(world, s.cache, s.tasks[t].region, cfg.NextTtl(now, draw));
    case Others(op) => OthersKeepCacheOk(world, cfg, s.cache, op);
    case _ =>
  }

  /** What a cache lookup in this step found answers the request. */
  ghost predicate HitAnswers(world: World, cfg: TtlConfig, s: State, a: Action)
    requires (a.Check? || a.Recheck?) ==> a.task in s.tasks
  {
    a.Check? || a.Recheck? ==>
      var hit := Lookup(cfg, s.cache, s.tasks[a.task].req, a.now, a.draw).1;
      hit.Some? ==> Serves(world, s.tasks[a.task].req, hit.value)
  }

  lemma ActorPcOk(world: World, cfg: TtlConfig, s: State, a: Action)
    requires PcsOk(world, s) && Enabled(world, s, a) && !a.Others? && HitAnswers(world, cfg, s, a)
    ensures var s' := Next(cfg, s, a); PcOk(world, s', s'.tasks[a.task])
  {
    if a.task in s.tasks {
      assert PcOk(world, s, s.tasks[a.task]);
    }
  }

  lemma BystanderPcOk(world: World, cfg: TtlConfig, s: State, a: Action, t: nat)
    requires PcsOk(world, s) && LoadersUnique(s) && Enabled(world, s, a)
    requires t in s.tasks && (a.Others? || a.task != t)
    ensures var s' := Next(cfg, s, a); PcOk(world, s', s'.tasks[t])
  {
    assert PcOk(world, s, s.tasks[t]);
    if !a.Others? && a.task in s.tasks {
      assert PcOk(world, s, s.tasks[a.task]);
    }
  }

  lemma StepKeepsPcs(world: World, cfg: TtlConfig, s: State, a: Action)
    requires Good(world, s) && Enabled(world, s, a)
    ensures PcsOk(world, Next(cfg, s, a))
  {
    var s' := Next(cfg, s, a);
    StepKeepsCache(world, cfg, s, a);
    forall t | t in s'.tasks
      ensures PcOk(world, s', s'.tasks[t])
    {
      if !a.Others? && a.task == t {
        ActorPcOk(world, cfg, s, a);
      } else {
        BystanderPcOk(world, cfg, s, a, t);
      }
    }
    if a.Notify? {
      assert PcOk(world, s, s.tasks[a.task]);
    }
  }

  /** A loader after a step was one before it, or has just joined with a new `Notify`. */
  lemma LoaderOrigin(world: World, cfg: TtlConfig, s: State, a: Action, t: nat, n: nat)
    requires Enabled(world, s, a) && IsLoader(Next(cfg, s, a), t, n)
    ensures IsLoader(s, t, n) || (a == Join(t) && n == s.nextNotify)
  {
  }

  lemma StepKeepsUnique(world: World, cfg: TtlConfig, s: State, a: Action)
    requires PcsOk(world, s) && LoadersUnique(s) && Enabled(world, s, a)
    ensures LoadersUnique(Next(cfg, s, a))
  {
    var s' := Next(cfg, s, a);
    forall t, u | t in s'.tasks && u in s'.tasks && Loads(s'.tasks[t]) && Loads(s'.tasks[u])
                  && s'.tasks[t].notify == s'.tasks[u].notify
      ensures t == u
    {
      LoaderOrigin(world, cfg, s, a, t, s'.tasks[t].notify);
      LoaderOrigin(world, cfg, s, a, u, s'.tasks[t].notify);
      assert t in s.tasks ==> PcOk(world, s, s.tasks[t]);
      assert u in s.tasks ==> PcOk(world, s, s.tasks[u]);
    }
  }

  /** A marker after a step was there before it and is not the one being cleared, or has just been
      put there by a new loader. */
  lemma MarkerOrigin(world: World, cfg: TtlConfig, s: State, a: Action, req: Request)
    requires Enabled(world, s, a) && req in Next(cfg, s, a).inFlight
    ensures || (req in s.inFlight && (a.Clear? ==> s.tasks[a.task].req != req))
            || (a.Join? && IsHolder(Next(cfg, s, a), a.task, req))
  {
  }

  lemma HolderStays(world: World, cfg: TtlConfig, s: State, a: Action, req: Request, t: nat)
    requires Enabled(world, s, a) && IsHolder(s, t, req) && a != Clear(t)
    ensures IsHolder(Next(cfg, s, a), t, req)
  {
  }

  lemma StepKeepsMarkers(world: World, cfg: TtlConfig, s: State, a: Action)
    requires MarkersOwned(s) && Enabled(world, s, a)
    ensures MarkersOwned(Next(cfg, s, a))
  {
    forall req | req in Next(cfg, s, a).inFlight
      ensures exists t :: IsHolder(Next(cfg, s, a), t, req)
    {
      MarkerOrigin(world, cfg, s, a, req);
      if req in s.inFlight && (a.Clear? ==> s.tasks[a.task].req != req) {
        var t :| IsHolder(s, t, req);
        HolderStays(world, cfg, s, a, req, t);
      }
    }
  }

  /** The most steps a loader still takes before it has woken its waiters. */
  function Rank(pc: Pc): nat
  {
    match pc
    case AtRecheck(_, _) => 5
    case AtFetch(_, _) => 4
    case AtAdd(_, _, _) => 3
    case AtClear(_, _, _) => 2
    case AtNotify(_, _, _) => 1
    case _ => 0
  }

  lemma LoaderStep(world: World, cfg: TtlConfig, s: State, a: Action, u: nat)
    requires Enabled(world, s, a) && u in s.tasks && Loads(s.tasks[u])
    ensures var s' := Next(cfg, s, a);
            if a.Others? || a.task != u then s'.tasks[u] == s.tasks[u]
            else if Loads(s'.tasks[u]) then
              Rank(s'.tasks[u]) < Rank(s.tasks[u]) && s'.tasks[u].notify == s.tasks[u].notify
            else a.Notify? && s.tasks[u].notify in s'.woken
  {
  }

  /** A listener after a step was one before it, or has just joined the load in flight. */
  lemma ListenerOrigin(world: World, cfg: TtlConfig, s: State, a: Action, t: nat)
    requires Enabled(world, s, a)
    requires var s' := Next(cfg, s, a); t in s'.tasks && Listens(s'.tasks[t])
    ensures var n := Next(cfg, s, a).tasks[t].notify;
            || (t in s.tasks && Listens(s.tasks[t]) && s.tasks[t].notify == n)
            || (a == Join(t) && s.tasks[t].req in s.inFlight && s.inFlight[s.tasks[t].req] == n)
  {
  }

  lemma StepKeepsServed(world: World, cfg: TtlConfig, s: State, a: Action)
    requires Protocol(world, s) && Enabled(world, s, a)
    ensures ListenersServed(Next(cfg, s, a))
  {
    var s' := Next(cfg, s, a);
    forall t | t in s'.tasks && Listens(s'.tasks[t]) && s'.tasks[t].notify !in s'.woken
      ensures exists u :: IsLoader(s', u, s'.tasks[t].notify)
    {
      ListenerOrigin(world, cfg, s, a, t);
      var u := ListensTo(world, s, s'.tasks[t].notify, t);
      LoaderStep(world, cfg, s, a, u);
      assert IsLoader(s', u, s'.tasks[t].notify);
    }
  }

  lemma ListensTo(world: World, s: State, n: nat, t: nat) returns (u: nat)
    requires Protocol(world, s) && n !in s.woken && t in s.tasks
    requires || (Listens(s.tasks[t]) && s.tasks[t].notify == n)
             || (s.tasks[t].req in s.inFlight && s.inFlight[s.tasks[t].req] == n)
    ensures IsLoader(s, u, n)
  {
    if Listens(s.tasks[t]) && s.tasks[t].notify == n {
      u :| IsLoader(s, u, n);
    } else {
      u :| IsHolder(s, u, s.tasks[t].req);
      assert PcOk(world, s, s.tasks[u]);
    }
  }

  lemma StepKeepsGood(world: World, cfg: TtlConfig, s: State, a: Action)
    requires Good(world, s) && Enabled(world, s, a)
    ensures Good(world, Next(cfg, s, a))
  {
    StepKeepsCache(world, cfg, s, a);
    StepKeepsPcs(world, cfg, s, a);
    StepKeepsUnique(world, cfg, s, a);
    StepKeepsMarkers(world, cfg, s, a);
    StepKeepsServed(world, cfg, s, a);
  }

  // Whole runs.

  ghost predicate IsRun(world: World, cfg: TtlConfig, s: State, actions: seq<Action>)
    decreases actions
  {
    actions != [] ==>
      Enabled(world, s, actions[0]) && IsRun(world, cfg, Next(cfg, s, actions[0]), actions[1..])
  }

  ghost function End(world: World, cfg: TtlConfig, s: State, actions: seq<Action>): State
    requires IsRun(world, cfg, s, actions)
    decreases actions
  {
    if actions == [] then s else End(world, cfg, Next(cfg, s, actions[0]), actions[1..])
  }

  lemma {:induction false} RunsKeepGood(world: World, cfg: TtlConfig, s: State, actions: seq<Action>)
    requires Good(world, s) && IsRun(world, cfg, s, actions)
    ensures Good(world, End(world, cfg, s, actions))
    decreases actions
  {
    if actions != [] {
      StepKeepsGood(world, cfg, s, actions[0]);
      RunsKeepGood(world, cfg, Next(cfg, s, actions[0]), actions[1..]);
    }
  }

  /** In every interleaving: an in-flight marker exists for a request exactly when one task, and
      no other, owns it; so at most one placement driver call per request is outstanding. */
  lemma SingleFlightSafety(world: World, cfg: TtlConfig, actions: seq<Action>, req: Request)
    requires IsRun(world, cfg, INITIAL, actions)
    ensures var s := End(world, cfg, INITIAL, actions);
            && (req in s.inFlight <==> exists t :: IsHolder(s, t, req))
            && (forall t, u :: IsHolder(s, t, req) && IsHolder(s, u, req) ==> t == u)
  {
    RunsKeepGood(world, cfg, INITIAL, actions);
    var s := End(world, cfg, INITIAL, actions);
    forall t | IsHolder(s, t, req)
      ensures req in s.inFlight && s.tasks[t].notify == s.inFlight[req]
    {
      assert PcOk(world, s, s.tasks[t]);
    }
  }

  /** In every interleaving: a successful reply to a key contains the key, and a successful reply
      to an id has that id. */
  lemma RepliesAnswer(world: World, cfg: TtlConfig, actions: seq<Action>, t: nat)
    requires IsRun(world, cfg, INITIAL, actions)
    ensures var s := End(world, cfg, INITIAL, actions);
            t in s.tasks && s.tasks[t].Finished? && s.tasks[t].reply.Ok? ==>
              Serves(world, s.tasks[t].req, s.tasks[t].reply.region)
  {
    RunsKeepGood(world, cfg, INITIAL, actions);
    var s := End(world, cfg, INITIAL, actions);
    if t in s.tasks {
      assert PcOk(world, s, s.tasks[t]);
    }
  }

  // Where replies come from.

  ghost predicate Fetches(actions: seq<Action>, t: nat, answer: Option<RegionWithLeader>)
  {
    exists i :: 0 <= i < |actions| && actions[i] == Fetch(t, answer)
  }

  /** The step is a look of `t` into the cache that finds `r`. */
  predicate HitsNow(cfg: TtlConfig, s: State, a: Action, t: nat, r: RegionWithLeader)
  {
    && (a.Check? || a.Recheck?) && a.task == t && t in s.tasks
    && Lookup(cfg, s.cache, s.tasks[t].req, a.now, a.draw).1 == Some(r)
  }

  ghost predicate Hits(world: World, cfg: TtlConfig, s: State, actions: seq<Action>, t: nat, r: RegionWithLeader)
    requires IsRun(world, cfg, s, actions)
    decreases actions
  {
    && actions != []
    && (HitsNow(cfg, s, actions[0], t, r) || Hits(world, cfg, Next(cfg, s, actions[0]), actions[1..], t, r))
  }

  /** The reply the task is bound to give, if it is. */
  function Bound(s: State, t: nat): Option<Reply>
  {
    if t !in s.tasks then None
    else
      match s.tasks[t]
      case AtAdd(_, _, r) => Some(Ok(r))
      case AtClear(_, _, reply) => Some(reply)
      case AtNotify(_, _, reply) => Some(reply)
      case Finished(_, reply) => Some(reply)
      case _ => None
  }

  /** What a step does to the reply of a task: it is settled by a fetch or a hit, once. */
  lemma BoundStep(world: World, cfg: TtlConfig, s: State, a: Action, t: nat)
    requires Enabled(world, s, a)
    ensures var before, after := Bound(s, t), Bound(Next(cfg, s, a), t);
            if before.Some? then
              after == before && !(a.Fetch? && a.task == t) && forall r :: !HitsNow(cfg, s, a, t, r)
            else if a.Fetch? && a.task == t then after == Some(if a.answer.Some? then Ok(a.answer.value) else Failed)
            else if (a.Check? || a.Recheck?) && a.task == t then
              forall r :: after == Some(Ok(r)) <==> HitsNow(cfg, s, a, t, r)
            else after == None
    ensures a.Fetch? || Bound(s, t) == Some(Failed) || Bound(Next(cfg, s, a), t) != Some(Failed)
  {
  }

  lemma FetchesStep(actions: seq<Action>, t: nat, answer: Option<RegionWithLeader>)
    requires actions != []
    ensures Fetches(actions, t, answer) <==> actions[0] == Fetch(t, answer) || Fetches(actions[1..], t, answer)
  {
    if Fetches(actions[1..], t, answer) {
      var i :| 0 <= i < |actions[1..]| && actions[1..][i] == Fetch(t, answer);
      assert actions[i + 1] == Fetch(t, answer);
    }
  }

  /** A settled reply is final, and nothing is fetched or looked up for it any more. */
  lemma {:induction false} BoundIsFinal(world: World, cfg: TtlConfig, s: State, actions: seq<Action>, t: nat,
                                        answer: Option<RegionWithLeader>, r: RegionWithLeader)
    requires IsRun(world, cfg, s, actions) && Bound(s, t).Some?
    ensures Bound(End(world, cfg, s, actions), t) == Bound(s, t)
    ensures !Fetches(actions, t, answer) && !Hits(world, cfg, s, actions, t, r)
    decreases actions
  {
    if actions != [] {
      BoundStep(world, cfg, s, actions[0], t);
      FetchesStep(actions, t, answer);
      BoundIsFinal(world, cfg, Next(cfg, s, actions[0]), actions[1..], t, answer, r);
    }
  }

  /** In every interleaving: a task is bound to reply `Ok(r)` if and only if it has fetched `r` or found
      it in the cache, and to fail if and only if its own fetch has failed. */
  lemma {:induction false} RepliesFollow(world: World, cfg: TtlConfig, s: State, actions: seq<Action>, t: nat,
                                         r: RegionWithLeader)
    requires IsRun(world, cfg, s, actions) && Bound(s, t) == None
    ensures var reply := Bound(End(world, cfg, s, actions), t);
            && (reply == Some(Ok(r)) <==> Fetches(actions, t, Some(r)) || Hits(world, cfg, s, actions, t, r))
            && (reply == Some(Failed) <==> Fetches(actions, t, None))
    decreases actions
  {
    if actions != [] {
      var a, s' := actions[0], Next(cfg, s, actions[0]);
      BoundStep(world, cfg, s, a, t);
      FetchesStep(actions, t, Some(r));
      FetchesStep(actions, t, None);
      if Bound(s', t).Some? {
        BoundIsFinal(world, cfg, s', actions[1..], t, Some(r), r);
        BoundIsFinal(world, cfg, s', actions[1..], t, None, r);
      } else {
        RepliesFollow(world, cfg, s', actions[1..], t, r);
      }
    }
  }

  /** So a finished task replies just that. */
  lemma FinishedReplies(world: World, cfg: TtlConfig, actions: seq<Action>, t: nat, r: RegionWithLeader)
    requires IsRun(world, cfg, INITIAL, actions)
    requires var e := End(world, cfg, INITIAL, actions); t in e.tasks && e.tasks[t].Finished?
    ensures var reply := End(world, cfg, INITIAL, actions).tasks[t].reply;
            && (reply == Ok(r) <==> Fetches(actions, t, Some(r)) || Hits(world, cfg, INITIAL, actions, t, r))
            && (reply == Failed <==> Fetches(actions, t, None))
  {
    RepliesFollow(world, cfg, INITIAL, actions, t, r);
  }

  // The cache under all this is the cache of a sequential run.

  function LookupOp(req: Request, now: I64, draw: nat): CacheRuns.Op
  {
    match req
    case ByKey(key) => CacheRuns.HitByKey(key, now, draw)
    case ById(id) => CacheRuns.HitById(id, now, draw)
  }

  /** What the step does to the cache. */
  function CacheOp(s: State, a: Action): seq<CacheRuns.Op>
    requires Placed(s, a)
  {
    match a
    case Check(t, now, draw) => [LookupOp(s.tasks[t].req, now, draw)]
    case Recheck(t, now, draw) => [LookupOp(s.tasks[t].req, now, draw)]
    case AddFetched(t, now, draw) => [CacheRuns.Add(s.tasks[t].region, now, draw)]
    case Others(op) => [op]
    case _ => []
  }

  ghost function CacheOps(world: World, cfg: TtlConfig, s: State, actions: seq<Action>): seq<CacheRuns.Op>
    requires IsRun(world, cfg, s, actions)
    decreases actions
  {
    if actions == [] then []
    else CacheOp(s, actions[0]) + CacheOps(world, cfg, Next(cfg, s, actions[0]), actions[1..])
  }

  lemma RunMore(cfg: TtlConfig, ops: seq<CacheRuns.Op>, op: CacheRuns.Op)
    ensures CacheRuns.Run(cfg, ops + [op]) == CacheRuns.Apply(cfg, CacheRuns.Run(cfg, ops), op)
  {
    assert (ops + [op])[..|ops|] == ops;
  }

  lemma CacheApplies(world: World, cfg: TtlConfig, s: State, a: Action)
    requires Enabled(world, s, a)
    ensures |CacheOp(s, a)| <= 1
    ensures Next(cfg, s, a).cache
         == if CacheOp(s, a) == [] then s.cache else CacheRuns.Apply(cfg, s.cache, CacheOp(s, a)[0])
  {
  }

  lemma CacheStep(world: World, cfg: TtlConfig, s: State, a: Action, ops: seq<CacheRuns.Op>)
    requires Enabled(world, s, a) && s.cache == CacheRuns.Run(cfg, ops)
    ensures Next(cfg, s, a).cache == CacheRuns.Run(cfg, ops + CacheOp(s, a))
  {
    CacheApplies(world, cfg, s, a);
    var more := CacheOp(s, a);
    if more == [] {
      assert ops + more == ops;
    } else {
      assert more == [more[0]];
      RunMore(cfg, ops, more[0]);
    }
  }

  /** Only regions the placement driver has vouched for are added. */
  ghost predicate AddsLegit(world: World, ops: seq<CacheRuns.Op>)
  {
    forall i :: 0 <= i < |ops| && ops[i].Add? ==> Legit(world, ops[i].region)
  }

  lemma LegitIsConsistent(world: World, ops: seq<CacheRuns.Op>)
    requires AddsLegit(world, ops)
    ensures CacheRuns.Consistent(ops)
  {
  }

  lemma AddsLegitStep(world: World, s: State, a: Action, ops: seq<CacheRuns.Op>)
    requires Good(world, s) && Enabled(world, s, a) && AddsLegit(world, ops)
    ensures AddsLegit(world, ops + CacheOp(s, a))
  {
    if a.AddFetched? {
      assert PcOk(world, s, s.tasks[a.task]);
    }
  }

  lemma {:induction false} CacheFollows(world: World, cfg: TtlConfig, s: State, actions: seq<Action>,
                                        ops: seq<CacheRuns.Op>)
    requires Good(world, s) && IsRun(world, cfg, s, actions) && s.cache == CacheRuns.Run(cfg, ops)
    requires AddsLegit(world, ops)
    ensures End(world, cfg, s, actions).cache == CacheRuns.Run(cfg, ops + CacheOps(world, cfg, s, actions))
    ensures AddsLegit(world, ops + CacheOps(world, cfg, s, actions))
    decreases actions
  {
    if actions == [] {
      assert ops + [] == ops;
    } else {
      var a, s' := actions[0], Next(cfg, s, actions[0]);
      StepKeepsGood(world, cfg, s, a);
      CacheStep(world, cfg, s, a, ops);
      AddsLegitStep(world, s, a, ops);
      CacheFollows(world, cfg, s', actions[1..], ops + CacheOp(s, a));
      OpsRegroup(ops, CacheOp(s, a), CacheOps(world, cfg, s', actions[1..]));
    }
  }

  lemma OpsRegroup(a: seq<CacheRuns.Op>, b: seq<CacheRuns.Op>, c: seq<CacheRuns.Op>)
    ensures a + b + c == a + (b + c)
  {
  }

  /** In every interleaving the cache is what the sequential cache makes of the lookups, the additions
      of fetched regions and what others do, in the order in which they happen; so all that is proved
      of histories of the cache holds here. */
  lemma CacheIsHistory(world: World, cfg: TtlConfig, actions: seq<Action>)
    requires IsRun(world, cfg, INITIAL, actions)
    ensures var ops := CacheOps(world, cfg, INITIAL, actions);
            CacheRuns.Consistent(ops) && End(world, cfg, INITIAL, actions).cache == CacheRuns.Run(cfg, ops)
  {
    var ops := CacheOps(world, cfg, INITIAL, actions);
    CacheFollows(world, cfg, INITIAL, actions, []);
    assert [] + ops == ops;
    LegitIsConsistent(world, ops);
  }

  lemma OpsMore(a: seq<CacheRuns.Op>, b: seq<CacheRuns.Op>, op: CacheRuns.Op)
    ensures op in a || op in b ==> op in a + b
  {
  }

  /** The task has passed the point at which it caches what it has fetched. */
  predicate PastAdding(s: State, t: nat)
  {
    t in s.tasks && (s.tasks[t].AtClear? || s.tasks[t].AtNotify? || s.tasks[t].Finished?)
  }

  lemma {:induction false} AddsPending(world: World, cfg: TtlConfig, s: State, actions: seq<Action>, t: nat,
                                       r: RegionWithLeader) returns (now: I64, draw: nat)
    requires IsRun(world, cfg, s, actions) && t in s.tasks && s.tasks[t].AtAdd? && s.tasks[t].region == r
    requires PastAdding(End(world, cfg, s, actions), t)
    ensures CacheRuns.Add(r, now, draw) in CacheOps(world, cfg, s, actions)
    decreases actions
  {
    var a, s' := actions[0], Next(cfg, s, actions[0]);
    var rest := CacheOps(world, cfg, s', actions[1..]);
    if a.AddFetched? && a.task == t {
      now, draw := a.now, a.draw;
      assert CacheOp(s, a)[0] == CacheRuns.Add(r, now, draw);
    } else {
      now, draw := AddsPending(world, cfg, s', actions[1..], t, r);
    }
    OpsMore(CacheOp(s, a), rest, CacheRuns.Add(r, now, draw));
  }

  /** In every interleaving: whoever has fetched a region and gone on has added it to the cache. */
  lemma {:induction false} FetchedIsAdded(world: World, cfg: TtlConfig, s: State, actions: seq<Action>, t: nat,
                                          r: RegionWithLeader) returns (now: I64, draw: nat)
    requires IsRun(world, cfg, s, actions) && Fetches(actions, t, Some(r))
    requires PastAdding(End(world, cfg, s, actions), t)
    ensures CacheRuns.Add(r, now, draw) in CacheOps(world, cfg, s, actions)
    decreases actions
  {
    var a, s' := actions[0], Next(cfg, s, actions[0]);
    FetchesStep(actions, t, Some(r));
    if a == Fetch(t, Some(r)) {
      now, draw := AddsPending(world, cfg, s', actions[1..], t, r);
    } else {
      now, draw := FetchedIsAdded(world, cfg, s', actions[1..], t, r);
    }
    OpsMore(CacheOp(s, a), CacheOps(world, cfg, s', actions[1..]), CacheRuns.Add(r, now, draw));
  }

  /** A fetched region is cached under its own id, epoch and start key as soon as it has been added. */
  lemma FetchedIsCached(world: World, cfg: TtlConfig, s: State, a: Action)
    requires Good(world, s) && Enabled(world, s, a) && a.AddFetched?
    ensures var r, c := s.tasks[a.task].region, Next(cfg, s, a).cache;
            var v := RegionVerId(r.region.id, EpochOf(r).confVer, EpochOf(r).version);
            && v in c.regions && c.regions[v] == CachedRegion(r, cfg.NextTtl(a.now, a.draw))
            && r.region.startKey in c.starts && c.starts[r.region.startKey] == v
            && r.region.id in c.ids && c.ids[r.region.id] == v
  {
    VerIdIff(s.tasks[a.task].region, s.tasks[a.task].region);
  }

  // Replies, whatever the cache holds.

  /** Each id names a version id of that id, under which a region of that id is cached, if any. */
  ghost predicate Labelled(c: Index)
  {
    && (forall v :: v in c.regions ==> c.regions[v].region.VerId() == v)
    && (forall id :: id in c.ids ==> c.ids[id].id == id)
  }

  /** The cache can be trusted for the request: by key always, by id if its entries are labelled. */
  ghost predicate Trusted(c: Index, req: Request)
  {
    req.ById? ==> Labelled(c)
  }

  /** A run in which the cache holds `caches[i]`, whatever that is, when step `i` is taken. */
  ghost predicate IsLooseRun(cfg: TtlConfig, s: State, caches: seq<Index>, actions: seq<Action>)
    requires |caches| == |actions|
    decreases actions
  {
    actions != [] ==>
      var s' := s.(cache := caches[0]);
      && Placed(s', actions[0]) && AnswersAsked(s', actions[0])
      && IsLooseRun(cfg, Next(cfg, s', actions[0]), caches[1..], actions[1..])
  }

  ghost function LooseEnd(cfg: TtlConfig, s: State, caches: seq<Index>, actions: seq<Action>): State
    requires |caches| == |actions| && IsLooseRun(cfg, s, caches, actions)
    decreases actions
  {
    if actions == [] then s
    else LooseEnd(cfg, Next(cfg, s.(cache := caches[0]), actions[0]), caches[1..], actions[1..])
  }

  /** What the task carries answers its request. */
  ghost predicate Carries(pc: Pc)
  {
    && (pc.AtAdd? ==> Answers(pc.req, pc.region))
    && ((pc.AtClear? || pc.AtNotify? || pc.Finished?) && pc.reply.Ok? ==> Answers(pc.req, pc.reply.region))
  }

  ghost predicate CarriesAt(s: State, t: nat)
  {
    t in s.tasks ==> Carries(s.tasks[t])
  }

  lemma LooseLookup(cfg: TtlConfig, c: Index, req: Request, now: I64, draw: nat)
    requires Trusted(c, req)
    ensures var hit := Lookup(cfg, c, req, now, draw).1; hit.Some? ==> Answers(req, hit.value)
  {
  }

  lemma LooseStep(cfg: TtlConfig, s: State, a: Action, t: nat)
    requires Placed(s, a) && AnswersAsked(s, a) && CarriesAt(s, t)
    requires t in s.tasks ==> Trusted(s.cache, s.tasks[t].req)
    ensures CarriesAt(Next(cfg, s, a), t)
  {
    if (a.Check? || a.Recheck?) && a.task == t {
      LooseLookup(cfg, s.cache, s.tasks[t].req, a.now, a.draw);
    }
  }

  lemma RequestStays(cfg: TtlConfig, s: State, a: Action, t: nat)
    requires Placed(s, a) && t in s.tasks
    ensures t in Next(cfg, s, a).tasks && Next(cfg, s, a).tasks[t].req == s.tasks[t].req
  {
  }

  lemma {:induction false} RequestStaysOver(cfg: TtlConfig, s: State, caches: seq<Index>, actions: seq<Action>, t: nat)
    requires |caches| == |actions| && IsLooseRun(cfg, s, caches, actions) && t in s.tasks
    ensures var e := LooseEnd(cfg, s, caches, actions); t in e.tasks && e.tasks[t].req == s.tasks[t].req
    decreases actions
  {
    if actions != [] {
      RequestStays(cfg, s.(cache := caches[0]), actions[0], t);
      RequestStaysOver(cfg, Next(cfg, s.(cache := caches[0]), actions[0]), caches[1..], actions[1..], t);
    }
  }

  /** In every interleaving, whatever the cache holds at each step, so with version ids reused and
      indexes broken too: a successful reply to a key contains the key. A successful reply to an id
      has the id if only the cache's entries carry their own ids. */
  lemma {:induction false} RepliesAnswerLoosely(cfg: TtlConfig, s: State, caches: seq<Index>, actions: seq<Action>,
                                                t: nat)
    requires |caches| == |actions| && IsLooseRun(cfg, s, caches, actions) && CarriesAt(s, t)
    requires var e := LooseEnd(cfg, s, caches, actions);
             t in e.tasks && e.tasks[t].Finished? && e.tasks[t].reply.Ok?
             && (e.tasks[t].req.ById? ==> forall c :: c in caches ==> Labelled(c))
    ensures var e := LooseEnd(cfg, s, caches, actions); Answers(e.tasks[t].req, e.tasks[t].reply.region)
    decreases actions
  {
    if actions != [] {
      var s', a := s.(cache := caches[0]), actions[0];
      if t in s.tasks {
        RequestStaysOver(cfg, s, caches, actions, t);
        assert Trusted(caches[0], s.tasks[t].req);
      }
      LooseStep(cfg, s', a, t);
      RepliesAnswerLoosely(cfg, Next(cfg, s', a), caches[1..], actions[1..], t);
    }
  }

  /** A marker is always gone before its waiters are woken. */
  lemma ClearedBeforeWoken(world: World, cfg: TtlConfig, actions: seq<Action>, req: Request)
    requires IsRun(world, cfg, INITIAL, actions)
    ensures var s := End(world, cfg, INITIAL, actions);
            && (req in s.inFlight ==> s.inFlight[req] !in s.woken)
            && (forall t :: t in s.tasks && s.tasks[t].AtNotify? && req in s.inFlight
                  ==> s.tasks[t].notify != s.inFlight[req])
  {
    RunsKeepGood(world, cfg, INITIAL, actions);
    var s := End(world, cfg, INITIAL, actions);
    if req in s.inFlight {
      var u :| IsHolder(s, u, req);
      assert PcOk(world, s, s.tasks[u]);
    }
  }

  /** Waiting for a wake-up that has already been sent. */
  ghost predicate Stranded(s: State, t: nat)
  {
    t in s.tasks && s.tasks[t].Waiting? && s.tasks[t].notify in s.woken
  }

  ghost predicate SomeStranded(s: State)
  {
    exists t :: Stranded(s, t)
  }

  /** A waiter is stranded exactly when its load has no loader left to wake it. */
  lemma StrandedIffNoLoader(world: World, s: State, t: nat)
    requires Good(world, s) && t in s.tasks && s.tasks[t].Waiting?
    ensures Stranded(s, t) <==> !exists u :: IsLoader(s, u, s.tasks[t].notify)
  {
    forall u | IsLoader(s, u, s.tasks[t].notify)
      ensures !Stranded(s, t)
    {
      assert PcOk(world, s, s.tasks[u]);
    }
  }

  /** Once stranded, stranded for ever. */
  lemma {:induction false} StrandedForever(world: World, cfg: TtlConfig, s: State, actions: seq<Action>, t: nat)
    requires Good(world, s) && IsRun(world, cfg, s, actions) && Stranded(s, t)
    ensures Stranded(End(world, cfg, s, actions), t)
    decreases actions
  {
    if actions != [] {
      var a := actions[0];
      if a.Notify? {
        assert PcOk(world, s, s.tasks[a.task]);
      }
      StepKeepsGood(world, cfg, s, a);
      StrandedForever(world, cfg, Next(cfg, s, a), actions[1..], t);
    }
  }

  /** The step registers on a `Notify` that has already fired. */
  predicate LateRegister(s: State, a: Action)
  {
    a.Register? && a.task in s.tasks && s.tasks[a.task].AtRegister? && s.tasks[a.task].notify in s.woken
  }

  ghost predicate SomeLateRegister(world: World, cfg: TtlConfig, s: State, actions: seq<Action>)
    requires IsRun(world, cfg, s, actions)
    decreases actions
  {
    actions != [] &&
    (LateRegister(s, actions[0]) || SomeLateRegister(world, cfg, Next(cfg, s, actions[0]), actions[1..]))
  }

  lemma StrandedStep(world: World, cfg: TtlConfig, s: State, a: Action, t: nat)
    requires Protocol(world, s) && Enabled(world, s, a)
    ensures Stranded(Next(cfg, s, a), t) <==> Stranded(s, t) || (LateRegister(s, a) && a.task == t)
  {
    if a.Notify? {
      assert PcOk(world, s, s.tasks[a.task]);
    }
  }

  /** Lost wake-ups, exactly: a run ends with a stranded waiter if and only if at some step a task
      registered on a `Notify` after it had fired. */
  lemma {:induction false} StrandedIffLateRegister(world: World, cfg: TtlConfig, s: State, actions: seq<Action>)
    requires Good(world, s) && IsRun(world, cfg, s, actions) && !SomeStranded(s)
    ensures SomeStranded(End(world, cfg, s, actions)) <==> SomeLateRegister(world, cfg, s, actions)
    decreases actions
  {
    if actions != [] {
      var a := actions[0];
      var s' := Next(cfg, s, a);
      StepKeepsGood(world, cfg, s, a);
      forall t
        ensures Stranded(s', t) <==> LateRegister(s, a) && a.task == t
      {
        StrandedStep(world, cfg, s, a, t);
      }
      if LateRegister(s, a) {
        assert Stranded(s', a.task);
        StrandedForever(world, cfg, s', actions[1..], a.task);
        assert End(world, cfg, s, actions) == End(world, cfg, s', actions[1..]);
        assert Stranded(End(world, cfg, s, actions), a.task);
        assert SomeLateRegister(world, cfg, s, actions);
      } else {
        StrandedIffLateRegister(world, cfg, s', actions[1..]);
        assert End(world, cfg, s, actions) == End(world, cfg, s', actions[1..]);
      }
    }
  }

  /** The load whose `Notify` is `n` ends in this step. */
  predicate EndsLoad(s: State, a: Action, n: nat)
  {
    a.Notify? && a.task in s.tasks && s.tasks[a.task].AtNotify? && s.tasks[a.task].notify == n
  }

  ghost predicate Registers(actions: seq<Action>, t: nat)
  {
    exists i :: 0 <= i < |actions| && actions[i] == Register(t)
  }

  /** `t`, about to register on `n`, does so only after the load has ended. */
  ghost predicate Misses(world: World, cfg: TtlConfig, s: State, actions: seq<Action>, t: nat, n: nat)
    requires IsRun(world, cfg, s, actions)
    decreases actions
  {
    && actions != [] && actions[0] != Register(t)
    && (if EndsLoad(s, actions[0], n) then Registers(actions[1..], t)
        else Misses(world, cfg, Next(cfg, s, actions[0]), actions[1..], t, n))
  }

  /** The step joins a load that another task has in flight. */
  predicate JoinsLoad(s: State, a: Action)
  {
    a.Join? && a.task in s.tasks && s.tasks[a.task].AtJoin? && s.tasks[a.task].req in s.inFlight
  }

  /** In the schedule some loader's `Notify` falls between a task's `Join` of that load and its
      `Register`. */
  ghost predicate NotifyBetween(world: World, cfg: TtlConfig, s: State, actions: seq<Action>)
    requires IsRun(world, cfg, s, actions)
    decreases actions
  {
    && actions != []
    && var a, s' := actions[0], Next(cfg, s, actions[0]);
       || (JoinsLoad(s, a) && Misses(world, cfg, s', actions[1..], a.task, s.inFlight[s.tasks[a.task].req]))
       || NotifyBetween(world, cfg, s', actions[1..])
  }

  /** The next registration of `t` comes after its `Notify` has fired. */
  ghost predicate RegistersLate(world: World, cfg: TtlConfig, s: State, actions: seq<Action>, t: nat)
    requires IsRun(world, cfg, s, actions)
    decreases actions
  {
    && actions != []
    && if actions[0] == Register(t) then LateRegister(s, actions[0])
       else RegistersLate(world, cfg, Next(cfg, s, actions[0]), actions[1..], t)
  }

  predicate Registering(s: State, t: nat, n: nat)
  {
    t in s.tasks && s.tasks[t] == AtRegister(s.tasks[t].req, n)
  }

  /** A task about to register stays so until it does, and only the end of its load fires its `Notify`. */
  lemma RegisteringStep(world: World, cfg: TtlConfig, s: State, a: Action, t: nat, n: nat)
    requires Enabled(world, s, a) && Registering(s, t, n) && a != Register(t)
    ensures Registering(Next(cfg, s, a), t, n)
    ensures n in Next(cfg, s, a).woken <==> n in s.woken || EndsLoad(s, a, n)
  {
  }

  /** Once the `Notify` has fired, any registration is late. */
  lemma {:induction false} FiredIsLate(world: World, cfg: TtlConfig, s: State, actions: seq<Action>, t: nat, n: nat)
    requires IsRun(world, cfg, s, actions) && Registering(s, t, n) && n in s.woken
    ensures RegistersLate(world, cfg, s, actions, t) <==> Registers(actions, t)
    decreases actions
  {
    if actions != [] && actions[0] != Register(t) {
      RegisteringStep(world, cfg, s, actions[0], t, n);
      FiredIsLate(world, cfg, Next(cfg, s, actions[0]), actions[1..], t, n);
      if Registers(actions[1..], t) {
        var i :| 0 <= i < |actions[1..]| && actions[1..][i] == Register(t);
        assert actions[i + 1] == Register(t);
      }
    }
  }

  /** Until then, it is late exactly if the load ends first. */
  lemma {:induction false} LateIffMisses(world: World, cfg: TtlConfig, s: State, actions: seq<Action>, t: nat, n: nat)
    requires IsRun(world, cfg, s, actions) && Registering(s, t, n) && n !in s.woken
    ensures RegistersLate(world, cfg, s, actions, t) <==> Misses(world, cfg, s, actions, t, n)
    decreases actions
  {
    if actions != [] && actions[0] != Register(t) {
      var a, s' := actions[0], Next(cfg, s, actions[0]);
      RegisteringStep(world, cfg, s, a, t, n);
      if EndsLoad(s, a, n) {
        FiredIsLate(world, cfg, s', actions[1..], t, n);
      } else {
        LateIffMisses(world, cfg, s', actions[1..], t, n);
      }
    }
  }

  /** Some task that is about to register will do so late. */
  ghost predicate SomeWillBeLate(world: World, cfg: TtlConfig, s: State, actions: seq<Action>)
    requires IsRun(world, cfg, s, actions)
  {
    exists t :: t in s.tasks && s.tasks[t].AtRegister? && RegistersLate(world, cfg, s, actions, t)
  }

  lemma MarkerNotFired(world: World, s: State, req: Request)
    requires Protocol(world, s) && req in s.inFlight
    ensures s.inFlight[req] !in s.woken
  {
    var u :| IsHolder(s, u, req);
    assert PcOk(world, s, s.tasks[u]);
  }

  /** Who is about to register after a step: those before it that did not, and whoever has joined. */
  lemma RegisteringOrigin(world: World, cfg: TtlConfig, s: State, a: Action, t: nat)
    requires Enabled(world, s, a)
    ensures var s' := Next(cfg, s, a);
            t in s'.tasks && s'.tasks[t].AtRegister? <==>
              || (t in s.tasks && s.tasks[t].AtRegister? && a != Register(t))
              || (JoinsLoad(s, a) && a.task == t)
  {
  }

  lemma JoinsRegistering(world: World, cfg: TtlConfig, s: State, a: Action)
    requires Enabled(world, s, a) && JoinsLoad(s, a)
    ensures Registering(Next(cfg, s, a), a.task, s.inFlight[s.tasks[a.task].req])
    ensures Next(cfg, s, a).woken == s.woken
  {
  }

  /** One step of the correspondence. */
  lemma WillBeLateStep(world: World, cfg: TtlConfig, s: State, actions: seq<Action>)
    requires Good(world, s) && IsRun(world, cfg, s, actions) && actions != []
    ensures var a, s', rest := actions[0], Next(cfg, s, actions[0]), actions[1..];
            (LateRegister(s, a) || SomeWillBeLate(world, cfg, s', rest)) <==>
            || SomeWillBeLate(world, cfg, s, actions)
            || (JoinsLoad(s, a) && Misses(world, cfg, s', rest, a.task, s.inFlight[s.tasks[a.task].req]))
  {
    var a, s', rest := actions[0], Next(cfg, s, actions[0]), actions[1..];
    if JoinsLoad(s, a) {
      MarkerNotFired(world, s, s.tasks[a.task].req);
      JoinsRegistering(world, cfg, s, a);
      LateIffMisses(world, cfg, s', rest, a.task, s.inFlight[s.tasks[a.task].req]);
    }
    forall t
      ensures t in s'.tasks && s'.tasks[t].AtRegister? <==>
                || (t in s.tasks && s.tasks[t].AtRegister? && a != Register(t))
                || (JoinsLoad(s, a) && a.task == t)
    {
      RegisteringOrigin(world, cfg, s, a, t);
    }
    if SomeWillBeLate(world, cfg, s', rest) {
      var t :| t in s'.tasks && s'.tasks[t].AtRegister? && RegistersLate(world, cfg, s', rest, t);
      if t in s.tasks && s.tasks[t].AtRegister? && a != Register(t) {
        assert RegistersLate(world, cfg, s, actions, t);
      }
    }
    if LateRegister(s, a) {
      assert RegistersLate(world, cfg, s, actions, a.task);
    }
    if SomeWillBeLate(world, cfg, s, actions) {
      var t :| t in s.tasks && s.tasks[t].AtRegister? && RegistersLate(world, cfg, s, actions, t);
      if a != Register(t) {
        assert RegistersLate(world, cfg, s', rest, t);
      }
    }
  }

  lemma {:induction false} LateIffBetween(world: World, cfg: TtlConfig, s: State, actions: seq<Action>)
    requires Good(world, s) && IsRun(world, cfg, s, actions)
    ensures SomeLateRegister(world, cfg, s, actions) <==>
            SomeWillBeLate(world, cfg, s, actions) || NotifyBetween(world, cfg, s, actions)
    decreases actions
  {
    if actions != [] {
      StepKeepsGood(world, cfg, s, actions[0]);
      LateIffBetween(world, cfg, Next(cfg, s, actions[0]), actions[1..]);
      WillBeLateStep(world, cfg, s, actions);
    }
  }

  /** Lost wake-ups, read off the schedule: a run ends with a stranded waiter if and only if some
      loader's `Notify` falls between a task's `Join` of that load and its `Register`. */
  lemma StrandedIffNotifyBetween(world: World, cfg: TtlConfig, actions: seq<Action>)
    requires IsRun(world, cfg, INITIAL, actions)
    ensures SomeStranded(End(world, cfg, INITIAL, actions)) <==> NotifyBetween(world, cfg, INITIAL, actions)
  {
    StrandedIffLateRegister(world, cfg, INITIAL, actions);
    LateIffBetween(world, cfg, INITIAL, actions);
  }

  /** Whoever joins a load registers on it before anyone else moves. */
  ghost predicate JoinsAtomic(world: World, cfg: TtlConfig, s: State, actions: seq<Action>)
    requires IsRun(world, cfg, s, actions)
    decreases actions
  {
    actions == [] ||
    var s' := Next(cfg, s, actions[0]);
    && (actions[0].Join? && s'.tasks[actions[0].task].AtRegister? && |actions| > 1
        ==> actions[1] == Register(actions[0].task))
    && JoinsAtomic(world, cfg, s', actions[1..])
  }

  /** The only task about to register, if any, is `t`, and its `Notify` has not fired. */
  ghost predicate OnlyJoiner(s: State, t: nat)
  {
    forall u :: u in s.tasks && s.tasks[u].AtRegister? ==> u == t && s.tasks[u].notify !in s.woken
  }

  lemma JoinedIsLive(world: World, cfg: TtlConfig, s: State, a: Action)
    requires Protocol(world, s) && Enabled(world, s, a) && a.Join?
    requires forall u :: u in s.tasks ==> !s.tasks[u].AtRegister?
    ensures OnlyJoiner(Next(cfg, s, a), a.task)
  {
    var req := s.tasks[a.task].req;
    if req in s.inFlight {
      var u :| IsHolder(s, u, req);
      assert PcOk(world, s, s.tasks[u]);
    }
  }

  lemma NoNewJoiner(world: World, cfg: TtlConfig, s: State, a: Action)
    requires Enabled(world, s, a) && !a.Join?
    requires forall u :: u in s.tasks && s.tasks[u].AtRegister? ==> a == Register(u)
    ensures var s' := Next(cfg, s, a); forall u :: u in s'.tasks ==> !s'.tasks[u].AtRegister?
  {
  }

  /** With joining and registering as one step, no run strands a waiter. */
  lemma {:induction false} AtomicJoinsStrandNoOne(world: World, cfg: TtlConfig, s: State, actions: seq<Action>, t: nat)
    requires Good(world, s) && IsRun(world, cfg, s, actions) && JoinsAtomic(world, cfg, s, actions)
    requires OnlyJoiner(s, t)
    requires forall u :: u in s.tasks && s.tasks[u].AtRegister? && actions != [] ==> actions[0] == Register(u)
    ensures !SomeLateRegister(world, cfg, s, actions)
    decreases actions
  {
    if actions != [] {
      var a := actions[0];
      StepKeepsGood(world, cfg, s, a);
      if a.Join? {
        JoinedIsLive(world, cfg, s, a);
        AtomicJoinsStrandNoOne(world, cfg, Next(cfg, s, a), actions[1..], a.task);
      } else {
        NoNewJoiner(world, cfg, s, a);
        AtomicJoinsStrandNoOne(world, cfg, Next(cfg, s, a), actions[1..], t);
      }
    }
  }

  /** So from the initial state such a run ends with no one stranded. */
  lemma AtomicJoinsLoseNoWakeup(world: World, cfg: TtlConfig, actions: seq<Action>)
    requires IsRun(world, cfg, INITIAL, actions) && JoinsAtomic(world, cfg, INITIAL, actions)
    ensures !SomeStranded(End(world, cfg, INITIAL, actions))
  {
    AtomicJoinsStrandNoOne(world, cfg, INITIAL, actions, 0);
    StrandedIffLateRegister(world, cfg, INITIAL, actions);
  }

  /** Without that, a wake-up can be lost. One task loads, a second joins the load but registers
      only after the first has finished: the second waits for ever, with nobody loading. */
  lemma LostWakeupRun(world: World, cfg: TtlConfig) returns (actions: seq<Action>)
    ensures IsRun(world, cfg, INITIAL, actions)
    ensures var s := End(world, cfg, INITIAL, actions);
            s.tasks.Keys == {0, 1} && s.tasks[0].Finished? && Stranded(s, 1) && s.inFlight == map[]
  {
    var req := ById(7);
    var first := [Call(0, req), Check(0, 0, 0), Join(0)] + [Call(1, req), Check(1, 0, 0), Join(1)];
    var rest := [Recheck(0, 0, 0), Fetch(0, None), Clear(0), Notify(0), Register(1)];
    var mid := State(EMPTY_INDEX, map[req := 0], 1, {}, map[0 := AtRecheck(req, 0), 1 := AtRegister(req, 0)]);
    LostWakeupFirstHalf(world, cfg, req, mid);
    LostWakeupSecondHalf(world, cfg, req, rest, mid);
    RunsCompose(world, cfg, INITIAL, first, rest);
    actions := first + rest;
  }

  lemma {:induction false} RunsCompose(world: World, cfg: TtlConfig, s: State, first: seq<Action>, rest: seq<Action>)
    requires IsRun(world, cfg, s, first) && IsRun(world, cfg, End(world, cfg, s, first), rest)
    ensures IsRun(world, cfg, s, first + rest)
    ensures End(world, cfg, s, first + rest) == End(world, cfg, End(world, cfg, s, first), rest)
    decreases first
  {
    if first == [] {
      assert first + rest == rest;
    } else {
      assert (first + rest)[1..] == first[1..] + rest;
      RunsCompose(world, cfg, Next(cfg, s, first[0]), first[1..], rest);
    }
  }

  lemma OneStep(world: World, cfg: TtlConfig, s: State, a: Action, rest: seq<Action>)
    requires Enabled(world, s, a) && IsRun(world, cfg, Next(cfg, s, a), rest)
    ensures IsRun(world, cfg, s, [a] + rest)
    ensures End(world, cfg, s, [a] + rest) == End(world, cfg, Next(cfg, s, a), rest)
  {
    assert ([a] + rest)[1..] == rest;
  }

  lemma LostWakeupFirstHalf(world: World, cfg: TtlConfig, req: Request, mid: State)
    requires req == ById(7)
    requires mid == State(EMPTY_INDEX, map[req := 0], 1, {}, map[0 := AtRecheck(req, 0), 1 := AtRegister(req, 0)])
    ensures var first := [Call(0, req), Check(0, 0, 0), Join(0)] + [Call(1, req), Check(1, 0, 0), Join(1)];
            IsRun(world, cfg, INITIAL, first) && End(world, cfg, INITIAL, first) == mid
  {
    var loading := State(EMPTY_INDEX, map[req := 0], 1, {}, map[0 := AtRecheck(req, 0)]);
    assert loading == INITIAL.(tasks := map[0 := AtRecheck(req, 0)], inFlight := map[req := 0], nextNotify := 1);
    LostWakeupJoins(world, cfg, req, INITIAL, 0, loading);
    LostWakeupJoins(world, cfg, req, loading, 1, mid);
    RunsCompose(world, cfg, INITIAL, [Call(0, req), Check(0, 0, 0), Join(0)], [Call(1, req), Check(1, 0, 0), Join(1)]);
  }

  lemma LostWakeupJoins(world: World, cfg: TtlConfig, req: Request, s: State, t: nat, joined: State)
    requires req == ById(7) && s.cache == EMPTY_INDEX && t !in s.tasks
    requires joined == if req in s.inFlight then To(s, t, AtRegister(req, s.inFlight[req]))
                       else To(s.(inFlight := s.inFlight[req := s.nextNotify], nextNotify := s.nextNotify + 1),
                               t, AtRecheck(req, s.nextNotify))
    ensures var run := [Call(t, req), Check(t, 0, 0), Join(t)];
            IsRun(world, cfg, s, run) && End(world, cfg, s, run) == joined
  {
    var s1 := Next(cfg, s, Call(t, req));
    var s2 := Next(cfg, s1, Check(t, 0, 0));
    var s3 := Next(cfg, s2, Join(t));
    assert s2 == To(s, t, AtJoin(req));
    assert s3 == joined;
    OneStep(world, cfg, s2, Join(t), []);
    OneStep(world, cfg, s1, Check(t, 0, 0), [Join(t)]);
    OneStep(world, cfg, s, Call(t, req), [Check(t, 0, 0), Join(t)]);
  }

  lemma LostWakeupSecondHalf(world: World, cfg: TtlConfig, req: Request, rest: seq<Action>, mid: State)
    requires req == ById(7)
    requires rest == [Recheck(0, 0, 0), Fetch(0, None), Clear(0), Notify(0), Register(1)]
    requires mid == State(EMPTY_INDEX, map[req := 0], 1, {}, map[0 := AtRecheck(req, 0), 1 := AtRegister(req, 0)])
    ensures IsRun(world, cfg, mid, rest)
    ensures var s := End(world, cfg, mid, rest);
            s.tasks.Keys == {0, 1} && s.tasks[0].Finished? && Stranded(s, 1) && s.inFlight == map[]
  {
    var cleared := State(EMPTY_INDEX, map[], 1, {}, map[0 := AtNotify(req, 0, Failed), 1 := AtRegister(req, 0)]);
    LostWakeupClears(world, cfg, req, mid, cleared);
    LostWakeupStrands(world, cfg, req, cleared);
    RunsCompose(world, cfg, mid, [Recheck(0, 0, 0), Fetch(0, None), Clear(0)], [Notify(0), Register(1)]);
    assert rest == [Recheck(0, 0, 0), Fetch(0, None), Clear(0)] + [Notify(0), Register(1)];
  }

  lemma LostWakeupClears(world: World, cfg: TtlConfig, req: Request, mid: State, cleared: State)
    requires req == ById(7)
    requires mid == State(EMPTY_INDEX, map[req := 0], 1, {}, map[0 := AtRecheck(req, 0), 1 := AtRegister(req, 0)])
    requires cleared == State(EMPTY_INDEX, map[], 1, {}, map[0 := AtNotify(req, 0, Failed), 1 := AtRegister(req, 0)])
    ensures var run := [Recheck(0, 0, 0), Fetch(0, None), Clear(0)];
            IsRun(world, cfg, mid, run) && End(world, cfg, mid, run) == cleared
  {
    var s1 := Next(cfg, mid, Recheck(0, 0, 0));
    var s2 := Next(cfg, s1, Fetch(0, None));
    var s3 := Next(cfg, s2, Clear(0));
    assert s3 == cleared;
    OneStep(world, cfg, s2, Clear(0), []);
    OneStep(world, cfg, s1, Fetch(0, None), [Clear(0)]);
    OneStep(world, cfg, mid, Recheck(0, 0, 0), [Fetch(0, None), Clear(0)]);
  }

  lemma LostWakeupStrands(world: World, cfg: TtlConfig, req: Request, cleared: State)
    requires cleared == State(EMPTY_INDEX, map[], 1, {}, map[0 := AtNotify(req, 0, Failed), 1 := AtRegister(req, 0)])
    ensures var run := [Notify(0), Register(1)];
            && IsRun(world, cfg, cleared, run)
            && var s := End(world, cfg, cleared, run);
               s.tasks.Keys == {0, 1} && s.tasks[0].Finished? && Stranded(s, 1) && s.inFlight == map[]
  {
    var s1 := Next(cfg, cleared, Notify(0));
    OneStep(world, cfg, s1, Register(1), []);
    OneStep(world, cfg, cleared, Notify(0), [Register(1)]);
  }

  // Progress.

  ghost predicate CanStep(world: World, s: State, t: nat)
  {
    exists a :: Enabled(world, s, a) && !a.Others? && !a.Call? && a.task == t
  }

  /** Nothing but a lost wake-up blocks: an unfinished task that is not waiting can step, and one
      that waits without being stranded waits for a loader that can. */
  lemma NeverStuck(world: World, s: State, t: nat)
    requires Good(world, s) && t in s.tasks && !s.tasks[t].Finished? && !Stranded(s, t)
    ensures !s.tasks[t].Waiting? ==> CanStep(world, s, t)
    ensures s.tasks[t].Waiting? ==> exists u :: IsLoader(s, u, s.tasks[t].notify) && CanStep(world, s, u)
  {
    if s.tasks[t].Waiting? {
      var u :| IsLoader(s, u, s.tasks[t].notify);
      ActiveCanStep(world, s, u);
    } else {
      ActiveCanStep(world, s, t);
    }
  }

  lemma ActiveCanStep(world: World, s: State, t: nat)
    requires t in s.tasks && !s.tasks[t].Finished? && !s.tasks[t].Waiting?
    ensures CanStep(world, s, t)
  {
    var a := match s.tasks[t]
      case AtCheck(_) => Check(t, 0, 0)
      case AtJoin(_) => Join(t)
      case AtRegister(_, _) => Register(t)
      case AtRecheck(_, _) => Recheck(t, 0, 0)
      case AtFetch(_, _) => Fetch(t, None)
      case AtAdd(_, _, _) => AddFetched(t, 0, 0)
      case AtClear(_, _, _) => Clear(t)
      case AtNotify(_, _, _) => Notify(t);
    assert Enabled(world, s, a) && a.task == t;
  }

  ghost function StepsBy(actions: seq<Action>, t: nat): nat
  {
    if actions == [] then 0
    else (if !actions[0].Others? && actions[0].task == t then 1 else 0) + StepsBy(actions[1..], t)
  }

  /** In every interleaving a loader ends its load within `Rank` steps of its own, and until then
      it is still there to end it. */
  lemma {:induction false} LoadsEnd(world: World, cfg: TtlConfig, s: State, actions: seq<Action>, u: nat)
    requires IsRun(world, cfg, s, actions) && u in s.tasks && Loads(s.tasks[u])
    ensures var e := End(world, cfg, s, actions);
            && (StepsBy(actions, u) >= Rank(s.tasks[u]) ==> s.tasks[u].notify in e.woken)
            && (s.tasks[u].notify !in e.woken ==> IsLoader(e, u, s.tasks[u].notify))
    decreases actions
  {
    if actions != [] {
      var a := actions[0];
      var s' := Next(cfg, s, a);
      LoaderStep(world, cfg, s, a, u);
      if Loads(s'.tasks[u]) {
        LoadsEnd(world, cfg, s', actions[1..], u);
      } else {
        WokenStays(world, cfg, s', actions[1..], s.tasks[u].notify);
      }
    }
  }

  lemma {:induction false} WokenStays(world: World, cfg: TtlConfig, s: State, actions: seq<Action>, n: nat)
    requires IsRun(world, cfg, s, actions) && n in s.woken
    ensures n in End(world, cfg, s, actions).woken
    decreases actions
  {
    if actions != [] {
      WokenStays(world, cfg, Next(cfg, s, actions[0]), actions[1..], n);
    }
  }

  lemma WaiterStep(world: World, cfg: TtlConfig, s: State, a: Action, u: nat, t: nat)
    requires PcsOk(world, s) && LoadersUnique(s) && Enabled(world, s, a)
    requires t in s.tasks && s.tasks[t].Waiting? && IsLoader(s, u, s.tasks[t].notify)
    ensures var s' := Next(cfg, s, a);
            if a == Notify(u) then s'.tasks[t] == AtCheck(s.tasks[t].req)
            else s'.tasks[t] == s.tasks[t] && IsLoader(s', u, s.tasks[t].notify)
  {
    assert PcOk(world, s, s.tasks[u]);
  }

  /** The end of a load wakes everyone who was listening: a waiter has moved on once its loader has
      taken the steps it had left. */
  lemma {:induction false} ListenersAreWoken(world: World, cfg: TtlConfig, s: State, actions: seq<Action>, u: nat,
                                             t: nat)
    requires Good(world, s) && IsRun(world, cfg, s, actions)
    requires t in s.tasks && s.tasks[t].Waiting? && IsLoader(s, u, s.tasks[t].notify)
    requires StepsBy(actions, u) >= Rank(s.tasks[u])
    ensures !StillWaiting(world, cfg, s, actions, t)
    decreases actions
  {
    var a := actions[0];
    var s' := Next(cfg, s, a);
    StepKeepsGood(world, cfg, s, a);
    WaiterStep(world, cfg, s, a, u, t);
    LoaderStep(world, cfg, s, a, u);
    if a != Notify(u) {
      ListenersAreWoken(world, cfg, s', actions[1..], u, t);
    }
  }

  /** The task has not moved during the whole run. */
  ghost predicate StillWaiting(world: World, cfg: TtlConfig, s: State, actions: seq<Action>, t: nat)
    requires IsRun(world, cfg, s, actions) && t in s.tasks
    decreases actions
  {
    actions == [] ||
    (Next(cfg, s, actions[0]).tasks[t] == s.tasks[t]
     && StillWaiting(world, cfg, Next(cfg, s, actions[0]), actions[1..], t))
  }
}
