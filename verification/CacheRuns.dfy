/** Whole runs of the region cache: any sequence of additions, leader updates, invalidations and
    lookups, started on the empty cache. */
module CacheRuns {
  import opened Machine
  import opened Keys
  import opened Regions
  import opened Ttl
  import opened RegionIndex

  datatype Op =
    | Add(region: RegionWithLeader, now: I64, draw: nat)
    | SetLeader(verId: RegionVerId, leader: Peer, now: I64, draw: nat)
    | Drop(verId: RegionVerId)
    | HitByKey(key: Key, now: I64, draw: nat)
    | HitById(id: RegionId, now: I64, draw: nat)

  function Apply(cfg: TtlConfig, c: Index, op: Op): Index
  {
    match op
    case Add(r, now, draw) => AddRegion(c, r, cfg.NextTtl(now, draw))
    case SetLeader(v, leader, now, draw) => UpdateLeader(c, v, leader, cfg.NextTtl(now, draw))
    case Drop(v) => Invalidate(c, v)
    case HitByKey(key, now, draw) => LookupByKey(cfg, c, key, now, draw).0
    case HitById(id, now, draw) => LookupById(cfg, c, id, now, draw).0
  }

  function Run(cfg: TtlConfig, ops: seq<Op>): Index
  {
    if ops == [] then EMPTY_INDEX else Apply(cfg, Run(cfg, ops[..|ops| - 1]), ops[|ops| - 1])
  }

  /** What the placement driver promises: a region holds at least one key, and a region's range
      does not change while its epoch does not. */
  ghost predicate Consistent(ops: seq<Op>)
  {
    && (forall i :: 0 <= i < |ops| && ops[i].Add? ==> GoodRange(ops[i].region))
    && (forall i, j ::
          0 <= i < |ops| && 0 <= j < |ops| && ops[i].Add? && ops[j].Add? ==>
          SameVersion(ops[i].region, ops[j].region) ==> ops[i].region.Range() == ops[j].region.Range())
  }

  /** The operation drops region `e`: an invalidation of it, or the addition of a region with its
      id or with a key of its. */
  ghost predicate Removes(op: Op, e: RegionWithLeader)
  {
    || (op.Drop? && op.verId == e.VerId())
    || (op.Add? && (op.region.Id() == e.Id() || !Disjoint(e, op.region)))
  }

  /** Operation `i` added the region, and nothing since has dropped it. */
  ghost predicate LiveFrom(ops: seq<Op>, i: int)
  {
    && 0 <= i < |ops| && ops[i].Add?
    && forall j :: i < j < |ops| ==> !Removes(ops[j], ops[i].region)
  }

  /** The region added by operation `i` with the leader of the latest update since. */
  ghost function Current(ops: seq<Op>, i: int): RegionWithLeader
    requires 0 <= i < |ops| && ops[i].Add?
    decreases |ops|
  {
    var last := ops[|ops| - 1];
    if i == |ops| - 1 then ops[i].region
    else if last.SetLeader? && last.verId == ops[i].region.VerId() then
      Current(ops[..|ops| - 1], i).(leader := Some(last.leader))
    else Current(ops[..|ops| - 1], i)
  }

  ghost predicate CachedFrom(cfg: TtlConfig, ops: seq<Op>, i: int)
    requires 0 <= i < |ops| && ops[i].Add?
  {
    var v := ops[i].region.VerId();
    v in Run(cfg, ops).regions && Run(cfg, ops).regions[v].region == Current(ops, i)
  }

  lemma {:induction false} CurrentSameRange(ops: seq<Op>, i: int)
    requires 0 <= i < |ops| && ops[i].Add?
    ensures Current(ops, i).region == ops[i].region.region
    decreases |ops|
  {
    if i < |ops| - 1 {
      CurrentSameRange(ops[..|ops| - 1], i);
    }
  }

  lemma SameRangeSameKeys(a: RegionWithLeader, b: RegionWithLeader)
    requires a.Range() == b.Range()
    ensures forall k: Key :: a.Contains(k) <==> b.Contains(k)
  {
  }

  lemma LivePrefix(ops: seq<Op>, i: int)
    requires 0 <= i < |ops| - 1
    ensures LiveFrom(ops, i) <==>
            LiveFrom(ops[..|ops| - 1], i) && !Removes(ops[|ops| - 1], ops[i].region)
  {
    var p := ops[..|ops| - 1];
    if LiveFrom(p, i) && !Removes(ops[|ops| - 1], ops[i].region) {
      forall j | i < j < |ops|
        ensures !Removes(ops[j], ops[i].region)
      {
        if j < |ops| - 1 {
          assert p[j] == ops[j];
        }
      }
    }
    if LiveFrom(ops, i) {
      assert forall j :: i < j < |p| ==> p[j] == ops[j];
    }
  }

  /** In every run the three indexes stay mutually inverse and the cached ranges disjoint. */
  lemma {:induction false} RunsKeepInv(cfg: TtlConfig, ops: seq<Op>)
    requires Consistent(ops)
    ensures Inv(Run(cfg, ops))
    decreases |ops|, 0
  {
    if ops != [] {
      var p, op := ops[..|ops| - 1], ops[|ops| - 1];
      var c := Run(cfg, p);
      RunsKeepInv(cfg, p);
      match op
      case Add(r, now, draw) =>
        if r.VerId() in c.regions {
          var i := CachedIsLive(cfg, p, r.VerId());
          CurrentSameRange(p, i);
          assert p[i] == ops[i];
          VerIdIff(ops[i].region, r);
          SameRangeSameKeys(c.regions[r.VerId()].region, r);
          GoodRangeIffStart(r);
          assert !Clashes(c, r);
        }
        AddRegionKeeps(c, r, cfg.NextTtl(now, draw));
      case SetLeader(v, leader, now, draw) => UpdateLeaderKeeps(c, v, leader, cfg.NextTtl(now, draw));
      case Drop(v) => InvalidateKeeps(c, v);
      case HitByKey(key, now, draw) => LookupByKeyExact(cfg, c, key, now, draw);
      case HitById(id, now, draw) => LookupByIdExact(cfg, c, id, now, draw);
    }
  }

  /** What one operation does to a cached region. */
  lemma ApplyFate(cfg: TtlConfig, c: Index, op: Op, v: RegionVerId)
    requires Inv(c) && v in c.regions && (op.Add? ==> GoodRange(op.region))
    ensures var c' := Apply(cfg, c, op);
            if op.Add? && op.region.VerId() == v then v in c'.regions && c'.regions[v].region == op.region
            else if Removes(op, c.regions[v].region) then v !in c'.regions
            else
              v in c'.regions && c'.regions[v].region ==
                if op.SetLeader? && op.verId == v then c.regions[v].region.(leader := Some(op.leader))
                else c.regions[v].region
  {
    assert EntryOk(c, v);
    match op
    case Add(r, now, draw) => AddRegionContents(c, r, cfg.NextTtl(now, draw));
    case SetLeader(_, _, _, _) =>
    case Drop(w) => InvalidateKeeps(c, w);
    case HitByKey(key, now, draw) => LookupByKeyExact(cfg, c, key, now, draw);
    case HitById(id, now, draw) => LookupByIdExact(cfg, c, id, now, draw);
  }

  /** What one operation does to the TTL of a region that is cached before and after: an addition or
      a leader update sets it anew, a lookup can only raise it, nothing else touches it. */
  lemma ApplyTtl(cfg: TtlConfig, c: Index, op: Op, v: RegionVerId)
    requires Inv(c) && v in c.regions && v in Apply(cfg, c, op).regions && (op.Add? ==> GoodRange(op.region))
    ensures var before, after := c.regions[v].ttl, Apply(cfg, c, op).regions[v].ttl;
            match op
            case Add(r, now, draw) => after == if r.VerId() == v then cfg.NextTtl(now, draw) else before
            case SetLeader(w, _, now, draw) => after == if w == v then cfg.NextTtl(now, draw) else before
            case Drop(_) => after == before
            case HitByKey(_, now, _) => before <= after && (after != before ==> now <= before <= cfg.Horizon(now))
            case HitById(_, now, _) => before <= after && (after != before ==> now <= before <= cfg.Horizon(now))
  {
    match op
    case Add(r, now, draw) => AddRegionContents(c, r, cfg.NextTtl(now, draw));
    case SetLeader(_, _, _, _) =>
    case Drop(w) => InvalidateKeeps(c, w);
    case HitByKey(key, now, draw) => LookupByKeyExact(cfg, c, key, now, draw);
    case HitById(id, now, draw) => LookupByIdExact(cfg, c, id, now, draw);
  }

  /** Only an addition brings a new version id in. */
  lemma ApplyOrigin(cfg: TtlConfig, c: Index, op: Op, v: RegionVerId)
    requires Inv(c) && v in Apply(cfg, c, op).regions && (op.Add? ==> GoodRange(op.region))
    ensures (op.Add? && op.region.VerId() == v) || v in c.regions
  {
    match op
    case Add(r, now, draw) => AddRegionContents(c, r, cfg.NextTtl(now, draw));
    case SetLeader(_, _, _, _) =>
    case Drop(w) => InvalidateKeeps(c, w);
    case HitByKey(key, now, draw) => LookupByKeyExact(cfg, c, key, now, draw);
    case HitById(id, now, draw) => LookupByIdExact(cfg, c, id, now, draw);
  }

  lemma RemovesByRange(op: Op, a: RegionWithLeader, b: RegionWithLeader)
    requires a.region == b.region
    ensures Removes(op, a) <==> Removes(op, b)
  {
    SameRangeSameKeys(a, b);
  }

  /** Every cached region was added by some operation and has not been dropped since. */
  lemma {:induction false} CachedIsLive(cfg: TtlConfig, ops: seq<Op>, v: RegionVerId) returns (i: nat)
    requires Consistent(ops) && v in Run(cfg, ops).regions
    ensures LiveFrom(ops, i) && ops[i].region.VerId() == v && CachedFrom(cfg, ops, i)
    decreases |ops|, 1
  {
    var p, op := ops[..|ops| - 1], ops[|ops| - 1];
    var c := Run(cfg, p);
    RunsKeepInv(cfg, p);
    ApplyOrigin(cfg, c, op, v);
    if op.Add? && op.region.VerId() == v {
      i := |ops| - 1;
    } else {
      i := CachedIsLive(cfg, p, v);
      ApplyFate(cfg, c, op, v);
      CurrentSameRange(p, i);
      RemovesByRange(op, ops[i].region, c.regions[v].region);
      LivePrefix(ops, i);
    }
  }

  /** And every region added and not dropped since is cached, with its latest leader. */
  lemma {:induction false} LiveIsCached(cfg: TtlConfig, ops: seq<Op>, i: nat)
    requires Consistent(ops) && LiveFrom(ops, i)
    ensures CachedFrom(cfg, ops, i)
    decreases |ops|
  {
    var p, op := ops[..|ops| - 1], ops[|ops| - 1];
    var c := Run(cfg, p);
    RunsKeepInv(cfg, p);
    if i < |ops| - 1 {
      LivePrefix(ops, i);
      LiveIsCached(cfg, p, i);
      var v := ops[i].region.VerId();
      CurrentSameRange(p, i);
      RemovesByRange(op, ops[i].region, c.regions[v].region);
      ApplyFate(cfg, c, op, v);
    }
  }

  /** Over every run: a key lookup hits exactly when some added region contains the key, has neither
      been invalidated nor displaced since, and has not expired; and it answers with that region as
      its latest leader update left it. */
  lemma LookupSeesHistory(cfg: TtlConfig, ops: seq<Op>, key: Key, now: I64, draw: nat)
    requires Consistent(ops)
    ensures var c := Run(cfg, ops);
            var hit := LookupByKey(cfg, c, key, now, draw).1;
            && (forall i: nat :: LiveFrom(ops, i) && ops[i].region.Contains(key) ==>
                  && ops[i].region.VerId() in c.regions
                  && (hit == Some(Current(ops, i)) <==> Fresh(cfg, c.regions[ops[i].region.VerId()], now)))
            && (hit.Some? ==> exists i: nat ::
                  LiveFrom(ops, i) && ops[i].region.Contains(key) && hit == Some(Current(ops, i)))
  {
    var c := Run(cfg, ops);
    RunsKeepInv(cfg, ops);
    LookupByKeyExact(cfg, c, key, now, draw);
    var hit := LookupByKey(cfg, c, key, now, draw).1;
    forall i: nat | LiveFrom(ops, i) && ops[i].region.Contains(key)
      ensures ops[i].region.VerId() in c.regions
      ensures hit == Some(Current(ops, i)) <==> Fresh(cfg, c.regions[ops[i].region.VerId()], now)
    {
      var v := ops[i].region.VerId();
      LiveIsCached(cfg, ops, i);
      CurrentSameRange(ops, i);
      SameRangeSameKeys(Current(ops, i), ops[i].region);
      CandidateIsTheOne(c, key, v);
    }
    if hit.Some? {
      var v :| v in c.regions && c.regions[v].region == hit.value && hit.value.Contains(key);
      var i := CachedIsLive(cfg, ops, v);
      CurrentSameRange(ops, i);
      SameRangeSameKeys(Current(ops, i), ops[i].region);
      assert LiveFrom(ops, i) && ops[i].region.Contains(key);
    }
  }

  /** And an id lookup hits exactly when some added region has the id, has neither been invalidated
      nor displaced since, and has not expired. */
  lemma LookupByIdSeesHistory(cfg: TtlConfig, ops: seq<Op>, id: RegionId, now: I64, draw: nat)
    requires Consistent(ops)
    ensures var c := Run(cfg, ops);
            var hit := LookupById(cfg, c, id, now, draw).1;
            && (forall i: nat :: LiveFrom(ops, i) && ops[i].region.Id() == id ==>
                  && ops[i].region.VerId() in c.regions
                  && (hit == Some(Current(ops, i)) <==> Fresh(cfg, c.regions[ops[i].region.VerId()], now)))
            && (hit.Some? ==> exists i: nat ::
                  LiveFrom(ops, i) && ops[i].region.Id() == id && hit == Some(Current(ops, i)))
  {
    var c := Run(cfg, ops);
    RunsKeepInv(cfg, ops);
    LookupByIdExact(cfg, c, id, now, draw);
    var hit := LookupById(cfg, c, id, now, draw).1;
    forall i: nat | LiveFrom(ops, i) && ops[i].region.Id() == id
      ensures ops[i].region.VerId() in c.regions
      ensures hit == Some(Current(ops, i)) <==> Fresh(cfg, c.regions[ops[i].region.VerId()], now)
    {
      LiveIsCached(cfg, ops, i);
      assert EntryOk(c, ops[i].region.VerId());
    }
    if hit.Some? {
      assert EntryOk(c, c.ids[id]);
      var i := CachedIsLive(cfg, ops, c.ids[id]);
      assert LiveFrom(ops, i) && ops[i].region.Id() == id;
    }
  }
}
