/** The region cache as values: the three indexes, the invariant that ties them together, and each
    cache operation as one update of the whole set of cached regions. */
module RegionIndex {
  import opened Machine
  import opened Keys
  import opened Regions
  import opened Ttl

  datatype CachedRegion = CachedRegion(region: RegionWithLeader, ttl: I64)

  datatype Index = Index(
    regions: map<RegionVerId, CachedRegion>,
    starts: map<Key, RegionVerId>,
    ids: map<RegionId, RegionVerId>)

  const EMPTY_INDEX: Index := Index(map[], map[], map[])

  /** A cached region is reachable by its own version id, start key and id. */
  ghost predicate EntryOk(c: Index, v: RegionVerId)
    requires v in c.regions
  {
    var r := c.regions[v].region;
    && r.VerId() == v
    && GoodRange(r)
    && r.region.startKey in c.starts && c.starts[r.region.startKey] == v
    && v.id in c.ids && c.ids[v.id] == v
  }

  ghost predicate Indexed(c: Index)
  {
    forall v :: v in c.regions ==> EntryOk(c, v)
  }

  /** No start key dangles. */
  ghost predicate StartsBacked(c: Index)
  {
    forall k :: k in c.starts ==> c.starts[k] in c.regions && c.regions[c.starts[k]].region.region.startKey == k
  }

  /** No id dangles. */
  ghost predicate IdsBacked(c: Index)
  {
    forall i :: i in c.ids ==> c.ids[i] in c.regions && c.ids[i].id == i
  }

  ghost predicate PairwiseDisjoint(c: Index)
  {
    forall v, w :: v in c.regions && w in c.regions && v != w ==>
      Disjoint(c.regions[v].region, c.regions[w].region)
  }

  /** The three indexes are mutually inverse. */
  ghost predicate Linked(c: Index)
  {
    Indexed(c) && StartsBacked(c) && IdsBacked(c)
  }

  ghost predicate Inv(c: Index)
  {
    Linked(c) && PairwiseDisjoint(c)
  }

  /** Under the invariant the set of regions determines the other two indexes. */
  lemma RegionsDetermineIndex(c: Index, d: Index)
    requires Inv(c) && Inv(d) && c.regions == d.regions
    ensures c == d
  {
    assert c.starts == d.starts;
    assert c.ids == d.ids;
  }

  /** `r` displaces a cached region `e`: same id under another version, or a range that touches. */
  predicate Evicts(r: RegionWithLeader, e: RegionWithLeader)
  {
    || (e.Id() == r.Id() && e.VerId() != r.VerId())
    || Touches(e, r)
  }

  /** The cached regions `r` displaces. */
  function Evicted(c: Index, r: RegionWithLeader): set<RegionVerId>
  {
    set v | v in c.regions && Evicts(r, c.regions[v].region)
  }

  function DropValues<K(==), V(==)>(m: map<K, V>, gone: set<V>): map<K, V>
  {
    map k | k in m && m[k] !in gone :: m[k]
  }

  function Without(c: Index, doomed: set<RegionVerId>): Index
  {
    Index(
      c.regions - doomed,
      DropValues(c.starts, doomed),
      DropValues(c.ids, doomed))
  }

  function Insert(c: Index, r: RegionWithLeader, ttl: I64): Index
  {
    Index(
      c.regions[r.VerId() := CachedRegion(r, ttl)],
      c.starts[r.region.startKey := r.VerId()],
      c.ids[r.Id() := r.VerId()])
  }

  /** `add_region` without any scan: filter the whole set, then insert. */
  function AddRegion(c: Index, r: RegionWithLeader, ttl: I64): Index
  {
    Insert(Without(c, Evicted(c, r)), r, ttl)
  }

  function UpdateLeader(c: Index, v: RegionVerId, leader: Peer, ttl: I64): Index
  {
    if v in c.regions then
      var r := c.regions[v].region;
      c.(regions := c.regions[v := CachedRegion(r.(leader := Some(leader)), ttl)])
    else c
  }

  function Invalidate(c: Index, v: RegionVerId): Index
  {
    if v in c.regions then
      var r := c.regions[v].region;
      Index(c.regions - {v}, c.starts - {r.region.startKey}, c.ids - {r.Id()})
    else c
  }

  function SetTtl(c: Index, v: RegionVerId, ttl: I64): Index
    requires v in c.regions
  {
    c.(regions := c.regions[v := c.regions[v].(ttl := ttl)])
  }

  /** The version id of the predecessor lookup `range(..=key).next_back()`. */
  function Candidate(c: Index, key: Key): Option<RegionVerId>
  {
    var below := set k | k in c.starts && AtMost(k, key);
    if below == {} then None else Some(c.starts[Last(below)])
  }

  /** The effect of `check_and_refresh` on one entry: its TTL may move, whatever the lookup then
      decides. */
  function Refresh(cfg: TtlConfig, c: Index, v: RegionVerId, now: I64, draw: nat): Index
    requires v in c.regions
  {
    SetTtl(c, v, cfg.CheckAndRefresh(c.regions[v].ttl, now, draw).1)
  }

  /** The cache-hit path of `get_region_by_key`. */
  function LookupByKey(cfg: TtlConfig, c: Index, key: Key, now: I64, draw: nat)
    : (Index, Option<RegionWithLeader>)
  {
    match Candidate(c, key)
    case None => (c, None)
    case Some(v) =>
      if v !in c.regions then (c, None)
      else
        var e := c.regions[v];
        var valid := cfg.CheckAndRefresh(e.ttl, now, draw).0;
        (Refresh(cfg, c, v, now, draw), if valid && e.region.Contains(key) then Some(e.region) else None)
  }

  /** The cache-hit path of `get_region_by_id`. */
  function LookupById(cfg: TtlConfig, c: Index, id: RegionId, now: I64, draw: nat)
    : (Index, Option<RegionWithLeader>)
  {
    if id !in c.ids || c.ids[id] !in c.regions then (c, None)
    else
      var v := c.ids[id];
      var valid := cfg.CheckAndRefresh(c.regions[v].ttl, now, draw).0;
      (Refresh(cfg, c, v, now, draw), if valid then Some(c.regions[v].region) else None)
  }

  /** A region already cached under `r`'s version id lies elsewhere in the key space. */
  ghost predicate Clashes(c: Index, r: RegionWithLeader)
  {
    r.VerId() in c.regions && Disjoint(c.regions[r.VerId()].region, r)
  }

  /** From any state satisfying the invariant, adding `r` leaves exactly the regions that are
      disjoint from `r` and have another id, and `r` itself. */
  lemma AddRegionContents(c: Index, r: RegionWithLeader, ttl: I64)
    requires Inv(c) && GoodRange(r)
    ensures var c' := AddRegion(c, r, ttl);
            && c'.regions.Keys ==
                 (set v | v in c.regions && Disjoint(c.regions[v].region, r) && v.id != r.Id()) + {r.VerId()}
            && c'.regions[r.VerId()] == CachedRegion(r, ttl)
            && (forall v :: v in c'.regions && v != r.VerId() ==> c'.regions[v] == c.regions[v])
  {
    forall v | v in c.regions
      ensures v !in Evicted(c, r) && v != r.VerId() <==> Disjoint(c.regions[v].region, r) && v.id != r.Id()
    {
      assert EntryOk(c, v);
      TouchesIffShared(c.regions[v].region, r);
    }
  }

  lemma DropOneValue<K, V>(m: map<K, V>, gone: set<V>, k: K, v: V)
    requires forall j :: j in m && m[j] == v ==> j == k
    requires k in m ==> m[k] == v
    ensures DropValues(m, gone + {v}) == DropValues(m, gone) - {k}
  {
  }

  lemma DropNoValue<K, V>(m: map<K, V>, gone: set<V>, v: V)
    requires v in gone || forall j :: j in m ==> m[j] != v
    ensures DropValues(m, gone + {v}) == DropValues(m, gone)
  {
  }

  /** Removing one more region from the three maps. */
  lemma RemoveOne(c: Index, gone: set<RegionVerId>, v: RegionVerId)
    requires Linked(c)
    ensures Without(c, gone + {v}) == Invalidate(Without(c, gone), v)
  {
    if v in c.regions && v !in gone {
      assert EntryOk(c, v);
      assert c.regions - (gone + {v}) == c.regions - gone - {v};
      DropOneValue(c.starts, gone, c.regions[v].region.region.startKey, v);
      DropOneValue(c.ids, gone, v.id, v);
    } else {
      assert c.regions - (gone + {v}) == c.regions - gone;
      DropNoValue(c.starts, gone, v);
      DropNoValue(c.ids, gone, v);
    }
  }

  lemma WithoutKeeps(c: Index, gone: set<RegionVerId>)
    requires Inv(c)
    ensures Inv(Without(c, gone))
  {
    var d := Without(c, gone);
    forall v | v in d.regions
      ensures EntryOk(d, v)
    {
      assert EntryOk(c, v);
    }
  }

  lemma InsertKeepsEntry(c: Index, r: RegionWithLeader, ttl: I64, v: RegionVerId)
    requires Linked(c) && GoodRange(r) && r.Id() !in c.ids && v in c.regions && Disjoint(c.regions[v].region, r)
    ensures EntryOk(Insert(c, r, ttl), v)
  {
    assert EntryOk(c, v);
    GoodRangeIffStart(r);
    GoodRangeIffStart(c.regions[v].region);
  }

  lemma InsertBacked(c: Index, r: RegionWithLeader, ttl: I64)
    requires StartsBacked(c) && IdsBacked(c) && r.VerId() !in c.regions
    ensures StartsBacked(Insert(c, r, ttl)) && IdsBacked(Insert(c, r, ttl))
  {
  }

  lemma InsertDisjoint(c: Index, r: RegionWithLeader, ttl: I64)
    requires PairwiseDisjoint(c) && forall v :: v in c.regions ==> Disjoint(c.regions[v].region, r)
    ensures PairwiseDisjoint(Insert(c, r, ttl))
  {
  }

  lemma InsertKeeps(c: Index, r: RegionWithLeader, ttl: I64)
    requires Inv(c) && GoodRange(r) && r.Id() !in c.ids
    requires forall v :: v in c.regions ==> Disjoint(c.regions[v].region, r)
    ensures Inv(Insert(c, r, ttl))
  {
    InsertDisjoint(c, r, ttl);
    forall v | v in c.regions
      ensures EntryOk(Insert(c, r, ttl), v) && v != r.VerId()
    {
      assert EntryOk(c, v);
      InsertKeepsEntry(c, r, ttl, v);
    }
    InsertBacked(c, r, ttl);
    assert EntryOk(Insert(c, r, ttl), r.VerId());
  }

  lemma AddRegionKeeps(c: Index, r: RegionWithLeader, ttl: I64)
    requires Inv(c) && GoodRange(r) && !Clashes(c, r)
    ensures Inv(AddRegion(c, r, ttl))
  {
    var d := Without(c, Evicted(c, r));
    WithoutKeeps(c, Evicted(c, r));
    forall v | v in c.regions
      ensures EntryOk(c, v)
      ensures v !in Evicted(c, r) ==> Disjoint(c.regions[v].region, r) && v.id != r.Id()
    {
      assert EntryOk(c, v);
      TouchesIffShared(c.regions[v].region, r);
    }
    InsertKeeps(d, r, ttl);
  }

  /** `add_region` keeps the invariant exactly when the new range holds a key and does not clash
      with a region cached under the same version id. */
  lemma AddRegionKeepsIff(c: Index, r: RegionWithLeader, ttl: I64)
    requires Inv(c)
    ensures Inv(AddRegion(c, r, ttl)) <==> GoodRange(r) && !Clashes(c, r)
  {
    var c' := AddRegion(c, r, ttl);
    assert r.VerId() in c'.regions && c'.regions[r.VerId()].region == r;
    if GoodRange(r) && Clashes(c, r) {
      var e := c.regions[r.VerId()].region;
      TouchesIffShared(e, r);
      GoodRangeIffStart(e);
      GoodRangeIffStart(r);
      assert r.VerId() !in Evicted(c, r);
      assert e.region.startKey in c'.starts && c'.starts[e.region.startKey] == r.VerId();
      assert !StartsBacked(c');
    } else if GoodRange(r) {
      AddRegionKeeps(c, r, ttl);
    }
  }

  lemma UpdateLeaderKeeps(c: Index, v: RegionVerId, leader: Peer, ttl: I64)
    requires Inv(c)
    ensures Inv(UpdateLeader(c, v, leader, ttl))
  {
    if v in c.regions {
      var r := c.regions[v].region;
      var r' := r.(leader := Some(leader));
      assert forall k: Key :: r'.Contains(k) <==> r.Contains(k);
    }
  }

  lemma InvalidateKeeps(c: Index, v: RegionVerId)
    requires Inv(c)
    ensures Inv(Invalidate(c, v))
    ensures Invalidate(c, v).regions == c.regions - {v}
  {
    assert Without(c, {}) == c;
    assert {} + {v} == {v};
    RemoveOne(c, {}, v);
    WithoutKeeps(c, {v});
  }

  /** Of two cached regions, the one that starts earlier also ends before the other starts. */
  lemma EarlierEndsFirst(c: Index, v: RegionVerId, w: RegionVerId)
    requires Inv(c) && v in c.regions && w in c.regions
    requires Less(c.regions[v].region.region.startKey, c.regions[w].region.region.startKey)
    ensures var end := c.regions[v].region.region.endKey;
            end != [] && AtMost(end, c.regions[w].region.region.startKey)
  {
    var a, b := c.regions[v].region, c.regions[w].region;
    LessAsymmetric(a.region.startKey, b.region.startKey);
    GoodRangeIffStart(b);
    assert Disjoint(a, b);
    assert !a.Contains(b.region.startKey);
  }

  /** The predecessor lookup followed by `contains` finds a region exactly when some cached region
      contains the key, and it is the only one. */
  lemma CandidateIsTheOne(c: Index, key: Key, v: RegionVerId)
    requires Inv(c)
    ensures v in c.regions && c.regions[v].region.Contains(key)
            <==> Candidate(c, key) == Some(v) && c.regions[v].region.Contains(key)
  {
    var below := set k | k in c.starts && AtMost(k, key);
    if v in c.regions && c.regions[v].region.Contains(key) {
      var s := c.regions[v].region.region.startKey;
      assert s in below;
      var last := Last(below);
      if last != s {
        LessTotal(s, last);
        EarlierEndsFirst(c, v, c.starts[last]);
        var end := c.regions[v].region.region.endKey;
        LessAtMost(key, end, last);
      }
    }
  }

  /** Of the cached regions that start at or before the key, the one that starts last. */
  ghost predicate Nearest(c: Index, key: Key, v: RegionVerId)
  {
    && v in c.regions && AtMost(c.regions[v].region.region.startKey, key)
    && forall w :: w in c.regions && AtMost(c.regions[w].region.region.startKey, key) ==>
         AtMost(c.regions[w].region.region.startKey, c.regions[v].region.region.startKey)
  }

  lemma CandidateIsNearest(c: Index, key: Key, v: RegionVerId)
    requires Inv(c)
    ensures Candidate(c, key) == Some(v) <==> Nearest(c, key, v)
  {
    var below := set k | k in c.starts && AtMost(k, key);
    if Nearest(c, key, v) {
      var start := c.regions[v].region.region.startKey;
      assert EntryOk(c, v) && start in below;
      var last := Last(below);
      LessTotal(start, last);
    }
    if Candidate(c, key) == Some(v) {
      assert forall w :: w in c.regions && AtMost(c.regions[w].region.region.startKey, key) ==> EntryOk(c, w);
    }
  }

  /** Two indexes that differ at most in their TTLs. */
  ghost predicate SameButTtl(c: Index, d: Index)
  {
    && c.starts == d.starts && c.ids == d.ids && c.regions.Keys == d.regions.Keys
    && forall v :: v in c.regions ==> c.regions[v].region == d.regions[v].region
  }

  lemma SameButTtlKeeps(c: Index, d: Index)
    requires Inv(c) && SameButTtl(c, d)
    ensures Inv(d)
  {
    forall v | v in d.regions
      ensures EntryOk(d, v)
    {
      assert EntryOk(c, v);
    }
  }

  predicate Fresh(cfg: TtlConfig, e: CachedRegion, now: I64)
  {
    cfg.baseSec <= 0 || now <= e.ttl
  }

  /** `get_region_by_key` hits exactly when an unexpired cached region contains the key, answers
      with that region, and leaves the cached regions as they were but for the TTL of the nearest one
      that starts at or before the key, which is refreshed whether or not it contains the key. */
  lemma LookupByKeyExact(cfg: TtlConfig, c: Index, key: Key, now: I64, draw: nat)
    requires Inv(c)
    ensures var (c', hit) := LookupByKey(cfg, c, key, now, draw);
            && (forall v :: v in c.regions && c.regions[v].region.Contains(key) && Fresh(cfg, c.regions[v], now)
                  ==> hit == Some(c.regions[v].region))
            && (hit.Some? ==>
                  exists v :: v in c.regions && c.regions[v].region == hit.value && hit.value.Contains(key)
                              && Fresh(cfg, c.regions[v], now))
            && SameButTtl(c, c') && Inv(c')
            && (forall v :: v in c.regions ==>
                  c'.regions[v].ttl ==
                    if Nearest(c, key, v) then cfg.CheckAndRefresh(c.regions[v].ttl, now, draw).1
                    else c.regions[v].ttl)
  {
    var (c', hit) := LookupByKey(cfg, c, key, now, draw);
    SameButTtlKeeps(c, c');
    forall v | v in c.regions
      ensures c.regions[v].region.Contains(key) ==> Candidate(c, key) == Some(v)
      ensures Candidate(c, key) == Some(v) <==> Nearest(c, key, v)
    {
      CandidateIsTheOne(c, key, v);
      CandidateIsNearest(c, key, v);
    }
  }

  /** The same for `get_region_by_id`: it hits exactly when an unexpired cached region has the id. */
  lemma LookupByIdExact(cfg: TtlConfig, c: Index, id: RegionId, now: I64, draw: nat)
    requires Inv(c)
    ensures var (c', hit) := LookupById(cfg, c, id, now, draw);
            && (forall v :: v in c.regions && v.id == id && Fresh(cfg, c.regions[v], now)
                  ==> hit == Some(c.regions[v].region))
            && (hit.Some? ==>
                  exists v :: v in c.regions && c.regions[v].region == hit.value && hit.value.Id() == id
                              && Fresh(cfg, c.regions[v], now))
            && SameButTtl(c, c') && Inv(c')
            && (forall v :: v in c.regions ==>
                  c'.regions[v].ttl ==
                    if v.id == id then cfg.CheckAndRefresh(c.regions[v].ttl, now, draw).1 else c.regions[v].ttl)
  {
    var (c', hit) := LookupById(cfg, c, id, now, draw);
    SameButTtlKeeps(c, c');
    forall v | v in c.regions && v.id == id
      ensures id in c.ids && c.ids[id] == v
    {
      assert EntryOk(c, v);
    }
    if hit.Some? {
      assert EntryOk(c, c.ids[id]);
    }
  }

  /** Whoever knows a region's id and epoch can reach it after it has been added: a leader update by
      them changes just that region's leader and TTL, and an invalidation by them removes just it. */
  lemma AddedIsNamed(c: Index, r: RegionWithLeader, ttl: I64, leader: Peer, newTtl: I64)
    ensures var c', v := AddRegion(c, r, ttl), RegionVerId(r.region.id, EpochOf(r).confVer, EpochOf(r).version);
            && UpdateLeader(c', v, leader, newTtl)
               == c'.(regions := c'.regions[v := CachedRegion(RegionWithLeader(r.region, Some(leader)), newTtl)])
            && Invalidate(c', v)
               == Index(c'.regions - {v}, c'.starts - {r.region.startKey}, c'.ids - {r.region.id})
  {
    VerIdIff(r, r);
  }

  /** A start key left behind: any two regions of one id, both without an epoch, with disjoint
      ranges. After both have been added, the first one's start key names a region that starts
      elsewhere. */
  lemma ClashBreaksIndex(a: RegionWithLeader, b: RegionWithLeader, ttl: I64)
    requires GoodRange(a) && GoodRange(b) && Disjoint(a, b)
    requires a.Id() == b.Id() && a.region.epoch == None && b.region.epoch == None
    ensures var c := AddRegion(EMPTY_INDEX, a, ttl);
            var c' := AddRegion(c, b, ttl);
            && Inv(c) && !Inv(c')
            && a.region.startKey in c'.starts && c'.starts[a.region.startKey] in c'.regions
            && c'.regions[c'.starts[a.region.startKey]].region == b && b.region.startKey != a.region.startKey
  {
    var c := AddRegion(EMPTY_INDEX, a, ttl);
    AddRegionKeeps(EMPTY_INDEX, a, ttl);
    TouchesIffShared(a, b);
    GoodRangeIffStart(a);
    GoodRangeIffStart(b);
    assert Evicted(c, b) == {};
    assert Clashes(c, b);
    AddRegionKeepsIff(c, b, ttl);
  }

  /** There are such regions. */
  lemma ClashExists()
    ensures exists a, b :: GoodRange(a) && GoodRange(b) && Disjoint(a, b)
                           && a.Id() == b.Id() && a.region.epoch == None && b.region.epoch == None
  {
    var a := RegionWithLeader(Region(1, [1], [2], None), None);
    var b := RegionWithLeader(Region(1, [3], [4], None), None);
    assert Less([1], [2]) && Less([3], [4]) && !Less([3], [2]);
    TouchesIffShared(a, b);
    assert GoodRange(a) && GoodRange(b) && Disjoint(a, b) && a.Id() == b.Id();
  }
}
