/** The region cache as the client runs it: three maps updated in place under one write lock, a
    backward scan that stops early, and lookups that touch a single entry. Every operation is
    proved equal to its whole-set counterpart in `RegionIndex`. */
module RegionCache {
  import opened Machine
  import opened Keys
  import opened Regions
  import opened Ttl
  import opened RegionIndex

  class RegionCache {
    var verIdToRegion: map<RegionVerId, CachedRegion>
    var keyToVerId: map<Key, RegionVerId>
    var idToVerId: map<RegionId, RegionVerId>
    const ttl: TtlConfig

    constructor (ttl: TtlConfig)
      ensures this.ttl == ttl && Value() == EMPTY_INDEX && Inv(Value())
    {
      this.ttl := ttl;
      verIdToRegion, keyToVerId, idToVerId := map[], map[], map[];
    }

    ghost function Value(): Index
      reads this
    {
      Index(verIdToRegion, keyToVerId, idToVerId)
    }

    /** Collects the cached regions that touch `region`, scanning start keys downwards from its
        end key and stopping at the first one that ends before it. No stale start key is met. */
    method ScanOverlaps(region: RegionWithLeader) returns (overlapping: set<RegionVerId>, staleStartKeys: set<Key>)
      requires Inv(Value())
      ensures overlapping == set v | v in verIdToRegion && Touches(verIdToRegion[v].region, region)
      ensures staleStartKeys == {}
    {
      overlapping, staleStartKeys := {}, {};
      var searchRange := SearchRange(keyToVerId.Keys, region.region.endKey);
      ghost var c := Value();
      ScanStarts(c, region);
      while searchRange != {}
        invariant ScanInv(c, region, searchRange, overlapping)
        invariant staleStartKeys == {}
        decreases |searchRange|
      {
        var k := Last(searchRange);
        searchRange := searchRange - {k};
        var v := keyToVerId[k];
        if v !in verIdToRegion {
          staleStartKeys := staleStartKeys + {k};
        } else {
          var endInCache := verIdToRegion[v].region.region.endKey;
          if endInCache == [] || Less(region.region.startKey, endInCache) {
            ScanTakes(c, region, searchRange + {k}, overlapping, k);
            assert searchRange + {k} - {k} == searchRange;
            overlapping := overlapping + {v};
          } else {
            ScanStops(c, region, searchRange + {k}, overlapping, k);
            break;
          }
        }
      }
    }

    /** Drops one region, if it is cached, from all three maps. */
    method Remove(verId: RegionVerId)
      modifies this
      ensures Value() == Invalidate(old(Value()), verId)
    {
      if verId in verIdToRegion {
        var removed := verIdToRegion[verId].region;
        verIdToRegion := verIdToRegion - {verId};
        keyToVerId := keyToVerId - {removed.region.startKey};
        idToVerId := idToVerId - {removed.Id()};
      }
    }

    /** Drops the given regions from all three maps, one at a time in any order. */
    method RemoveAll(doomed: set<RegionVerId>)
      requires Linked(Value())
      modifies this
      ensures Value() == Without(old(Value()), doomed)
    {
      ghost var c := Value();
      assert doomed - doomed == {} && Without(c, {}) == c;
      var left := doomed;
      while left != {}
        invariant left <= doomed
        invariant Value() == Without(c, doomed - left)
        decreases |left|
      {
        var v :| v in left;
        RemoveOne(c, doomed - left, v);
        assert doomed - left + {v} == doomed - (left - {v});
        left := left - {v};
        Remove(v);
      }
      assert doomed - left == doomed;
    }

    /** `add_region`. */
    method Add(region: RegionWithLeader, now: I64, draw: nat)
      requires Inv(Value())
      modifies this
      ensures Value() == AddRegion(old(Value()), region, ttl.NextTtl(now, draw))
      ensures Inv(Value()) <==> GoodRange(region) && !Clashes(old(Value()), region)
    {
      var ttlEpochSec := ttl.NextTtl(now, draw);
      var toBeRemoved: set<RegionVerId> := {};
      if region.Id() in idToVerId {
        var verId := idToVerId[region.Id()];
        if verId != region.VerId() {
          toBeRemoved := toBeRemoved + {verId};
        }
      }
      var overlapping, staleStartKeys := ScanOverlaps(region);
      keyToVerId := keyToVerId - staleStartKeys;
      toBeRemoved := toBeRemoved + overlapping;
      ghost var c := old(Value());
      assert Value() == c;
      SameIdIsIndexed(c, region);
      assert toBeRemoved == Evicted(c, region);
      RemoveAll(toBeRemoved);
      var verId := region.VerId();
      keyToVerId := keyToVerId[region.region.startKey := verId];
      idToVerId := idToVerId[region.Id() := verId];
      verIdToRegion := verIdToRegion[verId := CachedRegion(region, ttlEpochSec)];
      AddRegionKeepsIff(c, region, ttlEpochSec);
    }

    /** `update_leader`. */
    method SetLeader(verId: RegionVerId, leader: Peer, now: I64, draw: nat)
      requires Inv(Value())
      modifies this
      ensures Value() == UpdateLeader(old(Value()), verId, leader, ttl.NextTtl(now, draw)) && Inv(Value())
    {
      UpdateLeaderKeeps(Value(), verId, leader, ttl.NextTtl(now, draw));
      if verId in verIdToRegion {
        var cached := verIdToRegion[verId];
        verIdToRegion := verIdToRegion[
          verId := CachedRegion(cached.region.(leader := Some(leader)), ttl.NextTtl(now, draw))];
      }
    }

    /** `invalidate_region_cache`. */
    method InvalidateRegion(verId: RegionVerId)
      requires Inv(Value())
      modifies this
      ensures Value() == Invalidate(old(Value()), verId) && Inv(Value())
    {
      InvalidateKeeps(Value(), verId);
      Remove(verId);
    }

    /** `check_and_refresh` on one entry, without interference. */
    method CheckAndRefresh(verId: RegionVerId, now: I64, draw: nat) returns (valid: bool)
      requires verId in verIdToRegion
      modifies this
      ensures Value() == Refresh(ttl, old(Value()), verId, now, draw)
      ensures valid == ttl.CheckAndRefresh(old(verIdToRegion)[verId].ttl, now, draw).0
    {
      var (answer, newTtl) := ttl.CheckAndRefresh(verIdToRegion[verId].ttl, now, draw);
      verIdToRegion := verIdToRegion[verId := verIdToRegion[verId].(ttl := newTtl)];
      valid := answer;
    }

    /** The cache-hit path of `get_region_by_key`. */
    method HitByKey(key: Key, now: I64, draw: nat) returns (hit: Option<RegionWithLeader>)
      requires Inv(Value())
      modifies this
      ensures (Value(), hit) == LookupByKey(ttl, old(Value()), key, now, draw) && Inv(Value())
      ensures hit.Some? <==>
              exists v :: v in old(verIdToRegion) && old(verIdToRegion)[v].region.Contains(key)
                          && Fresh(ttl, old(verIdToRegion)[v], now)
    {
      LookupByKeyExact(ttl, Value(), key, now, draw);
      hit := None;
      var below := set k | k in keyToVerId && AtMost(k, key);
      if below != {} {
        var verId := keyToVerId[Last(below)];
        if verId in verIdToRegion {
          var region := verIdToRegion[verId].region;
          var valid := CheckAndRefresh(verId, now, draw);
          if valid && region.Contains(key) {
            hit := Some(region);
          }
        }
      }
    }

    /** The cache-hit path of `get_region_by_id`. */
    method HitById(id: RegionId, now: I64, draw: nat) returns (hit: Option<RegionWithLeader>)
      requires Inv(Value())
      modifies this
      ensures (Value(), hit) == LookupById(ttl, old(Value()), id, now, draw) && Inv(Value())
      ensures hit.Some? ==> hit.value.Id() == id
    {
      LookupByIdExact(ttl, Value(), id, now, draw);
      hit := None;
      if id in idToVerId {
        var verId := idToVerId[id];
        if verId in verIdToRegion {
          var region := verIdToRegion[verId].region;
          var valid := CheckAndRefresh(verId, now, draw);
          if valid {
            hit := Some(region);
          }
        }
      }
    }
  }

  /** The start keys `range(..end_key)` ranges over; all of them when the end key is empty. */
  function SearchRange(starts: set<Key>, endKey: Key): set<Key>
  {
    set k | k in starts && (endKey == [] || Less(k, endKey))
  }

  /** The scan has found exactly the touching regions that start outside the keys left. */
  ghost predicate ScanInv(c: Index, region: RegionWithLeader, left: set<Key>, found: set<RegionVerId>)
  {
    && left <= SearchRange(c.starts.Keys, region.region.endKey)
    && found == set v | v in c.regions && Touches(c.regions[v].region, region)
                        && c.regions[v].region.region.startKey !in left
  }

  lemma ScanStarts(c: Index, region: RegionWithLeader)
    requires Inv(c)
    ensures ScanInv(c, region, SearchRange(c.starts.Keys, region.region.endKey), {})
  {
    forall v | v in c.regions && Touches(c.regions[v].region, region)
      ensures c.regions[v].region.region.startKey in SearchRange(c.starts.Keys, region.region.endKey)
    {
      assert EntryOk(c, v);
    }
  }

  lemma ScanTakes(c: Index, region: RegionWithLeader, left: set<Key>, found: set<RegionVerId>, k: Key)
    requires Inv(c) && ScanInv(c, region, left, found) && k in left
    requires var end := c.regions[c.starts[k]].region.region.endKey;
             end == [] || Less(region.region.startKey, end)
    ensures ScanInv(c, region, left - {k}, found + {c.starts[k]})
  {
    forall v | v in c.regions && c.regions[v].region.region.startKey == k
      ensures v == c.starts[k]
    {
      assert EntryOk(c, v);
    }
  }

  lemma ScanStops(c: Index, region: RegionWithLeader, left: set<Key>, found: set<RegionVerId>, k: Key)
    requires Inv(c) && ScanInv(c, region, left, found) && IsLast(k, left)
    requires var end := c.regions[c.starts[k]].region.region.endKey;
             end != [] && !Less(region.region.startKey, end)
    ensures found == set v | v in c.regions && Touches(c.regions[v].region, region)
  {
    forall v | v in c.regions && c.regions[v].region.region.startKey in left
      ensures !Touches(c.regions[v].region, region)
    {
      assert EntryOk(c, v);
      if v != c.starts[k] {
        EndsBefore(c, c.regions[v].region.region.startKey, k, region);
      }
    }
  }

  /** What licenses the early stop: when the region starting at `k` ends before `region` starts,
      so does every region starting earlier. */
  lemma EndsBefore(c: Index, l: Key, k: Key, region: RegionWithLeader)
    requires Inv(c) && l in c.starts && k in c.starts && AtMost(l, k) && l != k
    requires var end := c.regions[c.starts[k]].region.region.endKey;
             end != [] && !Less(region.region.startKey, end)
    ensures !Touches(c.regions[c.starts[l]].region, region)
  {
    LessTotal(l, k);
    EarlierEndsFirst(c, c.starts[l], c.starts[k]);
    var lEnd := c.regions[c.starts[l]].region.region.endKey;
    var kEnd := c.regions[c.starts[k]].region.region.endKey;
    assert EntryOk(c, c.starts[k]);
    AtMostLess(lEnd, k, kEnd);
    if Less(region.region.startKey, lEnd) {
      LessTransitive(region.region.startKey, lEnd, kEnd);
    }
  }

  /** The id index finds every cached region that shares `region`'s id. */
  lemma SameIdIsIndexed(c: Index, region: RegionWithLeader)
    requires Inv(c)
    ensures forall v :: v in c.regions ==>
      c.regions[v].region.VerId() == v
      && (v.id == region.Id() <==> region.Id() in c.ids && c.ids[region.Id()] == v)
  {
    forall v | v in c.regions
      ensures c.regions[v].region.VerId() == v
              && (v.id == region.Id() <==> region.Id() in c.ids && c.ids[region.Id()] == v)
    {
      assert EntryOk(c, v);
    }
  }
}
