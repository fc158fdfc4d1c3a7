/** Regions: key ranges `[start, end)` in which an empty end key means "+inf", and the identity of
    a region across time. */
module Regions {
  import opened Machine
  import opened Keys

  type RegionId = U64

  datatype RegionVerId = RegionVerId(id: RegionId, confVer: U64, ver: U64)

  datatype RegionEpoch = RegionEpoch(confVer: U64, version: U64)

  datatype Peer = Peer(id: U64, storeId: U64)

  datatype Region = Region(id: RegionId, startKey: Key, endKey: Key, epoch: Option<RegionEpoch>)

  datatype RegionWithLeader = RegionWithLeader(region: Region, leader: Option<Peer>) {

    predicate Contains(key: Key) {
      AtMost(region.startKey, key) && (Less(key, region.endKey) || region.endKey == [])
    }

    function Id(): RegionId {
      region.id
    }

    function VerId(): (v: RegionVerId)
      ensures v.id == Id()
    {
      match region.epoch
      case Some(epoch) => RegionVerId(region.id, epoch.confVer, epoch.version)
      case None => RegionVerId(region.id, 0, 0)
    }

    function Range(): (Key, Key) {
      (region.startKey, region.endKey)
    }
  }

  /** The epoch of a region; a missing one counts as zero. */
  function EpochOf(r: RegionWithLeader): RegionEpoch
  {
    if r.region.epoch == None then RegionEpoch(0, 0) else r.region.epoch.value
  }

  /** The same region at the same epoch. */
  predicate SameVersion(a: RegionWithLeader, b: RegionWithLeader)
  {
    a.region.id == b.region.id && EpochOf(a) == EpochOf(b)
  }

  /** A version id tells regions apart by id and epoch, and by nothing else. */
  lemma VerIdIff(a: RegionWithLeader, b: RegionWithLeader)
    ensures a.VerId() == RegionVerId(a.region.id, EpochOf(a).confVer, EpochOf(a).version)
    ensures a.VerId() == b.VerId() <==> SameVersion(a, b)
  {
  }

  /** A range that holds at least one key. */
  predicate GoodRange(r: RegionWithLeader)
  {
    r.region.endKey == [] || Less(r.region.startKey, r.region.endKey)
  }

  /** No key belongs to both regions. */
  ghost predicate Disjoint(a: RegionWithLeader, b: RegionWithLeader)
  {
    forall k: Key :: !(a.Contains(k) && b.Contains(k))
  }

  /** The cache's own test, by boundary comparisons: `a` starts before `b` ends and ends after `b`
      starts. */
  predicate Touches(a: RegionWithLeader, b: RegionWithLeader)
  {
    && (b.region.endKey == [] || Less(a.region.startKey, b.region.endKey))
    && (a.region.endKey == [] || Less(b.region.startKey, a.region.endKey))
  }

  /** A region contains its own start key exactly when its range is good. */
  lemma GoodRangeIffStart(r: RegionWithLeader)
    ensures GoodRange(r) <==> r.Contains(r.region.startKey)
    ensures GoodRange(r) <==> exists k: Key :: r.Contains(k)
  {
    LessIrreflexive(r.region.startKey);
    forall k: Key | r.Contains(k)
      ensures GoodRange(r)
    {
      if r.region.endKey != [] {
        AtMostLess(r.region.startKey, k, r.region.endKey);
      }
    }
  }

  /** On good ranges the boundary test decides overlap, with "+inf" ends included. */
  lemma TouchesIffShared(a: RegionWithLeader, b: RegionWithLeader)
    requires GoodRange(a) && GoodRange(b)
    ensures Touches(a, b) <==> !Disjoint(a, b)
  {
    var p, q := a.region.startKey, b.region.startKey;
    LessIrreflexive(p);
    LessIrreflexive(q);
    if Touches(a, b) {
      if Less(p, q) {
        LessAsymmetric(p, q);
        assert a.Contains(q) && b.Contains(q);
      } else {
        assert a.Contains(p) && b.Contains(p);
      }
    }
    forall k: Key | a.Contains(k) && b.Contains(k)
      ensures Touches(a, b)
    {
      if b.region.endKey != [] {
        AtMostLess(p, k, b.region.endKey);
      }
      if a.region.endKey != [] {
        AtMostLess(q, k, a.region.endKey);
      }
    }
  }
}
