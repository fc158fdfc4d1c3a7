/** How the transactional client asks for the region of a key: it encodes the key, consults the
    cache, whose regions have encoded boundaries, and decodes the boundaries of the answer. */
module Routing {
  import opened Machine
  import opened Keys
  import opened Regions
  import opened Ttl
  import opened Codec
  import SingleFlight

  /** A region boundary in transactional mode: the end of the key space, or an encoded key. */
  ghost predicate Boundary(bytes: Key)
  {
    bytes == [] || exists key :: bytes == Encode(key)
  }

  ghost predicate EncodedRange(range: (Key, Key))
  {
    Boundary(range.0) && Boundary(range.1)
  }

  /** `decode_region`; `None` stands for a decoding error. */
  function DecodeRegion(r: RegionWithLeader): Option<RegionWithLeader>
  {
    match (Decode(r.region.startKey), Decode(r.region.endKey))
    case (Ok(start), Ok(end)) => Some(r.(region := r.region.(startKey := start, endKey := end)))
    case _ => None
  }

  lemma BoundaryDecodes(bytes: Key) returns (key: Key)
    requires Boundary(bytes)
    ensures Decode(bytes) == Ok(key)
    ensures bytes == [] ==> key == []
    ensures bytes != [] ==> bytes == Encode(key)
  {
    if bytes == [] {
      key := [];
    } else {
      key :| bytes == Encode(key);
      DecodeIff(bytes, key);
      assert bytes[..|bytes|] == bytes;
    }
  }

  /** Membership survives decoding exactly when the end key is not the encoding of the empty key,
      which decodes to "+inf". */
  lemma DecodingKeepsMembershipIff(r: RegionWithLeader)
    requires EncodedRange(r.Range())
    ensures DecodeRegion(r).Some?
    ensures (forall k :: DecodeRegion(r).value.Contains(k) <==> r.Contains(Encode(k)))
            <==> r.region.endKey != Encode([])
  {
    var start := BoundaryDecodes(r.region.startKey);
    var end := BoundaryDecodes(r.region.endKey);
    var d := DecodeRegion(r).value;
    if r.region.endKey == Encode([]) {
      EncodeOrders(start, []);
      LessIrreflexive(start);
      assert d.Contains(start) && !r.Contains(Encode(start));
    } else {
      forall k
        ensures d.Contains(k) <==> r.Contains(Encode(k))
      {
        EncodeOrders(k, start);
        EncodeOrders(k, end);
      }
    }
  }

  /** Whatever region answers for the encoded key, its decoded form contains the key. */
  lemma DecodedAnswerContains(r: RegionWithLeader, key: Key)
    requires EncodedRange(r.Range()) && r.Contains(Encode(key))
    ensures DecodeRegion(r).Some? && DecodeRegion(r).value.Contains(key)
    ensures DecodeRegion(r).value.VerId() == r.VerId() && DecodeRegion(r).value.leader == r.leader
  {
    DecodingKeepsMembershipIff(r);
    EncodeOrders(key, []);
  }

  /** `region_for_key` in every interleaving of the cache: when the placement driver's boundaries
      are encoded keys, a successful reply for the encoded key decodes, and the decoded region
      contains the key the caller asked for. */
  lemma RegionForKey(world: SingleFlight.World, cfg: TtlConfig, actions: seq<SingleFlight.Action>, t: nat, key: Key)
    requires forall id, epoch :: EncodedRange(world(id, epoch))
    requires SingleFlight.IsRun(world, cfg, SingleFlight.INITIAL, actions)
    requires var s := SingleFlight.End(world, cfg, SingleFlight.INITIAL, actions);
             t in s.tasks && s.tasks[t].Finished? && s.tasks[t].reply.Ok?
             && s.tasks[t].req == SingleFlight.ByKey(Encode(key))
    ensures var r := SingleFlight.End(world, cfg, SingleFlight.INITIAL, actions).tasks[t].reply.region;
            DecodeRegion(r).Some? && DecodeRegion(r).value.Contains(key)
  {
    SingleFlight.RepliesAnswer(world, cfg, actions, t);
    var r := SingleFlight.End(world, cfg, SingleFlight.INITIAL, actions).tasks[t].reply.region;
    assert EncodedRange(world(r.region.id, EpochOf(r)));
    DecodedAnswerContains(r, key);
  }
}
