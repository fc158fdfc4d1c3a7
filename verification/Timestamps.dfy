/** Timestamps of the oracle: a 46-bit physical part in milliseconds over an 18-bit logical part. */
module Timestamps {
  import opened Machine

  const LOGICAL_SPAN: int := 0x4_0000

  datatype Timestamp = Timestamp(physical: I64, logical: I64)

  /** `(physical << 18) + logical` in 128 bits. */
  function Wide(physical: I64, logical: I64): int
  {
    physical * LOGICAL_SPAN + logical
  }

  /** `compose_ts`: `None` stands for the error. */
  function ComposeTs(physical: I64, logical: I64): Option<U64>
  {
    var ts := Wide(physical, logical);
    if 0 <= ts <= U64_MAX then Some(ts) else None
  }

  /** `u64 as i64`. */
  function AsI64(ts: U64): I64
  {
    if ts > I64_MAX then ts - U64_SPAN else ts
  }

  function ExtractPhysical(ts: U64): I64
  {
    AsI64(ts / LOGICAL_SPAN)
  }

  /** Masking the low bits of a two's complement word is the Euclidean remainder. */
  function ExtractLogical(ts: U64): I64
  {
    AsI64(ts) % LOGICAL_SPAN
  }

  function Version(ts: Timestamp): U64
  {
    var wide := Wide(ts.physical, ts.logical);
    if 0 <= wide <= U64_MAX then wide else 0
  }

  /** The arithmetic right shift of a signed word is the Euclidean quotient. */
  function FromVersion(version: U64): Timestamp
  {
    var v := AsI64(version);
    Timestamp(v / LOGICAL_SPAN, v % LOGICAL_SPAN)
  }

  function TryFromVersion(version: U64): Option<Timestamp>
  {
    if version == 0 then None else Some(FromVersion(version))
  }

  /** Every timestamp is rebuilt from its parts, which are in range. */
  lemma PartsRebuild(ts: U64)
    ensures ComposeTs(ExtractPhysical(ts), ExtractLogical(ts)) == Some(ts)
    ensures 0 <= ExtractPhysical(ts) < 0x4000_0000_0000 && 0 <= ExtractLogical(ts) < LOGICAL_SPAN
  {
    assert ts / LOGICAL_SPAN <= I64_MAX;
    assert (ts - U64_SPAN) % LOGICAL_SPAN == ts % LOGICAL_SPAN;
  }

  /** Composition succeeds exactly on sums in range, and then gives the parts back exactly when the
      logical part fits its 18 bits; otherwise the surplus carries into the physical part. */
  lemma ComposeRecovers(physical: I64, logical: I64)
    ensures forall ts: U64 :: ComposeTs(physical, logical) == Some(ts) <==> ts == physical * 262_144 + logical
    ensures ComposeTs(physical, logical).Some? <==> 0 <= physical * 262_144 + logical < U64_SPAN
    ensures var ts := ComposeTs(physical, logical);
            ts.Some? ==>
              && ExtractPhysical(ts.value) == physical + logical / LOGICAL_SPAN
              && ExtractLogical(ts.value) == logical % LOGICAL_SPAN
              && (0 <= logical < LOGICAL_SPAN <==>
                  (ExtractPhysical(ts.value), ExtractLogical(ts.value)) == (physical, logical))
  {
    var ts := ComposeTs(physical, logical);
    if ts.Some? {
      PartsRebuild(ts.value);
      var p, l := ExtractPhysical(ts.value), ExtractLogical(ts.value);
      assert (p - physical) * LOGICAL_SPAN == logical - l;
    }
  }

  /** Numeric order is the lexicographic order of (physical, logical). */
  lemma OrderIsLexicographic(a: U64, b: U64)
    ensures a < b <==>
            || ExtractPhysical(a) < ExtractPhysical(b)
            || (ExtractPhysical(a) == ExtractPhysical(b) && ExtractLogical(a) < ExtractLogical(b))
  {
    PartsRebuild(a);
    PartsRebuild(b);
  }

  /** Going through a signed word loses the upper half: the round trip holds exactly below 2^63 and
      yields 0 above. */
  lemma VersionRoundTripIff(v: U64)
    ensures Version(FromVersion(v)) == if v <= I64_MAX then v else 0
    ensures Version(FromVersion(v)) == v <==> v <= I64_MAX
  {
    var s := AsI64(v);
    assert s == s / LOGICAL_SPAN * LOGICAL_SPAN + s % LOGICAL_SPAN;
  }

  /** The other way round: a timestamp comes back from its version exactly when its logical part
      fits and its version is below 2^63. */
  lemma TimestampRoundTripIff(ts: Timestamp)
    requires 0 <= Wide(ts.physical, ts.logical) < U64_SPAN
    ensures FromVersion(Version(ts)) == ts <==>
            0 <= ts.logical < LOGICAL_SPAN && Wide(ts.physical, ts.logical) <= I64_MAX
  {
    var v := Version(ts);
    var back := FromVersion(v);
    var s := AsI64(v);
    assert s == back.physical * LOGICAL_SPAN + back.logical;
    if 0 <= ts.logical < LOGICAL_SPAN && v <= I64_MAX {
      assert (back.physical - ts.physical) * LOGICAL_SPAN == ts.logical - back.logical;
    }
  }

  /** A timestamp comes back from its version through `try_from_version` exactly when it does through
      `from_version` and its version is not 0; none comes back exactly from timestamps whose version
      is out of range or 0. */
  lemma TryRoundTripIff(ts: Timestamp)
    ensures var wide := Wide(ts.physical, ts.logical);
            && (TryFromVersion(Version(ts)) == Some(ts) <==> 0 < wide <= I64_MAX && 0 <= ts.logical < LOGICAL_SPAN)
            && (TryFromVersion(Version(ts)) == None <==> wide <= 0 || wide > U64_MAX)
  {
    if 0 <= Wide(ts.physical, ts.logical) < U64_SPAN {
      TimestampRoundTripIff(ts);
    }
  }

  /** The extractors and `from_version` agree exactly below 2^63. */
  lemma DecodersAgree(v: U64)
    ensures v <= I64_MAX <==> FromVersion(v) == Timestamp(ExtractPhysical(v), ExtractLogical(v))
  {
    PartsRebuild(v);
    var s := AsI64(v);
    assert s == s / LOGICAL_SPAN * LOGICAL_SPAN + s % LOGICAL_SPAN;
  }
}
