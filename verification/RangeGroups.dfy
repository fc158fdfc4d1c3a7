/** `group_ranges_by_region`: a list of key ranges is cut at region boundaries and handed out in
    groups, each with the region it is for. The region for the first key of what is left may be a
    different one at every turn, as regions split and merge meanwhile. */
module RangeGroups {
  import opened Keys
  import opened Regions

  /** Keys from `start` up to `end`, without bound where `end` is empty. */
  datatype KeyRange = KeyRange(start: Key, end: Key)

  predicate Covers(r: KeyRange, k: Key)
  {
    AtMost(r.start, k) && (r.end == [] || Less(k, r.end))
  }

  /** How many of the ranges cover the key. */
  function Covering(ranges: seq<KeyRange>, k: Key): nat
  {
    if ranges == [] then 0 else (if Covers(ranges[0], k) then 1 else 0) + Covering(ranges[1..], k)
  }

  /** A group to hand out, and what is left of the ranges. */
  datatype Turn = Turn(grouped: seq<KeyRange>, left: seq<KeyRange>)

  /** The range goes on behind the region. */
  predicate SticksOut(r: KeyRange, region: Region)
  {
    region.endKey != [] && (Less(region.endKey, r.end) || r.end == [])
  }

  function Inner(r: KeyRange, region: Region): KeyRange
  {
    KeyRange(r.start, region.endKey)
  }

  function Outer(r: KeyRange, region: Region): KeyRange
  {
    KeyRange(region.endKey, r.end)
  }

  /** The test at which a group ends. A range that starts exactly where the region ends passes it. */
  predicate StartsElsewhere(r: KeyRange, region: Region)
  {
    Less(r.start, region.startKey) || Less(region.endKey, r.start)
  }

  /** The inner loop: ranges join the group until one starts elsewhere or sticks out. */
  function Collect(grouped: seq<KeyRange>, left: seq<KeyRange>, region: Region): Turn
    decreases |left|
  {
    if left == [] || StartsElsewhere(left[0], region) then Turn(grouped, left)
    else if SticksOut(left[0], region) then
      Turn(grouped + [Inner(left[0], region)], [Outer(left[0], region)] + left[1..])
    else Collect(grouped + [left[0]], left[1..], region)
  }

  function NextGroup(ranges: seq<KeyRange>, region: Region): Turn
    requires ranges != []
  {
    if SticksOut(ranges[0], region) then Turn([Inner(ranges[0], region)], [Outer(ranges[0], region)] + ranges[1..])
    else Collect([ranges[0]], ranges[1..], region)
  }

  // Nothing is lost, nothing is sent twice, and everything goes where it belongs.

  lemma {:induction false} CoveringAdds(a: seq<KeyRange>, b: seq<KeyRange>, k: Key)
    ensures Covering(a + b, k) == Covering(a, k) + Covering(b, k)
    decreases |a|
  {
    if a == [] {
      assert a + b == b;
    } else {
      assert (a + b)[1..] == a[1..] + b;
      CoveringAdds(a[1..], b, k);
    }
  }

  /** A range cut where the region ends covers every key just once. */
  lemma CutCovers(r: KeyRange, region: Region, k: Key)
    requires SticksOut(r, region) && AtMost(r.start, region.endKey)
    ensures (if Covers(r, k) then 1 else 0)
         == (if Covers(Inner(r, region), k) then 1 else 0) + if Covers(Outer(r, region), k) then 1 else 0
  {
    LessTotal(k, region.endKey);
    if AtMost(region.endKey, k) {
      if Less(k, r.start) {
        LessAtMost(k, r.start, region.endKey);
      }
    } else if r.end != [] {
      LessTransitive(k, region.endKey, r.end);
    }
  }

  lemma CutCovering(r: KeyRange, rest: seq<KeyRange>, region: Region, k: Key)
    requires SticksOut(r, region) && AtMost(r.start, region.endKey)
    ensures Covering([r] + rest, k) == Covering([Inner(r, region)], k) + Covering([Outer(r, region)] + rest, k)
  {
    CutCovers(r, region, k);
    CoveringAdds([r], rest, k);
    CoveringAdds([Outer(r, region)], rest, k);
  }

  lemma {:induction false} CollectConserves(grouped: seq<KeyRange>, left: seq<KeyRange>, region: Region, k: Key)
    ensures var turn := Collect(grouped, left, region);
            Covering(turn.grouped, k) + Covering(turn.left, k) == Covering(grouped, k) + Covering(left, k)
    decreases |left|
  {
    if left != [] && !StartsElsewhere(left[0], region) {
      var r := left[0];
      assert left == [r] + left[1..];
      if SticksOut(r, region) {
        CutCovering(r, left[1..], region, k);
        CoveringAdds(grouped, [Inner(r, region)], k);
      } else {
        CollectConserves(grouped + [r], left[1..], region, k);
        CoveringAdds(grouped, [r], k);
      }
    }
  }

  /** One turn: each key is covered as often by the group and what is left as by the ranges before. */
  lemma TurnConserves(ranges: seq<KeyRange>, region: RegionWithLeader, k: Key)
    requires ranges != [] && region.Contains(ranges[0].start)
    ensures var turn := NextGroup(ranges, region.region);
            Covering(turn.grouped, k) + Covering(turn.left, k) == Covering(ranges, k)
  {
    var r := ranges[0];
    assert ranges == [r] + ranges[1..];
    if SticksOut(r, region.region) {
      LessAsymmetric(r.start, region.region.endKey);
      CutCovering(r, ranges[1..], region.region, k);
    } else {
      CollectConserves([r], ranges[1..], region.region, k);
      CoveringAdds([r], ranges[1..], k);
    }
  }

  /** Every key the range covers is in the region. */
  ghost predicate Within(r: KeyRange, region: RegionWithLeader)
  {
    forall k :: Covers(r, k) ==> region.Contains(k)
  }

  ghost predicate AllWithin(ranges: seq<KeyRange>, region: RegionWithLeader)
  {
    forall i :: 0 <= i < |ranges| ==> Within(ranges[i], region)
  }

  lemma StaysWithin(r: KeyRange, region: RegionWithLeader)
    requires AtMost(region.region.startKey, r.start)
    requires region.region.endKey == [] || (r.end != [] && AtMost(r.end, region.region.endKey))
    ensures Within(r, region)
  {
    forall k | Covers(r, k)
      ensures region.Contains(k)
    {
      if Less(k, region.region.startKey) {
        LessAtMost(k, region.region.startKey, r.start);
      }
      if region.region.endKey != [] {
        LessAtMost(k, r.end, region.region.endKey);
      }
    }
  }

  lemma {:induction false} CollectWithin(grouped: seq<KeyRange>, left: seq<KeyRange>, region: RegionWithLeader)
    requires AllWithin(grouped, region)
    ensures AllWithin(Collect(grouped, left, region.region).grouped, region)
    decreases |left|
  {
    if left != [] && !StartsElsewhere(left[0], region.region) {
      var r := left[0];
      if SticksOut(r, region.region) {
        LessIrreflexive(region.region.endKey);
        StaysWithin(Inner(r, region.region), region);
      } else {
        StaysWithin(r, region);
        CollectWithin(grouped + [r], left[1..], region);
      }
    }
  }

  /** One turn: the keys of the group are in its region. */
  lemma TurnWithin(ranges: seq<KeyRange>, region: RegionWithLeader)
    requires ranges != [] && region.Contains(ranges[0].start)
    ensures AllWithin(NextGroup(ranges, region.region).grouped, region)
  {
    var r := ranges[0];
    if SticksOut(r, region.region) {
      LessIrreflexive(region.region.endKey);
      StaysWithin(Inner(r, region.region), region);
    } else {
      StaysWithin(r, region);
      CollectWithin([r], ranges[1..], region);
    }
  }

  lemma {:induction false} CollectIsMaximal(grouped: seq<KeyRange>, left: seq<KeyRange>, region: Region)
    ensures var rest := Collect(grouped, left, region).left;
            rest == [] || Less(rest[0].start, region.startKey) || Less(region.endKey, rest[0].start)
            || rest[0].start == region.endKey
    decreases |left|
  {
    if left != [] && !StartsElsewhere(left[0], region) && !SticksOut(left[0], region) {
      CollectIsMaximal(grouped + [left[0]], left[1..], region);
    }
  }

  /** A group is as large as it can be: what is left starts at the region's end or outside. */
  lemma TurnIsMaximal(ranges: seq<KeyRange>, region: Region)
    requires ranges != []
    ensures var rest := NextGroup(ranges, region).left;
            rest == [] || Less(rest[0].start, region.startKey) || Less(region.endKey, rest[0].start)
            || rest[0].start == region.endKey
  {
    if !SticksOut(ranges[0], region) {
      CollectIsMaximal([ranges[0]], ranges[1..], region);
    }
  }

  // Ranges sent to a region that their start key is not in.

  /** Some range of the group starts outside the region. */
  ghost predicate HasStray(ranges: seq<KeyRange>, region: RegionWithLeader)
  {
    exists i :: 0 <= i < |ranges| && !region.Contains(ranges[i].start)
  }

  predicate AtEnd(r: KeyRange, region: Region)
  {
    region.endKey != [] && r.start == region.endKey
  }

  /** The loop gets as far as range `i`. */
  ghost predicate Reached(left: seq<KeyRange>, region: Region, i: nat)
  {
    i < |left| && forall j :: 0 <= j < i ==> !StartsElsewhere(left[j], region) && !SticksOut(left[j], region)
  }

  /** The loop reaches a range that starts exactly where the region ends. */
  ghost predicate ReachesEnd(left: seq<KeyRange>, region: Region)
  {
    exists i: nat :: Reached(left, region, i) && AtEnd(left[i], region)
  }

  /** Of the ranges that pass the test, just those that start at the end start outside. */
  lemma StrayIsAtEnd(r: KeyRange, region: RegionWithLeader)
    requires !StartsElsewhere(r, region.region)
    ensures !region.Contains(r.start) <==> AtEnd(r, region.region)
  {
    LessIrreflexive(r.start);
    LessTotal(r.start, region.region.endKey);
  }

  lemma StrayMore(ranges: seq<KeyRange>, r: KeyRange, region: RegionWithLeader)
    ensures HasStray(ranges + [r], region) <==> HasStray(ranges, region) || !region.Contains(r.start)
  {
    if HasStray(ranges, region) {
      var i :| 0 <= i < |ranges| && !region.Contains(ranges[i].start);
      assert (ranges + [r])[i] == ranges[i];
    }
    assert (ranges + [r])[|ranges|] == r;
  }

  lemma ReachesStep(left: seq<KeyRange>, region: Region)
    requires left != []
    ensures ReachesEnd(left, region) <==>
            || AtEnd(left[0], region)
            || (!StartsElsewhere(left[0], region) && !SticksOut(left[0], region) && ReachesEnd(left[1..], region))
  {
    if AtEnd(left[0], region) {
      assert Reached(left, region, 0);
    }
    if !StartsElsewhere(left[0], region) && !SticksOut(left[0], region) && ReachesEnd(left[1..], region) {
      var i: nat :| Reached(left[1..], region, i) && AtEnd(left[1..][i], region);
      assert left[i + 1] == left[1..][i];
      assert forall j :: 0 < j < i + 1 ==> left[j] == left[1..][j - 1];
      assert Reached(left, region, i + 1);
    }
    if ReachesEnd(left, region) {
      var i: nat :| Reached(left, region, i) && AtEnd(left[i], region);
      if i > 0 {
        assert left[1..][i - 1] == left[i] && Reached(left[1..], region, i - 1);
      }
    }
  }

  lemma {:induction false} CollectStrayIff(grouped: seq<KeyRange>, left: seq<KeyRange>, region: RegionWithLeader)
    requires GoodRange(region)
    ensures HasStray(Collect(grouped, left, region.region).grouped, region) <==>
            HasStray(grouped, region) || ReachesEnd(left, region.region)
    decreases |left|
  {
    if left != [] {
      var r := left[0];
      ReachesStep(left, region.region);
      if StartsElsewhere(r, region.region) {
        EndIsNotElsewhere(r, region);
      } else {
        StrayIsAtEnd(r, region);
        StrayMore(grouped, if SticksOut(r, region.region) then Inner(r, region.region) else r, region);
        if !SticksOut(r, region.region) {
          CollectStrayIff(grouped + [r], left[1..], region);
        }
      }
    }
  }

  lemma EndIsNotElsewhere(r: KeyRange, region: RegionWithLeader)
    requires GoodRange(region) && StartsElsewhere(r, region.region)
    ensures !AtEnd(r, region.region)
  {
    LessIrreflexive(r.start);
    if AtEnd(r, region.region) {
      LessAsymmetric(region.region.startKey, region.region.endKey);
    }
  }

  /** A group holds a range whose start key is outside its region, if and only if the first range ends
      in the region and the loop then reaches one that starts exactly where the region ends. (That range,
      or what is sent of it, covers no key.) */
  lemma StrayIff(ranges: seq<KeyRange>, region: RegionWithLeader)
    requires ranges != [] && region.Contains(ranges[0].start)
    ensures HasStray(NextGroup(ranges, region.region).grouped, region) <==>
            !SticksOut(ranges[0], region.region) && ReachesEnd(ranges[1..], region.region)
  {
    GoodRangeIffStart(region);
    if !SticksOut(ranges[0], region.region) {
      CollectStrayIff([ranges[0]], ranges[1..], region);
    }
  }

  /** Adjacent ranges that meet at a region boundary do that. */
  lemma AdjacentStray(a: Key, region: RegionWithLeader, c: Key)
    requires region.Contains(a) && region.region.endKey != []
    ensures var b := region.region.endKey;
            HasStray(NextGroup([KeyRange(a, b), KeyRange(b, c)], region.region).grouped, region)
  {
    var b := region.region.endKey;
    var ranges := [KeyRange(a, b), KeyRange(b, c)];
    LessIrreflexive(b);
    assert Reached(ranges[1..], region.region, 0);
    StrayIff(ranges, region);
  }

  // The whole stream.

  /** `regions[i]` is the answer for the first key left at turn `i`. */
  ghost predicate IsStream(ranges: seq<KeyRange>, regions: seq<RegionWithLeader>)
    decreases |regions|
  {
    regions != [] ==>
      && ranges != [] && regions[0].Contains(ranges[0].start)
      && IsStream(NextGroup(ranges, regions[0].region).left, regions[1..])
  }

  /** The groups handed out, in order. */
  ghost function Groups(ranges: seq<KeyRange>, regions: seq<RegionWithLeader>): (groups: seq<seq<KeyRange>>)
    requires IsStream(ranges, regions)
    ensures |groups| == |regions|
    decreases |regions|
  {
    if regions == [] then []
    else
      var turn := NextGroup(ranges, regions[0].region);
      [turn.grouped] + Groups(turn.left, regions[1..])
  }

  ghost function Left(ranges: seq<KeyRange>, regions: seq<RegionWithLeader>): seq<KeyRange>
    requires IsStream(ranges, regions)
    decreases |regions|
  {
    if regions == [] then ranges else Left(NextGroup(ranges, regions[0].region).left, regions[1..])
  }

  ghost function Flat(groups: seq<seq<KeyRange>>): seq<KeyRange>
  {
    if groups == [] then [] else groups[0] + Flat(groups[1..])
  }

  /** However the regions change between turns: each key is covered by the groups handed out and by
      what is left together exactly as often as by the ranges asked for. When nothing is left, ranges
      that did not overlap have been partitioned. */
  lemma {:induction false} StreamConserves(ranges: seq<KeyRange>, regions: seq<RegionWithLeader>, k: Key)
    requires IsStream(ranges, regions)
    ensures Covering(Flat(Groups(ranges, regions)), k) + Covering(Left(ranges, regions), k) == Covering(ranges, k)
    decreases |regions|
  {
    if regions != [] {
      var turn := NextGroup(ranges, regions[0].region);
      var rest := Groups(turn.left, regions[1..]);
      TurnConserves(ranges, regions[0], k);
      StreamConserves(turn.left, regions[1..], k);
      CoveringAdds(turn.grouped, Flat(rest), k);
      assert ([turn.grouped] + rest)[1..] == rest;
    }
  }

  /** And every group's keys are in the region it is handed out with. */
  lemma {:induction false} StreamWithin(ranges: seq<KeyRange>, regions: seq<RegionWithLeader>, i: nat)
    requires IsStream(ranges, regions) && i < |regions|
    ensures AllWithin(Groups(ranges, regions)[i], regions[i])
    decreases |regions|
  {
    if i == 0 {
      TurnWithin(ranges, regions[0]);
    } else {
      StreamWithin(NextGroup(ranges, regions[0].region).left, regions[1..], i - 1);
    }
  }

  // The stream ends.

  /** The boundaries after a key. */
  function After(ends: set<Key>, k: Key): set<Key>
  {
    set e | e in ends && Less(k, e)
  }

  /** One for each range, and one for each boundary after its start. */
  function Work(ranges: seq<KeyRange>, ends: set<Key>): nat
  {
    if ranges == [] then 0 else 1 + |After(ends, ranges[0].start)| + Work(ranges[1..], ends)
  }

  lemma SmallerSet(a: set<Key>, b: set<Key>)
    requires a <= b
    ensures |a| <= |b| && (a != b ==> |a| < |b|)
  {
    assert b == a + (b - a);
    if a != b {
      var k :| k in b - a;
      assert b - a != {};
    }
  }

  lemma AfterShrinks(ends: set<Key>, k: Key, e: Key)
    requires AtMost(k, e)
    ensures |After(ends, e)| <= |After(ends, k)|
    ensures e in ends && Less(k, e) ==> |After(ends, e)| < |After(ends, k)|
  {
    forall f | f in After(ends, e)
      ensures f in After(ends, k)
    {
      AtMostLess(k, e, f);
    }
    SmallerSet(After(ends, e), After(ends, k));
    LessIrreflexive(e);
    if e in ends && Less(k, e) {
      assert e in After(ends, k) && e !in After(ends, e);
    }
  }

  lemma {:induction false} CollectWork(grouped: seq<KeyRange>, left: seq<KeyRange>, region: Region, ends: set<Key>)
    ensures Work(Collect(grouped, left, region).left, ends) <= Work(left, ends)
    decreases |left|
  {
    if left != [] && !StartsElsewhere(left[0], region) {
      if SticksOut(left[0], region) {
        AfterShrinks(ends, left[0].start, region.endKey);
        assert ([Outer(left[0], region)] + left[1..])[1..] == left[1..];
      } else {
        CollectWork(grouped + [left[0]], left[1..], region, ends);
      }
    }
  }

  lemma TurnWorks(ranges: seq<KeyRange>, region: RegionWithLeader, ends: set<Key>)
    requires ranges != [] && region.Contains(ranges[0].start)
    requires region.region.endKey == [] || region.region.endKey in ends
    ensures Work(NextGroup(ranges, region.region).left, ends) < Work(ranges, ends)
  {
    var r := ranges[0];
    if SticksOut(r, region.region) {
      LessAsymmetric(r.start, region.region.endKey);
      AfterShrinks(ends, r.start, region.region.endKey);
      assert ([Outer(r, region.region)] + ranges[1..])[1..] == ranges[1..];
    } else {
      CollectWork([r], ranges[1..], region.region, ends);
    }
  }

  /** As long as the regions end at finitely many boundaries, the stream ends: it has at most one turn
      for each range and one for each boundary after the start of a range. */
  lemma {:induction false} StreamEnds(ranges: seq<KeyRange>, regions: seq<RegionWithLeader>, ends: set<Key>)
    requires IsStream(ranges, regions)
    requires forall i :: 0 <= i < |regions| ==> regions[i].region.endKey == [] || regions[i].region.endKey in ends
    ensures |regions| + Work(Left(ranges, regions), ends) <= Work(ranges, ends)
    decreases |regions|
  {
    if regions != [] {
      TurnWorks(ranges, regions[0], ends);
      StreamEnds(NextGroup(ranges, regions[0].region).left, regions[1..], ends);
    }
  }

  // The loop on the reversed vector.

  function Reversed(stack: seq<KeyRange>): seq<KeyRange>
  {
    if stack == [] then [] else [stack[|stack| - 1]] + Reversed(stack[..|stack| - 1])
  }

  lemma ReversedPush(stack: seq<KeyRange>, r: KeyRange)
    ensures Reversed(stack + [r]) == [r] + Reversed(stack)
  {
    assert (stack + [r])[..|stack|] == stack;
  }

  /** The body of the stream: ranges are popped off, and what is left of one is pushed back. */
  method GroupRanges(stack: seq<KeyRange>, region: Region) returns (grouped: seq<KeyRange>, ranges: seq<KeyRange>)
    requires stack != []
    ensures Turn(grouped, Reversed(ranges)) == NextGroup(Reversed(stack), region)
  {
    var range := stack[|stack| - 1];
    ranges := stack[..|stack| - 1];
    grouped := [];
    assert Reversed(stack)[1..] == Reversed(ranges);
    if region.endKey != [] && (Less(region.endKey, range.end) || range.end == []) {
      ReversedPush(ranges, KeyRange(region.endKey, range.end));
      grouped := grouped + [KeyRange(range.start, region.endKey)];
      ranges := ranges + [KeyRange(region.endKey, range.end)];
      return;
    }
    grouped := grouped + [range];
    assert grouped == [range];
    while ranges != []
      invariant Collect(grouped, Reversed(ranges), region) == NextGroup(Reversed(stack), region)
      decreases |ranges|
    {
      range := ranges[|ranges| - 1];
      if Less(range.start, region.startKey) || Less(region.endKey, range.start) {
        break;
      }
      ranges := ranges[..|ranges| - 1];
      if region.endKey != [] && (Less(region.endKey, range.end) || range.end == []) {
        ReversedPush(ranges, KeyRange(region.endKey, range.end));
        grouped := grouped + [KeyRange(range.start, region.endKey)];
        ranges := ranges + [KeyRange(region.endKey, range.end)];
        return;
      }
      grouped := grouped + [range];
    }
  }
}
