/** The memcomparable key codec: keys cut into groups of eight bytes, each followed by a marker that
    tells how much of the group is padding, so that encoded keys compare like the keys themselves. */
module Codec {
  import opened Keys

  datatype Decoded = Ok(key: Key) | UnexpectedEof | InvalidPadding

  function Complement(bytes: Key): (r: Key)
    ensures |r| == |bytes| && forall i :: 0 <= i < |bytes| ==> r[i] == 255 - bytes[i]
  {
    seq(|bytes|, i requires 0 <= i < |bytes| => 255 - bytes[i])
  }

  function Zeros(n: nat): (z: Key)
    ensures |z| == n && forall i :: 0 <= i < n ==> z[i] == 0
  {
    seq(n, _ => 0)
  }

  /** The first `n` bytes, padded with zeros. */
  function Head(key: Key, n: nat): (h: Key)
    ensures |h| == n
  {
    if n <= |key| then key[..n] else key + Zeros(n - |key|)
  }

  function Marker(key: Key): Byte
  {
    if |key| < 8 then 247 + |key| else 255
  }

  /** The encoding, group by group. */
  function Encode(key: Key): Key
  {
    Head(key, 8) + [Marker(key)] + if |key| < 8 then [] else Encode(key[8..])
  }

  /** The bytes as they are for ascending order, complemented for descending. */
  function Ordered(bytes: Key, desc: bool): Key
  {
    if desc then Complement(bytes) else bytes
  }

  function EncodeOrder(key: Key, desc: bool): Key
  {
    Ordered(Encode(key), desc)
  }

  function DecodeGroups(data: Key): Decoded
  {
    if |data| <= 8 then UnexpectedEof
    else
      var pad := 255 - data[8];
      if pad == 0 then
        match DecodeGroups(data[9..])
        case Ok(rest) => Ok(data[..8] + rest)
        case err => err
      else if pad > 8 || data[8 - pad..8] != Zeros(pad) then InvalidPadding
      else Ok(data[..8 - pad])
  }

  /** The decoder on values; nothing decodes to nothing. */
  function Decode(data: Key): Decoded
  {
    if data == [] then Ok([]) else DecodeGroups(data)
  }

  function DecodeOrder(data: Key, desc: bool): Decoded
  {
    Decode(Ordered(data, desc))
  }

  // Round trips.

  lemma {:induction false} EncodeLength(key: Key)
    ensures |Encode(key)| == (|key| / 8 + 1) * 9
    decreases key
  {
    if |key| >= 8 {
      EncodeLength(key[8..]);
    }
  }

  /** The format, byte by byte: eight bytes of the key, or zeros behind its end, and then a marker that
      is 255 less the number of those zeros. */
  lemma {:induction false} EncodedByte(key: Key, group: nat, at: nat)
    requires group <= |key| / 8 && at < 9
    ensures 9 * group + at < |Encode(key)|
    ensures Encode(key)[9 * group + at] ==
            if at < 8 then (if 8 * group + at < |key| then key[8 * group + at] else 0)
            else if 8 * group + 8 <= |key| then 255
            else 247 + (|key| - 8 * group)
    decreases group
  {
    if group > 0 {
      var rest := key[8..];
      EncodedByte(rest, group - 1, at);
      assert Encode(key)[9..] == Encode(rest);
      assert Encode(key)[9 * group + at] == Encode(rest)[9 * (group - 1) + at];
    }
  }

  ghost predicate StartsWith(data: Key, front: Key)
  {
    |front| <= |data| && data[..|front|] == front
  }

  lemma EncodeLong(front: Key, rest: Key)
    requires |front| == 8
    ensures Encode(front + rest) == front + [255] + Encode(rest)
  {
    assert (front + rest)[8..] == rest;
  }

  lemma EncodeShort(key: Key, group: Key)
    requires |group| == 8 && |key| < 8 && group == key + Zeros(8 - |key|)
    ensures Encode(key) == group + [247 + |key|]
  {
  }

  lemma DecodeLong(front: Key, rest: Key)
    requires |front| == 8 && DecodeGroups(rest).Ok?
    ensures DecodeGroups(front + [255] + rest) == Ok(front + DecodeGroups(rest).key)
  {
    var data := front + [255] + rest;
    assert data[9..] == rest && data[..8] == front && data[8] == 255;
  }

  lemma DecodeShort(key: Key, junk: Key)
    requires |key| < 8
    ensures DecodeGroups(key + Zeros(8 - |key|) + [247 + |key|] + junk) == Ok(key)
  {
    var data := key + Zeros(8 - |key|) + [247 + |key|] + junk;
    assert data[|key|..8] == Zeros(8 - |key|) && data[..|key|] == key && data[8] == 247 + |key|;
  }

  /** Decoding an encoded key gives the key back, whatever follows it. */
  lemma {:induction false} DecodeEncode(key: Key, junk: Key)
    ensures DecodeGroups(Encode(key) + junk) == Ok(key)
    decreases key
  {
    if |key| >= 8 {
      var front, rest := key[..8], key[8..];
      assert key == front + rest;
      EncodeLong(front, rest);
      DecodeEncode(rest, junk);
      assert Encode(key) + junk == front + [255] + (Encode(rest) + junk);
      DecodeLong(front, Encode(rest) + junk);
    } else {
      EncodeShort(key, key + Zeros(8 - |key|));
      DecodeShort(key, junk);
    }
  }

  /** What decodes to a key starts with the key's encoding. */
  lemma {:induction false} DecodedStartsWithEncoding(data: Key)
    requires DecodeGroups(data).Ok?
    ensures StartsWith(data, Encode(DecodeGroups(data).key))
    decreases data
  {
    var pad := 255 - data[8];
    assert data == data[..8] + [data[8]] + data[9..];
    if pad == 0 {
      DecodedStartsWithEncoding(data[9..]);
      EncodeLong(data[..8], DecodeGroups(data[9..]).key);
    } else {
      assert data[..8] == data[..8 - pad] + data[8 - pad..8];
      EncodeShort(data[..8 - pad], data[..8]);
    }
  }

  /** The decoder accepts exactly the inputs that start with an encoding, and answers with the key
      encoded there; the empty input stands for the empty key. */
  lemma DecodeIff(data: Key, key: Key)
    ensures Decode(data) == Ok(key) <==>
            if data == [] then key == [] else StartsWith(data, Encode(key))
  {
    if data != [] {
      if DecodeGroups(data).Ok? {
        DecodedStartsWithEncoding(data);
      }
      var e := Encode(key);
      if StartsWith(data, e) {
        assert data == e + data[|e|..];
        DecodeEncode(key, data[|e|..]);
      }
    }
  }

  lemma ComplementTwice(bytes: Key)
    ensures Complement(Complement(bytes)) == bytes
  {
  }

  /** In either order, decoding undoes encoding. */
  lemma DecodeOrderRoundTrip(key: Key, desc: bool)
    ensures DecodeOrder(EncodeOrder(key, desc), desc) == Ok(key)
  {
    ComplementTwice(Encode(key));
    DecodeEncode(key, []);
    assert Encode(key) + [] == Encode(key);
  }

  // Order.

  lemma {:induction false} LessAfterPrefix(p: Key, a: Key, b: Key)
    ensures Less(p + a, p + b) <==> Less(a, b)
    decreases p
  {
    if p == [] {
      assert p + a == a && p + b == b;
    } else {
      assert (p + a)[1..] == p[1..] + a && (p + b)[1..] == p[1..] + b;
      LessAfterPrefix(p[1..], a, b);
    }
  }

  /** Sequences of one length that differ decide the order of whatever they begin. */
  lemma {:induction false} LessByFront(x: Key, y: Key, a: Key, b: Key)
    requires |x| == |y| && Less(x, y)
    ensures Less(x + a, y + b)
    decreases x
  {
    if x[0] == y[0] {
      assert (x + a)[1..] == x[1..] + a && (y + b)[1..] == y[1..] + b;
      LessByFront(x[1..], y[1..], a, b);
    }
  }

  lemma HeadTail(key: Key, n: nat)
    requires n > 0
    ensures Head(key, n)[0] == (if key == [] then 0 else key[0])
    ensures Head(key, n)[1..] == Head(if key == [] then [] else key[1..], n - 1)
  {
  }

  /** Padding preserves the order, up to equality. */
  lemma {:induction false} HeadMonotone(a: Key, b: Key, n: nat)
    requires AtMost(a, b)
    ensures AtMost(Head(a, n), Head(b, n))
    decreases n
  {
    if n > 0 {
      HeadTail(a, n);
      HeadTail(b, n);
      var a' := if a == [] then [] else a[1..];
      var b' := if b == [] then [] else b[1..];
      if Head(a, n)[0] == Head(b, n)[0] {
        assert AtMost(a', b');
        HeadMonotone(a', b', n - 1);
      }
    }
  }

  /** Where padding hides a difference, the smaller key is the shorter one. */
  lemma {:induction false} HeadEqual(a: Key, b: Key, n: nat)
    requires Less(a, b) && Head(a, n) == Head(b, n)
    ensures |a| < n ==> |a| < |b|
    ensures |a| >= n ==> |b| >= n && Less(a[n..], b[n..])
    decreases n
  {
    if n > 0 && a != [] {
      HeadTail(a, n);
      HeadTail(b, n);
      HeadEqual(a[1..], b[1..], n - 1);
      if |a| >= n {
        assert a[1..][n - 1..] == a[n..] && b[1..][n - 1..] == b[n..];
      }
    }
  }

  lemma {:induction false} EncodeMonotone(a: Key, b: Key)
    requires Less(a, b)
    ensures Less(Encode(a), Encode(b))
    decreases a
  {
    var x, y := Head(a, 8), Head(b, 8);
    var u := [Marker(a)] + if |a| < 8 then [] else Encode(a[8..]);
    var v := [Marker(b)] + if |b| < 8 then [] else Encode(b[8..]);
    assert Encode(a) == x + u && Encode(b) == y + v;
    LessAsymmetric(a, b);
    HeadMonotone(a, b, 8);
    LessTotal(x, y);
    if x == y {
      HeadEqual(a, b, 8);
      LessAfterPrefix(x, u, v);
      if |a| >= 8 {
        EncodeMonotone(a[8..], b[8..]);
        assert u[1..] == Encode(a[8..]) && v[1..] == Encode(b[8..]);
      }
    } else {
      LessByFront(x, y, u, v);
    }
  }

  /** Encoded keys compare exactly like the keys. */
  lemma EncodeOrders(a: Key, b: Key)
    ensures Less(Encode(a), Encode(b)) <==> Less(a, b)
    ensures Encode(a) == Encode(b) <==> a == b
  {
    LessTotal(a, b);
    LessIrreflexive(Encode(a));
    if Less(a, b) {
      EncodeMonotone(a, b);
      LessAsymmetric(Encode(a), Encode(b));
    } else if Less(b, a) {
      EncodeMonotone(b, a);
      LessAsymmetric(Encode(b), Encode(a));
    }
  }

  lemma {:induction false} ComplementReverses(x: Key, y: Key, n: nat)
    requires n < |x| && n < |y| && x[..n] == y[..n] && x[n] < y[n]
    ensures Less(x, y) && Less(Complement(y), Complement(x))
    decreases n
  {
    if n > 0 {
      assert x[0] == x[..n][0] && y[0] == y[..n][0];
      assert x[1..][..n - 1] == x[..n][1..] && y[1..][..n - 1] == y[..n][1..];
      ComplementReverses(x[1..], y[1..], n - 1);
      assert Complement(x)[1..] == Complement(x[1..]) && Complement(y)[1..] == Complement(y[1..]);
    }
  }

  lemma {:induction false} FirstDifference(x: Key, y: Key) returns (n: nat)
    requires Less(x, y) && !(|x| <= |y| && y[..|x|] == x)
    ensures n < |x| && n < |y| && x[..n] == y[..n] && x[n] < y[n]
    decreases x
  {
    if x[0] != y[0] {
      n := 0;
    } else {
      assert x == [x[0]] + x[1..] && y == [y[0]] + y[1..];
      var m := FirstDifference(x[1..], y[1..]);
      n := m + 1;
      assert x[..n] == [x[0]] + x[1..][..m] && y[..n] == [y[0]] + y[1..][..m];
    }
  }

  /** Descending encodings compare the other way round. */
  lemma DescendingReverses(a: Key, b: Key)
    ensures Less(EncodeOrder(b, true), EncodeOrder(a, true)) <==> Less(a, b)
  {
    LessTotal(a, b);
    LessIrreflexive(EncodeOrder(a, true));
    if Less(a, b) {
      DescendingStep(a, b);
    } else if Less(b, a) {
      DescendingStep(b, a);
      LessAsymmetric(EncodeOrder(a, true), EncodeOrder(b, true));
    }
  }

  lemma DescendingStep(a: Key, b: Key)
    requires Less(a, b)
    ensures Less(EncodeOrder(b, true), EncodeOrder(a, true))
  {
    var x, y := Encode(a), Encode(b);
    EncodeOrders(a, b);
    LessAsymmetric(a, b);
    DecodeIff(y, a);
    DecodeIff(y, b);
    assert y[..|y|] == y;
    var n := FirstDifference(x, y);
    ComplementReverses(x, y, n);
  }

  // The loops.

  /** `adjust_bytes_order`. */
  method AdjustBytesOrder(bytes: Key, desc: bool) returns (r: Key)
    ensures r == Ordered(bytes, desc)
  {
    if !desc {
      return bytes;
    }
    r := [];
    for i := 0 to |bytes|
      invariant r == Complement(bytes[..i])
    {
      r := r + [255 - bytes[i]];
    }
    assert bytes[..|bytes|] == bytes;
  }

  lemma OrderedAppends(a: Key, b: Key, desc: bool)
    ensures Ordered(a + b, desc) == Ordered(a, desc) + Ordered(b, desc)
  {
    if desc {
      var x, y := Complement(a + b), Complement(a) + Complement(b);
      forall i | 0 <= i < |x|
        ensures x[i] == y[i]
      {
        if i < |a| {
          assert (a + b)[i] == a[i];
        } else {
          assert (a + b)[i] == b[i - |a|];
        }
      }
      assert x == y;
    }
  }

  /** One group of the encoding with its marker. */
  function Group(key: Key): Key
  {
    Head(key, 8) + [Marker(key)]
  }

  /** `ENC_ASC_PADDING` or `ENC_DESC_PADDING`, as much as is needed. */
  function Padding(n: nat, desc: bool): (p: Key)
    ensures p == Ordered(Zeros(n), desc)
  {
    seq(n, _ => if desc then 255 else 0)
  }

  method WriteGroup(key: Key, index: nat, desc: bool) returns (group: Key)
    requires index <= |key|
    ensures group == Ordered(Group(key[index..]), desc)
  {
    var remain := |key| - index;
    var pad := 0;
    if remain > 8 {
      group := AdjustBytesOrder(key[index..index + 8], desc);
      assert Head(key[index..], 8) == key[index..index + 8];
    } else {
      pad := 8 - remain;
      var bytes := AdjustBytesOrder(key[index..], desc);
      group := bytes + Padding(pad, desc);
      assert Head(key[index..], 8) == key[index..] + Zeros(pad);
    }
    assert group == Ordered(Head(key[index..], 8), desc);
    OrderedAppends(Head(key[index..], 8), [Marker(key[index..])], desc);
    var marker := AdjustBytesOrder([255 - pad], desc);
    group := group + marker;
  }

  /** What is still to be written when the first `index` bytes are done. */
  ghost function ToWrite(key: Key, index: nat): Key
  {
    if index <= |key| then Encode(key[index..]) else []
  }

  lemma ToWriteUnfolds(key: Key, index: nat)
    requires index <= |key|
    ensures ToWrite(key, index) == Group(key[index..]) + ToWrite(key, index + 8)
  {
    if |key| - index >= 8 {
      assert key[index..][8..] == key[index + 8..];
    }
  }

  /** `encode_bytes`. */
  method EncodeBytes(key: Key, desc: bool) returns (written: Key)
    ensures written == EncodeOrder(key, desc)
  {
    written := [];
    var index := 0;
    assert key[0..] == key;
    while index <= |key|
      invariant 0 <= index <= |key| + 8
      invariant written + Ordered(ToWrite(key, index), desc) == EncodeOrder(key, desc)
    {
      var group := WriteGroup(key, index, desc);
      ToWriteUnfolds(key, index);
      OrderedAppends(Group(key[index..]), ToWrite(key, index + 8), desc);
      assert written + (group + Ordered(ToWrite(key, index + 8), desc))
          == (written + group) + Ordered(ToWrite(key, index + 8), desc);
      written := written + group;
      index := index + 8;
    }
    assert written + [] == written;
  }

  /** `data.copy_within(read..read + 8, write)`. */
  function CopyWithin(data: Key, read: nat, write: nat): (r: Key)
    requires write <= read && read + 8 <= |data|
    ensures |r| == |data|
    ensures r[..write] == data[..write] && r[write..write + 8] == data[read..read + 8]
    ensures r[write + 8..] == data[write + 8..]
  {
    data[..write] + data[read..read + 8] + data[write + 8..]
  }

  /** The whole input decodes to `front` followed by what its rest decodes to. */
  ghost function Continue(front: Key, rest: Decoded): Decoded
  {
    match rest case Ok(key) => Ok(front + key) case err => err
  }

  function PadSize(marker: Byte, desc: bool): nat
  {
    if desc then marker else 255 - marker
  }

  /** One round of the decoder on the buffer as it stands in either order. */
  lemma DecodeRound(rest: Key, desc: bool)
    requires |rest| > 8
    ensures var pad, group := PadSize(rest[8], desc), rest[..8];
            DecodeGroups(Ordered(rest, desc)) ==
              if pad == 0 then Continue(Ordered(group, desc), DecodeGroups(Ordered(rest[9..], desc)))
              else if pad > 8 || group[8 - pad..] != Padding(pad, desc) then InvalidPadding
              else Ok(Ordered(group[..8 - pad], desc))
  {
    var plain := Ordered(rest, desc);
    var pad, group := PadSize(rest[8], desc), rest[..8];
    assert plain[..8] == Ordered(group, desc);
    assert plain[9..] == Ordered(rest[9..], desc);
    if 0 < pad <= 8 {
      assert plain[8 - pad..8] == Ordered(group[8 - pad..], desc);
      assert plain[..8 - pad] == Ordered(group[..8 - pad], desc);
      ComplementTwice(group[8 - pad..]);
      ComplementTwice(Zeros(pad));
    }
  }

  /** Moving the next group down behind the ones already moved. */
  lemma MoveGroup(data: Key, read: nat, write: nat)
    requires write <= read && read + 8 < |data|
    ensures var moved := CopyWithin(data, read, write);
            && moved[..write + 8] == data[..write] + data[read..][..8]
            && moved[read + 8] == data[read..][8]
            && moved[read + 9..] == data[read..][9..]
  {
  }

  /** The bytes up to `write` are decoded; those from `read` on are untouched. */
  ghost predicate InPlace(whole: Decoded, data: Key, read: nat, write: nat, desc: bool)
  {
    && write <= read <= |data|
    && whole == Continue(Ordered(data[..write], desc), DecodeGroups(Ordered(data[read..], desc)))
  }

  lemma ContinueTwice(front: Key, group: Key, rest: Decoded)
    ensures Continue(front, Continue(group, rest)) == Continue(front + group, rest)
  {
    if rest.Ok? {
      assert front + (group + rest.key) == front + group + rest.key;
    }
  }

  /** One round of the decoder with `front` already decoded. */
  lemma RoundAfter(front: Key, rest: Key, desc: bool)
    requires |rest| > 8
    ensures var pad, group := PadSize(rest[8], desc), rest[..8];
            Continue(Ordered(front, desc), DecodeGroups(Ordered(rest, desc))) ==
              if pad == 0 then Continue(Ordered(front + group, desc), DecodeGroups(Ordered(rest[9..], desc)))
              else if pad > 8 || group[8 - pad..] != Padding(pad, desc) then InvalidPadding
              else Ok(Ordered(front + group[..8 - pad], desc))
  {
    var pad, group := PadSize(rest[8], desc), rest[..8];
    DecodeRound(rest, desc);
    if pad == 0 {
      OrderedAppends(front, group, desc);
      ContinueTwice(Ordered(front, desc), Ordered(group, desc), DecodeGroups(Ordered(rest[9..], desc)));
    } else if pad <= 8 {
      OrderedAppends(front, group[..8 - pad], desc);
    }
  }

  lemma CutMoved(moved: Key, end: nat, front: Key, group: Key, pad: nat)
    requires |group| == 8 && pad <= 8 && end == |front| + 8 <= |moved| && moved[..end] == front + group
    ensures moved[end - pad..end] == group[8 - pad..]
    ensures moved[..end - pad] == front + group[..8 - pad]
  {
    assert moved[end - pad..end] == moved[..end][end - pad..];
    assert moved[..end - pad] == moved[..end][..end - pad];
  }

  /** What one round of the loop learns from the marker of the group it has moved. */
  lemma RoundInPlace(whole: Decoded, front: Key, rest: Key, moved: Key, next: nat, end: nat, pad: nat, desc: bool)
    requires whole == Continue(Ordered(front, desc), DecodeGroups(Ordered(rest, desc)))
    requires |rest| > 8 && end == |front| + 8 <= next <= |moved| && pad == PadSize(rest[8], desc)
    requires moved[..end] == front + rest[..8] && moved[next..] == rest[9..]
    ensures if pad == 0 then InPlace(whole, moved, next, end, desc)
            else if pad > 8 || moved[end - pad..end] != Padding(pad, desc) then whole == InvalidPadding
            else whole == Ok(Ordered(moved[..end - pad], desc))
  {
    RoundAfter(front, rest, desc);
    if pad <= 8 {
      CutMoved(moved, end, front, rest[..8], pad);
    }
  }

  /** The first `n` groups, without their markers. */
  function Groups(input: Key, n: nat): (g: Key)
    requires 9 * n <= |input|
    ensures |g| == 8 * n
  {
    if n == 0 then [] else Groups(input, n - 1) + input[9 * n - 9..9 * n - 1]
  }

  /** The buffer with `n` groups moved down and everything behind them as it came. */
  function Moved(input: Key, n: nat): Key
    requires 9 * n <= |input|
  {
    Groups(input, n) + input[8 * n..]
  }

  lemma MoveOneMore(input: Key, n: nat)
    requires 9 * n + 8 < |input|
    ensures CopyWithin(Moved(input, n), 9 * n, 8 * n) == Moved(input, n + 1)
    ensures Moved(input, n)[9 * n + 8] == input[9 * n + 8]
  {
    CopyBehind(Groups(input, n), input, 9 * n, 8 * n);
  }

  /** Behind what has been moved the buffer is as it came. */
  lemma CopyBehind(front: Key, input: Key, read: nat, write: nat)
    requires |front| == write <= read && read + 8 < |input|
    ensures var data := front + input[write..];
            && |data| == |input| && data[read + 8] == input[read + 8]
            && CopyWithin(data, read, write) == front + input[read..read + 8] + input[write + 8..]
  {
    var data := front + input[write..];
    assert data[..write] == front;
    assert data[read..read + 8] == input[read..read + 8];
    assert data[write + 8..] == input[write + 8..];
  }

  function MarkerAt(input: Key, i: nat): Byte
    requires 9 * i + 8 < |input|
  {
    input[9 * i + 8]
  }

  /** The first `n` markers announce a further group. */
  ghost predicate FullGroups(input: Key, n: nat, desc: bool)
    requires 9 * n <= |input|
  {
    forall i: nat :: i < n ==> PadSize(MarkerAt(input, i), desc) == 0
  }

  /** Group `n` is the last one. */
  ghost predicate LastGroup(input: Key, n: nat, desc: bool)
  {
    9 * n + 8 < |input| && FullGroups(input, n, desc) && PadSize(MarkerAt(input, n), desc) > 0
  }

  /** `n` full groups have been moved. */
  ghost predicate MovedSoFar(input: Key, data: Key, read: nat, write: nat, n: nat, desc: bool)
  {
    && write == 8 * n && read == 9 * n <= |input|
    && FullGroups(input, n, desc) && data == Moved(input, n)
  }

  /** One more group moved: the next marker says whether it is the last. */
  lemma MovesOn(input: Key, data: Key, read: nat, write: nat, n: nat, desc: bool)
    requires MovedSoFar(input, data, read, write, n, desc) && read + 8 < |data|
    ensures |data| == |input| && write <= read
    ensures var moved := CopyWithin(data, read, write);
            && 9 * (n + 1) <= |input| && moved == Moved(input, n + 1)
            && if PadSize(moved[read + 8], desc) == 0 then MovedSoFar(input, moved, read + 9, write + 8, n + 1, desc)
               else LastGroup(input, n, desc)
  {
    MoveOneMore(input, n);
    assert CopyWithin(data, read, write)[read + 8] == MarkerAt(input, n);
  }

  /** One more group moved: what it says about the result. */
  lemma RoundDecides(whole: Decoded, data: Key, read: nat, write: nat, moved: Key, end: nat, pad: nat, desc: bool)
    requires InPlace(whole, data, read, write, desc) && read + 8 < |data|
    requires moved == CopyWithin(data, read, write) && end == write + 8 && pad == PadSize(moved[read + 8], desc)
    ensures if pad == 0 then InPlace(whole, moved, read + 9, end, desc)
            else if pad > 8 || moved[end - pad..end] != Padding(pad, desc) then whole == InvalidPadding
            else whole == Ok(Ordered(moved[..end - pad], desc))
  {
    MoveGroup(data, read, write);
    RoundInPlace(whole, data[..write], data[read..], moved, read + 9, end, pad, desc);
  }

  /** Before the first round. */
  lemma NothingMoved(input: Key, desc: bool)
    requires input != []
    ensures InPlace(DecodeOrder(input, desc), input, 0, 0, desc) && MovedSoFar(input, input, 0, 0, 0, desc)
  {
    assert input[..0] == [] && input[0..] == input && Ordered([], desc) == [];
    if DecodeGroups(Ordered(input, desc)).Ok? {
      assert [] + DecodeGroups(Ordered(input, desc)).key == DecodeGroups(Ordered(input, desc)).key;
    }
  }

  /** The input has ended before a last group. */
  lemma EndsEarly(whole: Decoded, input: Key, data: Key, read: nat, write: nat, n: nat, desc: bool)
    requires InPlace(whole, data, read, write, desc) && MovedSoFar(input, data, read, write, n, desc)
    requires read + 8 >= |data|
    ensures whole == UnexpectedEof && FullGroups(input, |input| / 9, desc) && data == Moved(input, |input| / 9)
  {
    assert n == |input| / 9;
  }

  /** `decode_bytes_in_place`: the groups are moved down over the markers in the same buffer, which
      is cut at the padding of the last one. An error leaves the groups seen so far moved and the
      buffer as long as it came. */
  method DecodeBytesInPlace(input: Key, desc: bool) returns (data: Key, r: Decoded)
    ensures r == DecodeOrder(input, desc)
    ensures r.Ok? ==> data == r.key
    ensures r.UnexpectedEof? ==> FullGroups(input, |input| / 9, desc) && data == Moved(input, |input| / 9)
    ensures r.InvalidPadding? ==> exists n: nat :: LastGroup(input, n, desc) && data == Moved(input, n + 1)
  {
    data := input;
    if data == [] {
      return data, Ok(data);
    }
    var write, read := 0, 0;
    ghost var whole := DecodeOrder(input, desc);
    ghost var n := 0;
    NothingMoved(input, desc);
    while true
      invariant InPlace(whole, data, read, write, desc)
      invariant MovedSoFar(input, data, read, write, n, desc)
      decreases |data| - read
    {
      var markerOffset := read + 8;
      if markerOffset >= |data| {
        EndsEarly(whole, input, data, read, write, n, desc);
        return data, UnexpectedEof;
      }
      MovesOn(input, data, read, write, n, desc);
      ghost var before, from, to := data, read, write;
      data := CopyWithin(data, read, write);
      write := write + 8;
      read := read + 9;
      var padSize := PadSize(data[markerOffset], desc);
      RoundDecides(whole, before, from, to, data, write, padSize, desc);
      if padSize > 0 {
        if padSize > 8 || data[write - padSize..write] != Padding(padSize, desc) {
          return data, InvalidPadding;
        }
        data := AdjustBytesOrder(data[..write - padSize], desc);
        return data, Ok(data);
      }
      n := n + 1;
    }
  }
}
