/** Keys: byte strings under the lexicographic order of Rust slices. */
module Keys {

  type Byte = b: int | 0 <= b < 256
  type Key = seq<Byte>

  predicate Less(a: Key, b: Key)
  {
    if b == [] then false
    else if a == [] then true
    else if a[0] != b[0] then a[0] < b[0]
    else Less(a[1..], b[1..])
  }

  predicate AtMost(a: Key, b: Key)
  {
    !Less(b, a)
  }

  lemma {:induction false} LessIrreflexive(a: Key)
    ensures !Less(a, a)
  {
    if a != [] {
      LessIrreflexive(a[1..]);
    }
  }

  lemma {:induction false} LessTransitive(a: Key, b: Key, c: Key)
    requires Less(a, b) && Less(b, c)
    ensures Less(a, c)
  {
    if a != [] && a[0] == b[0] == c[0] {
      LessTransitive(a[1..], b[1..], c[1..]);
    }
  }

  lemma {:induction false} LessTotal(a: Key, b: Key)
    ensures Less(a, b) || Less(b, a) || a == b
  {
    if a != [] && b != [] && a[0] == b[0] {
      LessTotal(a[1..], b[1..]);
      if a[1..] == b[1..] {
        assert a == [a[0]] + a[1..];
        assert b == [b[0]] + b[1..];
      }
    }
  }

  lemma LessAsymmetric(a: Key, b: Key)
    requires Less(a, b)
    ensures !Less(b, a) && a != b
  {
    if Less(b, a) {
      LessTransitive(a, b, a);
    }
    LessIrreflexive(a);
  }

  lemma AtMostLess(a: Key, b: Key, c: Key)
    requires AtMost(a, b) && Less(b, c)
    ensures Less(a, c)
  {
    LessTotal(a, b);
    if Less(a, b) {
      LessTransitive(a, b, c);
    }
  }

  lemma LessAtMost(a: Key, b: Key, c: Key)
    requires Less(a, b) && AtMost(b, c)
    ensures Less(a, c)
  {
    LessTotal(b, c);
    if Less(b, c) {
      LessTransitive(a, b, c);
    }
  }

  predicate IsLast(k: Key, keys: set<Key>)
  {
    k in keys && forall other :: other in keys ==> AtMost(other, k)
  }

  lemma {:induction false} LastExists(keys: set<Key>)
    requires keys != {}
    ensures exists k :: IsLast(k, keys)
    decreases |keys|
  {
    var k :| k in keys;
    LessIrreflexive(k);
    if keys == {k} {
      assert IsLast(k, keys);
    } else {
      var rest := keys - {k};
      assert keys == rest + {k};
      LastExists(rest);
      var r :| IsLast(r, rest);
      if Less(r, k) {
        forall other | other in keys
          ensures AtMost(other, k)
        {
          if other in rest && Less(k, other) {
            LessTransitive(r, k, other);
          }
        }
        assert IsLast(k, keys);
      } else {
        assert IsLast(r, keys);
      }
    }
  }

  lemma LastUnique(a: Key, b: Key, keys: set<Key>)
    requires IsLast(a, keys) && IsLast(b, keys)
    ensures a == b
  {
    LessTotal(a, b);
  }

  /** `BTreeMap::range(..).next_back()` on the keys in range: the greatest of them. */
  function Last(keys: set<Key>): (k: Key)
    requires keys != {}
    ensures IsLast(k, keys)
  {
    LastExists(keys);
    assert forall a, b | IsLast(a, keys) && IsLast(b, keys) :: a == b by {
      forall a, b | IsLast(a, keys) && IsLast(b, keys)
        ensures a == b
      {
        LastUnique(a, b, keys);
      }
    }
    var k :| k in keys && IsLast(k, keys);
    k
  }
}
