/**
 * The key order of `std::map<std::string, ...>`: `std::string`'s
 * `operator<`, which compares character by character and ranks a proper
 * prefix before its extensions. The registry walks its maps in this order.
 */
module LexOrder {

  /** `a < b` for two `std::string`s. */
  predicate Less(a: string, b: string)
    decreases |a|
  {
    if |a| == 0 then |b| > 0
    else |b| > 0 && (a[0] < b[0] || (a[0] == b[0] && Less(a[1..], b[1..])))
  }

  lemma {:induction false} LessIrreflexive(a: string)
    ensures !Less(a, a)
    decreases |a|
  {
    if |a| > 0 {
      LessIrreflexive(a[1..]);
    }
  }

  lemma {:induction false} LessAsymmetric(a: string, b: string)
    requires Less(a, b)
    ensures !Less(b, a)
    decreases |a|
  {
    if |a| > 0 && a[0] == b[0] {
      LessAsymmetric(a[1..], b[1..]);
    }
  }

  lemma {:induction false} LessTransitive(a: string, b: string, c: string)
    requires Less(a, b) && Less(b, c)
    ensures Less(a, c)
    decreases |a|
  {
    if |a| > 0 && a[0] == b[0] && b[0] == c[0] {
      LessTransitive(a[1..], b[1..], c[1..]);
    }
  }

  lemma {:induction false} LessTrichotomy(a: string, b: string)
    ensures a == b || Less(a, b) || Less(b, a)
    decreases |a|
  {
    if |a| > 0 && |b| > 0 && a[0] == b[0] {
      LessTrichotomy(a[1..], b[1..]);
      if a[1..] == b[1..] {
        assert a == [a[0]] + a[1..] && b == [b[0]] + b[1..];
      }
    }
  }

  /** Every element of `s` comes strictly before every later one. */
  predicate StrictlyIncreasing(s: seq<string>) {
    forall i, j :: 0 <= i < j < |s| ==> Less(s[i], s[j])
  }

  /** `k` is the least element of `keys`. */
  predicate IsLeast(k: string, keys: set<string>) {
    k in keys && forall j :: j in keys && j != k ==> Less(k, j)
  }

  lemma {:induction false} LeastExists(keys: set<string>)
    requires keys != {}
    ensures exists k :: IsLeast(k, keys)
    decreases keys
  {
    var x :| x in keys;
    if keys - {x} == {} {
      assert keys == {x};
      assert IsLeast(x, keys);
    } else {
      LeastExists(keys - {x});
      var y :| IsLeast(y, keys - {x});
      LessTrichotomy(x, y);
      if Less(x, y) {
        forall j | j in keys && j != x
          ensures Less(x, j)
        {
          if j != y {
            LessTransitive(x, y, j);
          }
        }
        assert IsLeast(x, keys);
      } else {
        assert IsLeast(y, keys);
      }
    }
  }

  lemma LeastUnique(k: string, k': string, keys: set<string>)
    requires IsLeast(k, keys) && IsLeast(k', keys)
    ensures k == k'
  {
    if k != k' {
      LessAsymmetric(k, k');
    }
  }

  /** The keys of a `std::map` in the order its iterators visit them. */
  ghost function SortedKeys(keys: set<string>): seq<string>
    decreases keys
  {
    if keys == {} then []
    else
      LeastExists(keys);
      var k :| IsLeast(k, keys);
      [k] + SortedKeys(keys - {k})
  }

  lemma SortedKeysUnfold(keys: set<string>)
    requires keys != {}
    ensures SortedKeys(keys) != [] && IsLeast(SortedKeys(keys)[0], keys)
    ensures SortedKeys(keys) == [SortedKeys(keys)[0]] + SortedKeys(keys - {SortedKeys(keys)[0]})
  {
  }

  /** Iteration order lists each key exactly once, strictly increasing. */
  lemma {:induction false} SortedKeysSpec(keys: set<string>)
    ensures StrictlyIncreasing(SortedKeys(keys))
    ensures |SortedKeys(keys)| == |keys|
    ensures forall k :: k in keys <==> k in SortedKeys(keys)
    decreases keys
  {
    if keys != {} {
      SortedKeysUnfold(keys);
      var ks := SortedKeys(keys);
      var k := ks[0];
      SortedKeysSpec(keys - {k});
      assert ks == [k] + SortedKeys(keys - {k});
      forall i, j | 0 <= i < j < |ks|
        ensures Less(ks[i], ks[j])
      {
        if i == 0 {
          assert ks[j] in keys - {k};
        } else {
          assert ks[i] == SortedKeys(keys - {k})[i - 1];
          assert ks[j] == SortedKeys(keys - {k})[j - 1];
        }
      }
    }
  }

  /** A strictly increasing listing of a set is unique: it is `SortedKeys`. */
  lemma {:induction false} SortedKeysUnique(s: seq<string>, keys: set<string>)
    requires StrictlyIncreasing(s)
    requires forall k :: k in keys <==> k in s
    ensures s == SortedKeys(keys)
    decreases |s|
  {
    if s == [] {
      assert keys == {};
    } else {
      assert s[0] in keys;
      SortedKeysUnfold(keys);
      assert IsLeast(s[0], keys) by {
        forall j | j in keys && j != s[0]
          ensures Less(s[0], j)
        {
          var i :| 0 <= i < |s| && s[i] == j;
          assert i != 0;
        }
      }
      LeastUnique(s[0], SortedKeys(keys)[0], keys);
      forall k
        ensures k in keys - {s[0]} <==> k in s[1..]
      {
        if k in s[1..] {
          var i :| 1 <= i < |s| && s[i] == k;
          LessIrreflexive(k);
        }
        if k in keys - {s[0]} {
          var i :| 0 <= i < |s| && s[i] == k;
          assert i != 0;
          assert s[1..][i - 1] == k;
        }
      }
      SortedKeysUnique(s[1..], keys - {s[0]});
    }
  }

  /** Computes the iteration order of a map's keys. */
  method KeysInOrder<V>(m: map<string, V>) returns (ks: seq<string>)
    ensures ks == SortedKeys(m.Keys)
  {
    var rest := m.Keys;
    ks := [];
    while rest != {}
      invariant rest <= m.Keys
      invariant SortedKeys(m.Keys) == ks + SortedKeys(rest)
      decreases rest
    {
      LeastExists(rest);
      var k :| IsLeast(k, rest);
      SortedKeysUnfold(rest);
      LeastUnique(k, SortedKeys(rest)[0], rest);
      ks := ks + [k];
      rest := rest - {k};
    }
  }
}
