/** Maps that are walked in the order of their keys, as a BTreeMap is. */
module SortedMaps {
  import opened Wrappers

  function Get<K, V>(m: map<K, V>, k: K): Option<V> {
    if k in m then Some(m[k]) else None
  }

  lemma GetDecides<K(!new), V>(m: map<K, V>, n: map<K, V>)
    requires forall k :: Get(m, k) == Get(n, k)
    ensures m == n
  {
    forall k ensures k in m <==> k in n {
      var _ := Get(m, k) == Get(n, k);
    }
    forall k | k in m ensures m[k] == n[k] {
      assert Get(m, k) == Get(n, k);
    }
  }

  lemma Pick<T>(s: set<T>) returns (x: T)
    requires s != {}
    ensures x in s
  {
    x :| x in s;
  }

  lemma {:induction false} LeastExists(s: set<int>)
    requires s != {}
    ensures exists k :: k in s && forall j | j in s :: k <= j
    decreases |s|
  {
    var x := Pick(s);
    if s != {x} {
      var t := s - {x};
      LeastExists(t);
      var k :| k in t && forall j | j in t :: k <= j;
      var m := if x < k then x else k;
      forall j | j in s ensures m <= j {
        assert j == x || j in t;
      }
      assert m in s;
    }
  }

  function Least(s: set<int>): (k: int)
    requires s != {}
    ensures k in s && forall j | j in s :: k <= j
  {
    LeastExists(s);
    var k :| k in s && forall j | j in s :: k <= j;
    k
  }

  predicate Ascending(ks: seq<int>) {
    forall i, j | 0 <= i < j < |ks| :: ks[i] < ks[j]
  }

  function SortedKeys(s: set<int>): (ks: seq<int>)
    ensures Ascending(ks) && forall k :: k in ks <==> k in s
    decreases |s|
  {
    if s == {} then []
    else
      var k := Least(s);
      var rest := SortedKeys(s - {k});
      assert forall i | 0 <= i < |rest| :: rest[i] in rest;
      [k] + rest
  }

  function Values<V>(m: map<int, V>): (vs: seq<V>)
    ensures |vs| == |SortedKeys(m.Keys)|
    ensures forall i | 0 <= i < |vs| :: SortedKeys(m.Keys)[i] in m && vs[i] == m[SortedKeys(m.Keys)[i]]
  {
    var ks := SortedKeys(m.Keys);
    seq(|ks|, i requires 0 <= i < |ks| => assert ks[i] in ks; m[ks[i]])
  }

  lemma HasMember(b: seq<int>)
    ensures b != [] ==> exists k :: k in b
  {
    if b != [] {
      var x := b[0];
      assert x in b;
    }
  }

  /** Two ascending lists of the same keys are the same list. */
  lemma {:induction false} AscendingUnique(a: seq<int>, b: seq<int>)
    requires Ascending(a) && Ascending(b) && forall k :: k in a <==> k in b
    ensures a == b
    decreases |a|
  {
    if a == [] {
      HasMember(b);
    } else {
      assert a[0] in a && a[0] in b;
      assert b[0] in b && b[0] in a;
      assert a[0] == b[0];
      forall k ensures k in a[1..] <==> k in b[1..] {
        assert k in a <==> k == a[0] || k in a[1..];
        assert k in b <==> k == b[0] || k in b[1..];
      }
      AscendingUnique(a[1..], b[1..]);
    }
  }

  /** A map over 0, 1, ... lists its values in that order. */
  lemma ValuesOfIndices<V>(m: map<int, V>, vs: seq<V>)
    requires forall i :: i in m <==> 0 <= i < |vs|
    requires forall i | 0 <= i < |vs| :: m[i] == vs[i]
    ensures Values(m) == vs
  {
    var ks := seq(|vs|, i => i);
    forall k ensures k in ks <==> k in m.Keys {
      assert 0 <= k < |vs| ==> ks[k] == k;
    }
    AscendingUnique(SortedKeys(m.Keys), ks);
  }
}
