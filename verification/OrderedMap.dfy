// An ordered map as a sequence of entries that is searched with a caller-supplied comparison, the way
// std::map is. Nothing here demands that the comparison is an order; the lemmas say what follows if it is.
module OrderedMap {

  // The first position whose key is not less than k.
  function LowerBound<K, V>(m: seq<(K, V)>, k: K, less: (K, K) -> bool): (i: nat)
    ensures i <= |m|
    ensures forall j :: 0 <= j < i ==> less(m[j].0, k)
    ensures i < |m| ==> !less(m[i].0, k)
  {
    if m == [] || !less(m[0].0, k) then 0 else 1 + LowerBound(m[1..], k, less)
  }

  // Keys are the same if neither is less than the other.
  predicate Found<K, V>(m: seq<(K, V)>, k: K, less: (K, K) -> bool) {
    var i := LowerBound(m, k, less);
    i < |m| && !less(k, m[i].0)
  }

  function Put<K, V>(m: seq<(K, V)>, k: K, v: V, less: (K, K) -> bool): seq<(K, V)> {
    var i := LowerBound(m, k, less);
    if Found(m, k, less) then m[i := (m[i].0, v)] else m[..i] + [(k, v)] + m[i..]
  }

  ghost predicate StrictOrder<K(!new)>(less: (K, K) -> bool, keys: set<K>) {
    && (forall a :: a in keys ==> !less(a, a))
    && (forall a, b :: a in keys && b in keys ==> a == b || less(a, b) || less(b, a))
    && (forall a, b, c :: a in keys && b in keys && c in keys && less(a, b) && less(b, c) ==> less(a, c))
  }

  ghost predicate Sorted<K(!new), V(!new)>(m: seq<(K, V)>, less: (K, K) -> bool) {
    forall i, j :: 0 <= i < j < |m| ==> less(m[i].0, m[j].0)
  }

  ghost predicate KeysIn<K, V>(m: seq<(K, V)>, keys: set<K>) {
    forall i :: 0 <= i < |m| ==> m[i].0 in keys
  }

  // The contents, whatever the order of the entries.
  function AsMap<K, V>(m: seq<(K, V)>): map<K, V> {
    if m == [] then map[] else AsMap(m[..|m| - 1])[m[|m| - 1].0 := m[|m| - 1].1]
  }

  ghost predicate HasKey<K, V>(m: seq<(K, V)>, k: K) { exists i :: 0 <= i < |m| && m[i].0 == k }

  lemma {:induction false} KeysOfMap<K, V>(m: seq<(K, V)>, k: K)
    ensures k in AsMap(m) <==> HasKey(m, k)
  {
    if m != [] {
      var init, last := m[..|m| - 1], m[|m| - 1];
      KeysOfMap(init, k);
      if HasKey(init, k) {
        var i :| 0 <= i < |init| && init[i].0 == k;
        assert m[i].0 == k;
      }
      if HasKey(m, k) {
        var i :| 0 <= i < |m| && m[i].0 == k;
        assert i < |init| ==> init[i].0 == k;
      }
    }
  }

  lemma {:induction false} ValueAt<K(!new), V(!new)>(m: seq<(K, V)>, less: (K, K) -> bool, keys: set<K>, i: nat)
    requires StrictOrder(less, keys) && KeysIn(m, keys) && Sorted(m, less) && i < |m|
    ensures m[i].0 in AsMap(m) && AsMap(m)[m[i].0] == m[i].1
  {
    if i < |m| - 1 {
      assert less(m[i].0, m[|m| - 1].0);
      ValueAt(m[..|m| - 1], less, keys, i);
    }
  }

  lemma FoundExactly<K(!new), V(!new)>(m: seq<(K, V)>, k: K, less: (K, K) -> bool, keys: set<K>)
    requires StrictOrder(less, keys) && KeysIn(m, keys) && Sorted(m, less) && k in keys
    ensures Found(m, k, less) <==> k in AsMap(m)
    ensures Found(m, k, less) ==> m[LowerBound(m, k, less)] == (k, AsMap(m)[k])
  {
    var i := LowerBound(m, k, less);
    KeysOfMap(m, k);
    if Found(m, k, less) {
      assert m[i].0 == k;
      ValueAt(m, less, keys, i);
    } else {
      forall j | 0 <= j < |m| ensures m[j].0 != k {
        if i <= j {
          assert less(k, m[i].0);
          assert i < j ==> less(m[i].0, m[j].0);
        }
      }
    }
  }

  // Two sorted maps with the same contents are the same sequence.
  lemma {:induction false} SortedIsUnique<K(!new), V(!new)>(a: seq<(K, V)>, b: seq<(K, V)>, less: (K, K) -> bool, keys: set<K>)
    requires StrictOrder(less, keys) && KeysIn(a, keys) && KeysIn(b, keys) && Sorted(a, less) && Sorted(b, less)
    requires AsMap(a) == AsMap(b)
    ensures a == b
  {
    if a == [] || b == [] {
      if a != [] { KeysOfMap(a, a[0].0); }
      if b != [] { KeysOfMap(b, b[0].0); }
    } else {
      var la, lb := a[|a| - 1], b[|b| - 1];
      assert la.0 == lb.0 by {
        KeysOfMap(b, la.0);
        KeysOfMap(a, lb.0);
        var i :| 0 <= i < |b| && b[i].0 == la.0;
        var j :| 0 <= j < |a| && a[j].0 == lb.0;
        assert i < |b| - 1 ==> less(la.0, lb.0);
        assert j < |a| - 1 ==> less(lb.0, la.0);
      }
      var ia, ib := a[..|a| - 1], b[..|b| - 1];
      DropLast(a, less, keys);
      DropLast(b, less, keys);
      SortedIsUnique(ia, ib, less, keys);
      assert a == ia + [la] && b == ib + [lb];
    }
  }

  lemma DropLast<K(!new), V(!new)>(m: seq<(K, V)>, less: (K, K) -> bool, keys: set<K>)
    requires StrictOrder(less, keys) && KeysIn(m, keys) && Sorted(m, less) && m != []
    ensures var init, last := m[..|m| - 1], m[|m| - 1];
            && KeysIn(init, keys) && Sorted(init, less)
            && AsMap(init) == (map k | k in AsMap(m) && k != last.0 :: AsMap(m)[k])
            && AsMap(m)[last.0] == last.1
  {
    var init, last := m[..|m| - 1], m[|m| - 1];
    KeysOfMap(init, last.0);
    forall i | 0 <= i < |init| ensures init[i].0 != last.0 {
      assert less(m[i].0, m[|m| - 1].0);
    }
  }

  lemma PutSorted<K(!new), V(!new)>(m: seq<(K, V)>, k: K, v: V, less: (K, K) -> bool, keys: set<K>)
    requires StrictOrder(less, keys) && KeysIn(m, keys) && Sorted(m, less) && k in keys
    ensures KeysIn(Put(m, k, v, less), keys) && Sorted(Put(m, k, v, less), less)
  {
    var i := LowerBound(m, k, less);
    if !Found(m, k, less) {
      forall j | i <= j < |m| ensures less(k, m[j].0) {
        assert less(k, m[i].0);
        assert i < j ==> less(m[i].0, m[j].0);
      }
    }
  }

  lemma {:induction false} ReplacedAt<K(!new), V(!new)>(m: seq<(K, V)>, i: nat, v: V, less: (K, K) -> bool, keys: set<K>)
    requires StrictOrder(less, keys) && KeysIn(m, keys) && Sorted(m, less) && i < |m|
    ensures AsMap(m[i := (m[i].0, v)]) == AsMap(m)[m[i].0 := v]
  {
    var m' := m[i := (m[i].0, v)];
    if i < |m| - 1 {
      assert less(m[i].0, m[|m| - 1].0);
      assert m'[..|m| - 1] == m[..|m| - 1][i := (m[i].0, v)];
      ReplacedAt(m[..|m| - 1], i, v, less, keys);
    } else {
      assert m'[..|m| - 1] == m[..|m| - 1];
    }
  }

  lemma {:induction false} InsertedAt<K(!new), V(!new)>(m: seq<(K, V)>, i: nat, k: K, v: V)
    requires i <= |m| && k !in AsMap(m)
    ensures AsMap(m[..i] + [(k, v)] + m[i..]) == AsMap(m)[k := v]
    decreases |m| - i
  {
    var m' := m[..i] + [(k, v)] + m[i..];
    if i == |m| {
      assert m'[..|m|] == m;
    } else {
      var init, last := m[..|m| - 1], m[|m| - 1];
      assert m'[..|m|] == init[..i] + [(k, v)] + init[i..];
      InsertedAt(init, i, k, v);
    }
  }

  lemma PutContents<K(!new), V(!new)>(m: seq<(K, V)>, k: K, v: V, less: (K, K) -> bool, keys: set<K>)
    requires StrictOrder(less, keys) && KeysIn(m, keys) && Sorted(m, less) && k in keys
    ensures AsMap(Put(m, k, v, less)) == AsMap(m)[k := v]
  {
    var i := LowerBound(m, k, less);
    FoundExactly(m, k, less, keys);
    if Found(m, k, less) {
      ReplacedAt(m, i, v, less, keys);
    } else {
      InsertedAt(m, i, k, v);
    }
  }

  // Putting a value adds one entry and brings nothing else in.
  lemma PutEntries<K(!new), V(!new)>(m: seq<(K, V)>, k: K, v: V, less: (K, K) -> bool, keys: set<K>)
    requires StrictOrder(less, keys) && KeysIn(m, keys) && k in keys
    ensures forall e :: e in Put(m, k, v, less) ==> e == (k, v) || e in m
  {
    var i := LowerBound(m, k, less);
    if Found(m, k, less) {
      assert m[i].0 == k;
    }
  }

  // ---------------------------------------------------------------- the container

  ghost function KeySet<K, V>(m: seq<(K, V)>): set<K> { set i | 0 <= i < |m| :: m[i].0 }

  lemma SubsetIsOrdered<K(!new)>(less: (K, K) -> bool, keys: set<K>, sub: set<K>)
    requires StrictOrder(less, keys) && sub <= keys
    ensures StrictOrder(less, sub)
  {
  }

  // What std::map promises about find: a position, |m| for end(), provided that the comparison is a strict
  // order on the keys involved. Otherwise nothing is promised.
  method Find<K(!new), V>(m: seq<(K, V)>, k: K, less: (K, K) -> bool) returns (it: nat)
    ensures it <= |m|
    ensures StrictOrder(less, KeySet(m) + {k}) ==> it == if Found(m, k, less) then LowerBound(m, k, less) else |m|
  {
    it := 0;
    while it < |m| && less(m[it].0, k)
      invariant it <= LowerBound(m, k, less)
    {
      it := it + 1;
    }
    if it < |m| && less(k, m[it].0) {
      it := |m|;
    }
  }

  // And about assigning through a key.
  method Assign<K(!new), V>(m: seq<(K, V)>, k: K, v: V, less: (K, K) -> bool) returns (m': seq<(K, V)>)
    ensures StrictOrder(less, KeySet(m) + {k}) ==> m' == Put(m, k, v, less)
  {
    m' := Put(m, k, v, less);
  }
}
