/** Python's built-in dict as an insertion-ordered list of (key, value)
    entries with distinct keys: the structure `DictModel.data` holds. */
module PyDict {

  function Keys<K, V>(es: seq<(K, V)>): (ks: seq<K>)
    ensures |ks| == |es|
  {
    seq(|es|, i requires 0 <= i < |es| => es[i].0)
  }

  function Values<K, V>(es: seq<(K, V)>): (vs: seq<V>)
    ensures |vs| == |es|
  {
    seq(|es|, i requires 0 <= i < |es| => es[i].1)
  }

  predicate Distinct<K(==)>(ks: seq<K>)
  {
    forall i, j :: 0 <= i < j < |ks| ==> ks[i] != ks[j]
  }

  /** A Python dict never holds the same key twice. */
  predicate UniqueKeys<K(==), V>(es: seq<(K, V)>)
  {
    Distinct(Keys(es))
  }

  /** The mapping a dict denotes, order forgotten. */
  function ToMap<K(==), V>(es: seq<(K, V)>): map<K, V>
  {
    if es == [] then map[] else ToMap(es[1..])[es[0].0 := es[0].1]
  }

  /** The position of `k`: the first entry holding it. */
  function Find<K(==), V>(es: seq<(K, V)>, k: K): (i: nat)
    requires k in Keys(es)
    ensures i < |es| && es[i].0 == k
    ensures forall j :: 0 <= j < i ==> es[j].0 != k
  {
    if es[0].0 == k then 0
    else
      assert Keys(es) == [es[0].0] + Keys(es[1..]);
      1 + Find(es[1..], k)
  }

  /** `d[k] = v`: an existing key keeps its place, a new one goes last. */
  function Set<K(==), V>(es: seq<(K, V)>, k: K, v: V): (r: seq<(K, V)>)
    ensures Keys(r) == if k in Keys(es) then Keys(es) else Keys(es) + [k]
    ensures (k, v) in r
  {
    if es == [] then [(k, v)]
    else
      assert es == [es[0]] + es[1..];
      KeysCons(es[0], es[1..]);
      if es[0].0 == k then
        (KeysCons((k, v), es[1..]); [(k, v)] + es[1..])
      else
        (KeysCons(es[0], Set(es[1..], k, v)); [es[0]] + Set(es[1..], k, v))
  }

  /** `del d[k]`: the first entry holding `k` goes and the others keep
      their order; a missing key leaves the dict as it is. */
  function Delete<K(==), V>(es: seq<(K, V)>, k: K): (r: seq<(K, V)>)
    ensures k in Keys(es) ==> r == es[..Find(es, k)] + es[Find(es, k) + 1..]
    ensures k !in Keys(es) ==> r == es
  {
    if es == [] then []
    else
      assert es == [es[0]] + es[1..];
      KeysCons(es[0], es[1..]);
      if es[0].0 == k then es[1..]
      else
        var r := Delete(es[1..], k);
        if k in Keys(es) then
          assert es[..Find(es, k)] == [es[0]] + es[1..][..Find(es[1..], k)];
          [es[0]] + r
        else [es[0]] + r
  }

  // ---------------------------------------------------------------------

  lemma KeysCons<K, V>(e: (K, V), es: seq<(K, V)>)
    ensures Keys([e] + es) == [e.0] + Keys(es)
  {
  }

  /** A dict has distinct keys exactly when its tail has and its first key
      does not recur. */
  lemma UniqueCons<K, V>(e: (K, V), es: seq<(K, V)>)
    ensures UniqueKeys([e] + es) <==> UniqueKeys(es) && e.0 !in Keys(es)
  {
    var ks := Keys([e] + es);
    KeysCons(e, es);
    if UniqueKeys([e] + es) {
      forall i, j | 0 <= i < j < |es| ensures Keys(es)[i] != Keys(es)[j] {
        assert ks[i + 1] != ks[j + 1];
      }
      forall j | 0 <= j < |es| ensures Keys(es)[j] != e.0 {
        assert ks[0] != ks[j + 1];
      }
    }
  }

  /** The keys of the mapping are the keys listed in the dict. */
  lemma {:induction false} ToMapKeys<K, V>(es: seq<(K, V)>)
    ensures ToMap(es).Keys == set k | k in Keys(es)
  {
    if es != [] {
      ToMapKeys(es[1..]);
      KeysCons(es[0], es[1..]);
      assert es == [es[0]] + es[1..];
    }
  }

  /** Every entry of a dict with distinct keys is what the mapping holds. */
  lemma {:induction false} ToMapAt<K, V>(es: seq<(K, V)>, i: nat)
    requires UniqueKeys(es) && i < |es|
    ensures es[i].0 in ToMap(es) && ToMap(es)[es[i].0] == es[i].1
  {
    KeysCons(es[0], es[1..]);
    assert es == [es[0]] + es[1..];
    UniqueCons(es[0], es[1..]);
    if i > 0 {
      assert Keys(es)[0] != Keys(es)[i];
      ToMapAt(es[1..], i - 1);
    }
  }

  /** Assigning a key updates the mapping at that key only and keeps the
      order of the keys already present; a new key is appended. */
  lemma {:induction false} SetSpec<K, V>(es: seq<(K, V)>, k: K, v: V)
    requires UniqueKeys(es)
    ensures ToMap(Set(es, k, v)) == ToMap(es)[k := v]
    ensures Keys(Set(es, k, v)) == if k in Keys(es) then Keys(es) else Keys(es) + [k]
    ensures UniqueKeys(Set(es, k, v))
  {
    if es == [] {
    } else {
      var e := es[0];
      var tail := es[1..];
      assert es == [e] + tail;
      KeysCons(e, tail);
      UniqueCons(e, tail);
      if e.0 == k {
        KeysCons((k, v), tail);
        UniqueCons((k, v), tail);
        assert ToMap([(k, v)] + tail) == ToMap(tail)[k := v];
      } else {
        SetSpec(tail, k, v);
        var r := Set(tail, k, v);
        KeysCons(e, r);
        assert ([e] + r)[1..] == r;
        UniqueCons(e, r);
        assert Keys([e] + r) == [e.0] + Keys(r);
        assert ToMap([e] + r) == ToMap(r)[e.0 := e.1];
      }
    }
  }

  /** Deleting a present key removes exactly that entry. */
  lemma {:induction false} DeleteSpec<K, V>(es: seq<(K, V)>, k: K)
    requires UniqueKeys(es) && k in Keys(es)
    ensures Delete(es, k) == es[..Find(es, k)] + es[Find(es, k) + 1..]
    ensures ToMap(Delete(es, k)) == ToMap(es) - {k}
    ensures UniqueKeys(Delete(es, k))
  {
    var e := es[0];
    var tail := es[1..];
    assert es == [e] + tail;
    KeysCons(e, tail);
    UniqueCons(e, tail);
    if e.0 == k {
      ToMapKeys(tail);
      assert ToMap(es) - {k} == ToMap(tail);
    } else {
      assert k in Keys(tail);
      DeleteSpec(tail, k);
      var r := Delete(tail, k);
      assert Find(es, k) == 1 + Find(tail, k);
      KeysCons(e, r);
      assert e.0 !in Keys(r) by {
        ToMapKeys(tail);
        ToMapKeys(r);
        var rs, ts := set x | x in Keys(r), set x | x in Keys(tail);
        assert rs <= ts;
        assert e.0 !in ts;
      }
      UniqueCons(e, r);
      assert ToMap([e] + r) == ToMap(r)[e.0 := e.1];
    }
  }

  /** Reading a key gives what the mapping holds there. */
  lemma FindSpec<K, V>(es: seq<(K, V)>, k: K)
    requires UniqueKeys(es) && k in Keys(es)
    ensures k in ToMap(es) && ToMap(es)[k] == es[Find(es, k)].1
  {
    ToMapAt(es, Find(es, k));
  }
}
