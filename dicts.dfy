/** Python dictionaries as `ecfg.py` uses them: an association list in insertion order
    with no key twice. Assigning to a present key replaces its value where it stands;
    assigning to a new key appends it. */
module Dicts {
  import opened Collections

  type Dict<K, V> = seq<(K, V)>

  /** The keys in insertion order, the order `d.items()` produces them in. */
  function Keys<K, V>(d: Dict<K, V>): (ks: seq<K>)
    ensures |ks| == |d| && forall i :: 0 <= i < |d| ==> ks[i] == d[i].0
  {
    if d == [] then [] else [d[0].0] + Keys(d[1..])
  }

  function KeySet<K(!new), V>(d: Dict<K, V>): (ks: set<K>)
    ensures forall k :: k in ks <==> k in Keys(d)
  {
    Elems(Keys(d))
  }

  lemma KeySetFirst<K(!new), V>(d: Dict<K, V>)
    requires d != []
    ensures KeySet(d) == {d[0].0} + KeySet(d[1..])
  {
    assert Keys(d) == [d[0].0] + Keys(d[1..]);
  }

  /** No key is stored twice. */
  ghost predicate Valid<K, V>(d: Dict<K, V>) {
    forall i, j :: 0 <= i < j < |d| ==> d[i].0 != d[j].0
  }

  /** `d.get(k)`: the value stored under `k`, or nothing when `k` is absent (where
      `d[k]` raises `KeyError`). */
  function Get<K(==), V>(d: Dict<K, V>, k: K): (r: Option<V>)
    ensures r.None? <==> forall i :: 0 <= i < |d| ==> d[i].0 != k
    ensures r.Some? ==> exists i :: 0 <= i < |d| && d[i] == (k, r.value)
  {
    if d == [] then None
    else if d[0].0 == k then Some(d[0].1)
    else Get(d[1..], k)
  }

  /** In a dictionary without repeated keys, every stored entry is what `Get` finds. */
  lemma GetEntry<K, V>(d: Dict<K, V>, i: nat)
    requires Valid(d) && i < |d|
    ensures Get(d, d[i].0) == Some(d[i].1)
  {
    var r := Get(d, d[i].0);
    var j :| 0 <= j < |d| && d[j] == (d[i].0, r.value);
    if j != i {
      assert d[j].0 == d[i].0;
    }
  }

  /** `d[k] = v`. */
  function Put<K(==), V>(d: Dict<K, V>, k: K, v: V): Dict<K, V>
  {
    if d == [] then [(k, v)]
    else if d[0].0 == k then [(k, v)] + d[1..]
    else [d[0]] + Put(d[1..], k, v)
  }

  /** After `d[k] = v`, looking up `k` gives `v` ... */
  lemma {:induction false} PutGet<K, V>(d: Dict<K, V>, k: K, v: V)
    ensures Get(Put(d, k, v), k) == Some(v)
  {
    if d != [] && d[0].0 != k {
      PutGet(d[1..], k, v);
      assert Put(d, k, v)[1..] == Put(d[1..], k, v);
    }
  }

  /** ... and looking up any other key gives what it gave before. */
  lemma {:induction false} PutOther<K, V>(d: Dict<K, V>, k: K, v: V, k': K)
    requires k' != k
    ensures Get(Put(d, k, v), k') == Get(d, k')
  {
    if d != [] {
      var p := Put(d, k, v);
      if d[0].0 == k {
        assert p[1..] == d[1..];
      } else if d[0].0 != k' {
        PutOther(d[1..], k, v, k');
        assert p[1..] == Put(d[1..], k, v);
      }
    }
  }

  /** `d[k] = v` keeps the order of the keys already there and appends a new key at the
      end. */
  lemma {:induction false} PutKeys<K, V>(d: Dict<K, V>, k: K, v: V)
    ensures Keys(Put(d, k, v)) == if k in Keys(d) then Keys(d) else Keys(d) + [k]
  {
    if d != [] {
      PutKeys(d[1..], k, v);
      var p := Put(d, k, v);
      if d[0].0 != k {
        assert p[1..] == Put(d[1..], k, v);
        assert Keys(d) == [d[0].0] + Keys(d[1..]);
      }
    }
  }

  lemma PutKeySet<K(!new), V>(d: Dict<K, V>, k: K, v: V)
    ensures KeySet(Put(d, k, v)) == KeySet(d) + {k}
  {
    PutKeys(d, k, v);
    ElemsSnoc(Keys(d), k);
  }

  /** Assigning to a key that is not there appends it. */
  lemma {:induction false} PutAbsent<K, V>(d: Dict<K, V>, k: K, v: V)
    requires k !in Keys(d)
    ensures Put(d, k, v) == d + [(k, v)]
  {
    if d != [] {
      assert Keys(d)[0] == d[0].0;
      assert k !in Keys(d[1..]) by {
        assert forall i :: 0 <= i < |d[1..]| ==> Keys(d[1..])[i] == Keys(d)[i + 1];
      }
      PutAbsent(d[1..], k, v);
      assert d == [d[0]] + d[1..];
    }
  }

  /** `d[k] = v` stores no key twice. */
  lemma PutValid<K, V>(d: Dict<K, V>, k: K, v: V)
    requires Valid(d)
    ensures Valid(Put(d, k, v))
  {
    PutKeys(d, k, v);
    var p := Put(d, k, v);
    var ks := Keys(p);
    forall i, j | 0 <= i < j < |p| ensures p[i].0 != p[j].0 {
      assert ks[i] == p[i].0 && ks[j] == p[j].0;
      if j < |d| {
        assert ks[i] == Keys(d)[i] && ks[j] == Keys(d)[j];
      } else {
        assert ks[j] == k && k !in Keys(d) && ks[i] == Keys(d)[i];
      }
    }
  }

  /** `{k: f(v) for k, v in d.items()}`. */
  function MapValues<K, V, W>(d: Dict<K, V>, f: V -> W): (r: Dict<K, W>)
    ensures |r| == |d|
  {
    if d == [] then [] else [(d[0].0, f(d[0].1))] + MapValues(d[1..], f)
  }

  /** The comprehension keeps the keys and their order, and applies `f` to what each key
      stores. */
  lemma {:induction false} MapValuesGet<K, V, W>(d: Dict<K, V>, f: V -> W, k: K)
    ensures Keys(MapValues(d, f)) == Keys(d)
    ensures Get(MapValues(d, f), k) == if Get(d, k).Some? then Some(f(Get(d, k).value)) else None
  {
    if d != [] {
      MapValuesGet(d[1..], f, k);
      assert MapValues(d, f)[1..] == MapValues(d[1..], f);
    }
  }
}
