/** Python's OrderedDict as a value: the keys from oldest to newest, and their values. The dictionaries of
    the cache, the token store, the lock tables, the id cache and the sliding windows are all of this kind:
    bounded, with the oldest entry evicted first. */
module OrderedDicts {

  datatype ODict<K(==), V> = ODict(keys: seq<K>, vals: map<K, V>) {

    ghost predicate Ok() {
      && Distinct(keys)
      && (forall k | k in keys :: k in vals)
      && (forall k | k in vals :: k in keys)
    }

    /** `d.pop(k, None)`. */
    function Remove(k: K): (d: ODict<K, V>) {
      ODict(Without(keys, k), vals - {k})
    }

    /** `d[k] = v; d.move_to_end(k)`. */
    function PutLast(k: K, v: V): (d: ODict<K, V>) {
      ODict(Without(keys, k) + [k], vals[k := v])
    }

    /** `d[k] = v` for a key already there: the position stays. */
    function Update(k: K, v: V): (d: ODict<K, V>)
      requires k in vals
    {
      ODict(keys, vals[k := v])
    }

    /** `d.popitem(last=False)`. */
    function DropOldest(): (d: ODict<K, V>)
      requires keys != []
    {
      ODict(keys[1..], vals - {keys[0]})
    }

    /** The dict without a set of keys, the order of the rest kept. */
    function Minus(doomed: set<K>): (d: ODict<K, V>) {
      ODict(KeysOutside(keys, doomed), vals - doomed)
    }

    lemma MinusOk(doomed: set<K>)
      requires Ok()
      ensures Minus(doomed).Ok() && |Minus(doomed).keys| <= |keys|
    {
      KeysOutsideOk(keys, doomed);
      forall x | x in vals
        ensures x in Minus(doomed).keys <==> x !in doomed
      {
        KeysOutsideIn(keys, doomed, x);
      }
      forall x | x in Minus(doomed).keys
        ensures x in Minus(doomed).vals
      {
        KeysOutsideIn(keys, doomed, x);
      }
    }

    lemma MinusSmaller(doomed: set<K>, k: K)
      requires k in keys && k in doomed
      ensures |Minus(doomed).keys| < |keys|
    {
      KeysOutsideSmaller(keys, doomed, k);
    }

    lemma MinusOneMore(done: set<K>, k: K)
      ensures Minus(done).Remove(k) == Minus(done + {k})
    {
      KeysOutsideTwice(keys, done, k);
      assert vals - done - {k} == vals - (done + {k});
    }

    lemma MinusNothing()
      ensures Minus({}) == this
    {
      KeysOutsideNothing(keys, {});
    }

    /** `d.move_to_end(k)` for the oldest key. */
    function Rotate(): (d: ODict<K, V>)
      requires keys != []
    {
      ODict(keys[1..] + [keys[0]], vals)
    }

    lemma RotateIsMoveToEnd()
      requires Ok() && keys != []
      ensures Rotate().Ok() && Rotate() == PutLast(keys[0], vals[keys[0]])
    {
      DropOldestOk();
      WithoutOldest(keys);
      PutLastOk(keys[0], vals[keys[0]]);
      SameValue(vals, keys[0]);
    }

    lemma DropOldestOk()
      requires Ok() && keys != []
      ensures DropOldest().Ok() && keys[0] !in keys[1..]
    {
      assert keys == [keys[0]] + keys[1..];
    }

    /** `while len(d) > cap: d.popitem(last=False)`. */
    function Capped(cap: nat): (d: ODict<K, V>)
      decreases |keys|
    {
      if |keys| <= cap then this else DropOldest().Capped(cap)
    }

    lemma {:induction false} CappedKeys(cap: nat)
      ensures Capped(cap).keys == if |keys| <= cap then keys else keys[|keys| - cap..]
      decreases |keys|
    {
      if |keys| > cap {
        DropOldest().CappedKeys(cap);
      }
    }

    lemma {:induction false} CappedVals(cap: nat)
      requires Ok()
      ensures var d := Capped(cap);
              d.Ok() && forall k | k in d.vals :: k in vals && d.vals[k] == vals[k]
      decreases |keys|
    {
      if |keys| > cap {
        DropOldestOk();
        DropOldest().CappedVals(cap);
      }
    }

    /** Capping keeps exactly the newest `cap` keys, with their values. */
    lemma CappedOk(cap: nat)
      requires Ok()
      ensures var d := Capped(cap);
              && d.Ok() && d.keys == (if |keys| <= cap then keys else keys[|keys| - cap..])
              && (forall k | k in d.vals :: k in vals && d.vals[k] == vals[k])
    {
      CappedKeys(cap);
      CappedVals(cap);
    }

    /** Storing a key as the newest and then evicting: what is left is the stored value and old ones,
        and the stored key itself is evicted only from a dict that may hold nothing. */
    lemma PutCappedOk(k: K, v: V, cap: nat)
      requires Ok()
      ensures var d := PutLast(k, v).Capped(cap);
              && d.Ok() && |d.keys| <= cap && (0 < cap ==> k in d.vals)
              && (forall x | x in d.vals :: if x == k then d.vals[x] == v else x in vals && d.vals[x] == vals[x])
    {
      PutLastOk(k, v);
      var p := PutLast(k, v);
      p.CappedOk(cap);
      assert p.keys[|p.keys| - 1] == k;
      var d := p.Capped(cap);
      assert 0 < cap ==> d.keys[|d.keys| - 1] == k;
    }

    /** The stored key goes to the newest place, wherever it was or was not, the others keep their order,
        and the oldest leave. */
    lemma PutCappedOrder(k: K, v: V, cap: nat, a: seq<K>, b: seq<K>)
      requires k !in a && k !in b && (keys == a + b || keys == a + [k] + b)
      ensures var all := a + b + [k];
              PutLast(k, v).Capped(cap).keys == if |all| <= cap then all else all[|all| - cap..]
    {
      PutLast(k, v).CappedKeys(cap);
      WithoutAround(a, k, b);
    }

    lemma RemoveOk(k: K)
      requires Ok()
      ensures Remove(k).Ok() && |Remove(k).keys| == |keys| - (if k in vals then 1 else 0)
    {
      WithoutDistinct(keys, k);
      var d := Remove(k);
      assert d.keys == Without(keys, k);
      forall x | x in d.keys
        ensures x in d.vals
      {
        WithoutIn(keys, k, x);
      }
      forall x | x in d.vals
        ensures x in d.keys
      {
        WithoutIn(keys, k, x);
      }
    }

    lemma PutLastOk(k: K, v: V)
      requires Ok()
      ensures PutLast(k, v).Ok() && |PutLast(k, v).keys| == |keys| + (if k in vals then 0 else 1)
    {
      WithoutDistinct(keys, k);
      WithoutIn(keys, k, k);
      var w := Without(keys, k);
      assert forall i | 0 <= i < |w| :: w[i] in w;
      var d := PutLast(k, v);
      forall x | x in d.keys
        ensures x in d.vals
      {
        WithoutIn(keys, k, x);
      }
      forall x | x in d.vals
        ensures x in d.keys
      {
        WithoutIn(keys, k, x);
      }
    }
  }

  function Without<K(==)>(keys: seq<K>, k: K): seq<K> {
    if keys == [] then []
    else (if keys[0] == k then [] else [keys[0]]) + Without(keys[1..], k)
  }

  lemma {:induction false} WithoutIn<K>(keys: seq<K>, k: K, x: K)
    ensures x in Without(keys, k) <==> x in keys && x != k
  {
    if keys != [] {
      WithoutIn(keys[1..], k, x);
      assert keys == [keys[0]] + keys[1..];
    }
  }

  ghost predicate Distinct<K>(keys: seq<K>) {
    forall i, j | 0 <= i < j < |keys| :: keys[i] != keys[j]
  }

  lemma {:induction false} WithoutDistinct<K>(keys: seq<K>, k: K)
    requires Distinct(keys)
    ensures Distinct(Without(keys, k))
    ensures |Without(keys, k)| == |keys| - (if k in keys then 1 else 0)
  {
    if keys != [] {
      var rest := keys[1..];
      WithoutDistinct(rest, k);
      assert keys == [keys[0]] + rest;
      WithoutIn(rest, k, keys[0]);
      var w := Without(rest, k);
      assert forall i | 0 <= i < |w| :: w[i] in w;
    }
  }

  /** The dict without one of its keys is not the dict it was, and a key it lacks changes nothing. */
  lemma {:induction false} WithoutAbsent<K>(keys: seq<K>, k: K)
    requires k !in keys
    ensures Without(keys, k) == keys
  {
    if keys != [] {
      assert keys[0] in keys;
      assert forall x | x in keys[1..] :: x in keys;
      WithoutAbsent(keys[1..], k);
    }
  }

  lemma {:induction false} WithoutAround<K>(a: seq<K>, k: K, b: seq<K>)
    requires k !in a && k !in b
    ensures Without(a + b, k) == a + b && Without(a + [k] + b, k) == a + b
  {
    if a == [] {
      assert a + b == b && a + [k] + b == [k] + b && ([k] + b)[1..] == b;
      WithoutAbsent(b, k);
    } else {
      assert (a + b)[1..] == a[1..] + b && (a + [k] + b)[1..] == a[1..] + [k] + b;
      assert a[0] in a && forall x | x in a[1..] :: x in a;
      WithoutAround(a[1..], k, b);
    }
  }

  lemma WithoutOldest<K>(keys: seq<K>)
    requires keys != [] && keys[0] !in keys[1..]
    ensures Without(keys, keys[0]) == keys[1..]
  {
    WithoutAbsent(keys[1..], keys[0]);
    assert [] + keys[1..] == keys[1..];
  }

  lemma SameValue<K, V>(m: map<K, V>, k: K)
    requires k in m
    ensures m[k := m[k]] == m
  {
  }

  function KeysOutside<K(==)>(keys: seq<K>, doomed: set<K>): seq<K> {
    if keys == [] then []
    else (if keys[0] in doomed then [] else [keys[0]]) + KeysOutside(keys[1..], doomed)
  }

  lemma {:induction false} KeysOutsideIn<K>(keys: seq<K>, doomed: set<K>, x: K)
    ensures x in KeysOutside(keys, doomed) <==> x in keys && x !in doomed
  {
    if keys != [] {
      KeysOutsideIn(keys[1..], doomed, x);
      assert keys == [keys[0]] + keys[1..];
    }
  }

  lemma {:induction false} KeysOutsideOk<K>(keys: seq<K>, doomed: set<K>)
    requires Distinct(keys)
    ensures Distinct(KeysOutside(keys, doomed)) && |KeysOutside(keys, doomed)| <= |keys|
  {
    if keys != [] {
      var rest := keys[1..];
      KeysOutsideOk(rest, doomed);
      assert keys == [keys[0]] + rest;
      KeysOutsideIn(rest, doomed, keys[0]);
      var w := KeysOutside(rest, doomed);
      assert forall i | 0 <= i < |w| :: w[i] in w;
    }
  }

  lemma {:induction false} KeysOutsideSmaller<K>(keys: seq<K>, doomed: set<K>, k: K)
    ensures |KeysOutside(keys, doomed)| <= |keys|
    ensures k in keys && k in doomed ==> |KeysOutside(keys, doomed)| < |keys|
  {
    if keys != [] {
      KeysOutsideSmaller(keys[1..], doomed, k);
      assert keys == [keys[0]] + keys[1..];
    }
  }

  lemma {:induction false} KeysOutsideAppend<K>(a: seq<K>, b: seq<K>, doomed: set<K>)
    ensures KeysOutside(a + b, doomed) == KeysOutside(a, doomed) + KeysOutside(b, doomed)
  {
    if a == [] {
      assert a + b == b;
    } else {
      assert (a + b)[1..] == a[1..] + b;
      KeysOutsideAppend(a[1..], b, doomed);
      var first := if a[0] in doomed then [] else [a[0]];
      assert first + (KeysOutside(a[1..], doomed) + KeysOutside(b, doomed))
          == first + KeysOutside(a[1..], doomed) + KeysOutside(b, doomed);
    }
  }

  lemma {:induction false} KeysOutsideAll<K>(keys: seq<K>, doomed: set<K>)
    requires forall k | k in keys :: k in doomed
    ensures KeysOutside(keys, doomed) == []
  {
    if keys != [] {
      assert keys[0] in keys;
      assert forall x | x in keys[1..] :: x in keys;
      KeysOutsideAll(keys[1..], doomed);
    }
  }

  lemma {:induction false} KeysOutsideTwice<K>(keys: seq<K>, a: set<K>, k: K)
    ensures Without(KeysOutside(keys, a), k) == KeysOutside(keys, a + {k})
  {
    if keys != [] {
      KeysOutsideTwice(keys[1..], a, k);
      var w := KeysOutside(keys[1..], a);
      assert ([keys[0]] + w)[1..] == w && [] + w == w;
      if keys[0] in a {
        assert KeysOutside(keys, a) == w;
      } else {
        assert KeysOutside(keys, a) == [keys[0]] + w;
        assert Without([keys[0]] + w, k) == (if keys[0] == k then [] else [keys[0]]) + Without(w, k);
      }
    }
  }

  lemma {:induction false} KeysOutsideNothing<K>(keys: seq<K>, doomed: set<K>)
    requires forall k | k in keys :: k !in doomed
    ensures KeysOutside(keys, doomed) == keys
  {
    if keys != [] {
      assert keys[0] in keys;
      assert forall x | x in keys[1..] :: x in keys;
      KeysOutsideNothing(keys[1..], doomed);
    }
  }
}
