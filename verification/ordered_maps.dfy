/**
 * JavaScript `Map` semantics: the keys in insertion order, each with its
 * value. Setting a key that is already present replaces its value and keeps
 * its place; a new key goes last. Keys are strings, as in every map of the core.
 */
module OrderedMaps {
  import opened Options

  datatype OrderedMap<V> = OrderedMap(keys: seq<string>, values: map<string, V>)

  /** Every key is listed once, and the listed keys are exactly those holding a value. */
  ghost predicate Wf<V>(m: OrderedMap<V>) {
    && (forall i, j :: 0 <= i < j < |m.keys| ==> m.keys[i] != m.keys[j])
    && (forall k :: k in m.values <==> k in m.keys)
  }

  /** A map as JavaScript keeps it: always well formed. */
  type JsMap<V> = m: OrderedMap<V> | Wf(m) witness OrderedMap([], map[])

  /** `new Map()`. */
  function Empty<V>(): (r: OrderedMap<V>)
    ensures Wf(r) && r.keys == []
  {
    OrderedMap([], map[])
  }

  /** `m.get(k)`: the value at `k`, `undefined` when there is none. */
  function Get<V>(m: OrderedMap<V>, k: string): (r: Option<V>)
    requires Wf(m)
    ensures r.Some? <==> k in m.keys
  {
    if k in m.values then Some(m.values[k]) else None
  }

  /** The key order after adding `k`: unchanged when it is present, otherwise `k` comes last. */
  function AddKey(ks: seq<string>, k: string): seq<string> {
    if k in ks then ks else ks + [k]
  }

  /** `m.set(k, v)`: `k` now maps to `v` and every other key keeps its value. */
  function Put<V>(m: OrderedMap<V>, k: string, v: V): (r: OrderedMap<V>)
    requires Wf(m)
    ensures Wf(r) && r.keys == AddKey(m.keys, k)
    ensures forall k' :: Get(r, k') == if k' == k then Some(v) else Get(m, k')
  {
    var r := OrderedMap(AddKey(m.keys, k), m.values[k := v]);
    assert forall i :: 0 <= i < |m.keys| ==> r.keys[i] == m.keys[i];
    r
  }

  /** `m.values()`: the values in the insertion order of their keys, as `forEach` visits them. */
  function ValuesInOrder<V>(m: OrderedMap<V>): (vs: seq<V>)
    requires Wf(m)
    ensures |vs| == |m.keys| && forall j :: 0 <= j < |m.keys| ==> vs[j] == m.values[m.keys[j]]
  {
    seq(|m.keys|, j requires 0 <= j < |m.keys| => m.values[m.keys[j]])
  }

  /** The values in insertion order are exactly the values stored. */
  lemma ValuesInOrderHas<V>(m: OrderedMap<V>, v: V)
    requires Wf(m)
    ensures v in ValuesInOrder(m) <==> v in m.values.Values
  {
    if v in m.values.Values {
      var k :| k in m.values && m.values[k] == v;
      var j :| 0 <= j < |m.keys| && m.keys[j] == k;
      assert ValuesInOrder(m)[j] == v;
    }
  }

  /** Setting a key never moves the earliest-inserted one. */
  lemma PutKeepsFirst<V>(m: OrderedMap<V>, k: string, v: V)
    requires Wf(m) && m.keys != []
    ensures Put(m, k, v).keys[0] == m.keys[0]
  {
  }

  /** `m.size`: with every key listed once, the length of the key order is the number of keys stored. */
  lemma SizeIsKeyCount<V>(m: OrderedMap<V>)
    requires Wf(m)
    ensures |m.keys| == |m.values.Keys|
  {
    DistinctCount(m.keys);
    assert m.values.Keys == set k | k in m.keys;
  }

  /** A sequence without repeats has as many elements as the set of its elements. */
  lemma {:induction false} DistinctCount(ks: seq<string>)
    requires forall i, j :: 0 <= i < j < |ks| ==> ks[i] != ks[j]
    ensures |ks| == |set k | k in ks|
    decreases |ks|
  {
    if ks != [] {
      var init := ks[..|ks| - 1];
      var last := ks[|ks| - 1];
      DistinctCount(init);
      assert last !in init by {
        forall i | 0 <= i < |init| ensures init[i] != last {
          assert ks[i] == init[i];
        }
      }
      assert (set k | k in ks) == (set k | k in init) + {last} by {
        assert ks == init + [last];
      }
    }
  }

  /** The keys of a list of pairs, in order. */
  function Keys<V>(puts: seq<(string, V)>): (ks: seq<string>)
    ensures |ks| == |puts| && forall i :: 0 <= i < |puts| ==> ks[i] == puts[i].0
  {
    seq(|puts|, i requires 0 <= i < |puts| => puts[i].0)
  }

  /** The key order after adding each of `ks` in turn. */
  function AddKeys(keys: seq<string>, ks: seq<string>): seq<string>
    decreases |ks|
  {
    if ks == [] then keys else AddKey(AddKeys(keys, ks[..|ks| - 1]), ks[|ks| - 1])
  }

  /**
   * Adding several keys keeps the keys already there, in front and in their
   * order, and leaves exactly those and the added ones.
   */
  lemma {:induction false} AddKeysHas(keys: seq<string>, ks: seq<string>)
    ensures keys <= AddKeys(keys, ks)
    ensures forall k :: k in AddKeys(keys, ks) <==> k in keys || k in ks
    decreases |ks|
  {
    if ks != [] {
      AddKeysHas(keys, ks[..|ks| - 1]);
      assert ks == ks[..|ks| - 1] + [ks[|ks| - 1]];
    }
  }

  /** `m.set(k, v)` for each pair of `puts`, in order. */
  function PutAll<V>(m: OrderedMap<V>, puts: seq<(string, V)>): (r: OrderedMap<V>)
    requires Wf(m)
    ensures Wf(r)
    decreases |puts|
  {
    if puts == [] then m
    else
      var last := puts[|puts| - 1];
      Put(PutAll(m, puts[..|puts| - 1]), last.0, last.1)
  }

  /** Setting one more pair after several is one more `set` on the result. */
  lemma PutAllSnoc<V>(m: OrderedMap<V>, puts: seq<(string, V)>, k: string, v: V)
    requires Wf(m)
    ensures PutAll(m, puts + [(k, v)]) == Put(PutAll(m, puts), k, v)
  {
    assert (puts + [(k, v)])[..|puts|] == puts;
  }

  /** Setting several keys adds each of them in turn to the key order. */
  lemma {:induction false} PutAllKeys<V>(m: OrderedMap<V>, puts: seq<(string, V)>)
    requires Wf(m)
    ensures PutAll(m, puts).keys == AddKeys(m.keys, Keys(puts))
    decreases |puts|
  {
    if puts != [] {
      var init := puts[..|puts| - 1];
      PutAllKeys(m, init);
      assert Keys(puts)[..|puts| - 1] == Keys(init);
    }
  }

  /** The value given last for `k` among `puts`. */
  function LastValue<V>(puts: seq<(string, V)>, k: string): (v: V)
    requires k in Keys(puts)
    ensures (k, v) in puts
    decreases |puts|
  {
    var last := puts[|puts| - 1];
    if last.0 == k then last.1
    else
      assert k in Keys(puts[..|puts| - 1]) by {
        var i :| 0 <= i < |puts| && Keys(puts)[i] == k;
        assert i < |puts| - 1 && Keys(puts[..|puts| - 1])[i] == k;
      }
      var v := LastValue(puts[..|puts| - 1], k);
      assert (k, v) in puts[..|puts| - 1];
      v
  }

  /**
   * After setting several keys, a key that was set holds the value given last
   * for it, and every other key holds what it held before.
   */
  lemma {:induction false} PutAllGet<V>(m: OrderedMap<V>, puts: seq<(string, V)>, k: string)
    requires Wf(m)
    ensures Get(PutAll(m, puts), k) == if k in Keys(puts) then Some(LastValue(puts, k)) else Get(m, k)
    decreases |puts|
  {
    if puts != [] {
      var init, last := puts[..|puts| - 1], puts[|puts| - 1];
      PutAllGet(m, init, k);
      assert Keys(puts) == Keys(init) + [last.0];
    }
  }
}
