/** A JavaScript `Map`: its entries, and the order in which their keys were first inserted. */
module OrderedMaps {
  import opened Wrappers

  datatype OMap<K, V> = OMap(order: seq<K>, data: map<K, V>)

  ghost predicate Good<K, V>(m: OMap<K, V>)
  {
    NoRepeats(m.order) && (set k <- m.order) == m.data.Keys
  }

  function Empty<K, V>(): OMap<K, V> { OMap([], map[]) }

  /** `set`: a known key keeps its place. */
  function Set<K, V>(m: OMap<K, V>, k: K, v: V): OMap<K, V>
  {
    OMap(if k in m.data then m.order else m.order + [k], m.data[k := v])
  }

  /** The keys of a list that lie in `keep`, in order. */
  function Select<K>(keys: seq<K>, keep: set<K>): seq<K>
  {
    if keys == [] then []
    else (if keys[0] in keep then [keys[0]] else []) + Select(keys[1..], keep)
  }

  /** The entries whose keys lie in `keep`, in order. */
  function Keep<K, V>(m: OMap<K, V>, keep: set<K>): OMap<K, V>
  {
    OMap(Select(m.order, keep), map k | k in m.data && k in keep :: m.data[k])
  }

  /** The values at a list of keys. */
  function At<K, V>(m: OMap<K, V>, keys: seq<K>): (r: seq<V>)
    requires forall k <- keys :: k in m.data
    ensures |r| == |keys| && forall i :: 0 <= i < |r| ==> r[i] == m.data[keys[i]]
  {
    if keys == [] then [] else [m.data[keys[0]]] + At(m, keys[1..])
  }

  /** `for (const value of values) next.set(key(value), value)`. */
  function SetAll<K, V>(m: OMap<K, V>, values: seq<V>, key: V -> K): OMap<K, V>
    decreases |values|
  {
    if values == [] then m else SetAll(Set(m, key(values[0]), values[0]), values[1..], key)
  }

  function KeysOf<K, V>(values: seq<V>, key: V -> K): (r: seq<K>)
    ensures |r| == |values| && forall i :: 0 <= i < |r| ==> r[i] == key(values[i])
  {
    if values == [] then [] else [key(values[0])] + KeysOf(values[1..], key)
  }

  lemma SetGood<K(!new), V(!new)>(m: OMap<K, V>, k: K, v: V)
    requires Good(m)
    ensures Good(Set(m, k, v))
  {
    if k !in m.data {
      assert k !in (set x <- m.order);
      assert forall x :: x in m.order + [k] <==> x in m.order || x == k;
    }
  }

  lemma {:induction false} SelectMembers<K(!new)>(keys: seq<K>, keep: set<K>)
    ensures forall k :: k in Select(keys, keep) <==> k in keys && k in keep
    ensures |Select(keys, keep)| <= |keys|
    ensures NoRepeats(keys) ==> NoRepeats(Select(keys, keep))
  {
    if keys != [] {
      SelectMembers(keys[1..], keep);
      assert keys == [keys[0]] + keys[1..];
    }
  }

  lemma {:induction false} SelectConcat<K(!new)>(a: seq<K>, b: seq<K>, keep: set<K>)
    ensures Select(a + b, keep) == Select(a, keep) + Select(b, keep)
  {
    if a == [] {
      assert a + b == b;
    } else {
      SelectConcat(a[1..], b, keep);
      assert (a + b)[1..] == a[1..] + b;
    }
  }

  lemma {:induction false} SelectAll<K(!new)>(keys: seq<K>, keep: set<K>)
    requires forall k <- keys :: k in keep
    ensures Select(keys, keep) == keys
  {
    if keys != [] { SelectAll(keys[1..], keep); }
  }

  lemma {:induction false} SelectNone<K(!new)>(keys: seq<K>, keep: set<K>)
    requires forall k <- keys :: k !in keep
    ensures Select(keys, keep) == []
  {
    if keys != [] { SelectNone(keys[1..], keep); }
  }

  /** Selecting twice is selecting once, when the second choice lies within the first. */
  lemma {:induction false} SelectSelect<K(!new)>(keys: seq<K>, outer: set<K>, inner: set<K>)
    requires inner <= outer
    ensures Select(Select(keys, outer), inner) == Select(keys, inner)
  {
    if keys != [] {
      SelectSelect(keys[1..], outer, inner);
      SelectConcat(if keys[0] in outer then [keys[0]] else [], Select(keys[1..], outer), inner);
      if keys[0] in outer { assert [keys[0]][1..] == []; }
    }
  }

  lemma {:induction false} SelectSame<K(!new)>(keys: seq<K>, a: set<K>, b: set<K>)
    requires forall k <- keys :: k in a <==> k in b
    ensures Select(keys, a) == Select(keys, b)
  {
    if keys != [] { SelectSame(keys[1..], a, b); }
  }

  lemma KeepGood<K(!new), V(!new)>(m: OMap<K, V>, keep: set<K>)
    requires Good(m)
    ensures Good(Keep(m, keep)) && Keep(m, keep).data.Keys == m.data.Keys * keep
  {
    SelectMembers(m.order, keep);
    var kept := Select(m.order, keep);
    forall k <- kept ensures k in m.data.Keys * keep { assert k in (set x <- m.order); }
    forall k <- m.data.Keys * keep ensures k in kept { assert k in (set x <- m.order); }
    assert Keep(m, keep).data.Keys == m.data.Keys * keep;
    assert (set k <- kept) == m.data.Keys * keep;
    assert Keep(m, keep).order == kept;
  }

  lemma FirstKey<K(!new), V(!new)>(values: seq<V>, key: V -> K)
    requires values != []
    ensures (set v <- values :: key(v)) == {key(values[0])} + set v <- values[1..] :: key(v)
  {
    assert values == [values[0]] + values[1..];
  }

  lemma {:induction false} SetAllGood<K(!new), V(!new)>(m: OMap<K, V>, values: seq<V>, key: V -> K)
    requires Good(m)
    ensures Good(SetAll(m, values, key))
    ensures SetAll(m, values, key).data.Keys == m.data.Keys + set v <- values :: key(v)
    decreases |values|
  {
    hide Good;
    if values != [] {
      var next := Set(m, key(values[0]), values[0]);
      SetGood(m, key(values[0]), values[0]);
      SetAllGood(next, values[1..], key);
      FirstKey(values, key);
      assert next.data.Keys == m.data.Keys + {key(values[0])};
    }
  }

  /** An entry of the result is an entry of the map or one of the values. */
  lemma {:induction false} SetAllFrom<K(!new), V(!new)>(m: OMap<K, V>, values: seq<V>, key: V -> K, k: K)
    requires k in SetAll(m, values, key).data
    ensures var r := SetAll(m, values, key).data[k];
            (k in m.data && r == m.data[k] && forall v <- values :: key(v) != k) || (r in values && key(r) == k)
    decreases |values|
  {
    if values != [] {
      SetAllFrom(Set(m, key(values[0]), values[0]), values[1..], key, k);
      assert values == [values[0]] + values[1..];
    }
  }

  lemma NoRepeatsTail<K(!new), V(!new)>(values: seq<V>, key: V -> K)
    requires values != [] && NoRepeats(KeysOf(values, key))
    ensures NoRepeats(KeysOf(values[1..], key))
    ensures forall w <- values[1..] :: key(w) != key(values[0])
  {
    var ks, rest := KeysOf(values, key), KeysOf(values[1..], key);
    assert rest == ks[1..];
    forall i, j | 0 <= i < j < |rest| ensures rest[i] != rest[j] {
      assert ks[i + 1] != ks[j + 1];
    }
    forall w <- values[1..] ensures key(w) != key(values[0]) {
      var i :| 0 <= i < |values[1..]| && values[1..][i] == w;
      assert ks[0] != ks[i + 1];
    }
  }

  ghost predicate Fresh<K, V>(m: OMap<K, V>, values: seq<V>, key: V -> K) { forall v <- values :: key(v) !in m.data }

  lemma FreshTail<K(!new), V(!new)>(m: OMap<K, V>, values: seq<V>, key: V -> K)
    requires values != [] && NoRepeats(KeysOf(values, key)) && Fresh(m, values, key)
    ensures Fresh(Set(m, key(values[0]), values[0]), values[1..], key)
    ensures Set(m, key(values[0]), values[0]).order == m.order + [key(values[0])]
    ensures NoRepeats(KeysOf(values[1..], key))
  {
    NoRepeatsTail(values, key);
    assert values[0] in values;
    forall v <- values[1..] ensures v in values {}
  }

  /** Values with new and distinct keys are appended as they stand. */
  lemma {:induction false} SetAllAppends<K(!new), V(!new)>(m: OMap<K, V>, values: seq<V>, key: V -> K)
    requires NoRepeats(KeysOf(values, key)) && Fresh(m, values, key)
    ensures SetAll(m, values, key).order == m.order + KeysOf(values, key)
    decreases |values|
  {
    hide NoRepeats, Fresh, Set;
    if values != [] {
      FreshTail(m, values, key);
      SetAllAppends(Set(m, key(values[0]), values[0]), values[1..], key);
      KeysStep(values, key);
      hide KeysOf;
      Associative(m.order, [key(values[0])], KeysOf(values[1..], key));
    }
  }

  lemma KeysStep<K(!new), V(!new)>(values: seq<V>, key: V -> K)
    requires values != []
    ensures KeysOf(values, key) == [key(values[0])] + KeysOf(values[1..], key)
  {}

  lemma Associative<T>(a: seq<T>, b: seq<T>, c: seq<T>)
    ensures (a + b) + c == a + (b + c)
  {}

  lemma {:induction false} SetAllStores<K(!new), V(!new)>(m: OMap<K, V>, values: seq<V>, key: V -> K)
    requires Good(m) && NoRepeats(KeysOf(values, key))
    ensures forall v <- values :: key(v) in SetAll(m, values, key).data && SetAll(m, values, key).data[key(v)] == v
    decreases |values|
  {
    if values != [] {
      var next := Set(m, key(values[0]), values[0]);
      SetGood(m, key(values[0]), values[0]);
      NoRepeatsTail(values, key);
      hide Good, NoRepeats, KeysOf;
      SetAllStores(next, values[1..], key);
      SetAllGood(next, values[1..], key);
      SetAllFrom(next, values[1..], key, key(values[0]));
      assert values == [values[0]] + values[1..];
    }
  }

  /** Repeated keys collapse: the result has fewer entries than were set. */
  lemma {:induction false} SetAllShrinks<K(!new), V(!new)>(m: OMap<K, V>, values: seq<V>, key: V -> K)
    requires Good(m)
    ensures |SetAll(m, values, key).order| <= |m.order| + |values|
    ensures (exists i :: 0 <= i < |values| && key(values[i]) in m.data) || !NoRepeats(KeysOf(values, key)) ==>
              |SetAll(m, values, key).order| < |m.order| + |values|
    decreases |values|
  {
    if values != [] {
      var v := values[0];
      var next := Set(m, key(v), v);
      SetGood(m, key(v), v);
      SetAllShrinks(next, values[1..], key);
      if key(v) !in m.data { RepeatLater(m, values, key); }
      hide Good, NoRepeats, KeysOf;
    }
  }

  /** A repeat among the values and the map is still one after the first value has been set. */
  lemma RepeatLater<K(!new), V(!new)>(m: OMap<K, V>, values: seq<V>, key: V -> K)
    requires values != [] && key(values[0]) !in m.data
    ensures (exists i :: 0 <= i < |values| && key(values[i]) in m.data) || !NoRepeats(KeysOf(values, key)) ==>
              var next, rest := Set(m, key(values[0]), values[0]), values[1..];
              (exists i :: 0 <= i < |rest| && key(rest[i]) in next.data) || !NoRepeats(KeysOf(rest, key))
  {
    var next, rest := Set(m, key(values[0]), values[0]), values[1..];
    KeysStep(values, key);
    var ks := KeysOf(values, key);
    assert KeysOf(rest, key) == ks[1..];
    if exists i :: 0 <= i < |values| && key(values[i]) in m.data {
      var i :| 0 <= i < |values| && key(values[i]) in m.data;
      assert key(rest[i - 1]) in next.data;
    } else if !NoRepeats(ks) {
      var i, j :| 0 <= i < j < |ks| && ks[i] == ks[j];
      if i == 0 { assert key(rest[j - 1]) in next.data; } else { assert ks[1..][i - 1] == ks[1..][j - 1]; }
    }
  }
}
