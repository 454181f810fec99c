/**
  JavaScript plain objects used as dictionaries (`acc[key]`, `Object.keys`,
  `Object.entries`) and the grouping folds the pages build with them.

  A dictionary is its keys in insertion order together with the value stored
  under each key: reading a missing key gives nothing, writing an existing
  key replaces its value and keeps its place, and writing a new key appends
  it at the end.
 */
module Dicts {
  import opened Common
  import opened Seqs

  /**
    A key is present when it is listed in `keys` and has a value in `values`;
    `keys` keeps the order in which keys were first written.
   */
  datatype Dict<K, V> = Dict(keys: seq<K>, values: map<K, V>)

  /** `{}` */
  function Empty<K, V>(): Dict<K, V>
  {
    Dict([], map[])
  }

  /** `Object.keys(d)` */
  function Keys<K, V>(d: Dict<K, V>): seq<K>
  {
    d.keys
  }

  predicate DistinctKeys<K(==), V>(d: Dict<K, V>)
  {
    NoDups(Keys(d))
  }

  /** `d[k]`, with `undefined` for a missing key. */
  function Get<K(==), V>(d: Dict<K, V>, k: K): Option<V>
  {
    if k in d.keys && k in d.values then Some(d.values[k]) else None
  }

  /** `d[k] || dflt` where every stored value is truthy. */
  function GetOr<K(==), V>(d: Dict<K, V>, k: K, dflt: V): V
  {
    if k in d.keys && k in d.values then d.values[k] else dflt
  }

  /** `d[k] = v` */
  function Put<K(==), V>(d: Dict<K, V>, k: K, v: V): Dict<K, V>
  {
    Dict(if k in d.keys then d.keys else d.keys + [k], d.values[k := v])
  }

  /** `Object.entries(d)`: the entries in key order. */
  function EntriesOver<K, V>(keys: seq<K>, values: map<K, V>): seq<(K, V)>
  {
    if |keys| == 0 then []
    else
      var k := keys[|keys| - 1];
      EntriesOver(keys[..|keys| - 1], values) + if k in values then [(k, values[k])] else []
  }

  function Entries<K, V>(d: Dict<K, V>): seq<(K, V)>
  {
    EntriesOver(d.keys, d.values)
  }

  lemma {:induction false} EntriesOverMember<K, V>(keys: seq<K>, values: map<K, V>, k: K, v: V)
    ensures (k, v) in EntriesOver(keys, values) <==> k in keys && k in values && values[k] == v
  {
    if |keys| > 0 {
      var prefix := keys[..|keys| - 1];
      EntriesOverMember(prefix, values, k, v);
      assert keys == prefix + [keys[|keys| - 1]];
    }
  }

  /** The entries are exactly the key-value pairs the dictionary holds. */
  lemma EntriesGet<K, V>(d: Dict<K, V>)
    ensures forall k, v :: (k, v) in Entries(d) <==> Get(d, k) == Some(v)
  {
    forall k, v ensures (k, v) in Entries(d) <==> Get(d, k) == Some(v) {
      EntriesOverMember(d.keys, d.values, k, v);
    }
  }

  /** Writing a key keeps the key order and appends a new key at the end. */
  lemma PutKeys<K, V>(d: Dict<K, V>, k: K, v: V)
    ensures Keys(Put(d, k, v)) == if k in Keys(d) then Keys(d) else Keys(d) + [k]
    ensures DistinctKeys(d) ==> DistinctKeys(Put(d, k, v))
  {
    if DistinctKeys(d) && k !in d.keys {
      var ks := d.keys + [k];
      forall i, j | 0 <= i < j < |ks| ensures ks[i] != ks[j] {
        if j == |d.keys| {
          assert ks[i] == d.keys[i];
        }
      }
    }
  }

  /** Reading back the key just written gives the value written. */
  lemma GetPutSame<K, V>(d: Dict<K, V>, k: K, v: V)
    ensures Get(Put(d, k, v), k) == Some(v)
  {
  }

  /** Writing one key leaves every other key's value as it was. */
  lemma GetPutOther<K, V>(d: Dict<K, V>, k: K, v: V, k': K)
    requires k' != k
    ensures Get(Put(d, k, v), k') == Get(d, k')
  {
  }

  lemma GetPut<K, V>(d: Dict<K, V>, k: K, v: V, k': K)
    ensures Get(Put(d, k, v), k') == if k' == k then Some(v) else Get(d, k')
  {
  }

  /** Writing a key twice keeps only the second value. */
  lemma PutPut<K, V>(d: Dict<K, V>, k: K, v1: V, v2: V)
    ensures Put(Put(d, k, v1), k, v2) == Put(d, k, v2)
  {
    assert d.values[k := v1][k := v2] == d.values[k := v2];
  }

  // ---------------------------------------------------------------------------
  // Grouping: `xs.reduce((acc, x) => { acc[key(x)] ??= init; update; }, {})`

  /** The elements whose key is `k`, in their original order. */
  function FilterKey<T, K(==)>(xs: seq<T>, key: T -> K, k: K): (r: seq<T>)
    ensures |r| <= |xs|
    ensures forall i :: 0 <= i < |r| ==> key(r[i]) == k
  {
    if |xs| == 0 then []
    else if key(xs[|xs| - 1]) == k then FilterKey(xs[..|xs| - 1], key, k) + [xs[|xs| - 1]]
    else FilterKey(xs[..|xs| - 1], key, k)
  }

  /** `xs.reduce(step, init)` */
  function FoldL<T, A>(xs: seq<T>, init: A, step: (A, T) -> A): A
  {
    if |xs| == 0 then init else step(FoldL(xs[..|xs| - 1], init, step), xs[|xs| - 1])
  }

  /**
    The dictionary obtained by visiting `xs` in order, creating the entry for
    `key(x)` with `init` when it is missing and then updating it with `step`.
   */
  function GroupFold<T, K(==), A>(xs: seq<T>, key: T -> K, init: A, step: (A, T) -> A): Dict<K, A>
  {
    if |xs| == 0 then Empty()
    else
      var d := GroupFold(xs[..|xs| - 1], key, init, step);
      var k := key(xs[|xs| - 1]);
      Put(d, k, step(GetOr(d, k, init), xs[|xs| - 1]))
  }

  /** One step of a grouping fold, for folds that nest a dictionary inside a dictionary. */
  function GroupStep<T, K(==), A>(d: Dict<K, A>, x: T, key: T -> K, init: A, step: (A, T) -> A): Dict<K, A>
  {
    Put(d, key(x), step(GetOr(d, key(x), init), x))
  }

  lemma GroupFoldSnoc<T, K, A>(xs: seq<T>, x: T, key: T -> K, init: A, step: (A, T) -> A)
    ensures GroupFold(xs + [x], key, init, step) == GroupStep(GroupFold(xs, key, init, step), x, key, init, step)
  {
    assert (xs + [x])[..|xs|] == xs;
  }

  /** The keys of a grouping are the distinct keys of the elements, in order of first appearance. */
  lemma {:induction false} GroupFoldKeys<T, K, A>(xs: seq<T>, key: T -> K, init: A, step: (A, T) -> A)
    ensures Keys(GroupFold(xs, key, init, step)) == Dedup(Map(xs, key))
    ensures DistinctKeys(GroupFold(xs, key, init, step))
  {
    if |xs| > 0 {
      var prefix := xs[..|xs| - 1];
      var x := xs[|xs| - 1];
      GroupFoldKeys(prefix, key, init, step);
      var d := GroupFold(prefix, key, init, step);
      var v := step(GetOr(d, key(x), init), x);
      assert GroupFold(xs, key, init, step) == Put(d, key(x), v);
      PutKeys(d, key(x), v);
      assert xs == prefix + [x];
      MapSnoc(prefix, x, key);
      DedupSnoc(Map(prefix, key), key(x));
    }
  }

  /** The entry for `k` is the fold of `step` over exactly the elements whose key is `k`. */
  lemma {:induction false} GroupFoldGet<T, K, A>(xs: seq<T>, key: T -> K, init: A, step: (A, T) -> A, k: K)
    ensures Get(GroupFold(xs, key, init, step), k) ==
      if |FilterKey(xs, key, k)| == 0 then None else Some(FoldL(FilterKey(xs, key, k), init, step))
  {
    if |xs| > 0 {
      var prefix := xs[..|xs| - 1];
      var x := xs[|xs| - 1];
      GroupFoldGet(prefix, key, init, step, k);
      var d := GroupFold(prefix, key, init, step);
      GetPut(d, key(x), step(GetOr(d, key(x), init), x), k);
      if key(x) == k {
        var ys := FilterKey(xs, key, k);
        assert ys[..|ys| - 1] == FilterKey(prefix, key, k);
      }
    }
  }

  /** A key is present exactly when some element has it. */
  lemma GroupFoldHasKey<T, K, A>(xs: seq<T>, key: T -> K, init: A, step: (A, T) -> A, k: K)
    ensures k in Keys(GroupFold(xs, key, init, step)) <==> exists i :: 0 <= i < |xs| && key(xs[i]) == k
  {
    GroupFoldKeys(xs, key, init, step);
    var m := Map(xs, key);
    if k in Keys(GroupFold(xs, key, init, step)) {
      var i :| 0 <= i < |Dedup(m)| && Dedup(m)[i] == k;
      var j :| 0 <= j < |m| && m[j] == k;
      assert key(xs[j]) == k;
    }
    if exists i :: 0 <= i < |xs| && key(xs[i]) == k {
      var i :| 0 <= i < |xs| && key(xs[i]) == k;
      assert m[i] == k;
    }
  }

  // ---------------------------------------------------------------------------
  // Sums over the values of a dictionary

  /** The sum of `m` over the values of the listed keys, each key counted once. */
  function SumOver<K, V>(keys: seq<K>, values: map<K, V>, m: V -> int): int
  {
    if |keys| == 0 then 0
    else
      var k := keys[|keys| - 1];
      if k in values then SumOver(keys[..|keys| - 1], values - {k}, m) + m(values[k])
      else SumOver(keys[..|keys| - 1], values, m)
  }

  function SumValues<K, V>(d: Dict<K, V>, m: V -> int): int
  {
    SumOver(d.keys, d.values, m)
  }

  /** The sum depends only on the values of the listed keys. */
  lemma {:induction false} SumOverAgree<K, V>(keys: seq<K>, a: map<K, V>, b: map<K, V>, m: V -> int)
    requires forall k | k in keys :: (k in a <==> k in b) && (k in a ==> a[k] == b[k])
    ensures SumOver(keys, a, m) == SumOver(keys, b, m)
  {
    if |keys| > 0 {
      var prefix := keys[..|keys| - 1];
      var k := keys[|keys| - 1];
      assert forall j | j in prefix :: j in keys;
      if k in a {
        SumOverAgree(prefix, a - {k}, b - {k}, m);
      } else {
        SumOverAgree(prefix, a, b, m);
      }
    }
  }

  lemma {:induction false} SumOverUpdate<K, V>(keys: seq<K>, values: map<K, V>, k: K, v: V, m: V -> int)
    requires k in keys
    ensures SumOver(keys, values[k := v], m) ==
      SumOver(keys, values, m) - (if k in values then m(values[k]) else 0) + m(v)
  {
    var prefix := keys[..|keys| - 1];
    var last := keys[|keys| - 1];
    assert keys == prefix + [last];
    if last == k {
      assert values[k := v] - {k} == values - {k};
      if k !in values {
        assert values - {k} == values;
      }
    } else {
      assert k in prefix;
      if last in values {
        assert values[k := v] - {last} == (values - {last})[k := v];
        SumOverUpdate(prefix, values - {last}, k, v, m);
      } else {
        SumOverUpdate(prefix, values, k, v, m);
      }
    }
  }

  /** Writing a key changes the sum by the difference between the new and the old value. */
  lemma SumValuesPut<K, V>(d: Dict<K, V>, k: K, v: V, m: V -> int)
    ensures SumValues(Put(d, k, v), m) ==
      SumValues(d, m) - (if Get(d, k).Some? then m(Get(d, k).value) else 0) + m(v)
  {
    if k in d.keys {
      SumOverUpdate(d.keys, d.values, k, v, m);
    } else {
      assert (d.keys + [k])[..|d.keys|] == d.keys;
      SumOverAgree(d.keys, d.values[k := v] - {k}, d.values, m);
    }
  }

  /**
    When every step adds `c(x)` to a measure that starts at zero, the measures
    of all groups add up to the sum of `c` over all elements: every element is
    counted in exactly one group.
   */
  lemma {:induction false} GroupFoldSum<T, K, A>(xs: seq<T>, key: T -> K, init: A, step: (A, T) -> A,
                                                m: A -> int, c: T -> int)
    requires m(init) == 0
    requires forall a, x :: m(step(a, x)) == m(a) + c(x)
    ensures SumValues(GroupFold(xs, key, init, step), m) == SumOf(xs, c)
  {
    if |xs| > 0 {
      var prefix := xs[..|xs| - 1];
      var x := xs[|xs| - 1];
      GroupFoldSum(prefix, key, init, step, m, c);
      var d := GroupFold(prefix, key, init, step);
      SumValuesPut(d, key(x), step(GetOr(d, key(x), init), x), m);
    }
  }

  /** Under the same conditions, the measure of a fold is the sum of `c` over the folded elements. */
  lemma {:induction false} FoldLMeasure<T, A>(xs: seq<T>, init: A, step: (A, T) -> A, m: A -> int, c: T -> int)
    requires forall a, x :: m(step(a, x)) == m(a) + c(x)
    ensures m(FoldL(xs, init, step)) == m(init) + SumOf(xs, c)
  {
    if |xs| > 0 {
      FoldLMeasure(xs[..|xs| - 1], init, step, m, c);
    }
  }

  /** A fold whose steps commute with `proj` computes, under `proj`, the fold of the projected steps. */
  lemma {:induction false} FoldLProject<T, A, B>(xs: seq<T>, init: A, step: (A, T) -> A, init': B, step': (B, T) -> B,
                                                proj: A -> B)
    requires proj(init) == init'
    requires forall a, x :: proj(step(a, x)) == step'(proj(a), x)
    ensures proj(FoldL(xs, init, step)) == FoldL(xs, init', step')
  {
    if |xs| > 0 {
      FoldLProject(xs[..|xs| - 1], init, step, init', step', proj);
    }
  }

  /** Appending each element to its group's list puts every element in the list of its key, in order. */
  function AppendOne<T>(a: seq<T>, x: T): seq<T>
  {
    a + [x]
  }

  lemma {:induction false} FoldLAppend<T>(xs: seq<T>)
    ensures FoldL(xs, [], AppendOne) == xs
  {
    if |xs| > 0 {
      FoldLAppend(xs[..|xs| - 1]);
      assert xs[..|xs| - 1] + [xs[|xs| - 1]] == xs;
    }
  }

  /** The elements with key `k` are those whose key is `k`: there are `Count` of them. */
  lemma {:induction false} FilterKeySum<T, K>(xs: seq<T>, key: T -> K, k: K, c: T -> int)
    ensures SumOf(FilterKey(xs, key, k), c) ==
      SumOf(xs, (x: T) => if key(x) == k then c(x) else 0)
  {
    if |xs| > 0 {
      var prefix := xs[..|xs| - 1];
      FilterKeySum(prefix, key, k, c);
      var ys := FilterKey(xs, key, k);
      if key(xs[|xs| - 1]) == k {
        assert ys[..|ys| - 1] == FilterKey(prefix, key, k);
      }
    }
  }

  lemma FilterKeySnoc<T, K>(xs: seq<T>, x: T, key: T -> K, k: K)
    ensures FilterKey(xs + [x], key, k) == FilterKey(xs, key, k) + (if key(x) == k then [x] else [])
  {
    assert (xs + [x])[..|xs|] == xs;
  }

  /**
    A fold whose step is a grouping step builds the same dictionary as the
    grouping fold: the inner level of a nested grouping is itself a grouping.
   */
  lemma {:induction false} FoldLGroupStep<T, K, A>(xs: seq<T>, key: T -> K, init: A, step: (A, T) -> A,
                                                  outer: (Dict<K, A>, T) -> Dict<K, A>)
    requires forall d, x :: outer(d, x) == GroupStep(d, x, key, init, step)
    ensures FoldL(xs, Empty(), outer) == GroupFold(xs, key, init, step)
  {
    if |xs| > 0 {
      FoldLGroupStep(xs[..|xs| - 1], key, init, step, outer);
    }
  }

  /** Every value of the dictionary satisfies `p`. */
  predicate AllValues<K(==), V>(d: Dict<K, V>, p: V -> bool)
  {
    forall k :: k in d.values ==> p(d.values[k])
  }

  lemma PutAllValues<K, V>(d: Dict<K, V>, k: K, v: V, p: V -> bool)
    requires AllValues(d, p) && p(v)
    ensures AllValues(Put(d, k, v), p)
  {
  }

  lemma GetOrAllValues<K, V>(d: Dict<K, V>, k: K, dflt: V, p: V -> bool)
    requires AllValues(d, p) && p(dflt)
    ensures p(GetOr(d, k, dflt))
  {
  }
}
