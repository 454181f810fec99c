/**
  The array operations the application applies to its records:
  `filter`, counting, `find`/`findIndex`, `map` and the order-preserving
  de-duplication `Array.from(new Set(xs))`.
 */
module Seqs {
  import opened Common

  /** `xs.filter(p)` */
  function Filter<T>(xs: seq<T>, p: T -> bool): (r: seq<T>)
    ensures |r| <= |xs|
    ensures forall i :: 0 <= i < |r| ==> r[i] in xs && p(r[i])
    ensures forall i :: 0 <= i < |xs| && p(xs[i]) ==> xs[i] in r
  {
    if |xs| == 0 then []
    else
      var prefix := xs[..|xs| - 1];
      var last := xs[|xs| - 1];
      assert xs == prefix + [last];
      if p(last) then Filter(prefix, p) + [last] else Filter(prefix, p)
  }

  /** The number of elements that satisfy `p`. */
  function Count<T>(xs: seq<T>, p: T -> bool): nat
  {
    if |xs| == 0 then 0
    else Count(xs[..|xs| - 1], p) + (if p(xs[|xs| - 1]) then 1 else 0)
  }

  /** A filter keeps exactly as many elements as satisfy the predicate. */
  lemma {:induction false} FilterCount<T>(xs: seq<T>, p: T -> bool)
    ensures |Filter(xs, p)| == Count(xs, p)
  {
    if |xs| > 0 {
      FilterCount(xs[..|xs| - 1], p);
    }
  }

  /** Filtering distributes over concatenation, so the kept elements keep their order. */
  lemma {:induction false} FilterAppend<T>(xs: seq<T>, ys: seq<T>, p: T -> bool)
    ensures Filter(xs + ys, p) == Filter(xs, p) + Filter(ys, p)
    decreases |ys|
  {
    if |ys| > 0 {
      var zs := xs + ys;
      assert zs[..|zs| - 1] == xs + ys[..|ys| - 1];
      FilterAppend(xs, ys[..|ys| - 1], p);
    } else {
      assert xs + ys == xs;
    }
  }

  lemma FilterSnoc<T>(xs: seq<T>, x: T, p: T -> bool)
    ensures Filter(xs + [x], p) == Filter(xs, p) + (if p(x) then [x] else [])
  {
    assert (xs + [x])[..|xs|] == xs;
  }

  /** A filter that every element passes keeps the whole list. */
  lemma {:induction false} FilterAllPass<T>(xs: seq<T>, p: T -> bool)
    requires forall i :: 0 <= i < |xs| ==> p(xs[i])
    ensures Filter(xs, p) == xs
  {
    if |xs| > 0 {
      var prefix := xs[..|xs| - 1];
      assert forall i :: 0 <= i < |prefix| ==> prefix[i] == xs[i];
      FilterAllPass(prefix, p);
      assert prefix + [xs[|xs| - 1]] == xs;
    }
  }

  lemma {:induction false} CountAppend<T>(xs: seq<T>, ys: seq<T>, p: T -> bool)
    ensures Count(xs + ys, p) == Count(xs, p) + Count(ys, p)
    decreases |ys|
  {
    if |ys| > 0 {
      var zs := xs + ys;
      assert zs[..|zs| - 1] == xs + ys[..|ys| - 1];
      CountAppend(xs, ys[..|ys| - 1], p);
    } else {
      assert xs + ys == xs;
    }
  }

  /** No more elements satisfy `p` than there are elements. */
  lemma {:induction false} CountBounded<T>(xs: seq<T>, p: T -> bool)
    ensures Count(xs, p) <= |xs|
  {
    if |xs| > 0 {
      CountBounded(xs[..|xs| - 1], p);
    }
  }

  /** All elements satisfy `p` exactly when all of them are counted. */
  lemma {:induction false} CountAll<T>(xs: seq<T>, p: T -> bool)
    ensures Count(xs, p) <= |xs|
    ensures Count(xs, p) == |xs| <==> forall i :: 0 <= i < |xs| ==> p(xs[i])
  {
    if |xs| > 0 {
      var prefix := xs[..|xs| - 1];
      CountAll(prefix, p);
      if Count(xs, p) == |xs| {
        forall i | 0 <= i < |xs|
          ensures p(xs[i])
        {
          if i < |prefix| {
            assert xs[i] == prefix[i];
          }
        }
      }
      if forall i :: 0 <= i < |xs| ==> p(xs[i]) {
        forall i | 0 <= i < |prefix|
          ensures p(prefix[i])
        {
          assert prefix[i] == xs[i];
        }
      }
    }
  }

  /** Some element satisfies `p` exactly when the count is positive. */
  lemma {:induction false} CountPositive<T>(xs: seq<T>, p: T -> bool)
    ensures Count(xs, p) > 0 <==> exists i :: 0 <= i < |xs| && p(xs[i])
  {
    if |xs| > 0 {
      var prefix := xs[..|xs| - 1];
      CountPositive(prefix, p);
      if exists i :: 0 <= i < |prefix| && p(prefix[i]) {
        var i :| 0 <= i < |prefix| && p(prefix[i]);
        assert xs[i] == prefix[i];
      }
      if exists i :: 0 <= i < |xs| && p(xs[i]) {
        var i :| 0 <= i < |xs| && p(xs[i]);
        if i < |prefix| {
          assert prefix[i] == xs[i];
        }
      }
    }
  }

  /** `xs.findIndex(p)`, as an option: the first index whose element satisfies `p`. */
  function FindIndex<T>(xs: seq<T>, p: T -> bool): (r: Option<nat>)
    ensures r.Some? ==> r.value < |xs| && p(xs[r.value])
    ensures r.Some? ==> forall j :: 0 <= j < r.value ==> !p(xs[j])
    ensures r.None? ==> forall j :: 0 <= j < |xs| ==> !p(xs[j])
  {
    if |xs| == 0 then None
    else if p(xs[0]) then Some(0)
    else
      match FindIndex(xs[1..], p)
      case None => None
      case Some(i) => Some(i + 1)
  }

  /** `xs.find(p)`: the first element that satisfies `p`, if any. */
  function Find<T>(xs: seq<T>, p: T -> bool): (r: Option<T>)
    ensures r.None? <==> forall j :: 0 <= j < |xs| ==> !p(xs[j])
    ensures r.Some? ==> exists i :: 0 <= i < |xs| && xs[i] == r.value && p(xs[i])
                          && forall j :: 0 <= j < i ==> !p(xs[j])
  {
    match FindIndex(xs, p)
    case None => None
    case Some(i) => Some(xs[i])
  }

  // ---------------------------------------------------------------------------
  // Array.from(new Set(xs))

  predicate NoDups<T(==)>(s: seq<T>)
  {
    forall i, j :: 0 <= i < j < |s| ==> s[i] != s[j]
  }

  /** The position of the first occurrence of `x`. */
  function FirstIndex<T(==)>(xs: seq<T>, x: T): (i: nat)
    requires x in xs
    ensures i < |xs| && xs[i] == x && x !in xs[..i]
  {
    if xs[0] == x then 0 else FirstIndex(xs[1..], x) + 1
  }

  /** `Array.from(new Set(xs))`: each element once, at its first occurrence. */
  function Dedup<T(==)>(xs: seq<T>): (r: seq<T>)
    ensures forall i :: 0 <= i < |r| ==> r[i] in xs
    ensures forall i :: 0 <= i < |xs| ==> xs[i] in r
    ensures NoDups(r)
    ensures |r| <= |xs|
  {
    if |xs| == 0 then []
    else
      var prefix := xs[..|xs| - 1];
      var last := xs[|xs| - 1];
      assert xs == prefix + [last];
      var r := Dedup(prefix);
      if last in r then r else r + [last]
  }

  /** One more element is kept exactly when it has not been seen. */
  lemma DedupSnoc<T>(xs: seq<T>, x: T)
    ensures Dedup(xs + [x]) == if x in Dedup(xs) then Dedup(xs) else Dedup(xs) + [x]
  {
    assert (xs + [x])[..|xs|] == xs;
  }

  lemma FirstIndexPrefix<T>(xs: seq<T>, n: nat, x: T)
    requires n <= |xs| && x in xs[..n]
    ensures x in xs && FirstIndex(xs, x) == FirstIndex(xs[..n], x)
  {
    var i := FirstIndex(xs[..n], x);
    assert xs[..n][..i] == xs[..i];
    FirstIndexUnique(xs, x, i);
  }

  lemma {:induction false} FirstIndexUnique<T>(xs: seq<T>, x: T, i: nat)
    requires i < |xs| && xs[i] == x && x !in xs[..i]
    ensures FirstIndex(xs, x) == i
  {
    if xs[0] != x {
      assert xs[1..][..i - 1] == xs[1..i];
      assert x !in xs[1..][..i - 1];
      FirstIndexUnique(xs[1..], x, i - 1);
    }
  }

  /** The kept elements appear in the order of their first occurrences. */
  lemma {:induction false} DedupOrder<T>(xs: seq<T>)
    ensures forall i, j :: 0 <= i < j < |Dedup(xs)| ==>
      FirstIndex(xs, Dedup(xs)[i]) < FirstIndex(xs, Dedup(xs)[j])
  {
    if |xs| > 0 {
      var n := |xs| - 1;
      var prefix := xs[..n];
      var last := xs[n];
      DedupOrder(prefix);
      var r := Dedup(xs);
      var rp := Dedup(prefix);
      forall i, j | 0 <= i < j < |r|
        ensures FirstIndex(xs, r[i]) < FirstIndex(xs, r[j])
      {
        FirstIndexPrefix(xs, n, r[i]);
        if j < |rp| {
          FirstIndexPrefix(xs, n, r[j]);
        } else {
          assert r[j] == last && last !in prefix;
          FirstIndexUnique(xs, last, n);
        }
      }
    }
  }

  /** A list without repetitions is left as it is. */
  lemma {:induction false} DedupNoDups<T>(xs: seq<T>)
    requires NoDups(xs)
    ensures Dedup(xs) == xs
  {
    if |xs| > 0 {
      var prefix := xs[..|xs| - 1];
      DedupNoDups(prefix);
      assert xs[|xs| - 1] !in prefix;
      assert prefix + [xs[|xs| - 1]] == xs;
    }
  }

  lemma TakeSucc<T>(xs: seq<T>, i: nat)
    requires i < |xs|
    ensures xs[..i + 1][..i] == xs[..i] && xs[..i + 1][i] == xs[i] && |xs[..i + 1]| == i + 1
  {
  }

  lemma TakeAll<T>(xs: seq<T>)
    ensures xs[..|xs|] == xs
  {
  }

  lemma TakeSnoc<T>(xs: seq<T>, j: nat)
    requires j < |xs|
    ensures xs[..j + 1] == xs[..j] + [xs[j]]
  {
  }

  lemma AppendAssocOne<T>(a: seq<T>, b: seq<T>, x: T)
    ensures (a + b) + [x] == a + (b + [x])
  {
  }

  lemma FlatMapTake<T, U>(xs: seq<T>, f: T -> seq<U>, i: nat)
    requires i < |xs|
    ensures FlatMap(xs[..i + 1], f) == FlatMap(xs[..i], f) + f(xs[i])
  {
    assert xs[..i + 1][..i] == xs[..i];
  }

  lemma DropLastAppend<T>(xs: seq<T>, ys: seq<T>)
    requires |ys| > 0
    ensures (xs + ys)[..|xs + ys| - 1] == xs + ys[..|ys| - 1]
    ensures (xs + ys)[|xs + ys| - 1] == ys[|ys| - 1]
  {
  }

  /** `xs.map(f)` */
  function Map<T, U>(xs: seq<T>, f: T -> U): (r: seq<U>)
    ensures |r| == |xs| && forall i :: 0 <= i < |xs| ==> r[i] == f(xs[i])
  {
    seq(|xs|, i requires 0 <= i < |xs| => f(xs[i]))
  }

  lemma MapSnoc<T, U>(xs: seq<T>, x: T, f: T -> U)
    ensures Map(xs + [x], f) == Map(xs, f) + [f(x)]
  {
  }

  /** The sum of the integers a function assigns to the elements. */
  function SumOf<T>(xs: seq<T>, c: T -> int): int
  {
    if |xs| == 0 then 0 else SumOf(xs[..|xs| - 1], c) + c(xs[|xs| - 1])
  }

  /** The measure that counts elements. */
  function One<T>(x: T): int { 1 }

  lemma {:induction false} SumOfOne<T>(xs: seq<T>)
    ensures SumOf(xs, One) == |xs|
  {
    if |xs| > 0 {
      SumOfOne(xs[..|xs| - 1]);
    }
  }

  lemma {:induction false} SumOfAppend<T>(xs: seq<T>, ys: seq<T>, c: T -> int)
    ensures SumOf(xs + ys, c) == SumOf(xs, c) + SumOf(ys, c)
    decreases |ys|
  {
    if |ys| > 0 {
      var zs := xs + ys;
      assert zs[..|zs| - 1] == xs + ys[..|ys| - 1];
      SumOfAppend(xs, ys[..|ys| - 1], c);
    } else {
      assert xs + ys == xs;
    }
  }

  /** The concatenation of a list of lists, `xs.flatMap(f)`. */
  function FlatMap<T, U>(xs: seq<T>, f: T -> seq<U>): seq<U>
  {
    if |xs| == 0 then [] else FlatMap(xs[..|xs| - 1], f) + f(xs[|xs| - 1])
  }

  /** An element of the concatenation comes from one of the lists. */
  lemma {:induction false} FlatMapMember<T, U>(xs: seq<T>, f: T -> seq<U>, u: U)
    ensures u in FlatMap(xs, f) <==> exists j :: 0 <= j < |xs| && u in f(xs[j])
  {
    if |xs| > 0 {
      var n := |xs| - 1;
      var prefix := xs[..n];
      FlatMapMember(prefix, f, u);
      if exists j :: 0 <= j < |xs| && u in f(xs[j]) {
        var j :| 0 <= j < |xs| && u in f(xs[j]);
        if j < n {
          assert prefix[j] == xs[j];
        }
      }
      if exists j :: 0 <= j < n && u in f(prefix[j]) {
        var j :| 0 <= j < n && u in f(prefix[j]);
        assert prefix[j] == xs[j];
      }
    }
  }

  lemma {:induction false} FlatMapLength<T, U>(xs: seq<T>, f: T -> seq<U>, len: T -> int)
    requires forall x :: len(x) == |f(x)|
    ensures |FlatMap(xs, f)| == SumOf(xs, len)
  {
    if |xs| > 0 {
      FlatMapLength(xs[..|xs| - 1], f, len);
    }
  }
}
