/** The group-by vocabulary of the pipeline: the distinct keys of a column in order
    of first appearance (pandas unique()), the rows of one key in row order (a
    groupby group), and groups laid end to end (pd.concat of the groups). */
module Grouping {
  import opened Sorting

  /** The distinct values of f over s, in order of first appearance. */
  function DistinctBy<T, K(==)>(s: seq<T>, f: T -> K): (ks: seq<K>)
    ensures Distinct(ks)
    ensures forall j :: 0 <= j < |ks| ==> exists i :: 0 <= i < |s| && f(s[i]) == ks[j]
    ensures forall i :: 0 <= i < |s| ==> f(s[i]) in ks
  {
    if s == [] then []
    else
      var ks := DistinctBy(s[..|s| - 1], f);
      var last := f(s[|s| - 1]);
      assert forall i :: 0 <= i < |s| - 1 ==> s[..|s| - 1][i] == s[i];
      if last in ks then ks else ks + [last]
  }

  /** Some element with key x comes before every element with key y. */
  ghost predicate Precedes<T, K>(s: seq<T>, f: T -> K, x: K, y: K) {
    exists p :: 0 <= p < |s| && f(s[p]) == x && forall q :: 0 <= q < |s| && f(s[q]) == y ==> p < q
  }

  /** Keys are listed in order of first appearance: for two listed keys, some
      element with the earlier key comes before every element with the later. */
  lemma {:induction false} DistinctByFirstAppearance<T, K>(s: seq<T>, f: T -> K)
    ensures var ks := DistinctBy(s, f);
      forall a, b :: 0 <= a < b < |ks| ==> Precedes(s, f, ks[a], ks[b])
  {
    if s != [] {
      var init := s[..|s| - 1];
      assert s == init + [s[|s| - 1]];
      DistinctByFirstAppearance(init, f);
      var ks := DistinctBy(s, f);
      forall a, b | 0 <= a < b < |ks| ensures Precedes(s, f, ks[a], ks[b]) {
        PrecedesStep(init, s[|s| - 1], f, a, b);
      }
    }
  }

  /** One pair of the step: the order of the keys of init carries over to
      init + [x], and a key that x adds comes after all of them. */
  lemma PrecedesStep<T, K>(init: seq<T>, x: T, f: T -> K, a: int, b: int)
    requires forall a, b :: 0 <= a < b < |DistinctBy(init, f)| ==>
      Precedes(init, f, DistinctBy(init, f)[a], DistinctBy(init, f)[b])
    requires 0 <= a < b < |DistinctBy(init + [x], f)|
    ensures Precedes(init + [x], f, DistinctBy(init + [x], f)[a], DistinctBy(init + [x], f)[b])
  {
    var s := init + [x];
    assert s[..|s| - 1] == init;
    var ks0 := DistinctBy(init, f);
    var ks := DistinctBy(s, f);
    if b < |ks0| {
      assert ks[a] == ks0[a] && ks[b] == ks0[b];
      assert Precedes(init, f, ks0[a], ks0[b]);
      var p :| 0 <= p < |init| && f(init[p]) == ks0[a] &&
        forall q :: 0 <= q < |init| && f(init[q]) == ks0[b] ==> p < q;
      assert s[p] == init[p];
      forall q | 0 <= q < |s| && f(s[q]) == ks[b] ensures p < q {
        if q < |init| {
          assert s[q] == init[q];
        }
      }
    } else {
      assert f(x) !in ks0 && ks == ks0 + [f(x)] && ks[b] == f(x) && ks[a] == ks0[a];
      var p :| 0 <= p < |init| && f(init[p]) == ks0[a];
      assert s[p] == init[p];
      assert forall q :: 0 <= q < |init| ==> s[q] == init[q] && f(init[q]) in ks0;
    }
  }

  /** The group of k holds exactly the elements of s whose key is k. */
  lemma SelectMember<T, K>(s: seq<T>, f: T -> K, k: K, x: T)
    ensures x in Select(s, f, k) <==> x in s && f(x) == k
  {
    SelectSubMultiset(s, f, k);
    if f(x) == k {
      SelectMultiplicity(s, f, k, x);
    }
    if x in Select(s, f, k) {
      assert x in multiset(Select(s, f, k));
    }
  }

  /** The elements of s whose key is k, in their order in s. */
  function Select<T, K(==)>(s: seq<T>, f: T -> K, k: K): (r: seq<T>)
    ensures forall i :: 0 <= i < |r| ==> f(r[i]) == k
    ensures (exists i :: 0 <= i < |s| && f(s[i]) == k) ==> r != []
  {
    if s == [] then []
    else
      assert s == [s[0]] + s[1..];
      (if f(s[0]) == k then [s[0]] else []) + Select(s[1..], f, k)
  }

  /** A group holds records of s only, each at most as often as in s. */
  lemma {:induction false} SelectSubMultiset<T, K>(s: seq<T>, f: T -> K, k: K)
    ensures multiset(Select(s, f, k)) <= multiset(s)
  {
    if s != [] {
      assert s == [s[0]] + s[1..];
      SelectSubMultiset(s[1..], f, k);
    }
  }

  /** x occurs in the group of k exactly as often as in s, when its key is k. */
  lemma {:induction false} SelectMultiplicity<T, K>(s: seq<T>, f: T -> K, k: K, x: T)
    requires f(x) == k
    ensures multiset(Select(s, f, k))[x] == multiset(s)[x]
  {
    if s != [] {
      assert s == [s[0]] + s[1..];
      SelectMultiplicity(s[1..], f, k, x);
    }
  }

  /** The groups of the keys ks, one after the other. */
  function Gather<T, K(==)>(s: seq<T>, f: T -> K, ks: seq<K>): seq<T> {
    if ks == [] then [] else Select(s, f, ks[0]) + Gather(s, f, ks[1..])
  }

  lemma {:induction false} GatherOfEmpty<T, K>(f: T -> K, ks: seq<K>)
    ensures Gather([], f, ks) == []
  {
    if ks != [] {
      GatherOfEmpty(f, ks[1..]);
    }
  }

  lemma {:induction false} GatherCons<T, K>(x: T, s: seq<T>, f: T -> K, ks: seq<K>)
    requires Distinct(ks)
    ensures multiset(Gather([x] + s, f, ks)) ==
            multiset(Gather(s, f, ks)) + (if f(x) in ks then multiset{x} else multiset{})
  {
    if ks != [] {
      var xs := [x] + s;
      assert xs[0] == x && xs[1..] == s;
      assert Select(xs, f, ks[0]) == (if f(x) == ks[0] then [x] else []) + Select(s, f, ks[0]);
      assert Distinct(ks[1..]);
      GatherCons(x, s, f, ks[1..]);
      if f(x) == ks[0] {
        assert f(x) !in ks[1..];
      }
    }
  }

  /** Laying out the groups of all keys, each key once, rearranges s and loses
      and duplicates nothing. */
  lemma {:induction false} GatherPartition<T, K>(s: seq<T>, f: T -> K, ks: seq<K>)
    requires Distinct(ks)
    requires forall i :: 0 <= i < |s| ==> f(s[i]) in ks
    ensures multiset(Gather(s, f, ks)) == multiset(s)
  {
    if s == [] {
      GatherOfEmpty(f, ks);
    } else {
      assert s == [s[0]] + s[1..];
      GatherPartition(s[1..], f, ks);
      GatherCons(s[0], s[1..], f, ks);
    }
  }

  lemma {:induction false} GatherLength<T, K>(s: seq<T>, f: T -> K, ks: seq<K>)
    requires Distinct(ks)
    requires forall i :: 0 <= i < |s| ==> f(s[i]) in ks
    ensures |Gather(s, f, ks)| == |s|
  {
    GatherPartition(s, f, ks);
    assert |multiset(Gather(s, f, ks))| == |multiset(s)|;
  }
}
