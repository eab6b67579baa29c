/**
 * The collection operations the adapters lean on: successive `Map.set` calls
 * (catalog refreshes, `new Map(entries)`), the insertion order of
 * `new Set(array)`, and filter-and-map loops that push only present values.
 */
module Collections {
  import opened Wrappers

  /** `pairs.forEach(([k, v]) => m.set(k, v))` */
  function Upserts<K(==), V>(m: map<K, V>, pairs: seq<(K, V)>): map<K, V> {
    if pairs == [] then m
    else Upserts(m, pairs[..|pairs| - 1])[pairs[|pairs| - 1].0 := pairs[|pairs| - 1].1]
  }

  /** The position of the last pair for `k`, or -1 when there is none. */
  function LastIndexOf<K(==), V>(pairs: seq<(K, V)>, k: K): (i: int)
    ensures -1 <= i < |pairs|
    ensures i >= 0 ==> pairs[i].0 == k && forall j :: i < j < |pairs| ==> pairs[j].0 != k
    ensures i == -1 ==> forall j :: 0 <= j < |pairs| ==> pairs[j].0 != k
  {
    if pairs == [] then -1
    else if pairs[|pairs| - 1].0 == k then |pairs| - 1
    else LastIndexOf(pairs[..|pairs| - 1], k)
  }

  /** After the updates, a key that some pair names holds the value of the
      last such pair; any other key is present and valued as before. */
  lemma {:induction false} UpsertsLookup<K, V>(m: map<K, V>, pairs: seq<(K, V)>, k: K)
    ensures var i := LastIndexOf(pairs, k);
      && (i >= 0 ==> k in Upserts(m, pairs) && Upserts(m, pairs)[k] == pairs[i].1)
      && (i == -1 ==> (k in Upserts(m, pairs) <==> k in m) && (k in m ==> Upserts(m, pairs)[k] == m[k]))
  {
    if pairs != [] {
      UpsertsLookup(m, pairs[..|pairs| - 1], k);
    }
  }

  /** The keys after the updates are the old keys plus every key a pair names. */
  lemma {:induction false} UpsertsKeys<K, V>(m: map<K, V>, pairs: seq<(K, V)>)
    ensures forall k :: k in Upserts(m, pairs) <==> k in m || exists i :: 0 <= i < |pairs| && pairs[i].0 == k
  {
    if pairs != [] {
      var init := pairs[..|pairs| - 1];
      UpsertsKeys(m, init);
      forall k ensures k in Upserts(m, pairs) <==> k in m || exists i :: 0 <= i < |pairs| && pairs[i].0 == k {
        if exists i :: 0 <= i < |init| && init[i].0 == k {
          var i :| 0 <= i < |init| && init[i].0 == k;
          assert pairs[i] == init[i];
        }
        if exists i :: 0 <= i < |pairs| && pairs[i].0 == k {
          var i :| 0 <= i < |pairs| && pairs[i].0 == k;
          if i < |init| {
            assert init[i] == pairs[i];
          }
        }
      }
    }
  }

  /** The elements of `new Set(s)` in iteration order: first occurrences. */
  function Distinct<T(==,!new)>(s: seq<T>): (r: seq<T>)
    ensures forall x :: x in r <==> x in s
    ensures forall i, j :: 0 <= i < j < |r| ==> r[i] != r[j]
    ensures |r| <= |s|
  {
    if s == [] then []
    else
      var d := Distinct(s[..|s| - 1]);
      assert forall x :: x in s <==> x in s[..|s| - 1] || x == s[|s| - 1];
      if s[|s| - 1] in d then d else d + [s[|s| - 1]]
  }

  /** The position of the first occurrence of `x` in `s`. */
  function FirstIndex<T(==)>(s: seq<T>, x: T): (i: nat)
    requires x in s
    ensures i < |s| && s[i] == x && forall j :: 0 <= j < i ==> s[j] != x
  {
    if s[0] == x then 0 else 1 + FirstIndex(s[1..], x)
  }

  /** An element's first occurrence is unchanged when more elements follow. */
  lemma FirstIndexPrefix<T>(s: seq<T>, n: int, x: T)
    requires 0 <= n <= |s| && x in s[..n]
    ensures x in s && FirstIndex(s, x) == FirstIndex(s[..n], x)
  {
    var p := FirstIndex(s[..n], x);
    assert s[p] == s[..n][p] == x;
    var q := FirstIndex(s, x);
    assert q <= p;
    assert s[..n][q] == s[q] == x;
  }

  /** `new Set(s)` iterates its elements in the order of their first
      occurrences in `s`. */
  lemma {:induction false} DistinctOrder<T(!new)>(s: seq<T>)
    ensures forall i, j :: 0 <= i < j < |Distinct(s)| ==> FirstIndex(s, Distinct(s)[i]) < FirstIndex(s, Distinct(s)[j])
  {
    if s != [] {
      var init := s[..|s| - 1];
      var d := Distinct(init);
      var last := s[|s| - 1];
      DistinctOrder(init);
      forall i, j | 0 <= i < j < |Distinct(s)|
        ensures FirstIndex(s, Distinct(s)[i]) < FirstIndex(s, Distinct(s)[j])
      {
        FirstIndexPrefix(s, |s| - 1, d[i]);
        if j < |d| {
          FirstIndexPrefix(s, |s| - 1, d[j]);
        } else {
          assert Distinct(s)[j] == last && last !in init;
          assert FirstIndex(s, last) == |s| - 1;
        }
      }
    }
  }

  /** A loop that visits `s` in order and pushes `f(x)` when it is present. */
  function FilterMap<A, B>(s: seq<A>, f: A -> Option<B>): seq<B> {
    if s == [] then []
    else FilterMap(s[..|s| - 1], f) + (if f(s[|s| - 1]).Some? then [f(s[|s| - 1]).value] else [])
  }

  /** The positions of the elements such a loop pushes a value for, in order. */
  function Sources<A, B>(s: seq<A>, f: A -> Option<B>): seq<int> {
    if s == [] then []
    else Sources(s[..|s| - 1], f) + (if f(s[|s| - 1]).Some? then [|s| - 1] else [])
  }

  /** One more turn of such a loop pushes at most the next element's value. */
  lemma FilterMapSnoc<A, B>(s: seq<A>, i: int, f: A -> Option<B>)
    requires 0 <= i < |s|
    ensures f(s[i]).Some? ==> FilterMap(s[..i + 1], f) == FilterMap(s[..i], f) + [f(s[i]).value]
    ensures f(s[i]).None? ==> FilterMap(s[..i + 1], f) == FilterMap(s[..i], f)
  {
    assert s[..i + 1][..i] == s[..i] && s[..i + 1][i] == s[i];
    assert FilterMap(s[..i], f) + [] == FilterMap(s[..i], f);
  }

  /** What such a loop pushes is exactly the present values, at most one per
      element. */
  lemma {:induction false} FilterMapMembers<A, B>(s: seq<A>, f: A -> Option<B>)
    ensures |FilterMap(s, f)| <= |s|
    ensures forall y :: y in FilterMap(s, f) <==> exists i :: 0 <= i < |s| && f(s[i]) == Some(y)
    ensures (forall i :: 0 <= i < |s| ==> f(s[i]).Some?) ==> |FilterMap(s, f)| == |s|
  {
    if s != [] {
      var init := s[..|s| - 1];
      FilterMapMembers(init, f);
      forall y ensures y in FilterMap(s, f) <==> exists i :: 0 <= i < |s| && f(s[i]) == Some(y) {
        if exists i :: 0 <= i < |init| && f(init[i]) == Some(y) {
          var i :| 0 <= i < |init| && f(init[i]) == Some(y);
          assert s[i] == init[i];
        }
        if exists i :: 0 <= i < |s| && f(s[i]) == Some(y) {
          var i :| 0 <= i < |s| && f(s[i]) == Some(y);
          if i < |init| {
            assert init[i] == s[i];
          }
        }
      }
      if forall i :: 0 <= i < |s| ==> f(s[i]).Some? {
        assert forall i :: 0 <= i < |init| ==> init[i] == s[i];
      }
    }
  }

  /** The positions of the pushed values, in push order. */
  lemma {:induction false} FilterMapSources<A, B>(s: seq<A>, f: A -> Option<B>)
    ensures var r, idx := FilterMap(s, f), Sources(s, f);
      && |idx| == |r|
      && (forall k :: 0 <= k < |r| ==> 0 <= idx[k] < |s| && f(s[idx[k]]) == Some(r[k]))
      && (forall k, l :: 0 <= k < l < |idx| ==> idx[k] < idx[l])
      && (forall i :: 0 <= i < |s| && f(s[i]).Some? ==> i in idx)
  {
    if s != [] {
      FilterMapSources(s[..|s| - 1], f);
      FilterMapOrderStep(s, f);
    }
  }

  /** What such a loop pushes is exactly the present values, in order of
      their sources, at most one per element: the `k`-th value pushed is the
      value of element `Sources(s, f)[k]`, those positions strictly increase,
      and every element with a value has its position among them. */
  lemma FilterMapSpec<A, B>(s: seq<A>, f: A -> Option<B>)
    ensures |FilterMap(s, f)| <= |s|
    ensures forall y :: y in FilterMap(s, f) <==> exists i :: 0 <= i < |s| && f(s[i]) == Some(y)
    ensures (forall i :: 0 <= i < |s| ==> f(s[i]).Some?) ==> |FilterMap(s, f)| == |s|
    ensures var r, idx := FilterMap(s, f), Sources(s, f);
      && |idx| == |r|
      && (forall k :: 0 <= k < |r| ==> 0 <= idx[k] < |s| && f(s[idx[k]]) == Some(r[k]))
      && (forall k, l :: 0 <= k < l < |idx| ==> idx[k] < idx[l])
      && (forall i :: 0 <= i < |s| && f(s[i]).Some? ==> i in idx)
  {
    FilterMapMembers(s, f);
    FilterMapSources(s, f);
  }

  /** The order facts of `FilterMapSpec` carry over one more element. */
  lemma FilterMapOrderStep<A, B>(s: seq<A>, f: A -> Option<B>)
    requires s != []
    requires var init := s[..|s| - 1];
      var r, idx := FilterMap(init, f), Sources(init, f);
      && |idx| == |r|
      && (forall k :: 0 <= k < |r| ==> 0 <= idx[k] < |init| && f(init[idx[k]]) == Some(r[k]))
      && (forall k, l :: 0 <= k < l < |idx| ==> idx[k] < idx[l])
      && (forall i :: 0 <= i < |init| && f(init[i]).Some? ==> i in idx)
    ensures var r, idx := FilterMap(s, f), Sources(s, f);
      && |idx| == |r|
      && (forall k :: 0 <= k < |r| ==> 0 <= idx[k] < |s| && f(s[idx[k]]) == Some(r[k]))
      && (forall k, l :: 0 <= k < l < |idx| ==> idx[k] < idx[l])
      && (forall i :: 0 <= i < |s| && f(s[i]).Some? ==> i in idx)
  {
    var init := s[..|s| - 1];
    var n := |s| - 1;
    var r0, idx0 := FilterMap(init, f), Sources(init, f);
    assert forall i :: 0 <= i < n ==> init[i] == s[i];
    if f(s[n]).Some? {
      assert FilterMap(s, f) == r0 + [f(s[n]).value];
      assert Sources(s, f) == idx0 + [n];
    } else {
      assert FilterMap(s, f) == r0 + [];
      assert Sources(s, f) == idx0 + [];
    }
  }

  /** `f` turns `a` into a pair for key `k`. */
  predicate Yields<A, K(==), V>(f: A -> Option<(K, V)>, a: A, k: K) {
    f(a).Some? && f(a).value.0 == k
  }

  lemma AppendPair<K, V>(m: map<K, V>, ps: seq<(K, V)>, p: (K, V))
    ensures Upserts(m, ps + [p]) == Upserts(m, ps)[p.0 := p.1]
  {
    assert (ps + [p])[..|ps|] == ps;
  }

  /** One more turn of a loop that sets `k` to `v` for each element that
      yields a pair `(k, v)`. */
  lemma UpsertsFilterMapSnoc<A, K, V>(m: map<K, V>, s: seq<A>, i: int, f: A -> Option<(K, V)>)
    requires 0 <= i < |s|
    ensures Upserts(m, FilterMap(s[..i + 1], f))
            == if f(s[i]).Some? then Upserts(m, FilterMap(s[..i], f))[f(s[i]).value.0 := f(s[i]).value.1]
               else Upserts(m, FilterMap(s[..i], f))
  {
    FilterMapSnoc(s, i, f);
    if f(s[i]).Some? {
      AppendPair(m, FilterMap(s[..i], f), f(s[i]).value);
    }
  }

  /** A loop that visits `s` in order and sets `k` to `v` for each element
      that yields a pair `(k, v)` leaves a key that no element yields as it
      was. */
  lemma {:induction false} UpsertsFilterMapUntouched<A, K, V>(m: map<K, V>, s: seq<A>, f: A -> Option<(K, V)>, k: K)
    requires forall i :: 0 <= i < |s| ==> !Yields(f, s[i], k)
    ensures k in Upserts(m, FilterMap(s, f)) <==> k in m
    ensures k in m ==> Upserts(m, FilterMap(s, f))[k] == m[k]
  {
    if s != [] {
      var init := s[..|s| - 1];
      assert forall i :: 0 <= i < |init| ==> init[i] == s[i];
      UpsertsFilterMapUntouched(m, init, f, k);
      var last := s[|s| - 1];
      assert !Yields(f, last, k);
      if f(last).Some? {
        assert FilterMap(s, f) == FilterMap(init, f) + [f(last).value];
        AppendPair(m, FilterMap(init, f), f(last).value);
      } else {
        assert FilterMap(s, f) == FilterMap(init, f) + [];
        assert FilterMap(s, f) == FilterMap(init, f);
      }
    }
  }

  /** ... and gives a key the value of the last element that yields it. */
  lemma {:induction false} UpsertsFilterMapLast<A, K, V>(m: map<K, V>, s: seq<A>, f: A -> Option<(K, V)>, k: K, i: int)
    requires 0 <= i < |s| && Yields(f, s[i], k)
    requires forall j :: i < j < |s| ==> !Yields(f, s[j], k)
    ensures k in Upserts(m, FilterMap(s, f)) && Upserts(m, FilterMap(s, f))[k] == f(s[i]).value.1
  {
    var init := s[..|s| - 1];
    var last := s[|s| - 1];
    if f(last).Some? {
      assert FilterMap(s, f) == FilterMap(init, f) + [f(last).value];
      AppendPair(m, FilterMap(init, f), f(last).value);
    } else {
      assert FilterMap(s, f) == FilterMap(init, f) + [];
      assert FilterMap(s, f) == FilterMap(init, f);
    }
    if i < |s| - 1 {
      assert !Yields(f, last, k);
      assert forall j :: i < j < |init| ==> init[j] == s[j];
      UpsertsFilterMapLast(m, init, f, k, i);
    }
  }
}
