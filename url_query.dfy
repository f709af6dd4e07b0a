/** The query ordering of `URL::setQuery` (`ksort`), as a specification and its proofs. */
module UrlQueries {
  import opened Strings

  type Query = seq<(string, string)>

  /** Keys in strictly ascending byte order. */
  predicate SortedByKey(q: Query) {
    forall i, j :: 0 <= i < j < |q| ==> Less(q[i].0, q[j].0)
  }

  /** No key occurs twice, as in any PHP array. */
  predicate DistinctKeys(q: Query) {
    forall i, j :: 0 <= i < j < |q| ==> q[i].0 != q[j].0
  }

  /** Insert `e` before the first entry whose key is greater. */
  function Insert(q: Query, e: (string, string)): (r: Query)
    ensures |r| == |q| + 1
    ensures multiset(r) == multiset(q) + multiset{e}
    decreases |q|
  {
    if |q| == 0 then [e]
    else if Less(e.0, q[0].0) then [e] + q
    else
      assert q == [q[0]] + q[1..];
      [q[0]] + Insert(q[1..], e)
  }

  /** `ksort`: the entries ordered by key, inserting them one by one from the left. */
  function KSort(q: Query): (r: Query)
    ensures multiset(r) == multiset(q)
    decreases |q|
  {
    if |q| == 0 then []
    else
      assert q == q[..|q| - 1] + [q[|q| - 1]];
      Insert(KSort(q[..|q| - 1]), q[|q| - 1])
  }

  /** Inserting an entry above a bound into entries above it keeps every key above it. */
  lemma {:induction false} InsertKeysAbove(q: Query, e: (string, string), lo: string)
    requires forall i :: 0 <= i < |q| ==> Less(lo, q[i].0)
    requires Less(lo, e.0)
    ensures forall k :: 0 <= k < |Insert(q, e)| ==> Less(lo, Insert(q, e)[k].0)
  {
    var r := Insert(q, e);
    forall k | 0 <= k < |r|
      ensures Less(lo, r[k].0)
    {
      assert r[k] in multiset(r);
      if r[k] != e {
        assert r[k] in multiset(q);
        var m :| 0 <= m < |q| && q[m] == r[k];
      }
    }
  }

  /** An entry whose key is below every key of a sorted list can go in front of it. */
  lemma {:induction false} ConsSorted(x: (string, string), r: Query)
    requires SortedByKey(r)
    requires forall k :: 0 <= k < |r| ==> Less(x.0, r[k].0)
    ensures SortedByKey([x] + r)
  {
    var out := [x] + r;
    forall i, j | 0 <= i < j < |out|
      ensures Less(out[i].0, out[j].0)
    {
      if i == 0 {
        assert out[j] == r[j - 1];
      } else {
        assert out[i] == r[i - 1] && out[j] == r[j - 1];
      }
    }
  }

  lemma {:induction false} InsertSorted(q: Query, e: (string, string))
    requires SortedByKey(q)
    requires forall i :: 0 <= i < |q| ==> q[i].0 != e.0
    ensures SortedByKey(Insert(q, e))
    decreases |q|
  {
    if |q| == 0 {
    } else if Less(e.0, q[0].0) {
      forall j | 0 <= j < |q|
        ensures Less(e.0, q[j].0)
      {
        if j > 0 {
          LessTransitive(e.0, q[0].0, q[j].0);
        }
      }
      ConsSorted(e, q);
    } else {
      LessTotal(e.0, q[0].0);
      var tail := q[1..];
      assert SortedByKey(tail);
      assert forall i :: 0 <= i < |tail| ==> Less(q[0].0, tail[i].0) && tail[i].0 != e.0;
      InsertSorted(tail, e);
      InsertKeysAbove(tail, e, q[0].0);
      ConsSorted(q[0], Insert(tail, e));
    }
  }

  /** `ksort` of an array with distinct keys orders them strictly. */
  lemma {:induction false} KSortSorted(q: Query)
    requires DistinctKeys(q)
    ensures SortedByKey(KSort(q))
    decreases |q|
  {
    if |q| > 0 {
      var init := q[..|q| - 1];
      KSortSorted(init);
      var s := KSort(init);
      forall i | 0 <= i < |s|
        ensures s[i].0 != q[|q| - 1].0
      {
        assert s[i] in multiset(s);
        assert s[i] in init;
      }
      InsertSorted(s, q[|q| - 1]);
    }
  }

  /** Two orderings of the same entries start with the same entry. */
  lemma {:induction false} SortedHeads(a: Query, b: Query)
    requires SortedByKey(a) && SortedByKey(b)
    requires multiset(a) == multiset(b) && |a| > 0
    ensures |b| == |a| && a[0] == b[0]
  {
    assert |b| == |multiset(b)| == |a|;
    assert a[0] in multiset(b);
    assert b[0] in multiset(a);
    if a[0] != b[0] {
      var i :| 0 <= i < |b| && b[i] == a[0];
      var j :| 0 <= j < |a| && a[j] == b[0];
      assert i > 0 && j > 0;
      assert Less(b[0].0, a[0].0);
      assert Less(a[0].0, b[0].0);
      LessTransitive(a[0].0, b[0].0, a[0].0);
      LessIrreflexive(a[0].0);
    }
  }

  lemma {:induction false} TailMultiset(a: Query)
    requires |a| > 0
    ensures multiset(a[1..]) == multiset(a) - multiset{a[0]}
    ensures a == [a[0]] + a[1..]
  {
    assert a == [a[0]] + a[1..];
  }

  /** Two orderings of the same distinct-keyed entries are the same sequence. */
  lemma {:induction false} SortedUnique(a: Query, b: Query)
    requires SortedByKey(a) && SortedByKey(b)
    requires multiset(a) == multiset(b)
    ensures a == b
    decreases |a|
  {
    if |a| > 0 {
      SortedHeads(a, b);
      TailMultiset(a);
      TailMultiset(b);
      SortedUnique(a[1..], b[1..]);
    } else {
      assert |b| == |multiset(b)| == 0;
    }
  }
}
