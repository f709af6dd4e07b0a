/**
 * PHP arrays with string keys, as the theme registry uses them: an ordered list of key/value
 * pairs. Writing an existing key replaces its value where it stands, writing a new key
 * appends it, and `unset` drops the key and keeps the order of the rest.
 */
module PhpArrays {
  import opened Wrappers

  type PhpArray<V> = seq<(string, V)>

  function KeysOf<V>(a: PhpArray<V>): (r: seq<string>)
    ensures |r| == |a| && forall i :: 0 <= i < |a| ==> r[i] == a[i].0
    decreases |a|
  {
    if |a| == 0 then [] else KeysOf(a[..|a| - 1]) + [a[|a| - 1].0]
  }

  predicate DistinctKeys<V>(a: PhpArray<V>) {
    forall i, j :: 0 <= i < j < |a| ==> a[i].0 != a[j].0
  }

  predicate HasKey<V>(a: PhpArray<V>, k: string) {
    exists i :: 0 <= i < |a| && a[i].0 == k
  }

  /** `$a[$k] ?? null`. */
  function Lookup<V>(a: PhpArray<V>, k: string): Option<V>
    decreases |a|
  {
    if |a| == 0 then None else if a[0].0 == k then Some(a[0].1) else Lookup(a[1..], k)
  }

  /** `$a[$k] = $v`. */
  function Put<V>(a: PhpArray<V>, k: string, v: V): PhpArray<V>
    decreases |a|
  {
    if |a| == 0 then [(k, v)]
    else if a[0].0 == k then [(k, v)] + a[1..]
    else [a[0]] + Put(a[1..], k, v)
  }

  /** `unset($a[$k])`. */
  function Unset<V>(a: PhpArray<V>, k: string): PhpArray<V>
    decreases |a|
  {
    if |a| == 0 then [] else (if a[0].0 == k then [] else [a[0]]) + Unset(a[1..], k)
  }

  /** A lookup finds exactly the keys present, and in an array with distinct keys, their values. */
  lemma {:induction false} LookupFinds<V>(a: PhpArray<V>, k: string)
    ensures Lookup(a, k).Some? <==> HasKey(a, k)
    ensures DistinctKeys(a) ==> forall i :: 0 <= i < |a| && a[i].0 == k ==> Lookup(a, k) == Some(a[i].1)
    decreases |a|
  {
    if |a| > 0 {
      LookupFinds(a[1..], k);
      if HasKey(a, k) && a[0].0 != k {
        var i :| 0 <= i < |a| && a[i].0 == k;
        assert a[1..][i - 1].0 == k;
      }
      if HasKey(a[1..], k) {
        var i :| 0 <= i < |a[1..]| && a[1..][i].0 == k;
        assert a[i + 1].0 == k;
      }
      if DistinctKeys(a) {
        assert DistinctKeys(a[1..]) by {
          forall i, j | 0 <= i < j < |a[1..]| ensures a[1..][i].0 != a[1..][j].0 {
            assert a[1..][i] == a[i + 1] && a[1..][j] == a[j + 1];
          }
        }
        forall i | 0 <= i < |a| && a[i].0 == k ensures Lookup(a, k) == Some(a[i].1) {
          if i > 0 {
            assert a[1..][i - 1] == a[i];
          }
        }
      }
    }
  }

  /** Writing a key changes the lookup of that key only. */
  lemma {:induction false} PutLookup<V>(a: PhpArray<V>, k: string, v: V, j: string)
    ensures Lookup(Put(a, k, v), j) == if j == k then Some(v) else Lookup(a, j)
    decreases |a|
  {
    if |a| > 0 && a[0].0 != k {
      PutLookup(a[1..], k, v, j);
      assert Put(a, k, v)[1..] == Put(a[1..], k, v);
    }
  }

  /** Writing a key that first occurs at `i` replaces that entry and nothing else. */
  lemma {:induction false} PutAt<V>(a: PhpArray<V>, k: string, v: V, i: nat)
    requires i < |a| && a[i].0 == k && forall j :: 0 <= j < i ==> a[j].0 != k
    ensures Put(a, k, v) == a[..i] + [(k, v)] + a[i + 1..]
    decreases i
  {
    if i > 0 {
      PutAt(a[1..], k, v, i - 1);
      assert a[1..][..i - 1] == a[1..i];
      assert a[1..][i..] == a[i + 1..];
      assert a[..i] == [a[0]] + a[1..i];
    }
  }

  /** Writing a new key appends it. */
  lemma {:induction false} PutNew<V>(a: PhpArray<V>, k: string, v: V)
    requires !HasKey(a, k)
    ensures Put(a, k, v) == a + [(k, v)]
    decreases |a|
  {
    if |a| > 0 {
      assert !HasKey(a[1..], k) by {
        forall i | 0 <= i < |a[1..]| ensures a[1..][i].0 != k {
          assert a[1..][i] == a[i + 1];
        }
      }
      PutNew(a[1..], k, v);
      assert a == [a[0]] + a[1..];
    }
  }

  /**
   * Overwriting an existing key keeps its place and every other entry; a new key goes at
   * the end. Keys stay distinct.
   */
  lemma {:induction false} PutInPlace<V>(a: PhpArray<V>, k: string, v: V)
    requires DistinctKeys(a)
    ensures var r := Put(a, k, v);
      (HasKey(a, k) ==> |r| == |a| && forall i :: 0 <= i < |a| ==> r[i] == if a[i].0 == k then (k, v) else a[i])
      && (!HasKey(a, k) ==> r == a + [(k, v)])
      && DistinctKeys(r)
  {
    var r := Put(a, k, v);
    if HasKey(a, k) {
      var i :| 0 <= i < |a| && a[i].0 == k;
      PutAt(a, k, v, i);
      assert |r| == |a|;
      forall j | 0 <= j < |a|
        ensures r[j] == if a[j].0 == k then (k, v) else a[j]
        ensures r[j].0 == a[j].0
      {
        if j < i {
          assert r[j] == a[..i][j];
        } else if j > i {
          assert r[j] == a[i + 1..][j - i - 1];
        }
      }
    } else {
      PutNew(a, k, v);
      forall i, j | 0 <= i < j < |r|
        ensures r[i].0 != r[j].0
      {
        assert r[i] == a[i];
      }
    }
  }

  /** `unset` removes the key, changes no other lookup, and keeps keys distinct. */
  lemma {:induction false} UnsetFacts<V>(a: PhpArray<V>, k: string)
    ensures var r := Unset(a, k);
      !HasKey(r, k)
      && (forall j :: j != k ==> Lookup(r, j) == Lookup(a, j))
      && (!HasKey(a, k) ==> r == a)
      && (DistinctKeys(a) ==> DistinctKeys(r))
      && (forall p :: p in r ==> p in a)
  {
    var r := Unset(a, k);
    UnsetMembers(a, k);
    forall i | 0 <= i < |r|
      ensures r[i].0 != k
    {
      assert r[i] in r;
    }
    forall j | j != k
      ensures Lookup(r, j) == Lookup(a, j)
    {
      UnsetLookup(a, k, j);
    }
    if !HasKey(a, k) {
      UnsetAbsent(a, k);
    }
    if DistinctKeys(a) {
      UnsetDistinct(a, k);
    }
  }

  /** What `unset` keeps are entries of the array under other keys. */
  lemma {:induction false} UnsetMembers<V>(a: PhpArray<V>, k: string)
    ensures forall p {:trigger p in Unset(a, k)} :: p in Unset(a, k) ==> p in a && p.0 != k
    decreases |a|
  {
    if |a| > 0 {
      UnsetMembers(a[1..], k);
      assert a == [a[0]] + a[1..];
    }
  }

  /** `unset` changes no lookup of another key. */
  lemma {:induction false} UnsetLookup<V>(a: PhpArray<V>, k: string, j: string)
    requires j != k
    ensures Lookup(Unset(a, k), j) == Lookup(a, j)
    decreases |a|
  {
    if |a| > 0 {
      var rt := Unset(a[1..], k);
      UnsetLookup(a[1..], k, j);
      if a[0].0 != k {
        assert Unset(a, k) == [a[0]] + rt;
        assert ([a[0]] + rt)[1..] == rt;
      } else {
        assert Unset(a, k) == rt;
      }
    }
  }

  /** `unset` of an absent key changes nothing. */
  lemma {:induction false} UnsetAbsent<V>(a: PhpArray<V>, k: string)
    requires !HasKey(a, k)
    ensures Unset(a, k) == a
    decreases |a|
  {
    if |a| > 0 {
      var t := a[1..];
      assert !HasKey(t, k) by {
        forall i | 0 <= i < |t| ensures t[i].0 != k {
          assert t[i] == a[i + 1];
        }
      }
      UnsetAbsent(t, k);
      assert a[0].0 != k;
      assert a == [a[0]] + t;
    }
  }

  /** `unset` keeps keys distinct. */
  lemma {:induction false} UnsetDistinct<V>(a: PhpArray<V>, k: string)
    requires DistinctKeys(a)
    ensures DistinctKeys(Unset(a, k))
    decreases |a|
  {
    if |a| > 0 {
      var t := a[1..];
      assert DistinctKeys(t) by {
        forall i, j | 0 <= i < j < |t| ensures t[i].0 != t[j].0 {
          assert t[i] == a[i + 1] && t[j] == a[j + 1];
        }
      }
      UnsetDistinct(t, k);
      var rt := Unset(t, k);
      if a[0].0 != k {
        var r := Unset(a, k);
        assert r == [a[0]] + rt;
        UnsetMembers(t, k);
        forall i, j | 0 <= i < j < |r| ensures r[i].0 != r[j].0 {
          assert r[j] == rt[j - 1] && rt[j - 1] in rt && rt[j - 1] in t;
          if i == 0 {
            var m :| 0 <= m < |t| && t[m] == rt[j - 1];
            assert t[m] == a[m + 1];
          } else {
            assert r[i] == rt[i - 1];
          }
        }
      }
    }
  }

  /** `unset` keeps the order of what remains: it works piece by piece. */
  lemma {:induction false} UnsetAppend<V>(a: PhpArray<V>, b: PhpArray<V>, k: string)
    ensures Unset(a + b, k) == Unset(a, k) + Unset(b, k)
    decreases |a|
  {
    if |a| == 0 {
      assert a + b == b;
    } else {
      assert (a + b)[1..] == a[1..] + b;
      UnsetAppend(a[1..], b, k);
    }
  }
}
