/** `sorted(paths, key=natural_sort_key)` as used by modules/file_handler.py.

    Python's sort is stable: paths whose keys are equal ("A.png" and
    "a.png", "x01.png" and "x1.png") keep their input order. The model is an
    insertion sort; `SortByCharacterized` shows it is the only sorted,
    order-preserving arrangement, so it agrees with any stable sort. */
module StableSort {
  import opened Text
  import opened NaturalKey
  import opened KeyOrder

  /** Non-decreasing by natural key. */
  predicate Sorted<T>(key: T -> seq<Seg>, s: seq<T>) {
    forall i, j :: 0 <= i < j < |s| ==> KeyLe(key(s[i]), key(s[j]))
  }

  /** The elements of `s` whose key is `k`, in their order in `s`. */
  function WithKey<T>(key: T -> seq<Seg>, s: seq<T>, k: seq<Seg>): seq<T> {
    if |s| == 0 then [] else (if key(s[0]) == k then [s[0]] else []) + WithKey(key, s[1..], k)
  }

  /** Places `x` in front of the first element whose key is not smaller. */
  function Insert<T(==)>(key: T -> seq<Seg>, x: T, s: seq<T>): (r: seq<T>)
    ensures multiset(r) == multiset(s) + multiset{x}
  {
    if |s| == 0 then [x]
    else if KeyLe(key(x), key(s[0])) then [x] + s
    else
      assert s == [s[0]] + s[1..];
      [s[0]] + Insert(key, x, s[1..])
  }

  function SortBy<T(==)>(key: T -> seq<Seg>, s: seq<T>): (r: seq<T>)
    ensures multiset(r) == multiset(s)
    ensures |r| == |s|
  {
    if |s| == 0 then []
    else
      assert s == [s[0]] + s[1..];
      Insert(key, s[0], SortBy(key, s[1..]))
  }

  // ---------------------------------------------------------------------------
  // WithKey

  lemma {:induction false} WithKeyAppend<T>(key: T -> seq<Seg>, a: seq<T>, b: seq<T>, k: seq<Seg>)
    ensures WithKey(key, a + b, k) == WithKey(key, a, k) + WithKey(key, b, k)
  {
    if |a| == 0 {
      assert a + b == b;
    } else {
      var h := if key(a[0]) == k then [a[0]] else [];
      assert (a + b)[0] == a[0];
      assert (a + b)[1..] == a[1..] + b;
      assert WithKey(key, a + b, k) == h + WithKey(key, a[1..] + b, k);
      WithKeyAppend(key, a[1..], b, k);
      assert WithKey(key, a, k) == h + WithKey(key, a[1..], k);
    }
  }

  lemma {:induction false} WithKeyMembers<T>(key: T -> seq<Seg>, s: seq<T>, k: seq<Seg>)
    ensures forall e :: e in WithKey(key, s, k) <==> e in s && key(e) == k
  {
    if |s| > 0 {
      WithKeyMembers(key, s[1..], k);
      assert s == [s[0]] + s[1..];
    }
  }

  // ---------------------------------------------------------------------------
  // Insertion

  lemma {:induction false} InsertSorted<T>(key: T -> seq<Seg>, x: T, s: seq<T>)
    requires Sorted(key, s)
    ensures Sorted(key, Insert(key, x, s))
  {
    var r := Insert(key, x, s);
    if |s| == 0 {
    } else if KeyLe(key(x), key(s[0])) {
      forall i, j | 0 <= i < j < |r|
        ensures KeyLe(key(r[i]), key(r[j]))
      {
        if i == 0 {
          assert r[j] == s[j - 1];
          if j - 1 > 0 {
            KeyLeTransitive(key(x), key(s[0]), key(s[j - 1]));
          }
        } else {
          assert r[i] == s[i - 1] && r[j] == s[j - 1];
        }
      }
    } else {
      var tail := Insert(key, x, s[1..]);
      InsertSorted(key, x, s[1..]);
      KeyNotLe(key(x), key(s[0]));
      assert r == [s[0]] + tail;
      forall i, j | 0 <= i < j < |r|
        ensures KeyLe(key(r[i]), key(r[j]))
      {
        if i == 0 {
          var e := r[j];
          assert e == tail[j - 1];
          assert e in multiset(tail);
          if e != x {
            assert e in multiset(s[1..]);
            assert e in s[1..];
            var m :| 0 <= m < |s[1..]| && s[1..][m] == e;
            assert s[m + 1] == e;
          }
        } else {
          assert r[i] == tail[i - 1] && r[j] == tail[j - 1];
        }
      }
    }
  }

  lemma WithKeyCons<T>(key: T -> seq<Seg>, x: T, s: seq<T>, k: seq<Seg>)
    ensures WithKey(key, [x] + s, k) == (if key(x) == k then [x] else []) + WithKey(key, s, k)
  {
    var t := [x] + s;
    assert t[0] == x && t[1..] == s;
  }

  /** Putting an element of another key in front of both sides keeps the
      per-key relation between them. */
  lemma SwapHeads<T>(key: T -> seq<Seg>, x: T, h: T, a: seq<T>, b: seq<T>, k: seq<Seg>)
    requires key(x) != key(h)
    requires WithKey(key, a, k) == (if key(x) == k then [x] else []) + WithKey(key, b, k)
    ensures WithKey(key, [h] + a, k) == (if key(x) == k then [x] else []) + WithKey(key, [h] + b, k)
  {
    WithKeyCons(key, h, a, k);
    WithKeyCons(key, h, b, k);
    var w := WithKey(key, b, k);
    if key(x) == k {
      assert WithKey(key, [h] + a, k) == [] + ([x] + w);
      assert WithKey(key, [h] + b, k) == [] + w;
    } else if key(h) == k {
      assert WithKey(key, [h] + a, k) == [h] + ([] + w);
      assert WithKey(key, [h] + b, k) == [h] + w;
    } else {
      assert WithKey(key, [h] + a, k) == [] + ([] + w);
    }
  }

  /** Inserting `x` puts it ahead of every element with the same key and
      moves nothing else. */
  lemma {:induction false} InsertWithKey<T>(key: T -> seq<Seg>, x: T, s: seq<T>, k: seq<Seg>)
    ensures WithKey(key, Insert(key, x, s), k) == (if key(x) == k then [x] else []) + WithKey(key, s, k)
  {
    if |s| == 0 {
      WithKeyCons(key, x, s, k);
      assert [x] + s == [x];
    } else if KeyLe(key(x), key(s[0])) {
      WithKeyCons(key, x, s, k);
    } else {
      var h, tail := s[0], s[1..];
      InsertWithKey(key, x, tail, k);
      assert key(x) != key(h);
      SwapHeads(key, x, h, Insert(key, x, tail), tail, k);
      assert s == [h] + tail;
    }
  }

  // ---------------------------------------------------------------------------
  // Sorting

  /** The output is ordered by key, contains exactly the input (as a
      multiset), and keeps equal-key elements in input order. */
  lemma {:induction false} SortByCorrect<T>(key: T -> seq<Seg>, s: seq<T>)
    ensures Sorted(key, SortBy(key, s))
    ensures multiset(SortBy(key, s)) == multiset(s)
    ensures forall k :: WithKey(key, SortBy(key, s), k) == WithKey(key, s, k)
  {
    if |s| > 0 {
      SortByCorrect(key, s[1..]);
      InsertSorted(key, s[0], SortBy(key, s[1..]));
      forall k
        ensures WithKey(key, SortBy(key, s), k) == WithKey(key, s, k)
      {
        InsertWithKey(key, s[0], SortBy(key, s[1..]), k);
      }
    }
  }

  lemma SortedTail<T>(key: T -> seq<Seg>, s: seq<T>)
    requires Sorted(key, s) && |s| > 0
    ensures Sorted(key, s[1..])
  {
    forall i, j | 0 <= i < j < |s[1..]|
      ensures KeyLe(key(s[1..][i]), key(s[1..][j]))
    {
      assert s[1..][i] == s[i + 1] && s[1..][j] == s[j + 1];
    }
  }

  /** The first element of a sorted sequence has the least key of any element. */
  lemma SortedHeadLeast<T>(key: T -> seq<Seg>, s: seq<T>, e: T)
    requires Sorted(key, s) && e in s
    ensures KeyLe(key(s[0]), key(e))
  {
    var m :| 0 <= m < |s| && s[m] == e;
    if m > 0 {
      assert KeyLe(key(s[0]), key(s[m]));
    }
  }

  /** Two sorted sequences that agree on every key's elements, in order, are equal. */
  lemma {:induction false} SortedUnique<T>(key: T -> seq<Seg>, a: seq<T>, b: seq<T>)
    requires Sorted(key, a) && Sorted(key, b)
    requires forall k :: WithKey(key, a, k) == WithKey(key, b, k)
    ensures a == b
    decreases |a|
  {
    if |a| == 0 && |b| == 0 {
      return;
    }
    if |a| == 0 || |b| == 0 {
      var e := if |a| > 0 then a[0] else b[0];
      WithKeyMembers(key, a, key(e));
      WithKeyMembers(key, b, key(e));
      assert false;
    }
    var k0 := key(a[0]);
    var k1 := key(b[0]);
    WithKeyMembers(key, a, k1);
    WithKeyMembers(key, b, k1);
    WithKeyMembers(key, a, k0);
    WithKeyMembers(key, b, k0);
    assert WithKey(key, a, k1) == WithKey(key, b, k1);
    assert WithKey(key, a, k0) == WithKey(key, b, k0);
    assert b[0] in WithKey(key, b, k1);
    SortedHeadLeast(key, a, b[0]);
    assert a[0] in WithKey(key, a, k0);
    SortedHeadLeast(key, b, a[0]);
    KeyLeAntisymmetric(k0, k1);
    assert WithKey(key, a, k0) == [a[0]] + WithKey(key, a[1..], k0);
    assert WithKey(key, b, k0) == [b[0]] + WithKey(key, b[1..], k0);
    assert WithKey(key, a, k0)[0] == a[0] && WithKey(key, b, k0)[0] == b[0];
    assert a[0] == b[0];
    SortedTail(key, a);
    SortedTail(key, b);
    forall k
      ensures WithKey(key, a[1..], k) == WithKey(key, b[1..], k)
    {
      var h := if key(a[0]) == k then [a[0]] else [];
      assert WithKey(key, a, k) == h + WithKey(key, a[1..], k);
      assert WithKey(key, b, k) == h + WithKey(key, b[1..], k);
      assert (h + WithKey(key, a[1..], k))[|h|..] == WithKey(key, a[1..], k);
      assert (h + WithKey(key, b[1..], k))[|h|..] == WithKey(key, b[1..], k);
    }
    SortedUnique(key, a[1..], b[1..]);
    assert a == [a[0]] + a[1..] && b == [b[0]] + b[1..];
  }

  /** `r` is the stable natural sort of `s` exactly when `r` is ordered by key
      and lists every key's elements in the same order as `s`. */
  lemma SortByCharacterized<T>(key: T -> seq<Seg>, s: seq<T>, r: seq<T>)
    ensures r == SortBy(key, s) ==> Sorted(key, r) && forall k :: WithKey(key, r, k) == WithKey(key, s, k)
    ensures (Sorted(key, r) && forall k :: WithKey(key, r, k) == WithKey(key, s, k)) ==> r == SortBy(key, s)
  {
    SortByCorrect(key, s);
    var sorted := SortBy(key, s);
    if Sorted(key, r) && forall k :: WithKey(key, r, k) == WithKey(key, s, k) {
      forall k
        ensures WithKey(key, r, k) == WithKey(key, sorted, k)
      {
        assert WithKey(key, r, k) == WithKey(key, s, k);
      }
      SortedUnique(key, r, sorted);
    }
  }

  /** Key-equal inputs keep their order: "B.png" given before "b.png" stays
      before it, although the keys are equal. */
  lemma StableOnEqualKeys()
    ensures SortBy(Key, ["B.png", "b.png"]) == ["B.png", "b.png"]
  {
    KeyIgnoresCase("B.png");
    assert Lower("B.png") == "b.png";
    assert Key("B.png") == Key("b.png");
  }
}
